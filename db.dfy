/**
 * The two tables of the carpool backend, `users` and `carpools`, the
 * `passenger` association table between them, the constructors that fill in
 * a new row's fields, and the dictionaries the rows serialize to.
 *
 * A table is a sequence of rows in insertion order; a row's `id` is its
 * position plus one (SQLite's integer primary key, and nothing in the
 * backend deletes rows). The passenger association is held once, as the
 * list of user ids on each carpool; the user side (`joined_carpools`) and
 * the driver side (`hosted_carpools`) are derived queries over that state.
 */
module Db {
  import opened Wrappers
  import opened Json
  import Query

  datatype User = User(id: nat, name: string, email: string, username: string, password: string)

  datatype Carpool = Carpool(
    id: nat,
    departureLocation: string,
    destination: string,
    departureTime: int,
    meetingPoint: string,
    totalSeats: int,
    driverId: nat,
    passengers: seq<nat>)

  /** The attributes of a new `User` object before it is written; an attribute never assigned reads as None. */
  datatype UserFields = UserFields(name: Json, email: Json, username: Json, password: Json)

  /** The attributes of a new `Carpool` object before it is written. */
  datatype CarpoolFields = CarpoolFields(
    departureLocation: Json,
    destination: Json,
    departureTime: Json,
    meetingPoint: Json,
    totalSeats: Json,
    driverId: Json)

  /** `User.__init__` as written: only `name` and `email` are assigned. */
  function UserInitAsWritten(kwargs: Object): (r: UserFields)
    ensures r.username == JNull && r.password == JNull
  {
    UserFields(GetOr(kwargs, "name", JStr("")), GetOr(kwargs, "email", JStr("")), JNull, JNull)
  }

  const UserColumns: set<string> := {"name", "email", "username", "password"}

  /**
   * `User.__init__` as evidently intended: all four columns, each defaulting
   * to "", so string arguments give four string attributes.
   */
  function UserInit(kwargs: Object): (r: UserFields)
    ensures (forall k :: k in kwargs && k in UserColumns ==> kwargs[k].JStr?) ==>
      r.name.JStr? && r.email.JStr? && r.username.JStr? && r.password.JStr?
  {
    UserFields(
      GetOr(kwargs, "name", JStr("")),
      GetOr(kwargs, "email", JStr("")),
      GetOr(kwargs, "username", JStr("")),
      GetOr(kwargs, "password", JStr("")))
  }

  /** `Carpool.__init__`: string columns default to "", the integer columns to 0, `driver_id` to None. */
  function CarpoolInit(kwargs: Object): (r: CarpoolFields) {
    CarpoolFields(
      GetOr(kwargs, "departure_location", JStr("")),
      GetOr(kwargs, "destination", JStr("")),
      GetOr(kwargs, "departure_time", JInt(0)),
      GetOr(kwargs, "meeting_point", JStr("")),
      GetOr(kwargs, "total_seats", JInt(0)),
      Get(kwargs, "driver_id"))
  }

  // ---------------------------------------------------------------------
  // What the SQLite driver can bind

  const Int64Min: int := -0x8000_0000_0000_0000
  const Int64Max: int := 0x7fff_ffff_ffff_ffff

  /** SQLite integers are signed 64-bit; the driver refuses a larger Python int. */
  predicate FitsInt64(i: int) {
    Int64Min <= i <= Int64Max
  }

  /**
   * A value the driver accepts as a statement parameter: an array or an
   * object has no SQL type, and an integer must fit in signed 64 bits.
   */
  predicate Bindable(v: Json) {
    match v
    case JInt(i) => FitsInt64(i)
    case JArr(_) => false
    case JObj(_) => false
    case _ => true
  }

  const CarpoolColumns: set<string> :=
    {"departure_location", "destination", "departure_time", "meeting_point", "total_seats", "driver_id"}

  /**
   * Writing a new user row with the given id: every column is a NOT NULL
   * string, so the write is refused unless all four attributes hold strings.
   */
  function StoredUser(id: nat, f: UserFields): (r: Option<User>)
    ensures r.Some? <==> f.name.JStr? && f.email.JStr? && f.username.JStr? && f.password.JStr?
    ensures r.Some? ==> r.value.id == id
    ensures r.Some? ==> f == UserFields(JStr(r.value.name), JStr(r.value.email), JStr(r.value.username), JStr(r.value.password))
  {
    if f.name.JStr? && f.email.JStr? && f.username.JStr? && f.password.JStr? then
      Some(User(id, f.name.s, f.email.s, f.username.s, f.password.s))
    else
      None
  }

  /**
   * Writing a new carpool row with the given id: string and integer columns
   * must hold values of their type, each integer within signed 64 bits, and
   * `driver_id` a user id; the new row has no passengers yet.
   */
  function StoredCarpool(id: nat, f: CarpoolFields): (r: Option<Carpool>)
    ensures r.Some? <==>
      && f.departureLocation.JStr? && f.destination.JStr? && f.meetingPoint.JStr?
      && f.departureTime.JInt? && FitsInt64(f.departureTime.i)
      && f.totalSeats.JInt? && FitsInt64(f.totalSeats.i)
      && f.driverId.JInt? && 0 <= f.driverId.i <= Int64Max
    ensures r.Some? ==> r.value.id == id && r.value.passengers == []
    ensures r.Some? ==> f == CarpoolFields(
      JStr(r.value.departureLocation), JStr(r.value.destination), JInt(r.value.departureTime),
      JStr(r.value.meetingPoint), JInt(r.value.totalSeats), JInt(r.value.driverId))
  {
    if && f.departureLocation.JStr? && f.destination.JStr? && f.meetingPoint.JStr?
       && f.departureTime.JInt? && Bindable(f.departureTime)
       && f.totalSeats.JInt? && Bindable(f.totalSeats)
       && f.driverId.JInt? && Bindable(f.driverId) && f.driverId.i >= 0
    then
      Some(Carpool(id, f.departureLocation.s, f.destination.s, f.departureTime.i,
                   f.meetingPoint.s, f.totalSeats.i, f.driverId.i, []))
    else
      None
  }

  // ---------------------------------------------------------------------
  // Constructor defaults

  /** With no keyword arguments, `User.__init__` sets name and email to "" and leaves the credentials unset. */
  lemma UserInitAsWrittenDefaults()
    ensures UserInitAsWritten(map[]) == UserFields(JStr(""), JStr(""), JNull, JNull)
  {
  }

  /** `User.__init__` as written ignores the username and password it is given. */
  lemma UserInitAsWrittenIgnoresCredentials(kwargs: Object)
    ensures UserInitAsWritten(kwargs) == UserInitAsWritten(kwargs - {"username", "password"})
  {
  }

  /** ... and so the row it builds can never be written, whatever the caller passes. */
  lemma UserInitAsWrittenNeverStored(kwargs: Object, id: nat)
    ensures StoredUser(id, UserInitAsWritten(kwargs)).None?
  {
  }

  /** The corrected constructor stores exactly the four strings it is given. */
  lemma UserInitStoresGivenStrings(id: nat, name: string, email: string, username: string, password: string)
    ensures StoredUser(id, UserInit(map["name" := JStr(name), "email" := JStr(email),
                                        "username" := JStr(username), "password" := JStr(password)]))
         == Some(User(id, name, email, username, password))
  {
  }

  /** Missing keyword arguments take the defaults of `Carpool.__init__`. */
  lemma CarpoolInitDefaults()
    ensures CarpoolInit(map[]) == CarpoolFields(JStr(""), JStr(""), JInt(0), JStr(""), JInt(0), JNull)
  {
  }

  /** `Carpool.__init__` takes every value it is given for its six columns, and reads no other key. */
  lemma CarpoolInitTakesGiven(kwargs: Object)
    requires CarpoolColumns <= kwargs.Keys
    ensures CarpoolInit(kwargs) == CarpoolFields(
      kwargs["departure_location"], kwargs["destination"], kwargs["departure_time"],
      kwargs["meeting_point"], kwargs["total_seats"], kwargs["driver_id"])
    ensures CarpoolInit(kwargs) == CarpoolInit(map k | k in kwargs && k in CarpoolColumns :: kwargs[k])
  {
  }

  // ---------------------------------------------------------------------
  // Derived seat count and serialization

  /** `available_seats`, as both serializers compute it; negative when the roster is over the ceiling. */
  function AvailableSeats(c: Carpool): (r: int) {
    c.totalSeats - |c.passengers|
  }

  /** `len(passengers) >= total_seats`: the join guard's notion of a full carpool. */
  predicate IsFull(c: Carpool) {
    |c.passengers| >= c.totalSeats
  }

  /** After a seat count that never exceeded the ceiling, no seat count is negative and zero means full. */
  lemma AvailableSeatsMeaning(c: Carpool)
    requires |c.passengers| <= c.totalSeats
    ensures AvailableSeats(c) >= 0
    ensures AvailableSeats(c) == 0 <==> IsFull(c)
  {
  }

  datatype UserSummary = UserSummary(id: nat, name: string, email: string, username: string, password: string)

  datatype UserPublic = UserPublic(id: nat, name: string, username: string)

  datatype UserView = UserView(
    id: nat, name: string, email: string, username: string, password: string,
    hostedCarpools: seq<CarpoolSummary>, joinedCarpools: seq<CarpoolSummary>)

  datatype CarpoolSummary = CarpoolSummary(
    id: nat, departureLocation: string, destination: string, departureTime: int,
    meetingPoint: string, totalSeats: int, availableSeats: int)

  datatype CarpoolView = CarpoolView(
    id: nat, departureLocation: string, destination: string, departureTime: int,
    meetingPoint: string, totalSeats: int, availableSeats: int,
    driver: UserSummary, passengers: seq<UserSummary>)

  /** `User.simple_serialize`. */
  function SimpleSerializeUser(u: User): (r: UserSummary) {
    UserSummary(u.id, u.name, u.email, u.username, u.password)
  }

  /** `User.safe_serialize`: id, name and username only. */
  function SafeSerializeUser(u: User): (r: UserPublic) {
    UserPublic(u.id, u.name, u.username)
  }

  /** The safe form does not depend on the email or the password at all. */
  lemma SafeSerializeHidesSecrets(u: User, email: string, password: string)
    ensures SafeSerializeUser(u) == SafeSerializeUser(u.(email := email, password := password))
    ensures SafeSerializeUser(u) == UserPublic(SimpleSerializeUser(u).id, SimpleSerializeUser(u).name,
                                               SimpleSerializeUser(u).username)
  {
  }

  /**
   * `Carpool.simple_serialize`: the reported seat count is `available_seats`,
   * at most zero exactly when the join guard sees the carpool as full, and
   * never negative while the roster is within the ceiling.
   */
  function SimpleSerializeCarpool(c: Carpool): (r: CarpoolSummary)
    ensures r.id == c.id && r.availableSeats == AvailableSeats(c)
    ensures r.availableSeats <= 0 <==> IsFull(c)
    ensures |c.passengers| <= c.totalSeats ==> r.availableSeats >= 0
  {
    CarpoolSummary(c.id, c.departureLocation, c.destination, c.departureTime,
                   c.meetingPoint, c.totalSeats, c.totalSeats - |c.passengers|)
  }

  function SummariesOf(cs: seq<Carpool>): (r: seq<CarpoolSummary>)
    ensures |r| == |cs|
    ensures forall i :: 0 <= i < |cs| ==> r[i] == SimpleSerializeCarpool(cs[i])
  {
    seq(|cs|, i requires 0 <= i < |cs| => SimpleSerializeCarpool(cs[i]))
  }

  /** The user with a given id; the table holds user `id` at position `id - 1`. */
  function UserAt(users: seq<User>, id: nat): (u: User)
    requires 1 <= id <= |users|
  {
    users[id - 1]
  }

  /** Every user a carpool refers to, as driver or passenger, is a row of a table of `n` users. */
  predicate RefsValid(n: nat, c: Carpool) {
    1 <= c.driverId <= n && forall i :: 0 <= i < |c.passengers| ==> 1 <= c.passengers[i] <= n
  }

  /**
   * `Carpool.serialize`: the driver and each passenger in simple form; on every
   * field the two carpool serializers share, including `available_seats`, it
   * agrees with `simple_serialize`. In a table whose ids are positions plus
   * one, the driver entry is the row of the carpool's driver and the passenger
   * entries are the rows of its passengers, in roster order.
   */
  function SerializeCarpool(users: seq<User>, c: Carpool): (r: CarpoolView)
    requires RefsValid(|users|, c)
    requires forall i :: 0 <= i < |users| ==> users[i].id == i + 1
    ensures SimpleSerializeCarpool(c) == CarpoolSummary(r.id, r.departureLocation, r.destination,
              r.departureTime, r.meetingPoint, r.totalSeats, r.availableSeats)
    ensures r.driver.id == c.driverId && r.driver == SimpleSerializeUser(users[c.driverId - 1])
    ensures |r.passengers| == |c.passengers|
    ensures forall i :: 0 <= i < |c.passengers| ==>
      r.passengers[i].id == c.passengers[i] && r.passengers[i] == SimpleSerializeUser(users[c.passengers[i] - 1])
  {
    CarpoolView(c.id, c.departureLocation, c.destination, c.departureTime, c.meetingPoint,
                c.totalSeats, c.totalSeats - |c.passengers|,
                SimpleSerializeUser(UserAt(users, c.driverId)),
                seq(|c.passengers|, i requires 0 <= i < |c.passengers| =>
                  SimpleSerializeUser(UserAt(users, c.passengers[i]))))
  }

  // ---------------------------------------------------------------------
  // The relationships, as queries over the carpool table

  /** `User.hosted_carpools`: the carpools whose `driver_id` is the user's id. */
  function HostedCarpools(carpools: seq<Carpool>, userId: nat): (r: seq<Carpool>)
    ensures forall c :: c in r <==> c in carpools && c.driverId == userId
  {
    var drivenBy := (c: Carpool) => c.driverId == userId;
    Query.WhereMembershipAll(carpools, drivenBy);
    Query.Where(carpools, drivenBy)
  }

  /**
   * `User.joined_carpools`: the carpools whose passenger list holds the user;
   * `passengers` and `joined_carpools` are two views of one relation.
   */
  function JoinedCarpools(carpools: seq<Carpool>, userId: nat): (r: seq<Carpool>)
    ensures forall c :: c in r <==> c in carpools && userId in c.passengers
  {
    var carrying := (c: Carpool) => userId in c.passengers;
    Query.WhereMembershipAll(carpools, carrying);
    Query.Where(carpools, carrying)
  }

  /** A carpool is in the hosted list of exactly one user of the table: its driver. */
  lemma HostedByExactlyItsDriver(users: seq<User>, carpools: seq<Carpool>, k: nat)
    requires forall i :: 0 <= i < |users| ==> users[i].id == i + 1
    requires k < |carpools| && 1 <= carpools[k].driverId <= |users|
    ensures forall i :: 0 <= i < |users| ==>
      (carpools[k] in HostedCarpools(carpools, users[i].id) <==> i == carpools[k].driverId - 1)
  {
  }

  /**
   * `User.serialize`: the columns, then the hosted and joined carpools in
   * simple form; agrees with `simple_serialize` on the columns.
   */
  function SerializeUser(carpools: seq<Carpool>, u: User): (r: UserView)
    ensures SimpleSerializeUser(u) == UserSummary(r.id, r.name, r.email, r.username, r.password)
    ensures |r.hostedCarpools| == |HostedCarpools(carpools, u.id)|
    ensures forall i :: 0 <= i < |r.hostedCarpools| ==>
      r.hostedCarpools[i] == SimpleSerializeCarpool(HostedCarpools(carpools, u.id)[i])
    ensures |r.joinedCarpools| == |JoinedCarpools(carpools, u.id)|
    ensures forall i :: 0 <= i < |r.joinedCarpools| ==>
      r.joinedCarpools[i] == SimpleSerializeCarpool(JoinedCarpools(carpools, u.id)[i])
  {
    UserView(u.id, u.name, u.email, u.username, u.password,
             SummariesOf(HostedCarpools(carpools, u.id)),
             SummariesOf(JoinedCarpools(carpools, u.id)))
  }
}
