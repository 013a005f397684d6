/**
 * The request handlers of the carpool backend: their guard chains and error
 * outcomes, the ride search, login, and the join/leave roster updates.
 *
 * Each handler's decision is a function of the tables and the decoded JSON
 * body; the `Store` class holds the two tables and its methods perform the
 * writes, each proved to follow the decision function. Transport details
 * (the JSON envelope, the HTTP status) are reduced to the `Error` value and
 * its `Code`.
 */
module App {
  import opened Wrappers
  import opened Json
  import opened Db
  import Query

  /** Every failure a handler can report, in the words of its error envelope. */
  datatype Error =
    | MissingNameOrEmail
    | MissingRequiredFields
    | DriverNotFound
    | CarpoolNotFound
    | MissingUserId
    | UserNotFound
    | CarpoolFull
    | AlreadyJoined
    | NotInCarpool
    | MissingEmailOrPassword
    | EmailNotFound
    | InvalidPassword
    | StorageRejected
  {
    /**
     * The `error` text of the failure envelope. `StorageRejected` stands for
     * a statement the database driver refuses (a `NOT NULL` column left
     * unset, a parameter it cannot bind); it surfaces as a server error with
     * no envelope.
     */
    function Message(): (m: string) {
      match this
      case MissingNameOrEmail => "Missing name or email field"
      case MissingRequiredFields => "Missing required fields"
      case DriverNotFound => "Driver not found!"
      case CarpoolNotFound => "Carpool not found!"
      case MissingUserId => "Missing user_id field"
      case UserNotFound => "User not found!"
      case CarpoolFull => "Carpool is full!"
      case AlreadyJoined => "User already joined this carpool!"
      case NotInCarpool => "User is not in this carpool!"
      case MissingEmailOrPassword => "Missing email or password field"
      case EmailNotFound => "User not found"
      case InvalidPassword => "Invalid password"
      case StorageRejected => ""
    }

    /** A failed lookup of a row. */
    predicate IsLookupFailure() {
      DriverNotFound? || CarpoolNotFound? || UserNotFound? || EmailNotFound?
    }

    /**
     * The HTTP status: exactly the failed lookups answer 404 (two of them by
     * passing it explicitly, the others by the envelope's default), a wrong
     * password 401, a refused statement 500, every other failure 400.
     */
    function Code(): (code: int)
      ensures code == 404 <==> IsLookupFailure()
      ensures code == 401 <==> InvalidPassword?
      ensures code == 500 <==> StorageRejected?
      ensures code == 400 <==> !IsLookupFailure() && !InvalidPassword? && !StorageRejected?
    {
      match this
      case DriverNotFound => 404
      case CarpoolNotFound => 404
      case UserNotFound => 404
      case EmailNotFound => 404
      case InvalidPassword => 401
      case StorageRejected => 500
      case _ => 400
    }
  }

  // -----------------------------------------------------------------------
  // State invariant of the two tables

  predicate NoDuplicates(s: seq<nat>) {
    forall i, j :: 0 <= i < j < |s| ==> s[i] != s[j]
  }

  /**
   * Row ids are positions plus one, every carpool refers only to existing
   * users, and no passenger list names a user twice.
   */
  ghost predicate Consistent(users: seq<User>, carpools: seq<Carpool>) {
    && (forall i :: 0 <= i < |users| ==> users[i].id == i + 1)
    && (forall k :: 0 <= k < |carpools| ==>
          carpools[k].id == k + 1 && RefsValid(|users|, carpools[k]) && NoDuplicates(carpools[k].passengers))
  }

  /** `User.query.filter_by(id=v).first()`: an integer id names the user at that position. */
  function LookupUser(users: seq<User>, v: Json): (r: Option<nat>)
    ensures r.Some? <==> v.JInt? && 1 <= v.i <= |users|
    ensures r.Some? ==> JInt(r.value) == v
  {
    if v.JInt? && 1 <= v.i <= |users| then Some(v.i) else None
  }

  /** In a table whose ids are positions plus one, the lookup finds exactly a row whose `id` is the value. */
  lemma LookupUserFindsRowWithId(users: seq<User>, v: Json)
    requires forall i :: 0 <= i < |users| ==> users[i].id == i + 1
    ensures LookupUser(users, v).Some? <==> exists i :: 0 <= i < |users| && v == JInt(users[i].id)
    ensures LookupUser(users, v).Some? ==> users[LookupUser(users, v).value - 1].id == LookupUser(users, v).value
  {
    if LookupUser(users, v).Some? {
      assert v == JInt(users[v.i - 1].id);
    }
  }

  // -----------------------------------------------------------------------
  // create_user

  /** The keyword arguments `create_user` passes to the `User` constructor. */
  function UserKwargs(body: Object): (r: Object)
    ensures r.Keys == UserColumns
  {
    map["name" := Get(body, "name"), "email" := Get(body, "email"),
        "username" := Get(body, "username"), "password" := Get(body, "password")]
  }

  /**
   * `create_user` with the constructor as written: the guard, then a row
   * whose username and password were never assigned.
   */
  function CreateUserAsWritten(users: seq<User>, body: Object): (r: Result<User, Error>) {
    if !Truthy(Get(body, "name")) || !Truthy(Get(body, "email")) then Err(MissingNameOrEmail)
    else match StoredUser(|users| + 1, UserInitAsWritten(UserKwargs(body)))
      case None => Err(StorageRejected)
      case Some(u) => Ok(u)
  }

  /** As written, no request body ever creates a user. */
  lemma CreateUserAsWrittenNeverSucceeds(users: seq<User>, body: Object)
    ensures CreateUserAsWritten(users, body).Err?
    ensures Truthy(Get(body, "name")) && Truthy(Get(body, "email")) ==>
      CreateUserAsWritten(users, body) == Err(StorageRejected)
  {
    UserInitAsWrittenNeverStored(UserKwargs(body), |users| + 1);
  }

  /**
   * `create_user` with the corrected constructor: it fails exactly when name or
   * email is falsy, or when a column would not hold a string; otherwise the
   * new row has the next id and exactly the strings of the body.
   */
  function CreateUserOutcome(users: seq<User>, body: Object): (r: Result<User, Error>)
    ensures r == Err(MissingNameOrEmail) <==> !Truthy(Get(body, "name")) || !Truthy(Get(body, "email"))
    ensures r.Ok? <==>
      && Truthy(Get(body, "name")) && Truthy(Get(body, "email"))
      && Get(body, "name").JStr? && Get(body, "email").JStr?
      && Get(body, "username").JStr? && Get(body, "password").JStr?
    ensures r.Ok? ==>
      && r.value.id == |users| + 1
      && Get(body, "name") == JStr(r.value.name) && Get(body, "email") == JStr(r.value.email)
      && Get(body, "username") == JStr(r.value.username) && Get(body, "password") == JStr(r.value.password)
  {
    if !Truthy(Get(body, "name")) || !Truthy(Get(body, "email")) then Err(MissingNameOrEmail)
    else match StoredUser(|users| + 1, UserInit(UserKwargs(body)))
      case None => Err(StorageRejected)
      case Some(u) => Ok(u)
  }

  /** A created user extends a consistent table, and hosts and has joined nothing yet. */
  lemma CreateUserKeepsConsistent(users: seq<User>, carpools: seq<Carpool>, body: Object)
    requires Consistent(users, carpools)
    requires CreateUserOutcome(users, body).Ok?
    ensures var u := CreateUserOutcome(users, body).value;
      && Consistent(users + [u], carpools)
      && HostedCarpools(carpools, u.id) == []
      && JoinedCarpools(carpools, u.id) == []
  {
    var u := CreateUserOutcome(users, body).value;
    forall k | 0 <= k < |carpools|
      ensures RefsValid(|users| + 1, carpools[k])
    {
      assert RefsValid(|users|, carpools[k]);
    }
    Query.WhereNone(carpools, (c: Carpool) => c.driverId == u.id);
    forall k | 0 <= k < |carpools|
      ensures u.id !in carpools[k].passengers
    {
      assert RefsValid(|users|, carpools[k]);
    }
    Query.WhereNone(carpools, (c: Carpool) => u.id in c.passengers);
  }

  // -----------------------------------------------------------------------
  // create_carpool

  /** The keyword arguments `create_carpool` passes to the `Carpool` constructor. */
  function CarpoolKwargs(body: Object): (r: Object)
    ensures r.Keys == CarpoolColumns
  {
    map k | k in CarpoolColumns :: Get(body, k)
  }

  /**
   * `create_carpool`: all six keys must be present (any value, even null), the
   * driver id must be bindable and name an existing user, and the columns must
   * have their types, integers within signed 64 bits; the new row gets the next
   * id, the body's values and an empty passenger list.
   */
  function CreateCarpoolOutcome(users: seq<User>, carpools: seq<Carpool>, body: Object): (r: Result<Carpool, Error>)
    ensures r == Err(MissingRequiredFields) <==> !(CarpoolColumns <= body.Keys)
    ensures r == Err(DriverNotFound) <==>
      CarpoolColumns <= body.Keys && Bindable(Get(body, "driver_id")) && LookupUser(users, Get(body, "driver_id")).None?
    ensures r.Ok? <==>
      && CarpoolColumns <= body.Keys
      && Bindable(Get(body, "driver_id")) && LookupUser(users, Get(body, "driver_id")).Some?
      && Get(body, "departure_location").JStr? && Get(body, "destination").JStr? && Get(body, "meeting_point").JStr?
      && Get(body, "departure_time").JInt? && FitsInt64(Get(body, "departure_time").i)
      && Get(body, "total_seats").JInt? && FitsInt64(Get(body, "total_seats").i)
    ensures r.Err? ==> r.error in {MissingRequiredFields, DriverNotFound, StorageRejected}
    ensures r.Ok? ==>
      && r.value.id == |carpools| + 1
      && r.value.passengers == []
      && RefsValid(|users|, r.value)
      && Get(body, "departure_location") == JStr(r.value.departureLocation)
      && Get(body, "destination") == JStr(r.value.destination)
      && Get(body, "departure_time") == JInt(r.value.departureTime)
      && Get(body, "meeting_point") == JStr(r.value.meetingPoint)
      && Get(body, "total_seats") == JInt(r.value.totalSeats)
      && Get(body, "driver_id") == JInt(r.value.driverId)
  {
    if !(CarpoolColumns <= body.Keys) then Err(MissingRequiredFields)
    else if !Bindable(Get(body, "driver_id")) then Err(StorageRejected)
    else match LookupUser(users, Get(body, "driver_id"))
      case None => Err(DriverNotFound)
      case Some(_) =>
        match StoredCarpool(|carpools| + 1, CarpoolInit(CarpoolKwargs(body)))
        case None => Err(StorageRejected)
        case Some(c) => Ok(c)
  }

  /**
   * A created carpool extends a consistent table, starts with all its seats
   * available, joins its driver's hosted list at the end and changes no
   * user's joined list.
   */
  lemma CreateCarpoolKeepsConsistent(users: seq<User>, carpools: seq<Carpool>, body: Object, userId: nat)
    requires Consistent(users, carpools)
    requires CreateCarpoolOutcome(users, carpools, body).Ok?
    ensures var c := CreateCarpoolOutcome(users, carpools, body).value;
      && Consistent(users, carpools + [c])
      && AvailableSeats(c) == c.totalSeats
      && HostedCarpools(carpools + [c], c.driverId) == HostedCarpools(carpools, c.driverId) + [c]
      && JoinedCarpools(carpools + [c], userId) == JoinedCarpools(carpools, userId)
  {
    var c := CreateCarpoolOutcome(users, carpools, body).value;
    Query.WhereAppend(carpools, [c], (x: Carpool) => x.driverId == c.driverId);
    Query.WhereAppend(carpools, [c], (x: Carpool) => userId in x.passengers);
  }

  // -----------------------------------------------------------------------
  // get_carpools: the search filter

  /** The body fields of a search; a time filter is already an integer. */
  datatype Filters = Filters(
    destination: Option<string>,
    departureLocation: Option<string>,
    minTime: Option<int>,
    maxTime: Option<int>)

  /** A text filter applies only when present and non-empty (truthy). */
  predicate TextGiven(t: Option<string>) {
    t.Some? && t.value != ""
  }

  /** A time filter applies only when present and non-zero (truthy). */
  predicate TimeGiven(t: Option<int>) {
    t.Some? && t.value != 0
  }

  /** `LIKE '%t%'` read as plain, case-sensitive substring containment: `t` starts at some position of `s`. */
  predicate Contains(s: string, t: string)
    decreases |s|
  {
    (|t| <= |s| && s[..|t|] == t) || (s != [] && Contains(s[1..], t))
  }

  function DestinationLike(t: string): Carpool -> bool {
    (c: Carpool) => Contains(c.destination, t)
  }

  function DepartureLike(t: string): Carpool -> bool {
    (c: Carpool) => Contains(c.departureLocation, t)
  }

  function DepartsAtOrAfter(t: int): Carpool -> bool {
    (c: Carpool) => c.departureTime >= t
  }

  function DepartsAtOrBefore(t: int): Carpool -> bool {
    (c: Carpool) => c.departureTime <= t
  }

  /**
   * `get_carpools`: the query narrowed by each truthy filter in turn; absent
   * or falsy filters impose nothing, so such a body returns the whole table.
   */
  function Search(carpools: seq<Carpool>, f: Filters): (r: seq<Carpool>)
    ensures |r| <= |carpools|
    ensures (!TextGiven(f.destination) && !TextGiven(f.departureLocation) &&
             !TimeGiven(f.minTime) && !TimeGiven(f.maxTime)) ==> r == carpools
  {
    var q0 := carpools;
    var q1 := if TextGiven(f.destination) then Query.Where(q0, DestinationLike(f.destination.value)) else q0;
    var q2 := if TextGiven(f.departureLocation) then Query.Where(q1, DepartureLike(f.departureLocation.value)) else q1;
    var q3 := if TimeGiven(f.minTime) then Query.Where(q2, DepartsAtOrAfter(f.minTime.value)) else q2;
    var q4 := if TimeGiven(f.maxTime) then Query.Where(q3, DepartsAtOrBefore(f.maxTime.value)) else q3;
    q4
  }

  /** The reference criterion: the carpool meets every filter that is supplied and truthy. */
  predicate Matches(c: Carpool, f: Filters) {
    && (TextGiven(f.destination) ==> Contains(c.destination, f.destination.value))
    && (TextGiven(f.departureLocation) ==> Contains(c.departureLocation, f.departureLocation.value))
    && (TimeGiven(f.minTime) ==> c.departureTime >= f.minTime.value)
    && (TimeGiven(f.maxTime) ==> c.departureTime <= f.maxTime.value)
  }

  function MatchesFilters(f: Filters): Carpool -> bool {
    (c: Carpool) => Matches(c, f)
  }

  /** One step of the chain: narrowing an already filtered table conjoins the new criterion. */
  lemma NarrowStep(s: seq<Carpool>, prev: Carpool -> bool, given: bool, p: Carpool -> bool, next: Carpool -> bool)
    requires forall x :: next(x) == (prev(x) && (given ==> p(x)))
    ensures (if given then Query.Where(Query.Where(s, prev), p) else Query.Where(s, prev)) == Query.Where(s, next)
  {
    if given {
      Query.WhereThenWhere(s, prev, p, next);
    } else {
      Query.WhereExt(s, prev, next);
    }
  }

  /**
   * The chain of filters is one conjunctive filter: the result is exactly the
   * matching carpools, in table order.
   */
  lemma SearchIsMatchingRows(carpools: seq<Carpool>, f: Filters)
    ensures Search(carpools, f) == Query.Where(carpools, MatchesFilters(f))
  {
    var m0: Carpool -> bool := (c: Carpool) => true;
    var m1: Carpool -> bool := (c: Carpool) =>
      TextGiven(f.destination) ==> Contains(c.destination, f.destination.value);
    var m2: Carpool -> bool := (c: Carpool) =>
      m1(c) && (TextGiven(f.departureLocation) ==> Contains(c.departureLocation, f.departureLocation.value));
    var m3: Carpool -> bool := (c: Carpool) =>
      m2(c) && (TimeGiven(f.minTime) ==> c.departureTime >= f.minTime.value);
    var m4: Carpool -> bool := (c: Carpool) =>
      m3(c) && (TimeGiven(f.maxTime) ==> c.departureTime <= f.maxTime.value);
    Query.WhereAll(carpools, m0);
    var q1 := if TextGiven(f.destination) then Query.Where(carpools, DestinationLike(f.destination.value)) else carpools;
    NarrowStep(carpools, m0, TextGiven(f.destination),
               if TextGiven(f.destination) then DestinationLike(f.destination.value) else m0, m1);
    assert q1 == Query.Where(carpools, m1);
    var q2 := if TextGiven(f.departureLocation) then Query.Where(q1, DepartureLike(f.departureLocation.value)) else q1;
    NarrowStep(carpools, m1, TextGiven(f.departureLocation),
               if TextGiven(f.departureLocation) then DepartureLike(f.departureLocation.value) else m0, m2);
    assert q2 == Query.Where(carpools, m2);
    var q3 := if TimeGiven(f.minTime) then Query.Where(q2, DepartsAtOrAfter(f.minTime.value)) else q2;
    NarrowStep(carpools, m2, TimeGiven(f.minTime),
               if TimeGiven(f.minTime) then DepartsAtOrAfter(f.minTime.value) else m0, m3);
    assert q3 == Query.Where(carpools, m3);
    NarrowStep(carpools, m3, TimeGiven(f.maxTime),
               if TimeGiven(f.maxTime) then DepartsAtOrBefore(f.maxTime.value) else m0, m4);
    Query.WhereExt(carpools, m4, MatchesFilters(f));
  }

  /** Soundness and completeness: a carpool is returned iff it is in the table and meets every truthy filter. */
  lemma SearchSoundAndComplete(carpools: seq<Carpool>, f: Filters, c: Carpool)
    ensures c in Search(carpools, f) <==> c in carpools && Matches(c, f)
  {
    SearchIsMatchingRows(carpools, f);
    Query.WhereMembership(carpools, MatchesFilters(f), c);
  }

  /** A truthy time filter outside signed 64 bits cannot be bound, so the query is refused. */
  predicate TimeFilterUnbindable(f: Filters) {
    || (TimeGiven(f.minTime) && !FitsInt64(f.minTime.value))
    || (TimeGiven(f.maxTime) && !FitsInt64(f.maxTime.value))
  }

  /**
   * The response body of `get_carpools`: every selected carpool serialized, in
   * table order, each entry the `serialize` of that carpool; a query with an
   * unbindable time filter is refused instead.
   */
  function SearchResponse(users: seq<User>, carpools: seq<Carpool>, f: Filters): (r: Result<seq<CarpoolView>, Error>)
    requires Consistent(users, carpools)
    ensures r.Err? <==> TimeFilterUnbindable(f)
    ensures r.Err? ==> r.error == StorageRejected
    ensures r.Ok? ==> |r.value| == |Search(carpools, f)|
    ensures r.Ok? ==> forall i :: 0 <= i < |r.value| ==>
      && r.value[i].id == Search(carpools, f)[i].id
      && r.value[i].availableSeats == AvailableSeats(Search(carpools, f)[i])
      && r.value[i].driver.id == Search(carpools, f)[i].driverId
    ensures r.Ok? ==> forall i :: 0 <= i < |r.value| ==>
      RefsValid(|users|, Search(carpools, f)[i]) && r.value[i] == SerializeCarpool(users, Search(carpools, f)[i])
  {
    var found := Search(carpools, f);
    SearchIsMatchingRows(carpools, f);
    assert forall i :: 0 <= i < |found| ==> found[i] in carpools by {
      forall i | 0 <= i < |found| ensures found[i] in carpools {
        Query.WhereMembership(carpools, MatchesFilters(f), found[i]);
      }
    }
    if TimeFilterUnbindable(f) then Err(StorageRejected)
    else Ok(seq(|found|, i requires 0 <= i < |found| => SerializeCarpool(users, found[i])))
  }

  // -----------------------------------------------------------------------
  // login

  /** `User.query.filter_by(email=e).first()`: the first position at or after `from` with that email. */
  function FirstWithEmail(users: seq<User>, email: string, from: nat): (r: Option<nat>)
    requires from <= |users|
    ensures r.Some? ==>
      from <= r.value < |users| && users[r.value].email == email &&
      forall j :: from <= j < r.value ==> users[j].email != email
    ensures r.None? ==> forall j :: from <= j < |users| ==> users[j].email != email
    decreases |users| - from
  {
    if from == |users| then None
    else if users[from].email == email then Some(from)
    else FirstWithEmail(users, email, from + 1)
  }

  /**
   * `login`: both fields must be truthy, the first user with that email is
   * the one checked, and the password must be exactly the stored string.
   */
  function Login(users: seq<User>, body: Object): (r: Result<User, Error>)
    ensures r == Err(MissingEmailOrPassword) <==> !Truthy(Get(body, "email")) || !Truthy(Get(body, "password"))
    ensures r == Err(StorageRejected) <==>
      Truthy(Get(body, "email")) && Truthy(Get(body, "password")) && !Bindable(Get(body, "email"))
    ensures r.Err? ==> r.error in {MissingEmailOrPassword, StorageRejected, EmailNotFound, InvalidPassword}
    ensures r == Err(EmailNotFound) <==>
      && Truthy(Get(body, "email")) && Truthy(Get(body, "password")) && Bindable(Get(body, "email"))
      && forall j :: 0 <= j < |users| ==> Get(body, "email") != JStr(users[j].email)
    ensures r.Ok? ==>
      && r.value in users
      && Get(body, "email") == JStr(r.value.email) && r.value.email != ""
      && Get(body, "password") == JStr(r.value.password) && r.value.password != ""
  {
    var email := Get(body, "email");
    var password := Get(body, "password");
    if !Truthy(email) || !Truthy(password) then Err(MissingEmailOrPassword)
    else if !Bindable(email) then Err(StorageRejected)
    else match (if email.JStr? then FirstWithEmail(users, email.s, 0) else None)
      case None => Err(EmailNotFound)
      case Some(k) => if JStr(users[k].password) != password then Err(InvalidPassword) else Ok(users[k])
  }

  /**
   * Only the first user with an email is checked, and it is let in with exactly
   * its stored password; a stored empty password (falsy) can never be matched.
   */
  lemma LoginAcceptsFirstMatch(users: seq<User>, body: Object, k: nat)
    requires k < |users|
    requires forall j :: 0 <= j < k ==> users[j].email != users[k].email
    requires Get(body, "email") == JStr(users[k].email)
    ensures users[k].email == "" ==> Login(users, body) == Err(MissingEmailOrPassword)
    ensures users[k].email != "" && users[k].password != "" ==>
      (Login(users, body) == Ok(users[k]) <==> Get(body, "password") == JStr(users[k].password))
    ensures users[k].email != "" && Truthy(Get(body, "password")) && Get(body, "password") != JStr(users[k].password) ==>
      Login(users, body) == Err(InvalidPassword)
    ensures users[k].password == "" ==> Login(users, body).Err?
  {
    var r := FirstWithEmail(users, users[k].email, 0);
    assert r == Some(k);
  }

  /** A user just created with a fresh email can log in with the password it was created with. */
  lemma CreateThenLogin(users: seq<User>, body: Object)
    requires CreateUserOutcome(users, body).Ok?
    requires Truthy(Get(body, "password"))
    requires forall j :: 0 <= j < |users| ==> Get(body, "email") != JStr(users[j].email)
    ensures var u := CreateUserOutcome(users, body).value;
      Login(users + [u], map["email" := Get(body, "email"), "password" := Get(body, "password")]) == Ok(u)
  {
    var u := CreateUserOutcome(users, body).value;
    var all := users + [u];
    assert all[|users|] == u;
    assert forall j :: 0 <= j < |users| ==> all[j] == users[j];
    LoginAcceptsFirstMatch(all, map["email" := Get(body, "email"), "password" := Get(body, "password")], |users|);
  }

  // -----------------------------------------------------------------------
  // join_carpool and leave_carpool

  /**
   * The guards both roster handlers share, in their order: the carpool exists
   * (checked before the body is read), `user_id` is present, the user exists.
   * Each lookup first binds its id, and an id the driver cannot bind (the
   * URL's carpool id beyond signed 64 bits, an unbindable `user_id`) makes
   * the handler fail with a server error instead.
   */
  function ResolveMember(users: seq<User>, carpools: seq<Carpool>, carpoolId: nat, body: Object): (r: Result<nat, Error>)
    ensures r == Err(StorageRejected) <==>
      || !FitsInt64(carpoolId)
      || (1 <= carpoolId <= |carpools| && Get(body, "user_id") != JNull && !Bindable(Get(body, "user_id")))
    ensures r == Err(CarpoolNotFound) <==> FitsInt64(carpoolId) && !(1 <= carpoolId <= |carpools|)
    ensures r == Err(MissingUserId) <==>
      FitsInt64(carpoolId) && 1 <= carpoolId <= |carpools| && Get(body, "user_id") == JNull
    ensures r == Err(UserNotFound) <==>
      && FitsInt64(carpoolId) && 1 <= carpoolId <= |carpools|
      && Get(body, "user_id") != JNull && Bindable(Get(body, "user_id"))
      && LookupUser(users, Get(body, "user_id")).None?
    ensures r.Ok? <==>
      && FitsInt64(carpoolId) && 1 <= carpoolId <= |carpools|
      && Bindable(Get(body, "user_id")) && LookupUser(users, Get(body, "user_id")).Some?
    ensures r.Ok? ==> 1 <= carpoolId <= |carpools| && 1 <= r.value <= |users| && Get(body, "user_id") == JInt(r.value)
    ensures r.Err? ==> r.error in {StorageRejected, CarpoolNotFound, MissingUserId, UserNotFound}
  {
    if !FitsInt64(carpoolId) then Err(StorageRejected)
    else if !(1 <= carpoolId <= |carpools|) then Err(CarpoolNotFound)
    else if Get(body, "user_id") == JNull then Err(MissingUserId)
    else if !Bindable(Get(body, "user_id")) then Err(StorageRejected)
    else match LookupUser(users, Get(body, "user_id"))
      case None => Err(UserNotFound)
      case Some(userId) => Ok(userId)
  }

  /** `join_carpool`'s decision: after the shared guards, the capacity check, then the duplicate check. */
  function JoinDecision(users: seq<User>, carpools: seq<Carpool>, carpoolId: nat, body: Object): (r: Result<nat, Error>)
    ensures r.Ok? <==>
      && ResolveMember(users, carpools, carpoolId, body).Ok?
      && !IsFull(carpools[carpoolId - 1])
      && ResolveMember(users, carpools, carpoolId, body).value !in carpools[carpoolId - 1].passengers
    ensures r.Ok? ==> ResolveMember(users, carpools, carpoolId, body) == r
  {
    match ResolveMember(users, carpools, carpoolId, body)
    case Err(e) => Err(e)
    case Ok(userId) =>
      var c := carpools[carpoolId - 1];
      if |c.passengers| >= c.totalSeats then Err(CarpoolFull)
      else if userId in c.passengers then Err(AlreadyJoined)
      else Ok(userId)
  }

  /** The carpool table after `carpool.passengers.append(user)`. */
  function WithPassenger(carpools: seq<Carpool>, carpoolId: nat, userId: nat): (r: seq<Carpool>)
    requires 1 <= carpoolId <= |carpools|
    ensures |r| == |carpools|
  {
    carpools[carpoolId - 1 := carpools[carpoolId - 1].(passengers := carpools[carpoolId - 1].passengers + [userId])]
  }

  /** `list.index`: the position of the first occurrence. */
  function IndexOf(s: seq<nat>, x: nat): (i: nat)
    requires x in s
    ensures i < |s| && s[i] == x
    ensures forall j :: 0 <= j < i ==> s[j] != x
  {
    if s[0] == x then 0 else IndexOf(s[1..], x) + 1
  }

  /** `list.remove`: drop the first occurrence; one copy of the element is gone and nothing else. */
  function RemoveFirst(s: seq<nat>, x: nat): (r: seq<nat>)
    requires x in s
    ensures |r| == |s| - 1
    ensures multiset(r) == multiset(s) - multiset{x}
  {
    if s[0] == x then
      assert s == [s[0]] + s[1..];
      s[1..]
    else
      assert s == [s[0]] + s[1..];
      [s[0]] + RemoveFirst(s[1..], x)
  }

  /** The remaining elements keep their order: the list is cut at the first occurrence and rejoined. */
  lemma {:induction false} RemoveFirstKeepsOrder(s: seq<nat>, x: nat)
    requires x in s
    ensures RemoveFirst(s, x) == s[..IndexOf(s, x)] + s[IndexOf(s, x) + 1..]
  {
    if s[0] != x {
      var j := IndexOf(s[1..], x);
      RemoveFirstKeepsOrder(s[1..], x);
      CutAfterHead(s, j);
    }
  }

  lemma CutAfterHead(s: seq<nat>, j: nat)
    requires j + 1 < |s|
    ensures [s[0]] + (s[1..][..j] + s[1..][j + 1..]) == s[..j + 1] + s[j + 2..]
  {
    assert s[..j + 1] == [s[0]] + s[1..][..j];
    assert s[j + 2..] == s[1..][j + 1..];
  }

  /** Removing what was just appended, to a list that did not hold it, restores the list. */
  lemma {:induction false} RemoveFirstOfAppended(s: seq<nat>, x: nat)
    requires x !in s
    ensures RemoveFirst(s + [x], x) == s
  {
    if s != [] {
      assert (s + [x])[0] == s[0];
      assert (s + [x])[1..] == s[1..] + [x];
      RemoveFirstOfAppended(s[1..], x);
    }
  }

  lemma NoDuplicatesTail(s: seq<nat>)
    requires s != [] && NoDuplicates(s)
    ensures s[0] !in s[1..] && NoDuplicates(s[1..])
  {
    forall i, j | 0 <= i < j < |s[1..]| ensures s[1..][i] != s[1..][j] {
      assert s[1..][i] == s[i + 1] && s[1..][j] == s[j + 1];
    }
    forall i | 0 <= i < |s[1..]| ensures s[1..][i] != s[0] {
      assert s[1..][i] == s[i + 1];
    }
  }

  lemma NoDuplicatesCons(a: nat, t: seq<nat>)
    requires a !in t && NoDuplicates(t)
    ensures NoDuplicates([a] + t)
  {
    var r := [a] + t;
    forall i, j | 0 <= i < j < |r| ensures r[i] != r[j] {
      assert r[j] == t[j - 1];
      if i > 0 {
        assert r[i] == t[i - 1];
      }
    }
  }

  /** On a list without duplicates, removal leaves no trace of the element and keeps the list duplicate-free. */
  lemma {:induction false} RemoveFirstNoDuplicates(s: seq<nat>, x: nat)
    requires x in s && NoDuplicates(s)
    ensures x !in RemoveFirst(s, x)
    ensures NoDuplicates(RemoveFirst(s, x))
  {
    NoDuplicatesTail(s);
    if s[0] != x {
      var t := RemoveFirst(s[1..], x);
      RemoveFirstNoDuplicates(s[1..], x);
      assert multiset(s[1..])[s[0]] == 0;
      assert multiset(t)[s[0]] == 0;
      NoDuplicatesCons(s[0], t);
    }
  }

  /** `leave_carpool`'s decision: after the shared guards, the user must be a passenger. */
  function LeaveDecision(users: seq<User>, carpools: seq<Carpool>, carpoolId: nat, body: Object): (r: Result<nat, Error>)
    ensures r.Ok? <==>
      && ResolveMember(users, carpools, carpoolId, body).Ok?
      && ResolveMember(users, carpools, carpoolId, body).value in carpools[carpoolId - 1].passengers
    ensures r.Ok? ==> ResolveMember(users, carpools, carpoolId, body) == r
    ensures r == Err(NotInCarpool) <==>
      && ResolveMember(users, carpools, carpoolId, body).Ok?
      && ResolveMember(users, carpools, carpoolId, body).value !in carpools[carpoolId - 1].passengers
  {
    match ResolveMember(users, carpools, carpoolId, body)
    case Err(e) => Err(e)
    case Ok(userId) =>
      if userId !in carpools[carpoolId - 1].passengers then Err(NotInCarpool) else Ok(userId)
  }

  /** The carpool table after `carpool.passengers.remove(user)`. */
  function WithoutPassenger(carpools: seq<Carpool>, carpoolId: nat, userId: nat): (r: seq<Carpool>)
    requires 1 <= carpoolId <= |carpools| && userId in carpools[carpoolId - 1].passengers
    ensures |r| == |carpools|
  {
    carpools[carpoolId - 1 := carpools[carpoolId - 1].(passengers := RemoveFirst(carpools[carpoolId - 1].passengers, userId))]
  }

  // Guard order of join_carpool

  /** A missing carpool is reported whatever the body says (as a server error if its id cannot be bound). */
  lemma JoinMissingCarpoolIgnoresBody(users: seq<User>, carpools: seq<Carpool>, carpoolId: nat, body: Object)
    requires !(1 <= carpoolId <= |carpools|)
    ensures JoinDecision(users, carpools, carpoolId, body) ==
      if FitsInt64(carpoolId) then Err(CarpoolNotFound) else Err(StorageRejected)
    ensures LeaveDecision(users, carpools, carpoolId, body) ==
      if FitsInt64(carpoolId) then Err(CarpoolNotFound) else Err(StorageRejected)
  {
  }

  /** A missing or unknown user is reported before any roster check. */
  lemma JoinRejectsMissingOrUnknownUser(users: seq<User>, carpools: seq<Carpool>, carpoolId: nat, body: Object)
    requires 1 <= carpoolId <= |carpools|
    ensures !FitsInt64(carpoolId) ==> JoinDecision(users, carpools, carpoolId, body) == Err(StorageRejected)
    ensures FitsInt64(carpoolId) && Get(body, "user_id") == JNull ==>
      JoinDecision(users, carpools, carpoolId, body) == Err(MissingUserId)
    ensures FitsInt64(carpoolId) && Get(body, "user_id") != JNull && !Bindable(Get(body, "user_id")) ==>
      JoinDecision(users, carpools, carpoolId, body) == Err(StorageRejected)
    ensures FitsInt64(carpoolId) && Get(body, "user_id") != JNull && Bindable(Get(body, "user_id")) &&
            LookupUser(users, Get(body, "user_id")).None? ==>
      JoinDecision(users, carpools, carpoolId, body) == Err(UserNotFound)
  {
  }

  /** A full carpool is reported as full, even to a user who is already a passenger. */
  lemma JoinReportsFullBeforeDuplicate(users: seq<User>, carpools: seq<Carpool>, carpoolId: nat, body: Object)
    requires ResolveMember(users, carpools, carpoolId, body).Ok?
    ensures IsFull(carpools[carpoolId - 1]) ==> JoinDecision(users, carpools, carpoolId, body) == Err(CarpoolFull)
    ensures !IsFull(carpools[carpoolId - 1]) &&
            ResolveMember(users, carpools, carpoolId, body).value in carpools[carpoolId - 1].passengers ==>
      JoinDecision(users, carpools, carpoolId, body) == Err(AlreadyJoined)
  {
  }

  /**
   * A successful join appends exactly that user: the list grows by one, the
   * earlier entries stay, no other carpool changes; the table stays
   * consistent, in particular duplicate-free.
   */
  lemma JoinAppendsExactlyThatUser(users: seq<User>, carpools: seq<Carpool>, carpoolId: nat, body: Object)
    requires Consistent(users, carpools)
    requires JoinDecision(users, carpools, carpoolId, body).Ok?
    ensures var userId := JoinDecision(users, carpools, carpoolId, body).value;
      var after := WithPassenger(carpools, carpoolId, userId);
      && Consistent(users, after)
      && |after[carpoolId - 1].passengers| == |carpools[carpoolId - 1].passengers| + 1
      && after[carpoolId - 1].passengers[..|carpools[carpoolId - 1].passengers|] == carpools[carpoolId - 1].passengers
      && after[carpoolId - 1].passengers[|carpools[carpoolId - 1].passengers|] == userId
      && after[carpoolId - 1] == carpools[carpoolId - 1].(passengers := after[carpoolId - 1].passengers)
      && forall k :: 0 <= k < |carpools| && k != carpoolId - 1 ==> after[k] == carpools[k]
  {
    var userId := JoinDecision(users, carpools, carpoolId, body).value;
    var after := WithPassenger(carpools, carpoolId, userId);
    var s := carpools[carpoolId - 1].passengers;
    var t := s + [userId];
    assert NoDuplicates(t) by {
      forall i, j | 0 <= i < j < |t| ensures t[i] != t[j] {
        if j == |s| {
          assert t[i] == s[i];
        } else {
          assert t[i] == s[i] && t[j] == s[j];
        }
      }
    }
    assert RefsValid(|users|, after[carpoolId - 1]) by {
      assert RefsValid(|users|, carpools[carpoolId - 1]);
      forall i | 0 <= i < |t| ensures 1 <= t[i] <= |users| {
        if i < |s| {
          assert t[i] == s[i];
        }
      }
    }
  }

  /**
   * Capacity: if the roster was within its ceiling before a join it still is,
   * and a successful join itself always leaves it within the ceiling: the
   * available seats drop by one, are never negative, and are zero exactly
   * when the carpool is full.
   */
  lemma JoinRespectsCapacity(users: seq<User>, carpools: seq<Carpool>, carpoolId: nat, body: Object, k: nat)
    requires k < |carpools| && |carpools[k].passengers| <= carpools[k].totalSeats
    ensures var after :=
        if JoinDecision(users, carpools, carpoolId, body).Ok?
        then WithPassenger(carpools, carpoolId, JoinDecision(users, carpools, carpoolId, body).value)
        else carpools;
      |after[k].passengers| <= after[k].totalSeats
    ensures JoinDecision(users, carpools, carpoolId, body).Ok? ==>
      var c := WithPassenger(carpools, carpoolId, JoinDecision(users, carpools, carpoolId, body).value)[carpoolId - 1];
      && AvailableSeats(c) == AvailableSeats(carpools[carpoolId - 1]) - 1
      && AvailableSeats(c) >= 0
      && (AvailableSeats(c) == 0 <==> IsFull(c))
  {
    if JoinDecision(users, carpools, carpoolId, body).Ok? {
      var c := WithPassenger(carpools, carpoolId, JoinDecision(users, carpools, carpoolId, body).value)[carpoolId - 1];
      AvailableSeatsMeaning(c);
    }
  }

  /**
   * A successful leave removes that user and no one else; the table stays
   * consistent and the ceiling is still respected if it was.
   */
  lemma LeaveRemovesThatUser(users: seq<User>, carpools: seq<Carpool>, carpoolId: nat, body: Object)
    requires Consistent(users, carpools)
    requires LeaveDecision(users, carpools, carpoolId, body).Ok?
    ensures var userId := LeaveDecision(users, carpools, carpoolId, body).value;
      var after := WithoutPassenger(carpools, carpoolId, userId);
      && Consistent(users, after)
      && userId !in after[carpoolId - 1].passengers
      && multiset(after[carpoolId - 1].passengers) == multiset(carpools[carpoolId - 1].passengers) - multiset{userId}
      && after[carpoolId - 1] == carpools[carpoolId - 1].(passengers := after[carpoolId - 1].passengers)
      && AvailableSeats(after[carpoolId - 1]) == AvailableSeats(carpools[carpoolId - 1]) + 1
      && forall k :: 0 <= k < |carpools| && k != carpoolId - 1 ==> after[k] == carpools[k]
  {
    var userId := LeaveDecision(users, carpools, carpoolId, body).value;
    RemovalKeepsConsistent(users, carpools, carpoolId, userId);
  }

  /** Removing a passenger from one carpool of a consistent table keeps it consistent. */
  lemma RemovalKeepsConsistent(users: seq<User>, carpools: seq<Carpool>, carpoolId: nat, userId: nat)
    requires Consistent(users, carpools)
    requires 1 <= carpoolId <= |carpools| && userId in carpools[carpoolId - 1].passengers
    ensures Consistent(users, WithoutPassenger(carpools, carpoolId, userId))
    ensures userId !in WithoutPassenger(carpools, carpoolId, userId)[carpoolId - 1].passengers
  {
    RemovalKeepsCarpoolValid(|users|, carpools[carpoolId - 1], userId);
  }

  lemma RemovalKeepsCarpoolValid(n: nat, c: Carpool, userId: nat)
    requires RefsValid(n, c) && NoDuplicates(c.passengers) && userId in c.passengers
    ensures RefsValid(n, c.(passengers := RemoveFirst(c.passengers, userId)))
    ensures NoDuplicates(RemoveFirst(c.passengers, userId))
    ensures userId !in RemoveFirst(c.passengers, userId)
  {
    var s := c.passengers;
    var t := RemoveFirst(s, userId);
    RemoveFirstNoDuplicates(s, userId);
    forall i | 0 <= i < |t| ensures 1 <= t[i] <= n {
      assert multiset(t)[t[i]] > 0;
      assert t[i] in s;
    }
  }

  /** A join followed by a leave of the same user restores the carpool table exactly. */
  lemma JoinThenLeaveRestores(users: seq<User>, carpools: seq<Carpool>, carpoolId: nat, body: Object)
    requires Consistent(users, carpools)
    requires JoinDecision(users, carpools, carpoolId, body).Ok?
    ensures var userId := JoinDecision(users, carpools, carpoolId, body).value;
      var joined := WithPassenger(carpools, carpoolId, userId);
      && LeaveDecision(users, joined, carpoolId, body) == Ok(userId)
      && WithoutPassenger(joined, carpoolId, userId) == carpools
  {
    var userId := JoinDecision(users, carpools, carpoolId, body).value;
    var joined := WithPassenger(carpools, carpoolId, userId);
    assert ResolveMember(users, joined, carpoolId, body) == Ok(userId);
    RemoveFirstOfAppended(carpools[carpoolId - 1].passengers, userId);
  }

  // -----------------------------------------------------------------------
  // get_users

  /** `get_users` as written: the full `serialize` of every user, passwords included. */
  function ListUsersAsWritten(users: seq<User>, carpools: seq<Carpool>): (r: seq<UserView>) {
    seq(|users|, i requires 0 <= i < |users| => SerializeUser(carpools, users[i]))
  }

  /** As written, every listed entry carries that user's stored password. */
  lemma ListUsersAsWrittenExposesPasswords(users: seq<User>, carpools: seq<Carpool>, k: nat)
    requires k < |users|
    ensures |ListUsersAsWritten(users, carpools)| == |users|
    ensures ListUsersAsWritten(users, carpools)[k].password == users[k].password
  {
  }

  /** `get_users` as its documentation intends: the `safe_serialize` of every user. */
  function ListUsers(users: seq<User>): (r: seq<UserPublic>)
    ensures |r| == |users|
    ensures forall i :: 0 <= i < |users| ==> r[i] == SafeSerializeUser(users[i])
  {
    seq(|users|, i requires 0 <= i < |users| => SafeSerializeUser(users[i]))
  }

  /** The corrected listing is the same for any two tables that differ only in emails and passwords. */
  lemma ListUsersHidesSecrets(users: seq<User>, others: seq<User>)
    requires |users| == |others|
    requires forall i :: 0 <= i < |users| ==>
      users[i].id == others[i].id && users[i].name == others[i].name && users[i].username == others[i].username
    ensures ListUsers(users) == ListUsers(others)
  {
    var a, b := ListUsers(users), ListUsers(others);
    forall i | 0 <= i < |users| ensures a[i] == b[i] {
      SafeSerializeHidesSecrets(users[i], others[i].email, others[i].password);
      assert users[i].(email := others[i].email, password := others[i].password) == others[i];
    }
  }

  // -----------------------------------------------------------------------
  // The database, updated in place by the handlers that write

  class Store {
    var users: seq<User>
    var carpools: seq<Carpool>

    ghost predicate Valid()
      reads this
    {
      Consistent(users, carpools)
    }

    /** A freshly created database: both tables empty. */
    constructor ()
      ensures Valid() && users == [] && carpools == []
    {
      users := [];
      carpools := [];
    }

    /** `create_user`: on success the new row is appended and returned serialized. */
    method CreateUser(body: Object) returns (r: Result<UserView, Error>)
      requires Valid()
      modifies this
      ensures Valid() && carpools == old(carpools)
      ensures match CreateUserOutcome(old(users), body)
        case Ok(u) => users == old(users) + [u] && r == Ok(SerializeUser(carpools, u))
        case Err(e) => users == old(users) && r == Err(e)
    {
      if !Truthy(Get(body, "name")) || !Truthy(Get(body, "email")) {
        return Err(MissingNameOrEmail);
      }
      var row := StoredUser(|users| + 1, UserInit(UserKwargs(body)));
      if row.None? {
        return Err(StorageRejected);
      }
      CreateUserKeepsConsistent(users, carpools, body);
      users := users + [row.value];
      r := Ok(SerializeUser(carpools, row.value));
    }

    /** `create_carpool`: on success the new row is appended and returned serialized. */
    method CreateCarpool(body: Object) returns (r: Result<CarpoolView, Error>)
      requires Valid()
      modifies this
      ensures Valid() && users == old(users)
      ensures match CreateCarpoolOutcome(old(users), old(carpools), body)
        case Ok(c) => carpools == old(carpools) + [c] && r == Ok(SerializeCarpool(users, c))
        case Err(e) => carpools == old(carpools) && r == Err(e)
    {
      if !(CarpoolColumns <= body.Keys) {
        return Err(MissingRequiredFields);
      }
      if !Bindable(Get(body, "driver_id")) {
        return Err(StorageRejected);
      }
      var driver := LookupUser(users, Get(body, "driver_id"));
      if driver.None? {
        return Err(DriverNotFound);
      }
      var row := StoredCarpool(|carpools| + 1, CarpoolInit(CarpoolKwargs(body)));
      if row.None? {
        return Err(StorageRejected);
      }
      CreateCarpoolKeepsConsistent(users, carpools, body, 0);
      carpools := carpools + [row.value];
      r := Ok(SerializeCarpool(users, row.value));
    }

    /**
     * `join_carpool`: the guards in order, then the append; a failure changes
     * nothing, a success changes only that carpool's passenger list.
     */
    method Join(carpoolId: nat, body: Object) returns (r: Result<CarpoolView, Error>)
      requires Valid()
      modifies this
      ensures Valid() && users == old(users)
      ensures match JoinDecision(old(users), old(carpools), carpoolId, body)
        case Ok(userId) =>
          && carpools == WithPassenger(old(carpools), carpoolId, userId)
          && r == Ok(SerializeCarpool(users, carpools[carpoolId - 1]))
        case Err(e) => carpools == old(carpools) && r == Err(e)
    {
      if !FitsInt64(carpoolId) {
        return Err(StorageRejected);
      }
      if !(1 <= carpoolId <= |carpools|) {
        return Err(CarpoolNotFound);
      }
      var carpool := carpools[carpoolId - 1];
      var userId := Get(body, "user_id");
      if userId == JNull {
        return Err(MissingUserId);
      }
      if !Bindable(userId) {
        return Err(StorageRejected);
      }
      var user := LookupUser(users, userId);
      if user.None? {
        return Err(UserNotFound);
      }
      if |carpool.passengers| >= carpool.totalSeats {
        return Err(CarpoolFull);
      }
      if user.value in carpool.passengers {
        return Err(AlreadyJoined);
      }
      JoinAppendsExactlyThatUser(users, carpools, carpoolId, body);
      carpools := carpools[carpoolId - 1 := carpool.(passengers := carpool.passengers + [user.value])];
      r := Ok(SerializeCarpool(users, carpools[carpoolId - 1]));
    }

    /**
     * `leave_carpool`: the guards in order, then the removal; a failure changes
     * nothing, a success changes only that carpool's passenger list.
     */
    method Leave(carpoolId: nat, body: Object) returns (r: Result<CarpoolView, Error>)
      requires Valid()
      modifies this
      ensures Valid() && users == old(users)
      ensures match LeaveDecision(old(users), old(carpools), carpoolId, body)
        case Ok(userId) =>
          && carpools == WithoutPassenger(old(carpools), carpoolId, userId)
          && r == Ok(SerializeCarpool(users, carpools[carpoolId - 1]))
        case Err(e) => carpools == old(carpools) && r == Err(e)
    {
      if !FitsInt64(carpoolId) {
        return Err(StorageRejected);
      }
      if !(1 <= carpoolId <= |carpools|) {
        return Err(CarpoolNotFound);
      }
      var carpool := carpools[carpoolId - 1];
      var userId := Get(body, "user_id");
      if userId == JNull {
        return Err(MissingUserId);
      }
      if !Bindable(userId) {
        return Err(StorageRejected);
      }
      var user := LookupUser(users, userId);
      if user.None? {
        return Err(UserNotFound);
      }
      if user.value !in carpool.passengers {
        return Err(NotInCarpool);
      }
      LeaveRemovesThatUser(users, carpools, carpoolId, body);
      carpools := carpools[carpoolId - 1 := carpool.(passengers := RemoveFirst(carpool.passengers, user.value))];
      r := Ok(SerializeCarpool(users, carpools[carpoolId - 1]));
    }
  }
}
