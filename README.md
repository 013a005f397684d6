# Carpool backend: roster, search and account checks

This project models the core of a small Flask and SQLAlchemy backend for a
carpool app. Users register. A driver posts a carpool with a departure
location, destination, departure time, meeting point and seat count. Other
users join or leave the carpool's passenger list. Anyone can search the
carpools by destination, departure location and a time window, and a user
logs in by email and password.

The model has five modules:

- `Wrappers` (`wrappers.dfy`): `Option` and `Result`.
- `Json` (`json.dfy`): a decoded JSON request body, Python truthiness (`if not x`) and `dict.get`. A missing key and an explicit `null` both read as `None`.
- `Query` (`query.dfy`): `Where`, which stands for `query.filter(p).all()` and keeps the matching rows in table order. It comes with lemmas for membership, chaining, appending and agreement of predicates.
- `Db` (`db.dfy`, modelling `src/db.py`): the `users` and `carpools` tables, with
  - the constructors as functions from keyword arguments to attribute values,
  - the write of a new row, which enforces the `NOT NULL` column types,
  - the derived `available_seats`,
  - what the SQLite driver can bind as a parameter (`Bindable`): no arrays or objects, and integers only within signed 64 bits. A statement holding an unbindable value fails, and the handler answers with a server error (`StorageRejected`, 500),
  - the three serializers of each entity,
  - the `passengers` / `joined_carpools` and `driver` / `hosted_carpools` relationships. These are derived queries over the one passenger list each carpool holds.
- `App` (`app.dfy`, modelling `src/app.py`): each handler's guard chain as a decision function over the tables and the body. The `Store` class holds the two tables. Its methods `CreateUser`, `CreateCarpool`, `Join` and `Leave` perform the writes, and each is proved to follow its decision function and to keep the table invariant `Consistent`. `Consistent` says:
  - row id = position + 1;
  - every driver and passenger id names an existing user;
  - no passenger list holds the same user twice.

A table is a sequence of rows in insertion order, and a row's id is its
position plus one. That matches SQLite's integer primary key, and nothing in
the backend deletes a row. `query.first()` and `query.all()` therefore read in
table order. Passengers are user ids. Joining appends an id (`list.append`).
Leaving removes the first occurrence of an id (`list.remove`).

The search, login and create handlers are pure decisions. The roster handlers
are methods that update the carpool table in place behind their early-return
guards.

The model follows the code as it stands. The code has:

- no pending/accept/decline workflow and no two-hour schedule-conflict check;
- no driver seat reserved out of `total_seats`;
- no duplicate-email or email-syntax check at registration;
- no checks on `total_seats`, the departure time or a price;
- no ride deletion.

`total_seats` can therefore be zero or negative. As a result, "passengers ≤
seats" is proved as a property that joins and leaves preserve, not as an
invariant that always holds.

## Model

| member | source | states |
|---|---|---|
| `Query.Where` | src/app.py:102-113 | a filtered query never returns more rows than the table holds |
| `Query.WhereMembership` | src/app.py:102-113 | a row is returned by a filter iff it is in the table and satisfies the predicate |
| `Query.WhereThenWhere` | src/app.py:104-111 | chaining two `query.filter` calls equals one filter on the conjunction, with order kept |
| `Db.StoredUser` | src/db.py:18-22 | the new user row is written iff all four NOT NULL columns hold strings; the row then has the given id and exactly those strings |
| `Db.StoredCarpool` | src/db.py:63-69 | the new carpool row is written iff each column holds a value of its type and each integer fits SQLite's signed 64 bits; the row then has the given id, exactly those values and no passengers |
| `Db.UserInitAsWritten` | src/db.py:26-28 | the user constructor as written never assigns `username` or `password`; both stay unset (None) |
| `Db.UserInit` | src/db.py:26-28 | the corrected constructor assigns all four columns, and if every given credential and name is a string, all four attributes are strings |
| `Db.CarpoolInit` | src/db.py:74-80 | the carpool constructor takes each of its six keyword arguments or its default; what it produces is stated by `Db.CarpoolInitDefaults` and `Db.CarpoolInitTakesGiven` |
| `Db.UserInitAsWrittenDefaults` | src/db.py:26-28 | with no arguments the user constructor sets name and email to "" and leaves username and password unset |
| `Db.UserInitAsWrittenIgnoresCredentials` | src/db.py:26-28 | the user constructor as written gives the same attributes whether or not a username and password are passed |
| `Db.UserInitAsWrittenNeverStored` | src/db.py:21-28 | a user built by the constructor as written can never be written, whatever its arguments |
| `Db.UserInitStoresGivenStrings` | src/db.py:26-28 | the corrected constructor stores exactly the name, email, username and password it is given |
| `Db.CarpoolInitDefaults` | src/db.py:74-80 | with no arguments the carpool constructor sets the string columns to "", `departure_time` and `total_seats` to 0, and `driver_id` to None |
| `Db.CarpoolInitTakesGiven` | src/db.py:74-80 | given all six columns, the carpool constructor takes each value as given and reads no other key |
| `Db.AvailableSeats` | src/db.py:90 | `available_seats` as the serializers compute it; its meaning is stated by `Db.AvailableSeatsMeaning` and `Db.SimpleSerializeCarpool` |
| `Db.AvailableSeatsMeaning` | src/db.py:90 | for a roster within its ceiling, `available_seats` is non-negative and is 0 exactly when the join guard calls the carpool full |
| `Db.SimpleSerializeCarpool` | src/db.py:95-104 | `simple_serialize` reports the carpool's id and `available_seats`; that count is ≤ 0 exactly when the join guard treats the carpool as full, and is never negative while the roster is within `total_seats` |
| `Db.SerializeCarpool` | src/db.py:82-93 | `serialize` agrees with `simple_serialize` on every shared field, `available_seats` included; its `driver` entry is the simple form of the user whose id is `driver_id`, and its `passengers` entries are the simple forms of the passenger users, one per passenger, in roster order |
| `Db.SafeSerializeHidesSecrets` | src/db.py:50-55 | `safe_serialize` holds only id, name and username, and does not change when the email or password changes |
| `Db.SimpleSerializeUser` | src/db.py:41-48 | `User.simple_serialize`: all five columns of the user, serialized form used inside carpool views |
| `Db.SafeSerializeUser` | src/db.py:50-55 | `User.safe_serialize`: id, name and username; what it hides is stated by `Db.SafeSerializeHidesSecrets` |
| `Db.SerializeUser` | src/db.py:30-39 | `User.serialize` agrees with `simple_serialize` on the columns; its `hosted_carpools` and `joined_carpools` entries are the simple forms of exactly the user's hosted and joined carpools, one per carpool, in table order |
| `Db.HostedCarpools` | src/db.py:23 | a carpool is in a user's `hosted_carpools` iff it is in the table and its `driver_id` is the user's id |
| `Db.JoinedCarpools` | src/db.py:24 | a carpool is in a user's `joined_carpools` iff it is in the table and its `passengers` hold the user: the two sides of one relation |
| `Db.HostedByExactlyItsDriver` | src/db.py:23 | a carpool appears in exactly one user's `hosted_carpools`, that of the user whose id is its `driver_id` |
| `App.Error.Code` | src/app.py:21-22 | the whole status table: exactly the failed row lookups answer 404 ("Carpool not found!" and "User not found!" by `failure_response`'s default, "Driver not found!" (src/app.py:76) and "User not found" (src/app.py:187) by passing 404 explicitly); exactly "Invalid password" answers 401; a refused statement is the server error 500; every other failure is 400 |
| `App.LookupUser` | src/app.py:132 | `filter_by(id=...)` on a bindable value finds a user iff the value is an integer between 1 and the table size, and returns it |
| `App.LookupUserFindsRowWithId` | src/app.py:132 | in a table whose ids are positions plus one, the lookup succeeds iff some row's `id` equals the value, and the returned id is that row's `id` |
| `App.UserKwargs` | src/app.py:41-46 | `create_user` passes the constructor exactly the four keywords `name`, `email`, `username` and `password` |
| `App.CreateUserAsWritten` | src/app.py:38-50 | `create_user` as written: the name/email guard, then the write of a row built by the constructor as written; its outcome is stated by `App.CreateUserAsWrittenNeverSucceeds` |
| `App.CreateUserAsWrittenNeverSucceeds` | src/app.py:38-50 | as written, `create_user` never creates a user: a body with truthy name and email still fails at the write |
| `App.CreateUserOutcome` | src/app.py:38-50 | `create_user`, with the corrected constructor `Db.UserInit`: fails with "Missing name or email field" iff name or email is falsy; succeeds iff, in addition, all four fields are strings; the new user then has the next id and exactly the body's strings |
| `App.CreateUserKeepsConsistent` | src/app.py:48-50 | a user created with the corrected constructor `Db.UserInit` keeps the tables consistent, hosts no carpool and has joined none |
| `App.CarpoolKwargs` | src/app.py:78-85 | `create_carpool` passes the constructor exactly the six column keywords |
| `App.CreateCarpoolOutcome` | src/app.py:69-88 | `create_carpool` fails with "Missing required fields" iff one of the six keys is absent; with a server error if the driver id cannot be bound (an array, an object, an integer beyond signed 64 bits); with "Driver not found!" iff, beyond that, the driver does not exist; it succeeds iff the keys are present, the driver exists and every column holds a value of its type, integers within signed 64 bits; a created carpool has the next id, the body's values, an existing driver and no passengers |
| `App.CreateCarpoolKeepsConsistent` | src/app.py:78-88 | a created carpool keeps the tables consistent, has all its seats available, is appended to its driver's hosted list, and changes no user's joined list |
| `App.Search` | src/app.py:102-111 | the query narrowed by each truthy filter in turn never returns more rows than the table holds, and with every filter absent or falsy returns the whole table |
| `App.SearchIsMatchingRows` | src/app.py:102-113 | the chain of filters returns exactly the carpools that meet every truthy criterion, in table order |
| `App.SearchSoundAndComplete` | src/app.py:104-113 | a carpool is returned iff it is in the table and meets every supplied, truthy criterion: destination substring, departure substring, `departure_time >= min_time`, `departure_time <= max_time` |
| `App.SearchResponse` | src/app.py:102-114 | the query is refused (500) iff a truthy time filter lies beyond signed 64 bits; otherwise the response holds one entry per selected carpool, in the same order, each entry the `serialize` of that carpool |
| `App.FirstWithEmail` | src/app.py:184 | `filter_by(email=...).first()` returns the first user with that email, or none iff no user has it |
| `App.Login` | src/app.py:181-195 | login fails with "Missing email or password field" iff a field is falsy; with a server error iff, beyond that, the email cannot be bound; with "User not found" iff no user has that email; on success the user has exactly that email and password; no other error is possible |
| `App.LoginAcceptsFirstMatch` | src/app.py:181-192 | only the first user with an email is checked: with a non-empty stored password it is let in iff the body's password equals that one; any other truthy password gets "Invalid password"; a user whose stored password is "" can never log in; an empty stored email stops at the missing-field guard |
| `App.CreateThenLogin` | src/app.py:41-50 | with the corrected constructor `Db.UserInit`, a user just created with an email no one else has can log in with the password it was created with |
| `App.ResolveMember` | src/app.py:123-134 | shared guards of join and leave: a server error if the URL's carpool id is beyond signed 64 bits; otherwise "Carpool not found!" iff the carpool id is absent, whatever the body; then "Missing user_id field" iff `user_id` is null or missing; a server error iff `user_id` cannot be bound; "User not found!" iff it names no user; it succeeds iff all of these pass, and then returns that id |
| `App.JoinDecision` | src/app.py:123-142 | a join is admitted iff the shared guards pass, the carpool is not full and the user is not yet a passenger; it then admits the user the guards resolved |
| `App.WithPassenger` | src/app.py:142 | `passengers.append(user)` keeps one row per carpool; what changes in it is stated by `App.JoinAppendsExactlyThatUser` |
| `App.JoinMissingCarpoolIgnoresBody` | src/app.py:123-125 | for join and for leave, a missing carpool is reported whatever the body holds (as a server error when its id cannot be bound) |
| `App.JoinRejectsMissingOrUnknownUser` | src/app.py:123-134 | for an existing carpool with a bindable id, a join with no `user_id` fails with "Missing user_id field", one with an unbindable `user_id` with a server error, and one with an unknown id with "User not found!"; an unbindable carpool id is a server error |
| `App.JoinReportsFullBeforeDuplicate` | src/app.py:136-140 | a full carpool reports "Carpool is full!" even to a user who is already a passenger; otherwise a passenger gets "User already joined this carpool!" |
| `App.JoinAppendsExactlyThatUser` | src/app.py:142 | a successful join appends exactly that user: the list grows by one, earlier entries are unchanged, no other field or carpool changes, and the tables stay consistent with no duplicates |
| `App.JoinRespectsCapacity` | src/app.py:136-142 | a roster within its ceiling stays within it across a join; after a successful join, available seats drop by one, are never negative, and are 0 exactly when the carpool is full |
| `App.LeaveDecision` | src/app.py:152-168 | a leave is admitted iff the shared guards pass and the user is a passenger; "User is not in this carpool!" iff the guards pass and the user is not a passenger |
| `App.IndexOf` | src/app.py:168 | the search of `list.remove`: the position of the element's first occurrence |
| `App.RemoveFirst` | src/app.py:168 | `list.remove` makes the list one shorter and takes away exactly one occurrence of the element |
| `App.RemoveFirstKeepsOrder` | src/app.py:168 | `list.remove` cuts out the first occurrence and keeps the other elements in their order |
| `App.RemoveFirstOfAppended` | src/app.py:142 | removing a just-appended element that was not in the list before restores the list |
| `App.RemoveFirstNoDuplicates` | src/app.py:168 | on a duplicate-free list, removal leaves no occurrence of the element and keeps the list duplicate-free |
| `App.WithoutPassenger` | src/app.py:168 | `passengers.remove(user)` keeps one row per carpool; what changes in it is stated by `App.LeaveRemovesThatUser` |
| `App.LeaveRemovesThatUser` | src/app.py:165-170 | a successful leave removes that user and no one else, frees one seat, changes no other carpool and keeps the tables consistent |
| `App.JoinThenLeaveRestores` | src/app.py:142-168 | after a successful join, a leave with the same body is admitted and restores the carpool table exactly |
| `App.ListUsersAsWritten` | src/app.py:25-30 | `get_users` as written: the full `serialize` of every user; what it exposes is stated by `App.ListUsersAsWrittenExposesPasswords` |
| `App.ListUsersAsWrittenExposesPasswords` | src/app.py:25-30 | as written, every entry of the user listing carries that user's password |
| `App.ListUsersHidesSecrets` | src/db.py:50-55 | the corrected listing is the same for any two tables that differ only in emails and passwords |
| `App.Store.constructor` | src/app.py:12-14 | a new database starts with empty, consistent tables |
| `App.Store.CreateUser` | src/app.py:33-50 | with the corrected constructor `Db.UserInit`, `create_user` appends exactly the row `App.CreateUserOutcome` gives and returns it serialized; on failure nothing changes |
| `App.Store.CreateCarpool` | src/app.py:64-88 | `create_carpool` appends exactly the row its decision gives and returns it serialized; on failure nothing changes |
| `App.Store.Join` | src/app.py:117-144 | `join_carpool` follows its guards in order; a failure changes nothing; a success appends the user to that carpool only, keeps the tables consistent and returns the serialized carpool |
| `App.Store.Leave` | src/app.py:147-170 | `leave_carpool` follows its guards in order; a failure changes nothing; a success removes the user from that carpool only, keeps the tables consistent and returns the serialized carpool |

Success statuses (`success_response`'s 200, and 201 for the two creations)
are not part of the model. Each `Error` value's `Message` is the text of the
handler's `failure_response`.

## Findings

| source | as written | input that shows it | evidently intended | confidence | as-written member | corrected member |
|---|---|---|---|---|---|---|
| src/db.py:26-28 | `User.__init__` assigns only `name` and `email`. `username` and `password` are `NOT NULL` columns (src/db.py:21-22) and stay unset, so the commit in `create_user` (src/app.py:48-49) is refused | any body with truthy name and email, e.g. `{"name": "a", "email": "a@b.c", "username": "a", "password": "p"}` | the constructor also assigns `username` and `password`, each defaulting to "" like the other two; `create_user` then stores them and `login` can match the password | high; not executed | `App.CreateUserAsWrittenNeverSucceeds` (with `Db.UserInitAsWrittenNeverStored`) | `Db.UserInit`, used by `App.CreateUserOutcome`; proved by `Db.UserInitStoresGivenStrings` and `App.CreateThenLogin` |
| src/app.py:25-30 | `get_users` is documented as not including passwords, but returns `User.serialize()`, which holds `password` (src/db.py:36) | any table with one user | list users with `safe_serialize` (src/db.py:50-55), which exists for this and is used nowhere | medium; not executed | `App.ListUsersAsWrittenExposesPasswords` | `App.ListUsers`, proved by `App.ListUsersHidesSecrets` |

## Left out

- HTTP and Flask: routing, `json.loads(request.data)`, the `json.dumps` envelopes and HTTP status plumbing. A body is a decoded JSON object; a body that is not an object is not modelled.
- The route clash: `get_carpools` shares the `POST /api/carpools/` route with `create_carpool` (src/app.py:64, src/app.py:91), so over HTTP it is shadowed. Its filter is modelled as the standalone function `App.Search`.
- `App.Search`'s filters are typed values. Text filters are optional strings. Time filters are optional integers, standing in after `int(min_time)` / `int(max_time)`; conversion failures and string-to-int parsing are not modelled.
- SQL `LIKE`: `%` and `_` in the user's text are wildcards the code does not escape, and SQLite ignores ASCII case. The model uses plain, case-sensitive substring containment.
- SQLite's type affinity. `App.LookupUser` finds a user only by an integer id; SQLite would also match a numeric string or `true`. The same holds for the driver lookup and for email lookup by a non-string.
- `Db.StoredUser`, `Db.StoredCarpool`: a value of the wrong JSON type is modelled as a refused write (`StorageRejected`). For null, this matches the `NOT NULL` failure. For other types, SQLite would store the value under its type affinity rules.
- SQLAlchemy sessions, `commit`, the SQLite file configuration and `app.run`. Storage is the two sequences of `App.Store`.
- Row order of the relationships after a reload (SQL gives none). `passengers` keeps the in-session list order. `Db.HostedCarpools` and `Db.JoinedCarpools` list carpools in carpool-table order; that order is a modelling choice.
- `get_user` (src/app.py:53-61) is not modelled. It is a plain lookup by id, like `App.LookupUser`.
- Password storage and hashing. Login is an email lookup plus exact string equality.
- The pending/accept/decline workflow, the two-hour schedule-conflict check, a driver seat reserved out of the capacity, and ride deletion. None exists in this code.
- Concurrency. The model runs requests one at a time. The source serves them on threads (`app.run(debug=True)`, src/app.py:199, uses the threaded development server), so two concurrent `join_carpool` requests can both pass the capacity check (src/app.py:136) before either appends, overbooking the carpool, and two for the same user can both pass the duplicate check (src/app.py:139), listing that user twice. `Consistent`'s no-duplicates clause and `App.JoinRespectsCapacity` hold only for sequential requests.
- Floating-point JSON numbers.
