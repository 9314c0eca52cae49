/**
 * The relational store behind the application: the `users`, `sessions`,
 * `sensors`, `clothes` and `data` tables and the CRUD functions over them.
 *
 * Each table keyed by an auto-increment id is a map from id to row plus the
 * next id the counter will hand out; `sessions` is keyed by its text id;
 * `data` is append-only and kept in insertion order. Every mutating function
 * is a state transformer: it returns its result together with the new store.
 * A function that raises (a violated UNIQUE or FOREIGN KEY constraint)
 * returns `Raised` with the store after the failure: no row is written, but
 * an INSERT into a table with an auto-increment key has already drawn the
 * next id, which InnoDB does not hand out again. The `ON DELETE CASCADE`
 * clauses of the schema are part of `DeleteUser`.
 */
module Store {

  import opened Wrappers
  import Text

  datatype User = User(username: string, password: string, email: string, location: string, createdAt: nat)
  datatype Session = Session(userId: int, lastAccess: nat)
  datatype Sensor = Sensor(userId: int, kind: string, units: string, address: string)
  datatype Clothes = Clothes(userId: int, name: string, kind: string, imageAddress: string)

  /** A row of the `data` table. The FLOAT reading is kept as a real number
      that nothing in the model computes with. */
  datatype Reading = Reading(id: int, address: string, kind: string, value: real, timestamp: nat)

  datatype Db = Db(
    users: map<int, User>,
    sessions: map<string, Session>,
    sensors: map<int, Sensor>,
    clothes: map<int, Clothes>,
    data: seq<Reading>,
    nextUserId: int,
    nextSensorId: int,
    nextClothesId: int,
    nextDataId: int)

  /** Why a statement raised instead of completing. */
  datatype Fault =
    | DuplicateEntry    // a PRIMARY KEY or UNIQUE column already holds the value
    | MissingParent     // a FOREIGN KEY names a user that does not exist
    | NoneAttribute     // Python code called `.get` on a `None` row

  /** The outcome of a statement that may raise; `db` is the store afterwards
      either way. */
  datatype Res<T> = Done(value: T, db: Db) | Raised(fault: Fault, db: Db)

  /** The outcome of a statement that reports success as a boolean. */
  datatype Change = Change(ok: bool, db: Db)

  /** Python truthiness of an optional text argument: `None` and `""` are falsy. */
  predicate Truthy(o: Option<string>) {
    o.Some? && o.value != ""
  }

  /** The new value of a column in a partial update: the argument when truthy. */
  function Pick(o: Option<string>, current: string): (r: string)
    ensures Truthy(o) ==> r == o.value
    ensures !Truthy(o) ==> r == current
  {
    if Truthy(o) then o.value else current
  }

  /** The integer an id given as text stands for when it is compared with an
      INT key column: an optional minus sign and the leading decimal digits. */
  function ColumnId(s: string): (id: int)
    ensures (|s| == 0 || (s[0] != '-' && !Text.IsDigit(s[0]))) ==> id == 0
  {
    if |s| > 0 && s[0] == '-' then 0 - Text.ParseNat(Text.LeadingDigits(s[1..])) as int
    else Text.ParseNat(Text.LeadingDigits(s))
  }

  /** An id written out as Python's `str` does is read back unchanged. */
  lemma ColumnIdOfText(id: int)
    ensures ColumnId(Text.IntToString(id)) == id
  {
    var n := if id < 0 then -id else id;
    var digits := Text.NatToString(n);
    Text.LeadingDigitsOfDigits(digits);
    Text.ParseNatToString(n);
    if id < 0 {
      assert Text.IntToString(id)[1..] == digits;
    } else {
      assert Text.IsDigit(digits[0]);
    }
  }

  // ---------------------------------------------------------------------------
  // Integrity of the store
  // ---------------------------------------------------------------------------

  /** No two users share a username or an email (the UNIQUE columns). */
  predicate UniqueUsers(users: map<int, User>) {
    forall a, b :: a in users && b in users && a != b ==>
      users[a].username != users[b].username && users[a].email != users[b].email
  }

  /** Every id in a table lies below the table's auto-increment counter. */
  predicate IdsBelow<T>(m: map<int, T>, next: int) {
    forall id :: id in m ==> 1 <= id < next
  }

  /** The constraints the schema declares, plus the counters' meaning. */
  predicate Valid(db: Db) {
    && db.nextUserId >= 1 && db.nextSensorId >= 1 && db.nextClothesId >= 1 && db.nextDataId >= 1
    && IdsBelow(db.users, db.nextUserId)
    && IdsBelow(db.sensors, db.nextSensorId)
    && IdsBelow(db.clothes, db.nextClothesId)
    && UniqueUsers(db.users)
    && (forall sid :: sid in db.sessions ==> db.sessions[sid].userId in db.users)
    && (forall id :: id in db.sensors ==> db.sensors[id].userId in db.users)
    && (forall id :: id in db.clothes ==> db.clothes[id].userId in db.users)
    && (forall i :: 0 <= i < |db.data| ==> 1 <= db.data[i].id < db.nextDataId)
  }

  /** The freshly created schema with no rows. */
  function Empty(): (db: Db)
    ensures Valid(db)
  {
    Db(map[], map[], map[], map[], [], 1, 1, 1, 1)
  }

  // ---------------------------------------------------------------------------
  // Scans in primary-key order
  // ---------------------------------------------------------------------------

  /** The smallest id in [lo, hi) whose row satisfies `p`. */
  function FirstId<T>(m: map<int, T>, lo: int, hi: int, p: T -> bool): (r: Option<int>)
    ensures r.Some? ==> lo <= r.value < hi && r.value in m && p(m[r.value])
    ensures r.Some? ==> forall id :: lo <= id < r.value && id in m ==> !p(m[id])
    ensures r.None? ==> forall id :: lo <= id < hi && id in m ==> !p(m[id])
    decreases hi - lo
  {
    if lo >= hi then None
    else if lo in m && p(m[lo]) then Some(lo)
    else FirstId(m, lo + 1, hi, p)
  }

  /** All ids in [lo, hi) whose row satisfies `p`, in increasing order. */
  function IdsWhere<T>(m: map<int, T>, lo: int, hi: int, p: T -> bool): (ids: seq<int>)
    ensures forall id :: id in ids <==> lo <= id < hi && id in m && p(m[id])
    ensures forall i :: 0 <= i < |ids| ==> lo <= ids[i] < hi
    ensures forall i, j :: 0 <= i < j < |ids| ==> ids[i] < ids[j]
    decreases hi - lo
  {
    if lo >= hi then []
    else
      var rest := IdsWhere(m, lo + 1, hi, p);
      if lo in m && p(m[lo]) then [lo] + rest else rest
  }

  /** The rows of `m` whose ids are listed, in the listed order. */
  function RowsOf<T>(m: map<int, T>, ids: seq<int>): (rows: seq<(int, T)>)
    requires forall i :: 0 <= i < |ids| ==> ids[i] in m
    ensures |rows| == |ids|
    ensures forall i :: 0 <= i < |ids| ==> rows[i] == (ids[i], m[ids[i]])
  {
    seq(|ids|, i requires 0 <= i < |ids| => (ids[i], m[ids[i]]))
  }

  // ---------------------------------------------------------------------------
  // Schema setup
  // ---------------------------------------------------------------------------

  datatype NewUser = NewUser(username: string, password: string, email: string, location: string)

  /** Two initial users that the UNIQUE columns cannot both hold. */
  predicate Clash(a: NewUser, b: NewUser) {
    a.username == b.username || a.email == b.email
  }

  function RowOf(row: NewUser, now: nat): User {
    User(row.username, row.password, row.email, row.location, now)
  }

  /** The row the k-th initial user (counting from 1) becomes. */
  function InitialRow(initial: seq<NewUser>, k: int, now: nat): User
    requires 1 <= k <= |initial|
  {
    RowOf(initial[k - 1], now)
  }

  /** `setup_database`: drops and recreates every table, then inserts the
      initial users in order under ids 1, 2, ... in one transaction. A
      duplicate username or email among them raises, and since the inserts
      are committed together no user is left behind. */
  function Setup(initial: seq<NewUser>, now: nat): (r: Result<Db, Fault>)
    ensures r.Ok? ==> Valid(r.value)
    ensures r.Ok? ==> forall k :: k in r.value.users <==> 1 <= k <= |initial|
    ensures r.Ok? ==> forall k :: 1 <= k <= |initial| ==> r.value.users[k] == RowOf(initial[k - 1], now)
    ensures r.Ok? ==> r.value.nextUserId == |initial| + 1
    ensures r.Ok? ==> r.value.sessions == map[] && r.value.sensors == map[] && r.value.clothes == map[] && r.value.data == []
    ensures r.Err? <==> exists i, j :: 0 <= i < j < |initial| && Clash(initial[i], initial[j])
    ensures r.Err? ==> r.error == DuplicateEntry
  {
    if exists i, j :: 0 <= i < j < |initial| && Clash(initial[i], initial[j]) then Err(DuplicateEntry)
    else
      var users := map k | 1 <= k <= |initial| :: InitialRow(initial, k, now);
      assert UniqueUsers(users) by {
        forall a, b | a in users && b in users && a < b
          ensures users[a].username != users[b].username && users[a].email != users[b].email
        {
          assert !Clash(initial[a - 1], initial[b - 1]);
        }
      }
      Ok(Empty().(users := users, nextUserId := |initial| + 1))
  }

  // ---------------------------------------------------------------------------
  // Sessions
  // ---------------------------------------------------------------------------

  /** `create_session`: inserts a session whose last access is now. */
  function CreateSession(db: Db, userId: int, sid: string, now: nat): (r: Res<bool>)
    ensures r.Done? <==> sid !in db.sessions && userId in db.users
    ensures r.Raised? ==> r.fault == (if sid in db.sessions then DuplicateEntry else MissingParent) && r.db == db
    ensures r.Done? ==> r.value && r.db == db.(sessions := db.sessions[sid := Session(userId, now)])
    ensures Valid(db) && r.Done? ==> Valid(r.db)
  {
    if sid in db.sessions then Raised(DuplicateEntry, db)
    else if userId !in db.users then Raised(MissingParent, db)
    else Done(true, db.(sessions := db.sessions[sid := Session(userId, now)]))
  }

  /** `get_session`. */
  function GetSession(db: Db, sid: string): (r: Option<Session>)
    ensures r.Some? <==> sid in db.sessions
    ensures r.Some? ==> r.value == db.sessions[sid]
  {
    if sid in db.sessions then Some(db.sessions[sid]) else None
  }

  /** Whether an UPDATE that turns `before` into `after` counts as an affected
      row: MySQL reports only rows whose values actually change. */
  predicate Affected<T(==)>(before: T, after: T) {
    before != after
  }

  /** `extend_session`: sets the session's last access to now. A failure to
      reach the database (`unreachable`) is caught and reported as False. */
  function ExtendSession(db: Db, sid: string, now: nat, unreachable: bool): (r: Change)
    ensures r.db == db.(sessions := r.db.sessions)
    ensures r.db.sessions.Keys == db.sessions.Keys
    ensures forall k :: k in db.sessions && k != sid ==> r.db.sessions[k] == db.sessions[k]
    ensures sid in db.sessions && !unreachable ==>
      r.db.sessions[sid] == db.sessions[sid].(lastAccess := now)
    ensures unreachable ==> r.db == db
    ensures r.ok ==> sid in db.sessions && !unreachable
    ensures sid !in db.sessions ==> !r.ok && r.db == db
    ensures Valid(db) ==> Valid(r.db)
  {
    if unreachable || sid !in db.sessions then Change(false, db)
    else
      var s := db.sessions[sid];
      var s' := s.(lastAccess := now);
      Change(Affected(s, s'), db.(sessions := db.sessions[sid := s']))
  }

  /** `delete_session_by_id`: always reports success. */
  function DeleteSessionById(db: Db, sid: string): (r: Change)
    ensures r.ok
    ensures r.db == db.(sessions := r.db.sessions)
    ensures r.db.sessions.Keys == db.sessions.Keys - {sid}
    ensures forall k :: k in r.db.sessions ==> r.db.sessions[k] == db.sessions[k]
    ensures Valid(db) ==> Valid(r.db)
  {
    Change(true, db.(sessions := db.sessions - {sid}))
  }

  /** The sessions that do not belong to `userId`. */
  function SessionsNotOf(sessions: map<string, Session>, userId: int): (r: map<string, Session>)
    ensures forall k :: k in r <==> k in sessions && sessions[k].userId != userId
    ensures forall k :: k in r ==> r[k] == sessions[k]
  {
    map k | k in sessions && sessions[k].userId != userId :: sessions[k]
  }

  /** `delete_session_by_user_id`: removes every session of the user and
      always reports success. */
  function DeleteSessionsOfUser(db: Db, userId: int): (r: Change)
    ensures r.ok
    ensures r.db == db.(sessions := r.db.sessions)
    ensures forall k :: k in r.db.sessions <==> k in db.sessions && db.sessions[k].userId != userId
    ensures forall k :: k in r.db.sessions ==> r.db.sessions[k] == db.sessions[k]
    ensures Valid(db) ==> Valid(r.db)
  {
    Change(true, db.(sessions := SessionsNotOf(db.sessions, userId)))
  }

  // ---------------------------------------------------------------------------
  // Users
  // ---------------------------------------------------------------------------

  /** `get_user_by_id`. */
  function GetUserById(db: Db, userId: int): (r: Option<User>)
    ensures r.Some? <==> userId in db.users
    ensures r.Some? ==> r.value == db.users[userId]
  {
    if userId in db.users then Some(db.users[userId]) else None
  }

  /** `get_user_by_username`: the first matching row in id order, with its id. */
  function GetUserByUsername(db: Db, username: string): (r: Option<(int, User)>)
    ensures r.Some? ==> r.value.0 in db.users && db.users[r.value.0] == r.value.1 && r.value.1.username == username
    ensures Valid(db) ==> (r.None? <==> forall id :: id in db.users ==> db.users[id].username != username)
  {
    match FirstId(db.users, 1, db.nextUserId, (u: User) => u.username == username)
    case None => None
    case Some(id) => Some((id, db.users[id]))
  }

  /** Some other user already holds the username or the email of `u`. */
  predicate TakenByOther(users: map<int, User>, self: int, u: User) {
    exists other :: other in users && other != self && (users[other].username == u.username || users[other].email == u.email)
  }

  /** `create_user`: inserts a user under the next auto-increment id, which
      is used up even when the insert raises. */
  function CreateUser(db: Db, username: string, password: string, email: string, location: string, now: nat): (r: Res<int>)
    ensures r.Raised? <==> exists other :: other in db.users && (db.users[other].username == username || db.users[other].email == email)
    ensures r.Raised? ==> r.fault == DuplicateEntry && r.db == db.(nextUserId := db.nextUserId + 1)
    ensures r.Done? ==> r.value == db.nextUserId && r.db == db.(
      users := db.users[db.nextUserId := User(username, password, email, location, now)],
      nextUserId := db.nextUserId + 1)
    ensures Valid(db) ==> Valid(r.db)
    ensures Valid(db) && r.Done? ==> r.value !in db.users
  {
    var u := User(username, password, email, location, now);
    if exists other :: other in db.users && (db.users[other].username == username || db.users[other].email == email) then
      Raised(DuplicateEntry, db.(nextUserId := db.nextUserId + 1))
    else
      Done(db.nextUserId, db.(users := db.users[db.nextUserId := u], nextUserId := db.nextUserId + 1))
  }

  /** A rejected insert leaves a gap: the next user to be created gets the
      id after the one the failed insert drew, and no row holds the skipped
      id. */
  lemma FailedInsertLeavesGap(db: Db, u1: User, u2: User, now: nat)
    requires Valid(db)
    requires CreateUser(db, u1.username, u1.password, u1.email, u1.location, now).Raised?
    ensures var after := CreateUser(db, u1.username, u1.password, u1.email, u1.location, now).db;
      var r := CreateUser(after, u2.username, u2.password, u2.email, u2.location, now);
      r.Done? ==> r.value == db.nextUserId + 1 && db.nextUserId !in r.db.users
  {
  }

  /** `update_user_by_id`: overwrites exactly the columns whose argument is
      truthy. With no truthy argument it reports success without touching
      anything; otherwise it reports whether the row changed. */
  function UpdateUser(db: Db, userId: int, newUsername: Option<string>, newPassword: Option<string>,
                      newEmail: Option<string>, newLocation: Option<string>): (r: Res<bool>)
    ensures !Truthy(newUsername) && !Truthy(newPassword) && !Truthy(newEmail) && !Truthy(newLocation) ==>
      r == Done(true, db)
    ensures r.Done? ==> r.db == db.(users := r.db.users) && r.db.users.Keys == db.users.Keys
    ensures r.Done? ==> forall id :: id in db.users && id != userId ==> r.db.users[id] == db.users[id]
    ensures r.Done? && userId in db.users ==> r.db.users[userId] == db.users[userId].(
      username := Pick(newUsername, db.users[userId].username),
      password := Pick(newPassword, db.users[userId].password),
      email := Pick(newEmail, db.users[userId].email),
      location := Pick(newLocation, db.users[userId].location))
    ensures userId !in db.users ==> r.Done? && r.db == db
    ensures userId !in db.users && (Truthy(newUsername) || Truthy(newPassword) || Truthy(newEmail) || Truthy(newLocation)) ==> !r.value
    ensures r.Done? && (Truthy(newUsername) || Truthy(newPassword) || Truthy(newEmail) || Truthy(newLocation)) ==>
      (r.value <==> userId in db.users && r.db.users[userId] != db.users[userId])
    ensures r.Raised? ==> r.fault == DuplicateEntry && userId in db.users && r.db == db
    ensures Valid(db) && r.Done? ==> Valid(r.db)
  {
    if !Truthy(newUsername) && !Truthy(newPassword) && !Truthy(newEmail) && !Truthy(newLocation) then
      Done(true, db)
    else if userId !in db.users then
      Done(false, db)
    else
      var u := db.users[userId];
      var u' := u.(username := Pick(newUsername, u.username), password := Pick(newPassword, u.password),
                   email := Pick(newEmail, u.email), location := Pick(newLocation, u.location));
      if TakenByOther(db.users, userId, u') then Raised(DuplicateEntry, db)
      else Done(Affected(u, u'), db.(users := db.users[userId := u']))
  }

  /** `delete_user_by_id`: removes the user and, through the schema's
      ON DELETE CASCADE, every session, sensor and clothing item it owns.
      The `data` table has no owner column and is untouched. */
  function DeleteUser(db: Db, userId: int): (r: Change)
    ensures r.ok <==> userId in db.users
    ensures r.db.users == db.users - {userId}
    ensures forall k :: k in r.db.sessions <==> k in db.sessions && db.sessions[k].userId != userId
    ensures forall k :: k in r.db.sessions ==> r.db.sessions[k] == db.sessions[k]
    ensures forall id :: id in r.db.sensors <==> id in db.sensors && db.sensors[id].userId != userId
    ensures forall id :: id in r.db.sensors ==> r.db.sensors[id] == db.sensors[id]
    ensures forall id :: id in r.db.clothes <==> id in db.clothes && db.clothes[id].userId != userId
    ensures forall id :: id in r.db.clothes ==> r.db.clothes[id] == db.clothes[id]
    ensures r.db.data == db.data
    ensures r.db.nextUserId == db.nextUserId && r.db.nextSensorId == db.nextSensorId
    ensures r.db.nextClothesId == db.nextClothesId && r.db.nextDataId == db.nextDataId
    ensures Valid(db) ==> Valid(r.db)
  {
    var sensors := map id | id in db.sensors && db.sensors[id].userId != userId :: db.sensors[id];
    var clothes := map id | id in db.clothes && db.clothes[id].userId != userId :: db.clothes[id];
    Change(userId in db.users, db.(
      users := db.users - {userId},
      sessions := SessionsNotOf(db.sessions, userId),
      sensors := sensors,
      clothes := clothes))
  }

  // ---------------------------------------------------------------------------
  // Sensors
  // ---------------------------------------------------------------------------

  /** `get_sensor_by_id`. */
  function GetSensor(db: Db, sensorId: int): (r: Option<Sensor>)
    ensures r.Some? <==> sensorId in db.sensors
    ensures r.Some? ==> r.value == db.sensors[sensorId]
  {
    if sensorId in db.sensors then Some(db.sensors[sensorId]) else None
  }

  /** `get_sensors_by_user_id`: the user's sensors in id order. */
  function SensorsOfUser(db: Db, userId: int): (rows: seq<(int, Sensor)>)
    ensures Valid(db) ==> forall id :: id in db.sensors && db.sensors[id].userId == userId ==>
      exists i :: 0 <= i < |rows| && rows[i].0 == id
    ensures forall i :: 0 <= i < |rows| ==> rows[i].0 in db.sensors && rows[i].1 == db.sensors[rows[i].0]
    ensures forall i :: 0 <= i < |rows| ==> rows[i].1.userId == userId
    ensures forall i, j :: 0 <= i < j < |rows| ==> rows[i].0 < rows[j].0
  {
    var ids := IdsWhere(db.sensors, 1, db.nextSensorId, (s: Sensor) => s.userId == userId);
    var rows := RowsOf(db.sensors, ids);
    assert forall id :: id in ids ==> exists i :: 0 <= i < |ids| && ids[i] == id;
    rows
  }

  /** `add_sensor`: inserts a sensor owned by `userId` under the next id,
      which is used up even when the insert raises. */
  function AddSensor(db: Db, userId: int, kind: string, units: string, address: string): (r: Res<int>)
    ensures r.Done? <==> userId in db.users
    ensures r.Raised? ==> r.fault == MissingParent && r.db == db.(nextSensorId := db.nextSensorId + 1)
    ensures r.Done? ==> r.value == db.nextSensorId && r.db == db.(
      sensors := db.sensors[db.nextSensorId := Sensor(userId, kind, units, address)],
      nextSensorId := db.nextSensorId + 1)
    ensures Valid(db) ==> Valid(r.db)
    ensures Valid(db) && r.Done? ==> r.value >= 1 && r.value !in db.sensors
  {
    if userId !in db.users then Raised(MissingParent, db.(nextSensorId := db.nextSensorId + 1))
    else Done(db.nextSensorId, db.(sensors := db.sensors[db.nextSensorId := Sensor(userId, kind, units, address)],
                                   nextSensorId := db.nextSensorId + 1))
  }

  /** `update_sensor`: the partial update of one sensor row. */
  function UpdateSensor(db: Db, sensorId: int, newKind: Option<string>, newUnits: Option<string>,
                        newAddress: Option<string>): (r: Change)
    ensures !Truthy(newKind) && !Truthy(newUnits) && !Truthy(newAddress) ==> r == Change(true, db)
    ensures r.db == db.(sensors := r.db.sensors) && r.db.sensors.Keys == db.sensors.Keys
    ensures forall id :: id in db.sensors && id != sensorId ==> r.db.sensors[id] == db.sensors[id]
    ensures sensorId in db.sensors ==> r.db.sensors[sensorId] == db.sensors[sensorId].(
      kind := Pick(newKind, db.sensors[sensorId].kind),
      units := Pick(newUnits, db.sensors[sensorId].units),
      address := Pick(newAddress, db.sensors[sensorId].address))
    ensures sensorId !in db.sensors ==> r.db == db
    ensures sensorId !in db.sensors && (Truthy(newKind) || Truthy(newUnits) || Truthy(newAddress)) ==> !r.ok
    ensures Truthy(newKind) || Truthy(newUnits) || Truthy(newAddress) ==>
      (r.ok <==> sensorId in db.sensors && r.db.sensors[sensorId] != db.sensors[sensorId])
    ensures Valid(db) ==> Valid(r.db)
  {
    if !Truthy(newKind) && !Truthy(newUnits) && !Truthy(newAddress) then Change(true, db)
    else if sensorId !in db.sensors then Change(false, db)
    else
      var s := db.sensors[sensorId];
      var s' := s.(kind := Pick(newKind, s.kind), units := Pick(newUnits, s.units), address := Pick(newAddress, s.address));
      Change(Affected(s, s'), db.(sensors := db.sensors[sensorId := s']))
  }

  /** `delete_sensor`: removes one sensor row; False when there was none. */
  function DeleteSensor(db: Db, sensorId: int): (r: Change)
    ensures r.ok <==> sensorId in db.sensors
    ensures r.db == db.(sensors := db.sensors - {sensorId})
    ensures Valid(db) ==> Valid(r.db)
  {
    Change(sensorId in db.sensors, db.(sensors := db.sensors - {sensorId}))
  }

  // ---------------------------------------------------------------------------
  // Clothes
  // ---------------------------------------------------------------------------

  /** `get_clothes_by_id`. */
  function GetClothes(db: Db, clothesId: int): (r: Option<Clothes>)
    ensures r.Some? <==> clothesId in db.clothes
    ensures r.Some? ==> r.value == db.clothes[clothesId]
  {
    if clothesId in db.clothes then Some(db.clothes[clothesId]) else None
  }

  /** `get_clothes_by_user_id`: the user's clothing items in id order. */
  function ClothesOfUser(db: Db, userId: int): (rows: seq<(int, Clothes)>)
    ensures Valid(db) ==> forall id :: id in db.clothes && db.clothes[id].userId == userId ==>
      exists i :: 0 <= i < |rows| && rows[i].0 == id
    ensures forall i :: 0 <= i < |rows| ==> rows[i].0 in db.clothes && rows[i].1 == db.clothes[rows[i].0]
    ensures forall i :: 0 <= i < |rows| ==> rows[i].1.userId == userId
    ensures forall i, j :: 0 <= i < j < |rows| ==> rows[i].0 < rows[j].0
  {
    var ids := IdsWhere(db.clothes, 1, db.nextClothesId, (c: Clothes) => c.userId == userId);
    var rows := RowsOf(db.clothes, ids);
    assert forall id :: id in ids ==> exists i :: 0 <= i < |ids| && ids[i] == id;
    rows
  }

  /** `add_clothes`: inserts a clothing item owned by `userId` under the next
      id, which is used up even when the insert raises. */
  function AddClothes(db: Db, userId: int, name: string, kind: string, imageAddress: string): (r: Res<int>)
    ensures r.Done? <==> userId in db.users
    ensures r.Raised? ==> r.fault == MissingParent && r.db == db.(nextClothesId := db.nextClothesId + 1)
    ensures r.Done? ==> r.value == db.nextClothesId && r.db == db.(
      clothes := db.clothes[db.nextClothesId := Clothes(userId, name, kind, imageAddress)],
      nextClothesId := db.nextClothesId + 1)
    ensures Valid(db) ==> Valid(r.db)
    ensures Valid(db) && r.Done? ==> r.value >= 1 && r.value !in db.clothes
  {
    if userId !in db.users then Raised(MissingParent, db.(nextClothesId := db.nextClothesId + 1))
    else Done(db.nextClothesId, db.(clothes := db.clothes[db.nextClothesId := Clothes(userId, name, kind, imageAddress)],
                                    nextClothesId := db.nextClothesId + 1))
  }

  /** `update_clothes`: the partial update of one clothing row. */
  function UpdateClothes(db: Db, clothesId: int, newName: Option<string>, newKind: Option<string>,
                         newImageAddress: Option<string>): (r: Change)
    ensures !Truthy(newName) && !Truthy(newKind) && !Truthy(newImageAddress) ==> r == Change(true, db)
    ensures r.db == db.(clothes := r.db.clothes) && r.db.clothes.Keys == db.clothes.Keys
    ensures forall id :: id in db.clothes && id != clothesId ==> r.db.clothes[id] == db.clothes[id]
    ensures clothesId in db.clothes ==> r.db.clothes[clothesId] == db.clothes[clothesId].(
      name := Pick(newName, db.clothes[clothesId].name),
      kind := Pick(newKind, db.clothes[clothesId].kind),
      imageAddress := Pick(newImageAddress, db.clothes[clothesId].imageAddress))
    ensures clothesId !in db.clothes ==> r.db == db
    ensures clothesId !in db.clothes && (Truthy(newName) || Truthy(newKind) || Truthy(newImageAddress)) ==> !r.ok
    ensures Truthy(newName) || Truthy(newKind) || Truthy(newImageAddress) ==>
      (r.ok <==> clothesId in db.clothes && r.db.clothes[clothesId] != db.clothes[clothesId])
    ensures Valid(db) ==> Valid(r.db)
  {
    if !Truthy(newName) && !Truthy(newKind) && !Truthy(newImageAddress) then Change(true, db)
    else if clothesId !in db.clothes then Change(false, db)
    else
      var c := db.clothes[clothesId];
      var c' := c.(name := Pick(newName, c.name), kind := Pick(newKind, c.kind),
                   imageAddress := Pick(newImageAddress, c.imageAddress));
      Change(Affected(c, c'), db.(clothes := db.clothes[clothesId := c']))
  }

  /** `delete_clothes`: removes one clothing row; False when there was none. */
  function DeleteClothes(db: Db, clothesId: int): (r: Change)
    ensures r.ok <==> clothesId in db.clothes
    ensures r.db == db.(clothes := db.clothes - {clothesId})
    ensures Valid(db) ==> Valid(r.db)
  {
    Change(clothesId in db.clothes, db.(clothes := db.clothes - {clothesId}))
  }

  // ---------------------------------------------------------------------------
  // Readings
  // ---------------------------------------------------------------------------

  /** `add_data`: appends a reading stamped with the current time. */
  function AddData(db: Db, value: real, kind: string, address: string, now: nat): (r: Res<int>)
    ensures r.Done?
    ensures r.value == db.nextDataId
    ensures r.db == db.(data := db.data + [Reading(db.nextDataId, address, kind, value, now)], nextDataId := db.nextDataId + 1)
    ensures Valid(db) ==> Valid(r.db) && r.value >= 1
  {
    Done(db.nextDataId, db.(data := db.data + [Reading(db.nextDataId, address, kind, value, now)],
                            nextDataId := db.nextDataId + 1))
  }

  /** The readings of `rs` taken at `address`, in their original order. */
  function FromAddress(rs: seq<Reading>, address: string): (r: seq<Reading>)
    ensures |r| <= |rs|
    ensures forall x :: x in r <==> x in rs && x.address == address
    decreases |rs|
  {
    if |rs| == 0 then []
    else
      var rest := FromAddress(rs[1..], address);
      assert rs == [rs[0]] + rs[1..];
      if rs[0].address == address then [rs[0]] + rest else rest
  }

  predicate Matches(x: Reading, address: string, kind: string) {
    x.address == address && x.kind == kind
  }

  /** The newest reading matching the address and the type; among equally
      new ones, the earliest inserted. */
  function Newest(rs: seq<Reading>, address: string, kind: string): (r: Option<Reading>)
    ensures r.Some? ==> r.value in rs && Matches(r.value, address, kind)
    ensures r.Some? ==> forall i :: 0 <= i < |rs| && Matches(rs[i], address, kind) ==> rs[i].timestamp <= r.value.timestamp
    ensures r.None? <==> forall i :: 0 <= i < |rs| ==> !Matches(rs[i], address, kind)
    decreases |rs|
  {
    if |rs| == 0 then None
    else
      var rest := Newest(rs[1..], address, kind);
      assert forall i :: 1 <= i < |rs| ==> rs[i] == rs[1..][i - 1];
      if !Matches(rs[0], address, kind) then rest
      else if rest.Some? && rest.value.timestamp > rs[0].timestamp then rest
      else Some(rs[0])
  }

  /** `get_recent_data`: the newest reading whose address and type both equal
      the sensor's; None when the sensor or such a reading does not exist. */
  function GetRecentData(db: Db, sensorId: int): (r: Option<Reading>)
    ensures sensorId !in db.sensors ==> r.None?
    ensures r.Some? ==> r.value in db.data && Matches(r.value, db.sensors[sensorId].address, db.sensors[sensorId].kind)
    ensures r.Some? ==> forall i :: 0 <= i < |db.data| && Matches(db.data[i], db.sensors[sensorId].address, db.sensors[sensorId].kind) ==>
      db.data[i].timestamp <= r.value.timestamp
    ensures sensorId in db.sensors && r.None? ==>
      forall i :: 0 <= i < |db.data| ==> !Matches(db.data[i], db.sensors[sensorId].address, db.sensors[sensorId].kind)
  {
    if sensorId !in db.sensors then None
    else Newest(db.data, db.sensors[sensorId].address, db.sensors[sensorId].kind)
  }

  predicate SortedNewestFirst(rs: seq<Reading>) {
    forall i, j :: 0 <= i < j < |rs| ==> rs[i].timestamp >= rs[j].timestamp
  }

  function InsertNewestFirst(x: Reading, rs: seq<Reading>): (r: seq<Reading>)
    requires SortedNewestFirst(rs)
    ensures SortedNewestFirst(r)
    ensures multiset(r) == multiset(rs) + multiset{x}
    ensures forall y :: y in r ==> y == x || y in rs
    ensures |r| == |rs| + 1
    decreases |rs|
  {
    if |rs| == 0 || x.timestamp >= rs[0].timestamp then [x] + rs
    else
      var rest := InsertNewestFirst(x, rs[1..]);
      assert rs == [rs[0]] + rs[1..];
      var r := [rs[0]] + rest;
      assert forall j :: 0 < j < |r| ==> r[j] == rest[j - 1];
      assert forall y :: y in rs[1..] ==> y.timestamp <= rs[0].timestamp;
      r
  }

  function SortNewestFirst(rs: seq<Reading>): (r: seq<Reading>)
    ensures SortedNewestFirst(r)
    ensures multiset(r) == multiset(rs)
    ensures |r| == |rs|
    decreases |rs|
  {
    if |rs| == 0 then []
    else
      assert rs == [rs[0]] + rs[1..];
      InsertNewestFirst(rs[0], SortNewestFirst(rs[1..]))
  }

  /** `get_data_by_sensor_id`: up to `limit` readings whose address equals
      the sensor's (the type is not compared), newest first. A missing
      sensor makes the code call `.get` on None, which raises. */
  function GetDataBySensorId(db: Db, sensorId: int, limit: nat): (r: Result<seq<Reading>, Fault>)
    ensures r.Err? <==> sensorId !in db.sensors
    ensures r.Err? ==> r.error == NoneAttribute
    ensures r.Ok? ==> SortedNewestFirst(r.value)
    ensures r.Ok? ==> forall x :: x in r.value ==> x in db.data && x.address == db.sensors[sensorId].address
    ensures r.Ok? ==> |r.value| == Min(limit, |FromAddress(db.data, db.sensors[sensorId].address)|)
    ensures r.Ok? ==> forall i, y :: 0 <= i < |r.value| && y in multiset(FromAddress(db.data, db.sensors[sensorId].address)) - multiset(r.value) ==>
      y.timestamp <= r.value[i].timestamp
  {
    if sensorId !in db.sensors then Err(NoneAttribute)
    else Ok(NewestFirst(FromAddress(db.data, db.sensors[sensorId].address), limit))
  }

  function Min(a: nat, b: nat): nat {
    if a < b then a else b
  }

  /** Cutting a newest-first sequence leaves nothing newer behind. */
  lemma PrefixIsNewest(sorted: seq<Reading>, limit: nat)
    requires SortedNewestFirst(sorted)
    requires limit < |sorted|
    ensures SortedNewestFirst(sorted[..limit])
    ensures multiset(sorted[..limit]) <= multiset(sorted)
    ensures forall i, y :: 0 <= i < limit && y in multiset(sorted) - multiset(sorted[..limit]) ==>
      y.timestamp <= sorted[i].timestamp
  {
    var taken := sorted[..limit];
    var dropped := sorted[limit..];
    assert sorted == taken + dropped;
    assert multiset(sorted) - multiset(taken) == multiset(dropped);
    forall i, y: Reading | 0 <= i < limit && y in multiset(dropped)
      ensures y.timestamp <= sorted[i].timestamp
    {
      assert y in dropped;
      var j :| 0 <= j < |dropped| && dropped[j] == y;
      assert y == sorted[limit + j];
    }
  }

  /** The `limit` newest of `rs`, newest first: a sub-multiset of `rs` in
      which no reading is older than one left out. */
  function NewestFirst(rs: seq<Reading>, limit: nat): (r: seq<Reading>)
    ensures SortedNewestFirst(r)
    ensures multiset(r) <= multiset(rs)
    ensures |r| == Min(limit, |rs|)
    ensures forall i, y :: 0 <= i < |r| && y in multiset(rs) - multiset(r) ==> y.timestamp <= r[i].timestamp
  {
    var sorted := SortNewestFirst(rs);
    if limit < |sorted| then
      PrefixIsNewest(sorted, limit);
      sorted[..limit]
    else
      sorted
  }
}
