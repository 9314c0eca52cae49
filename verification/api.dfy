/**
 * The routes behind `auth_required`: the sensor, clothes and user API and
 * the pages that greet a signed-in user. Each handler runs as the identity
 * the guard recorded, against the store as the guard left it. Ids in paths
 * arrive as text and are compared with the INT key columns.
 */
module Api {

  import opened Wrappers
  import Store
  import Http
  import Guard

  datatype SensorModel = SensorModel(kind: string, units: string, address: string)
  datatype UpdateSensorModel = UpdateSensorModel(kind: Option<string>, units: Option<string>, address: Option<string>)
  datatype ClothesModel = ClothesModel(name: string, kind: string, imageAddress: string)
  datatype UpdateClothesModel = UpdateClothesModel(name: Option<string>, kind: Option<string>, imageAddress: Option<string>)
  datatype UpdateUserModel = UpdateUserModel(
    username: Option<string>, password: Option<string>, email: Option<string>, location: Option<string>)

  function NotFound(): Http.Response {
    Http.Fail(Http.NotFound, "Not Found")
  }

  function Unauthorized(): Http.Response {
    Http.Fail(Http.Unauthorized, "Unauthorized")
  }

  function Success(): Http.Response {
    Http.Reply(Http.OK, Http.Message("Success"))
  }

  /** The store differs from `db` in the `sensors` table only. */
  predicate OnlySensorsChanged(db: Store.Db, db': Store.Db) {
    db' == db.(sensors := db'.sensors)
  }

  /** The store differs from `db` in the `clothes` table only. */
  predicate OnlyClothesChanged(db: Store.Db, db': Store.Db) {
    db' == db.(clothes := db'.clothes)
  }

  // ---------------------------------------------------------------------------
  // Sensors
  // ---------------------------------------------------------------------------

  /** GET /api/sensors/{sensor_id} as written: an unknown id reaches `.get` on
      None, which raises. */
  function SensorByIdAsWritten(who: Guard.Identity, db: Store.Db, sensorId: string): (o: Http.Outcome)
    ensures o.db == db
    ensures Store.ColumnId(sensorId) !in db.sensors ==> o.response == Http.Crash()
    ensures o.response.status == Http.OK <==>
      Store.ColumnId(sensorId) in db.sensors && db.sensors[Store.ColumnId(sensorId)].userId == who.userId
    ensures o.response.status == Http.OK ==>
      o.response == Http.Reply(Http.OK, Http.SensorJson(Store.ColumnId(sensorId), db.sensors[Store.ColumnId(sensorId)]))
    ensures Store.ColumnId(sensorId) in db.sensors && db.sensors[Store.ColumnId(sensorId)].userId != who.userId ==>
      o.response == Unauthorized()
  {
    var id := Store.ColumnId(sensorId);
    match Store.GetSensor(db, id)
    case None => Http.Outcome(Http.Crash(), db)
    case Some(sensor) =>
      if sensor.userId != who.userId then Http.Outcome(Unauthorized(), db)
      else Http.Outcome(Http.Reply(Http.OK, Http.SensorJson(id, sensor)), db)
  }

  /** GET /api/sensors/{sensor_id} with an unknown id answered 404, as the
      other routes on the same path answer it. */
  function SensorById(who: Guard.Identity, db: Store.Db, sensorId: string): (o: Http.Outcome)
    ensures o.db == db
    ensures Store.ColumnId(sensorId) !in db.sensors ==> o.response == NotFound()
    ensures o.response.status == Http.OK <==>
      Store.ColumnId(sensorId) in db.sensors && db.sensors[Store.ColumnId(sensorId)].userId == who.userId
    ensures o.response.status == Http.OK ==>
      o.response == Http.Reply(Http.OK, Http.SensorJson(Store.ColumnId(sensorId), db.sensors[Store.ColumnId(sensorId)]))
    ensures Store.ColumnId(sensorId) in db.sensors && db.sensors[Store.ColumnId(sensorId)].userId != who.userId ==>
      o.response == Unauthorized()
  {
    var id := Store.ColumnId(sensorId);
    match Store.GetSensor(db, id)
    case None => Http.Outcome(NotFound(), db)
    case Some(sensor) =>
      if sensor.userId != who.userId then Http.Outcome(Unauthorized(), db)
      else Http.Outcome(Http.Reply(Http.OK, Http.SensorJson(id, sensor)), db)
  }

  /** GET /api/sensors: the caller's sensors and nobody else's. */
  function SensorsOf(who: Guard.Identity, db: Store.Db): (o: Http.Outcome)
    ensures o.db == db
    ensures o.response.Reply? && o.response.status == Http.OK && o.response.body.SensorListJson?
    ensures forall i :: 0 <= i < |o.response.body.rows| ==>
      o.response.body.rows[i].0 in db.sensors && o.response.body.rows[i].1 == db.sensors[o.response.body.rows[i].0]
      && o.response.body.rows[i].1.userId == who.userId
    ensures Store.Valid(db) ==> forall id :: id in db.sensors && db.sensors[id].userId == who.userId ==>
      exists i :: 0 <= i < |o.response.body.rows| && o.response.body.rows[i].0 == id
  {
    Http.Outcome(Http.Reply(Http.OK, Http.SensorListJson(Store.SensorsOfUser(db, who.userId))), db)
  }

  /** POST /api/sensors: a new sensor owned by the caller. */
  function CreateSensor(who: Guard.Identity, db: Store.Db, data: SensorModel): (o: Http.Outcome)
    ensures who.userId !in db.users ==> o == Http.Outcome(Http.Crash(), db.(nextSensorId := db.nextSensorId + 1))
    ensures who.userId in db.users ==>
      OnlySensorsChanged(db, o.db.(nextSensorId := db.nextSensorId))
      && o.db.nextSensorId == db.nextSensorId + 1
      && o.db.sensors == db.sensors[db.nextSensorId := Store.Sensor(who.userId, data.kind, data.units, data.address)]
    ensures who.userId in db.users && db.nextSensorId != 0 ==>
      o.response == Http.Reply(Http.Created, Http.IdJson(db.nextSensorId))
    ensures Store.Valid(db) ==> Store.Valid(o.db)
  {
    match Store.AddSensor(db, who.userId, data.kind, data.units, data.address)
    case Raised(_, after) => Http.Outcome(Http.Crash(), after)
    case Done(id, db') =>
      if id != 0 then Http.Outcome(Http.Reply(Http.Created, Http.IdJson(id)), db')
      else Http.Outcome(Http.Fail(Http.BadRequest, "Error"), db')
  }

  /** PUT /api/sensors/{sensor_id}: only the owner may edit, and only the
      columns given truthy values change. */
  function EditSensor(who: Guard.Identity, db: Store.Db, sensorId: string, data: UpdateSensorModel): (o: Http.Outcome)
    ensures Store.ColumnId(sensorId) !in db.sensors ==> o == Http.Outcome(NotFound(), db)
    ensures Store.ColumnId(sensorId) in db.sensors && db.sensors[Store.ColumnId(sensorId)].userId != who.userId ==>
      o == Http.Outcome(Unauthorized(), db)
    ensures Store.ColumnId(sensorId) in db.sensors && db.sensors[Store.ColumnId(sensorId)].userId == who.userId ==>
      var id := Store.ColumnId(sensorId);
      OnlySensorsChanged(db, o.db) && o.db.sensors.Keys == db.sensors.Keys
      && (forall other :: other in db.sensors && other != id ==> o.db.sensors[other] == db.sensors[other])
      && o.db.sensors[id] == db.sensors[id].(
           kind := Store.Pick(data.kind, db.sensors[id].kind),
           units := Store.Pick(data.units, db.sensors[id].units),
           address := Store.Pick(data.address, db.sensors[id].address))
      && (o.response == Success() <==>
           (!Store.Truthy(data.kind) && !Store.Truthy(data.units) && !Store.Truthy(data.address))
           || o.db.sensors[id] != db.sensors[id])
      && (o.response != Success() ==> o.response == Http.Fail(Http.BadRequest, "Server Error"))
    ensures Store.Valid(db) ==> Store.Valid(o.db)
  {
    var id := Store.ColumnId(sensorId);
    match Store.GetSensor(db, id)
    case None => Http.Outcome(NotFound(), db)
    case Some(sensor) =>
      if who.userId != sensor.userId then Http.Outcome(Unauthorized(), db)
      else
        var change := Store.UpdateSensor(db, id, data.kind, data.units, data.address);
        if change.ok then Http.Outcome(Success(), change.db)
        else Http.Outcome(Http.Fail(Http.BadRequest, "Server Error"), change.db)
  }

  /** DELETE /api/sensors/{sensor_id}: only the owner may remove the sensor. */
  function RemoveSensor(who: Guard.Identity, db: Store.Db, sensorId: string): (o: Http.Outcome)
    ensures Store.ColumnId(sensorId) !in db.sensors ==> o == Http.Outcome(NotFound(), db)
    ensures Store.ColumnId(sensorId) in db.sensors && db.sensors[Store.ColumnId(sensorId)].userId != who.userId ==>
      o == Http.Outcome(Unauthorized(), db)
    ensures Store.ColumnId(sensorId) in db.sensors && db.sensors[Store.ColumnId(sensorId)].userId == who.userId ==>
      o.response == Success() && OnlySensorsChanged(db, o.db)
      && o.db.sensors == db.sensors - {Store.ColumnId(sensorId)}
    ensures Store.Valid(db) ==> Store.Valid(o.db)
  {
    var id := Store.ColumnId(sensorId);
    match Store.GetSensor(db, id)
    case None => Http.Outcome(NotFound(), db)
    case Some(sensor) =>
      if who.userId != sensor.userId then Http.Outcome(Unauthorized(), db)
      else
        var change := Store.DeleteSensor(db, id);
        if change.ok then Http.Outcome(Success(), change.db)
        else Http.Outcome(Http.Fail(Http.BadRequest, "Server Error"), change.db)
  }

  /** For an id with no sensor, the GET route as written crashes while the
      PUT and DELETE routes on the same path answer 404; the corrected GET
      agrees with them. */
  lemma MissingSensorAnswers(who: Guard.Identity, db: Store.Db, sensorId: string, data: UpdateSensorModel)
    requires Store.ColumnId(sensorId) !in db.sensors
    ensures SensorByIdAsWritten(who, db, sensorId).response.status == Http.InternalServerError
    ensures EditSensor(who, db, sensorId, data).response.status == Http.NotFound
    ensures RemoveSensor(who, db, sensorId).response.status == Http.NotFound
    ensures SensorById(who, db, sensorId).response.status == Http.NotFound
  {
  }

  // ---------------------------------------------------------------------------
  // Clothes
  // ---------------------------------------------------------------------------

  /** GET /api/clothes/{clothes_id}: the item, to its owner only. */
  function ClothesById(who: Guard.Identity, db: Store.Db, clothesId: string): (o: Http.Outcome)
    ensures o.db == db
    ensures Store.ColumnId(clothesId) !in db.clothes ==> o.response == NotFound()
    ensures o.response.status == Http.OK <==>
      Store.ColumnId(clothesId) in db.clothes && db.clothes[Store.ColumnId(clothesId)].userId == who.userId
    ensures o.response.status == Http.OK ==>
      o.response == Http.Reply(Http.OK, Http.ClothesJson(Store.ColumnId(clothesId), db.clothes[Store.ColumnId(clothesId)]))
    ensures Store.ColumnId(clothesId) in db.clothes && db.clothes[Store.ColumnId(clothesId)].userId != who.userId ==>
      o.response == Unauthorized()
  {
    var id := Store.ColumnId(clothesId);
    match Store.GetClothes(db, id)
    case None => Http.Outcome(NotFound(), db)
    case Some(item) =>
      if who.userId != item.userId then Http.Outcome(Unauthorized(), db)
      else Http.Outcome(Http.Reply(Http.OK, Http.ClothesJson(id, item)), db)
  }

  /** GET /api/clothes: the caller's wardrobe. The list is never None, so the
      404 branch of the route is never taken. */
  function ClothesOf(who: Guard.Identity, db: Store.Db): (o: Http.Outcome)
    ensures o.db == db
    ensures o.response.Reply? && o.response.status == Http.OK && o.response.body.ClothesListJson?
    ensures forall i :: 0 <= i < |o.response.body.items| ==>
      o.response.body.items[i].0 in db.clothes && o.response.body.items[i].1 == db.clothes[o.response.body.items[i].0]
      && o.response.body.items[i].1.userId == who.userId
    ensures Store.Valid(db) ==> forall id :: id in db.clothes && db.clothes[id].userId == who.userId ==>
      exists i :: 0 <= i < |o.response.body.items| && o.response.body.items[i].0 == id
  {
    Http.Outcome(Http.Reply(Http.OK, Http.ClothesListJson(Store.ClothesOfUser(db, who.userId))), db)
  }

  /** POST /api/clothes: a new item owned by the caller. */
  function CreateClothes(who: Guard.Identity, db: Store.Db, data: ClothesModel): (o: Http.Outcome)
    ensures who.userId !in db.users ==> o == Http.Outcome(Http.Crash(), db.(nextClothesId := db.nextClothesId + 1))
    ensures who.userId in db.users ==>
      OnlyClothesChanged(db, o.db.(nextClothesId := db.nextClothesId))
      && o.db.nextClothesId == db.nextClothesId + 1
      && o.db.clothes == db.clothes[db.nextClothesId := Store.Clothes(who.userId, data.name, data.kind, data.imageAddress)]
    ensures who.userId in db.users && db.nextClothesId != 0 ==>
      o.response == Http.Reply(Http.Created, Http.IdJson(db.nextClothesId))
    ensures Store.Valid(db) ==> Store.Valid(o.db)
  {
    match Store.AddClothes(db, who.userId, data.name, data.kind, data.imageAddress)
    case Raised(_, after) => Http.Outcome(Http.Crash(), after)
    case Done(id, db') =>
      if id != 0 then Http.Outcome(Http.Reply(Http.Created, Http.IdJson(id)), db')
      else Http.Outcome(Http.Fail(Http.BadRequest, "Error"), db')
  }

  /** PUT /api/clothes/{clothes_id}: only the owner may edit; an update that
      changes nothing is answered 404. */
  function EditClothes(who: Guard.Identity, db: Store.Db, clothesId: string, data: UpdateClothesModel): (o: Http.Outcome)
    ensures Store.ColumnId(clothesId) !in db.clothes ==> o == Http.Outcome(NotFound(), db)
    ensures Store.ColumnId(clothesId) in db.clothes && db.clothes[Store.ColumnId(clothesId)].userId != who.userId ==>
      o == Http.Outcome(Unauthorized(), db)
    ensures Store.ColumnId(clothesId) in db.clothes && db.clothes[Store.ColumnId(clothesId)].userId == who.userId ==>
      var id := Store.ColumnId(clothesId);
      OnlyClothesChanged(db, o.db) && o.db.clothes.Keys == db.clothes.Keys
      && (forall other :: other in db.clothes && other != id ==> o.db.clothes[other] == db.clothes[other])
      && o.db.clothes[id] == db.clothes[id].(
           name := Store.Pick(data.name, db.clothes[id].name),
           kind := Store.Pick(data.kind, db.clothes[id].kind),
           imageAddress := Store.Pick(data.imageAddress, db.clothes[id].imageAddress))
      && (o.response == Success() <==>
           (!Store.Truthy(data.name) && !Store.Truthy(data.kind) && !Store.Truthy(data.imageAddress))
           || o.db.clothes[id] != db.clothes[id])
      && (o.response != Success() ==> o.response == NotFound())
    ensures Store.Valid(db) ==> Store.Valid(o.db)
  {
    var id := Store.ColumnId(clothesId);
    match Store.GetClothes(db, id)
    case None => Http.Outcome(NotFound(), db)
    case Some(item) =>
      if who.userId != item.userId then Http.Outcome(Unauthorized(), db)
      else
        var change := Store.UpdateClothes(db, id, data.name, data.kind, data.imageAddress);
        if change.ok then Http.Outcome(Success(), change.db)
        else Http.Outcome(NotFound(), change.db)
  }

  /** DELETE /api/clothes/{clothes_id}: only the owner may remove the item. */
  function RemoveClothes(who: Guard.Identity, db: Store.Db, clothesId: string): (o: Http.Outcome)
    ensures Store.ColumnId(clothesId) !in db.clothes ==> o == Http.Outcome(NotFound(), db)
    ensures Store.ColumnId(clothesId) in db.clothes && db.clothes[Store.ColumnId(clothesId)].userId != who.userId ==>
      o == Http.Outcome(Unauthorized(), db)
    ensures Store.ColumnId(clothesId) in db.clothes && db.clothes[Store.ColumnId(clothesId)].userId == who.userId ==>
      o.response == Success() && OnlyClothesChanged(db, o.db)
      && o.db.clothes == db.clothes - {Store.ColumnId(clothesId)}
    ensures Store.Valid(db) ==> Store.Valid(o.db)
  {
    var id := Store.ColumnId(clothesId);
    match Store.GetClothes(db, id)
    case None => Http.Outcome(NotFound(), db)
    case Some(item) =>
      if who.userId != item.userId then Http.Outcome(Unauthorized(), db)
      else
        var change := Store.DeleteClothes(db, id);
        if change.ok then Http.Outcome(Success(), change.db)
        else Http.Outcome(NotFound(), change.db)
  }

  // ---------------------------------------------------------------------------
  // The user's own account
  // ---------------------------------------------------------------------------

  /** GET /api/user/{username}: a user may look up only their own name. */
  function UserByName(who: Guard.Identity, db: Store.Db, username: string): (o: Http.Outcome)
    ensures o.db == db
    ensures username != who.username ==> o.response == Unauthorized()
    ensures o.response.Reply? && o.response.status == Http.OK ==>
      username == who.username && o.response.body.UserJson?
      && o.response.body.id in db.users && db.users[o.response.body.id] == o.response.body.user
      && o.response.body.user.username == username
    ensures username == who.username && Store.Valid(db) ==>
      (o.response.status == Http.OK <==> exists id :: id in db.users && db.users[id].username == username)
    ensures o.response.status != Http.OK ==> o.response.status in {Http.Unauthorized, Http.NotFound}
  {
    if username != who.username then Http.Outcome(Unauthorized(), db)
    else
      match Store.GetUserByUsername(db, username)
      case Some((id, user)) => Http.Outcome(Http.Reply(Http.OK, Http.UserJson(id, user)), db)
      case None => Http.Outcome(NotFound(), db)
  }

  /** GET /api/user: the row of the user the guard recorded, looked up by name. */
  function CurrentUser(who: Guard.Identity, db: Store.Db): (o: Http.Outcome)
    ensures o.db == db
    ensures who.username == "" ==> o.response == NotFound()
    ensures o.response.Reply? && o.response.status == Http.OK ==>
      who.username != "" && o.response.body.UserJson?
      && o.response.body.id in db.users && db.users[o.response.body.id] == o.response.body.user
      && o.response.body.user.username == who.username
    ensures who.username != "" && Store.Valid(db) ==>
      (o.response.status == Http.OK <==> exists id :: id in db.users && db.users[id].username == who.username)
    ensures o.response.status != Http.OK ==> o.response == NotFound()
  {
    if who.username == "" then Http.Outcome(NotFound(), db)
    else
      match Store.GetUserByUsername(db, who.username)
      case None => Http.Outcome(NotFound(), db)
      case Some((id, user)) => Http.Outcome(Http.Reply(Http.OK, Http.UserJson(id, user)), db)
  }

  /** PUT /api/user: a partial update of the caller's own row. A new name or
      email another user holds makes the UPDATE raise. */
  function EditUser(who: Guard.Identity, db: Store.Db, data: UpdateUserModel): (o: Http.Outcome)
    ensures o.db == db.(users := o.db.users) && o.db.users.Keys == db.users.Keys
    ensures forall id :: id in db.users && id != who.userId ==> o.db.users[id] == db.users[id]
    ensures o.response.status == Http.InternalServerError ==> o.db == db && who.userId in db.users
    ensures o.response.status != Http.InternalServerError && who.userId in db.users ==>
      var u := db.users[who.userId];
      o.db.users[who.userId] == u.(
        username := Store.Pick(data.username, u.username), password := Store.Pick(data.password, u.password),
        email := Store.Pick(data.email, u.email), location := Store.Pick(data.location, u.location))
    ensures (who.userId !in db.users && (Store.Truthy(data.username) || Store.Truthy(data.password)
             || Store.Truthy(data.email) || Store.Truthy(data.location))) ==> o == Http.Outcome(NotFound(), db)
    ensures o.response == Success() || o.response == NotFound() || o.response == Http.Crash()
    ensures Store.Valid(db) ==> Store.Valid(o.db)
  {
    match Store.UpdateUser(db, who.userId, data.username, data.password, data.email, data.location)
    case Raised(_, after) => Http.Outcome(Http.Crash(), after)
    case Done(ok, db') =>
      if ok then Http.Outcome(Success(), db') else Http.Outcome(NotFound(), db')
  }

  /** DELETE /api/user: removes the caller's account and everything it owns. */
  function RemoveUser(who: Guard.Identity, db: Store.Db): (o: Http.Outcome)
    ensures o.response == Success() <==> who.userId in db.users
    ensures o.response != Success() ==> o.response == NotFound()
    ensures o.db.users == db.users - {who.userId}
    ensures forall k :: k in o.db.sessions ==> o.db.sessions[k].userId != who.userId
    ensures forall id :: id in o.db.sensors ==> o.db.sensors[id].userId != who.userId
    ensures forall id :: id in o.db.clothes ==> o.db.clothes[id].userId != who.userId
    ensures o.db.data == db.data
    ensures Store.Valid(db) ==> Store.Valid(o.db)
  {
    var change := Store.DeleteUser(db, who.userId);
    if change.ok then Http.Outcome(Success(), change.db) else Http.Outcome(NotFound(), change.db)
  }

  // ---------------------------------------------------------------------------
  // Pages for a signed-in user
  // ---------------------------------------------------------------------------

  /** GET /dashboard: reads the session again; a missing row would reach
      `.get` on None. */
  function Dashboard(request: Http.Request, who: Guard.Identity, db: Store.Db): (o: Http.Outcome)
    ensures o.db == db
    ensures Store.Truthy(request.sessionCookie) && request.sessionCookie.value in db.sessions ==>
      o.response == Http.Reply(Http.OK, Http.Document("static/dashboard.html", Some(who.username)))
  {
    var session := if request.sessionCookie.Some? then Store.GetSession(db, request.sessionCookie.value) else None;
    if session.None? then Http.Outcome(Http.Crash(), db)
    else Http.Outcome(Http.Reply(Http.OK, Http.Document("static/dashboard.html", Some(who.username))), db)
  }

  /** GET /wardrobe. */
  function Wardrobe(who: Guard.Identity, db: Store.Db): (o: Http.Outcome)
    ensures o.db == db
    ensures o.response.Reply? && o.response.status == Http.OK
    ensures o.response.body == Http.Document("static/wardrobe.html", Some(who.username))
  {
    Http.Outcome(Http.Reply(Http.OK, Http.Document("static/wardrobe.html", Some(who.username))), db)
  }

  /** GET /profile/{username}: only one's own profile. */
  function Profile(who: Guard.Identity, db: Store.Db, username: string): (o: Http.Outcome)
    ensures o.db == db
    ensures o.response.status == Http.OK <==> username == who.username
    ensures username != who.username ==> o.response == Unauthorized()
    ensures username == who.username ==> o.response.Reply? && o.response.body == Http.Document("static/profile.html", Some(username))
  {
    if username != who.username then Http.Outcome(Unauthorized(), db)
    else Http.Outcome(Http.Reply(Http.OK, Http.Document("static/profile.html", Some(who.username))), db)
  }

  // ---------------------------------------------------------------------------
  // Dispatch through the guard
  // ---------------------------------------------------------------------------

  /** The routes that carry `auth_required`, with their path and body arguments. */
  datatype Call =
    | SensorGet(sensorId: string)
    | SensorsGet
    | SensorPost(sensor: SensorModel)
    | SensorPut(sensorId: string, sensorUpdate: UpdateSensorModel)
    | SensorDelete(sensorId: string)
    | UserGet(username: string)
    | CurrentUserGet
    | UserPut(userUpdate: UpdateUserModel)
    | UserDelete
    | ClothesGet(clothesId: string)
    | ClothesListGet
    | ClothesPost(clothes: ClothesModel)
    | ClothesPut(clothesId: string, clothesUpdate: UpdateClothesModel)
    | ClothesDelete(clothesId: string)
    | DashboardGet
    | WardrobeGet
    | ProfileGet(username: string)

  /** The route table: the handler of a call, run as `who`. */
  function Handle(call: Call, request: Http.Request, who: Guard.Identity, db: Store.Db): (o: Http.Outcome)
    ensures Store.Valid(db) ==> Store.Valid(o.db)
    ensures (call.SensorGet? || call.SensorsGet? || call.UserGet? || call.CurrentUserGet? || call.ClothesGet?
             || call.ClothesListGet? || call.DashboardGet? || call.WardrobeGet? || call.ProfileGet?) ==> o.db == db
    ensures call.SensorGet? && Store.ColumnId(call.sensorId) !in db.sensors ==> o.response == Http.Crash()
    ensures (call.SensorPut? || call.SensorDelete?) && Store.ColumnId(call.sensorId) !in db.sensors ==>
      o == Http.Outcome(NotFound(), db)
    ensures (call.ClothesGet? || call.ClothesPut? || call.ClothesDelete?) && Store.ColumnId(call.clothesId) !in db.clothes ==>
      o == Http.Outcome(NotFound(), db)
  {
    match call
    case SensorGet(id) => SensorByIdAsWritten(who, db, id)
    case SensorsGet => SensorsOf(who, db)
    case SensorPost(data) => CreateSensor(who, db, data)
    case SensorPut(id, data) => EditSensor(who, db, id, data)
    case SensorDelete(id) => RemoveSensor(who, db, id)
    case UserGet(name) => UserByName(who, db, name)
    case CurrentUserGet => CurrentUser(who, db)
    case UserPut(data) => EditUser(who, db, data)
    case UserDelete => RemoveUser(who, db)
    case ClothesGet(id) => ClothesById(who, db, id)
    case ClothesListGet => ClothesOf(who, db)
    case ClothesPost(data) => CreateClothes(who, db, data)
    case ClothesPut(id, data) => EditClothes(who, db, id, data)
    case ClothesDelete(id) => RemoveClothes(who, db, id)
    case DashboardGet => Dashboard(request, who, db)
    case WardrobeGet => Wardrobe(who, db)
    case ProfileGet(name) => Profile(who, db, name)
  }

  /** A guarded route end to end: a rejected request leaves the store as it
      was and never reaches the handler; an admitted one runs the handler once
      as the session's user, on the store with that session refreshed. */
  function Serve(request: Option<Http.Request>, call: Call, db: Store.Db, now: nat, unreachable: bool): (o: Http.Outcome)
    ensures request.None? ==> o.db == db && o.response.status == Http.InternalServerError
    ensures request.Some? && Guard.Authenticate(request.value.sessionCookie, db, now).Reject? ==>
      o == Http.Outcome(Guard.LoginRedirect(), db)
    ensures request.Some? && Guard.Authenticate(request.value.sessionCookie, db, now).Accept? ==>
      var step := Guard.Admit(request, db, now, unreachable);
      o == Handle(call, request.value, Guard.Authenticate(request.value.sessionCookie, db, now).who, step.db)
    ensures Store.Valid(db) ==> Store.Valid(o.db)
  {
    match Guard.Admit(request, db, now, unreachable)
    case Halt(response) => Http.Outcome(response, db)
    case Proceed(who, db') => Handle(call, request.value, who, db')
  }

  /** The route table with GET /api/sensors/{sensor_id} answering an
      unknown id with 404: it differs from `Handle` on that request only. */
  function HandleCorrected(call: Call, request: Http.Request, who: Guard.Identity, db: Store.Db): (o: Http.Outcome)
    ensures !(call.SensorGet? && Store.ColumnId(call.sensorId) !in db.sensors) ==> o == Handle(call, request, who, db)
    ensures call.SensorGet? && Store.ColumnId(call.sensorId) !in db.sensors ==>
      o == Http.Outcome(NotFound(), db) && Handle(call, request, who, db).response == Http.Crash()
    ensures Store.Valid(db) ==> Store.Valid(o.db)
  {
    if call.SensorGet? then SensorById(who, db, call.sensorId) else Handle(call, request, who, db)
  }

  /** `Serve` with the corrected route table. It answers exactly as `Serve`
      does, except that GET of an unknown sensor id by an admitted caller is
      a 404 where `Serve` answers 500; the store afterwards is the same. */
  function ServeCorrected(request: Option<Http.Request>, call: Call, db: Store.Db, now: nat, unreachable: bool): (o: Http.Outcome)
    ensures o.db == Serve(request, call, db, now, unreachable).db
    ensures !(call.SensorGet? && Store.ColumnId(call.sensorId) !in db.sensors) ==> o == Serve(request, call, db, now, unreachable)
    ensures call.SensorGet? && Store.ColumnId(call.sensorId) !in db.sensors && request.Some?
            && Guard.Authenticate(request.value.sessionCookie, db, now).Accept? ==>
      o.response == NotFound() && Serve(request, call, db, now, unreachable).response == Http.Crash()
    ensures Store.Valid(db) ==> Store.Valid(o.db)
  {
    match Guard.Admit(request, db, now, unreachable)
    case Halt(response) => Http.Outcome(response, db)
    case Proceed(who, db') => HandleCorrected(call, request.value, who, db')
  }

  /** An edit or removal of a sensor or clothing item the caller does not
      own changes nothing but the caller's session refresh. */
  lemma ForeignRowsUntouched(request: Http.Request, call: Call, db: Store.Db, now: nat, unreachable: bool)
    requires call.SensorPut? || call.SensorDelete? || call.ClothesPut? || call.ClothesDelete?
    requires Guard.Authenticate(request.sessionCookie, db, now).Accept?
    requires var who := Guard.Authenticate(request.sessionCookie, db, now).who;
      if call.SensorPut? || call.SensorDelete? then
        Store.ColumnId(call.sensorId) !in db.sensors || db.sensors[Store.ColumnId(call.sensorId)].userId != who.userId
      else
        Store.ColumnId(call.clothesId) !in db.clothes || db.clothes[Store.ColumnId(call.clothesId)].userId != who.userId
    ensures var o := Serve(Some(request), call, db, now, unreachable);
      o.db == Guard.Admit(Some(request), db, now, unreachable).db
      && o.response.status in {Http.NotFound, Http.Unauthorized}
  {
    var step := Guard.Admit(Some(request), db, now, unreachable);
    assert step.db.sensors == db.sensors && step.db.clothes == db.clothes;
  }

  /** Once a user deletes their account, no cookie authenticates as them. */
  lemma RemovedUserLocksOut(request: Http.Request, db: Store.Db, now: nat, unreachable: bool, cookie: Option<string>, later: nat)
    requires Guard.Authenticate(request.sessionCookie, db, now).Accept?
    ensures var who := Guard.Authenticate(request.sessionCookie, db, now).who;
      var o := Serve(Some(request), UserDelete, db, now, unreachable);
      Guard.Authenticate(cookie, o.db, later).Reject? || Guard.Authenticate(cookie, o.db, later).who.userId != who.userId
  {
  }
}
