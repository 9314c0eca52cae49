/**
 * The session routes (POST /login, POST /signup, POST /logout) and the
 * three public pages (`/`, `/login`, `/signup`) that send a visitor who
 * looks signed in on to the dashboard. The fresh session id a route would
 * draw from `uuid4` is a parameter.
 */
module Auth {

  import opened Wrappers
  import Store
  import Text
  import Http
  import Guard
  import Api

  datatype LoginModel = LoginModel(username: string, password: string)
  datatype SignupModel = SignupModel(username: string, password: string, email: string, location: string)

  function DashboardRedirect(cookie: Http.Cookie): Http.Response {
    Http.Redirect("/dashboard", Http.Found, cookie)
  }

  // ---------------------------------------------------------------------------
  // POST /login
  // ---------------------------------------------------------------------------

  /** The user whose name and password the form carries, if any. */
  function Credentials(db: Store.Db, data: LoginModel): (r: Option<(int, Store.User)>)
    ensures r.Some? ==> data.username != "" && data.password != ""
    ensures r.Some? ==> r.value.0 in db.users && db.users[r.value.0] == r.value.1
    ensures r.Some? ==> r.value.1.username == data.username && r.value.1.password == data.password
    ensures Store.Valid(db) && data.username != "" && data.password != "" ==>
      (r.Some? <==> exists id :: id in db.users && db.users[id].username == data.username
                                && db.users[id].password == data.password)
  {
    if data.username == "" || data.password == "" then None
    else
      match Store.GetUserByUsername(db, data.username)
      case None => None
      case Some((id, user)) => if data.password != user.password then None else Some((id, user))
  }

  /** Logging in: on good credentials every session of the user is deleted
      and one new session, the one set as the cookie, is created. The user id
      travels to the database as the text `str(id)`. */
  function Login(db: Store.Db, data: LoginModel, freshId: string, now: nat): (o: Http.Outcome)
    ensures Credentials(db, data).None? ==> o == Http.Outcome(Http.Fail(Http.Unauthorized, "Unauthorized"), db)
    ensures o.response.Redirect? <==>
      (Credentials(db, data).Some? &&
       (freshId !in db.sessions || db.sessions[freshId].userId == Credentials(db, data).value.0))
    ensures o.response.Redirect? ==> o.response == DashboardRedirect(Http.SetSessionCookie(freshId))
    ensures Credentials(db, data).Some? ==>
      var id := Credentials(db, data).value.0;
      o.db == db.(sessions := o.db.sessions)
      && (forall k :: k in db.sessions && db.sessions[k].userId != id ==> k in o.db.sessions && o.db.sessions[k] == db.sessions[k])
      && (forall k :: k in o.db.sessions && o.db.sessions[k].userId != id ==> k in db.sessions)
    ensures o.response.Redirect? ==>
      var id := Credentials(db, data).value.0;
      freshId in o.db.sessions && o.db.sessions[freshId] == Store.Session(id, now)
      && forall k :: k in o.db.sessions && o.db.sessions[k].userId == id ==> k == freshId
    ensures !o.response.Redirect? && Credentials(db, data).Some? ==> o.response == Http.Crash()
    ensures Store.Valid(db) ==> Store.Valid(o.db)
  {
    match Credentials(db, data)
    case None => Http.Outcome(Http.Fail(Http.Unauthorized, "Unauthorized"), db)
    case Some((id, _)) =>
      var userId := Store.ColumnId(Text.IntToString(id));
      Store.ColumnIdOfText(id);
      var cleared := Store.DeleteSessionsOfUser(db, userId).db;
      match Store.CreateSession(cleared, userId, freshId, now)
      case Raised(_, after) => Http.Outcome(Http.Crash(), after)
      case Done(_, db') => Http.Outcome(DashboardRedirect(Http.SetSessionCookie(freshId)), db')
  }

  /** The cookie a successful login sets signs the user in as themselves,
      and it is then their only session. */
  lemma LoginSignsIn(db: Store.Db, data: LoginModel, freshId: string, now: nat)
    requires Store.Valid(db)
    requires freshId != "" && freshId !in db.sessions
    requires Credentials(db, data).Some?
    ensures var o := Login(db, data, freshId, now);
      var id := Credentials(db, data).value.0;
      o.response.Redirect?
      && Guard.Authenticate(Some(freshId), o.db, now) == Guard.Accept(freshId, Guard.Identity(data.username, id))
      && (forall k :: k in o.db.sessions && o.db.sessions[k].userId == id <==> k == freshId)
  {
  }

  // ---------------------------------------------------------------------------
  // POST /signup
  // ---------------------------------------------------------------------------

  predicate Complete(data: SignupModel) {
    data.username != "" && data.password != "" && data.email != "" && data.location != ""
  }

  /** Another user already holds the name or the email. */
  predicate Taken(db: Store.Db, data: SignupModel) {
    exists other :: other in db.users && (db.users[other].username == data.username || db.users[other].email == data.email)
  }

  /** Signing up as written: a taken name or email makes the INSERT raise,
      and the exception turns into a 500 instead of the route's 409. The
      failed INSERT still uses up the next user id. */
  function SignupAsWritten(db: Store.Db, data: SignupModel, freshId: string, now: nat): (o: Http.Outcome)
    ensures !Complete(data) ==> o == Http.Outcome(Http.Fail(Http.BadRequest, "Invalid request"), db)
    ensures Complete(data) && Taken(db, data) ==> o == Http.Outcome(Http.Crash(), db.(nextUserId := db.nextUserId + 1))
    ensures Store.Valid(db) ==> !(o.response.Reply? && o.response.status == Http.Conflict)
    ensures Store.Valid(db) ==> Store.Valid(o.db)
  {
    if !Complete(data) then Http.Outcome(Http.Fail(Http.BadRequest, "Invalid request"), db)
    else
      match Store.CreateUser(db, data.username, data.password, data.email, data.location, now)
      case Raised(_, after) => Http.Outcome(Http.Crash(), after)
      case Done(id, created) =>
        if id == 0 then Http.Outcome(Http.Fail(Http.Conflict, "Unable to create user"), created)
        else
          match Store.CreateSession(created, id, freshId, now)
          case Raised(_, after) => Http.Outcome(Http.Crash(), after)
          case Done(_, db') => Http.Outcome(DashboardRedirect(Http.SetSessionCookie(freshId)), db')
  }

  /** A second sign-up under a name already in use gets a server error and
      writes no row; only the user id counter moves on. */
  lemma DuplicateSignupCrashes(db: Store.Db, data: SignupModel, freshId: string, now: nat)
    requires Store.Valid(db) && Complete(data)
    requires exists id :: id in db.users && db.users[id].username == data.username
    ensures SignupAsWritten(db, data, freshId, now).response.status == Http.InternalServerError
    ensures SignupAsWritten(db, data, freshId, now).db == db.(nextUserId := db.nextUserId + 1)
  {
  }

  /** Signing up as the route means it: a taken name or email is a 409
      conflict with no row written (the failed INSERT still uses up the next
      user id). */
  function Signup(db: Store.Db, data: SignupModel, freshId: string, now: nat): (o: Http.Outcome)
    ensures !Complete(data) ==> o == Http.Outcome(Http.Fail(Http.BadRequest, "Invalid request"), db)
    ensures Complete(data) && Taken(db, data) ==>
      o == Http.Outcome(Http.Fail(Http.Conflict, "Unable to create user"), db.(nextUserId := db.nextUserId + 1))
    ensures Complete(data) && !Taken(db, data) && db.nextUserId != 0 && freshId !in db.sessions ==>
      o.response == DashboardRedirect(Http.SetSessionCookie(freshId))
      && o.db.users == db.users[db.nextUserId := Store.User(data.username, data.password, data.email, data.location, now)]
      && o.db.sessions == db.sessions[freshId := Store.Session(db.nextUserId, now)]
      && o.db.sensors == db.sensors && o.db.clothes == db.clothes && o.db.data == db.data
    ensures Store.Valid(db) ==> Store.Valid(o.db)
  {
    if !Complete(data) then Http.Outcome(Http.Fail(Http.BadRequest, "Invalid request"), db)
    else
      match Store.CreateUser(db, data.username, data.password, data.email, data.location, now)
      case Raised(_, after) => Http.Outcome(Http.Fail(Http.Conflict, "Unable to create user"), after)
      case Done(id, created) =>
        if id == 0 then Http.Outcome(Http.Fail(Http.Conflict, "Unable to create user"), created)
        else
          match Store.CreateSession(created, id, freshId, now)
          case Raised(_, after) => Http.Outcome(Http.Crash(), after)
          case Done(_, db') => Http.Outcome(DashboardRedirect(Http.SetSessionCookie(freshId)), db')
  }

  /** The two agree on every sign-up that does not clash. */
  lemma SignupAgreesWhenFree(db: Store.Db, data: SignupModel, freshId: string, now: nat)
    requires !Taken(db, data)
    ensures SignupAsWritten(db, data, freshId, now) == Signup(db, data, freshId, now)
  {
  }

  /** A new account is signed in by the cookie its sign-up sets. */
  lemma SignupSignsIn(db: Store.Db, data: SignupModel, freshId: string, now: nat)
    requires Store.Valid(db) && Complete(data) && !Taken(db, data)
    requires freshId != "" && freshId !in db.sessions
    ensures var o := Signup(db, data, freshId, now);
      Guard.Authenticate(Some(freshId), o.db, now) == Guard.Accept(freshId, Guard.Identity(data.username, db.nextUserId))
  {
  }

  // ---------------------------------------------------------------------------
  // POST /logout
  // ---------------------------------------------------------------------------

  /** Logging out: deletes the cookie's session when there is one, and always
      clears the cookie and goes back to the login page. */
  function Logout(db: Store.Db, request: Http.Request): (o: Http.Outcome)
    ensures o.response == Http.Redirect("/login", Http.Found, Http.DeleteSessionCookie)
    ensures !Store.Truthy(request.sessionCookie) ==> o.db == db
    ensures Store.Truthy(request.sessionCookie) ==>
      o.db == db.(sessions := db.sessions - {request.sessionCookie.value})
    ensures Store.Valid(db) ==> Store.Valid(o.db)
  {
    var db' := if Store.Truthy(request.sessionCookie) then Store.DeleteSessionById(db, request.sessionCookie.value).db else db;
    Http.Outcome(Http.Redirect("/login", Http.Found, Http.DeleteSessionCookie), db')
  }

  /** After logging out, the old cookie no longer signs anybody in. */
  lemma LogoutSignsOut(db: Store.Db, request: Http.Request, later: nat)
    ensures Guard.Authenticate(request.sessionCookie, Logout(db, request).db, later).Reject?
  {
  }

  // ---------------------------------------------------------------------------
  // The public pages
  // ---------------------------------------------------------------------------

  /** GET `/`, `/login` or `/signup` as written: any session row under the
      cookie counts as signed in, however old. */
  function PublicPageAsWritten(file: string, request: Http.Request, db: Store.Db): (o: Http.Outcome)
    ensures o.db == db
    ensures o.response.Redirect? <==> Store.Truthy(request.sessionCookie) && request.sessionCookie.value in db.sessions
    ensures o.response.Redirect? ==> o.response == DashboardRedirect(Http.KeepCookie)
    ensures !o.response.Redirect? ==> o.response == Http.Reply(Http.OK, Http.Document(file, None))
  {
    if Store.Truthy(request.sessionCookie) && Store.GetSession(db, request.sessionCookie.value).Some? then
      Http.Outcome(DashboardRedirect(Http.KeepCookie), db)
    else
      Http.Outcome(Http.Reply(Http.OK, Http.Document(file, None)), db)
  }

  /** An expired session bounces between the two kinds of page: the public
      page sends the browser to the dashboard and the dashboard's guard sends
      it back to the login page. */
  lemma ExpiredSessionLoops(file: string, request: Http.Request, db: Store.Db, now: nat, unreachable: bool)
    requires Store.Truthy(request.sessionCookie) && request.sessionCookie.value in db.sessions
    requires Guard.Expired(db.sessions[request.sessionCookie.value], now)
    ensures PublicPageAsWritten(file, request, db).response == DashboardRedirect(Http.KeepCookie)
    ensures Api.Serve(Some(request), Api.DashboardGet, db, now, unreachable).response == Guard.LoginRedirect()
  {
  }

  /** The loop on a concrete store: a session last used 24 hours and one
      second ago. */
  lemma ExpiredSessionExample()
    ensures var db := Store.Empty().(
        users := map[1 := Store.User("nathan", "password", "email", "San Diego", 0)],
        sessions := map["s" := Store.Session(1, 0)], nextUserId := 2);
      var request := Http.Request(Some("s"));
      PublicPageAsWritten("static/login.html", request, db).response.Redirect?
      && Api.Serve(Some(request), Api.DashboardGet, db, 86401, false).response == Guard.LoginRedirect()
  {
    var db := Store.Empty().(
        users := map[1 := Store.User("nathan", "password", "email", "San Diego", 0)],
        sessions := map["s" := Store.Session(1, 0)], nextUserId := 2);
    ExpiredSessionLoops("static/login.html", Http.Request(Some("s")), db, 86401, false);
  }

  /** GET `/`, `/login` or `/signup` sending on to the dashboard exactly when
      the dashboard's guard would let the visitor in. */
  function PublicPage(file: string, request: Http.Request, db: Store.Db, now: nat): (o: Http.Outcome)
    ensures o.db == db
    ensures o.response.Redirect? <==> Guard.Authenticate(request.sessionCookie, db, now).Accept?
    ensures o.response.Redirect? ==> o.response == DashboardRedirect(Http.KeepCookie)
    ensures !o.response.Redirect? ==> o.response == Http.Reply(Http.OK, Http.Document(file, None))
  {
    if Guard.Authenticate(request.sessionCookie, db, now).Accept? then
      Http.Outcome(DashboardRedirect(Http.KeepCookie), db)
    else
      Http.Outcome(Http.Reply(Http.OK, Http.Document(file, None)), db)
  }

  /** With the corrected page there is no loop: whenever it sends the
      browser to the dashboard, the dashboard lets it in. */
  lemma PublicPageAgreesWithGuard(file: string, request: Http.Request, db: Store.Db, now: nat, unreachable: bool)
    requires PublicPage(file, request, db, now).response.Redirect?
    ensures Api.Serve(Some(request), Api.DashboardGet, db, now, unreachable).response
      == Http.Reply(Http.OK, Http.Document("static/dashboard.html", Some(Guard.Authenticate(request.sessionCookie, db, now).who.username)))
  {
  }
}
