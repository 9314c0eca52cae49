/**
 * The `auth_required` decorator: the decision it takes from the `sessionId`
 * cookie, the store and the current time, and the one write it makes (the
 * sliding refresh of the session's last access) before the wrapped handler
 * runs.
 */
module Guard {

  import opened Wrappers
  import Store
  import Clock
  import Text
  import Http

  /** What the decorator records in `request.state` for the handler. */
  datatype Identity = Identity(username: string, userId: int)

  datatype Decision = Reject | Accept(sessionId: string, who: Identity)

  /** A session whose last use lies strictly before the start of the expiry
      window ending at `now`. */
  predicate Expired(s: Store.Session, now: nat) {
    s.lastAccess < now - Clock.SessionExpirySeconds
  }

  /** Whether the cookie names a live session of an existing user. */
  function Authenticate(cookie: Option<string>, db: Store.Db, now: nat): (d: Decision)
    ensures !Store.Truthy(cookie) ==> d == Reject
    ensures Store.Truthy(cookie) && cookie.value !in db.sessions ==> d == Reject
    ensures Store.Truthy(cookie) && cookie.value in db.sessions && Expired(db.sessions[cookie.value], now) ==> d == Reject
    ensures Store.Truthy(cookie) && cookie.value in db.sessions && db.sessions[cookie.value].userId !in db.users ==> d == Reject
    ensures (Store.Truthy(cookie) && cookie.value in db.sessions && !Expired(db.sessions[cookie.value], now)
             && db.sessions[cookie.value].userId in db.users) ==> d.Accept?
    ensures d.Accept? ==> cookie == Some(d.sessionId) && d.sessionId in db.sessions
    ensures d.Accept? ==> d.who.userId == db.sessions[d.sessionId].userId && d.who.userId in db.users
    ensures d.Accept? ==> d.who.username == db.users[d.who.userId].username
  {
    if !Store.Truthy(cookie) then Reject
    else
      match Store.GetSession(db, cookie.value)
      case None => Reject
      case Some(session) =>
        if Expired(session, now) then Reject
        else
          match Store.GetUserById(db, session.userId)
          case None => Reject
          case Some(user) => Accept(cookie.value, Identity(user.username, session.userId))
  }

  /** A session last used exactly 24 hours ago is still accepted; one second
      more and it is not. */
  lemma ExpiryBoundary(s: Store.Session, now: nat)
    requires now >= Clock.SessionExpirySeconds + 1
    ensures s.lastAccess == now - Clock.SessionExpirySeconds ==> !Expired(s, now)
    ensures s.lastAccess == now - Clock.SessionExpirySeconds - 1 ==> Expired(s, now)
    ensures Expired(s, now) <==> now - s.lastAccess > 24 * 60 * 60
  {
  }

  /** Where the decorator sends a request it turns away. */
  function LoginRedirect(): (r: Http.Response)
    ensures r.Redirect? && r.location == "/login" && r.cookie == Http.KeepCookie
  {
    Http.Redirect("/login", Http.TemporaryRedirect, Http.KeepCookie)
  }

  /** The decorator's verdict: stop with a response, or run the handler as
      `who` against the store with the session refreshed. */
  datatype Step = Halt(response: Http.Response) | Proceed(who: Identity, db: Store.Db)

  /** The asynchronous `wrapper`. `request` is None when the handler has no
      `Request` argument; `unreachable` says the refresh could not reach the
      database, which the refresh swallows. */
  function Admit(request: Option<Http.Request>, db: Store.Db, now: nat, unreachable: bool): (s: Step)
    ensures request.None? ==> s.Halt? && s.response.IsError() && s.response.status == Http.InternalServerError
    ensures request.Some? && Authenticate(request.value.sessionCookie, db, now).Reject? ==> s == Halt(LoginRedirect())
    ensures request.Some? && Authenticate(request.value.sessionCookie, db, now).Accept? ==> s.Proceed?
    ensures s.Proceed? ==> request.Some? && s.who == Authenticate(request.value.sessionCookie, db, now).who
    ensures s.Proceed? ==> s.db == db.(sessions := s.db.sessions) && s.db.sessions.Keys == db.sessions.Keys
    ensures s.Proceed? ==> forall k :: k in db.sessions && Some(k) != request.value.sessionCookie ==>
      s.db.sessions[k] == db.sessions[k]
    ensures s.Proceed? ==> var sid := request.value.sessionCookie.value;
      s.db.sessions[sid].userId == db.sessions[sid].userId &&
      s.db.sessions[sid].lastAccess == (if unreachable then db.sessions[sid].lastAccess else now)
    ensures s.Proceed? && Store.Valid(db) ==> Store.Valid(s.db)
  {
    if request.None? then Halt(Http.Fail(Http.InternalServerError, "Request object not found in function arguments"))
    else
      match Authenticate(request.value.sessionCookie, db, now)
      case Reject => Halt(LoginRedirect())
      case Accept(sid, who) => Proceed(who, Store.ExtendSession(db, sid, now, unreachable).db)
  }

  /** After a refresh that reached the database the session is good for
      another full window. */
  lemma RefreshRestartsWindow(request: Http.Request, db: Store.Db, now: nat, later: nat)
    requires Admit(Some(request), db, now, false).Proceed?
    requires now <= later <= now + Clock.SessionExpirySeconds
    ensures Authenticate(request.sessionCookie, Admit(Some(request), db, now, false).db, later).Accept?
  {
  }

  /** The identity the synchronous `sync_wrapper` records: the user id is
      kept as the text `str(id)`. */
  datatype SyncIdentity = SyncIdentity(username: string, userIdText: string)

  /** The decision `sync_wrapper` takes. It never looks at the session's age. */
  function SyncAuthenticate(cookie: Option<string>, db: Store.Db): (r: Option<SyncIdentity>)
    ensures r.Some? <==> Store.Truthy(cookie) && cookie.value in db.sessions && db.sessions[cookie.value].userId in db.users
    ensures r.Some? ==> r.value.userIdText == Text.IntToString(db.sessions[cookie.value].userId)
    ensures r.Some? ==> r.value.username == db.users[db.sessions[cookie.value].userId].username
  {
    if !Store.Truthy(cookie) then None
    else
      match Store.GetSession(db, cookie.value)
      case None => None
      case Some(session) =>
        match Store.GetUserById(db, session.userId)
        case None => None
        case Some(user) => Some(SyncIdentity(user.username, Text.IntToString(session.userId)))
  }

  /** The two wrappers agree except on expired sessions, which only the
      synchronous one lets through. */
  lemma SyncDiffersOnlyOnExpiry(cookie: Option<string>, db: Store.Db, now: nat)
    ensures Authenticate(cookie, db, now).Accept? ==> SyncAuthenticate(cookie, db).Some?
    ensures Authenticate(cookie, db, now).Accept? ==>
      SyncAuthenticate(cookie, db).value.username == Authenticate(cookie, db, now).who.username
    ensures SyncAuthenticate(cookie, db).Some? && Authenticate(cookie, db, now).Reject? ==>
      Expired(db.sessions[cookie.value], now)
  {
  }
}
