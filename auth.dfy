/** The session authentication handlers of the `Authentication` class
    (src/features/auth/auth.ts): they read and write the request's
    parameter bags, the request's user and the session record. */
module Auth {
  import opened Common

  /** `{ username, password }` as handed to the user service's `logIn`;
      either field may be undefined. */
  datatype Credentials = Credentials(username: Option<string>, password: Option<string>)

  /** `value.data` of a successful `logIn`: the user's id and username. */
  datatype Principal = Principal(id: Id, username: Option<string>)

  /** `{ error, value }` as returned by the user service's `logIn`. */
  datatype LoginReply = LoginReply(error: Option<Failure>, value: Option<Principal>)

  /** The body of a password change request. */
  datatype PasswordBody = PasswordBody(currentPassword: Option<string>, password: Option<string>)

  /** What the handler passes to the user service's `changePassword`. */
  datatype PasswordChange = PasswordChange(username: Option<string>, currentPassword: Option<string>, password: Option<string>)

  /** The user service, whose code is not part of this model: an oracle that
      answers `logIn`, `changePassword` and `get({ _id })` (the error of the latter). */
  datatype UserService = UserService(
    logIn: Credentials -> LoginReply,
    changePassword: PasswordChange -> Option<Failure>,
    get: Option<Id> -> Option<Failure>)

  const AuthFailedMsg: string := "Authentication Failed. Please Log In!"
  const LoggedInMsg: string := "Logged In Successfully!"
  const LoggedOutMsg: string := "LOGGED OUT SUCCESSFULLY!"
  const PasswordChangedMsg: string := "Password Changed Successfully. Please Log In!"

  /** The timer margin subtracted from the cookie's lifetime. */
  const ExpiryMargin: int := 100
  /** Node runs a timer whose delay is below 1 or above this after 1 ms. */
  const MaxTimerDelay: int := 2147483647

  /** The delay of `setTimeout(destroy, +cookie.maxAge - 100)`: `+null` is 0,
      and Node replaces a delay outside 1..2^31-1 by 1 ms. */
  function SelfDestructDelay(maxAge: Option<int>): (d: int)
    ensures 1 <= d <= MaxTimerDelay
    ensures maxAge.Some? && ExpiryMargin < maxAge.value <= MaxTimerDelay + ExpiryMargin ==>
              d == maxAge.value - ExpiryMargin
    ensures !(maxAge.Some? && ExpiryMargin < maxAge.value <= MaxTimerDelay + ExpiryMargin) ==> d == 1
  {
    var requested := (if maxAge.Some? then maxAge.value else 0) - ExpiryMargin;
    if 1 <= requested <= MaxTimerDelay then requested else 1
  }

  /** `authorizedUser`'s merge: with a user, `{ user: user._id, ...bag }`, so a
      `user` key the bag already has keeps its value; without one, a copy of the bag. */
  function AttachUser(user: Option<Principal>, bag: Bag): (r: Bag)
    ensures user.None? ==> r == bag
    ensures user.Some? ==> r.Keys == bag.Keys + {"user"}
    ensures user.Some? && "user" !in bag ==> r["user"] == user.value.id
    ensures forall k :: k in bag ==> k in r && r[k] == bag[k]
  {
    match user
    case None => bag
    case Some(p) => WithDefault(bag, "user", p.id)
  }

  datatype SessionState = Anonymous | Authenticated(username: string, password: string) | Destroyed

  /** A session record. `destroy()` removes it from the session store; a later
      request with the same cookie is handed a new, empty session. */
  class Session {
    var username: Option<string>
    var password: Option<string>
    var destroyed: bool
    /** The self-destruct timers scheduled so far and not yet fired, oldest first (delays in ms). */
    var timers: seq<int>
    const maxAge: Option<int>

    constructor (maxAge: Option<int>)
      ensures this.maxAge == maxAge
      ensures username == None && password == None && !destroyed && timers == []
    {
      this.maxAge := maxAge;
      username, password, destroyed, timers := None, None, false, [];
    }

    /** The `{ username, password }` a request carrying this session's cookie sees. */
    function Stored(): (c: Credentials)
      reads this
      ensures destroyed ==> c == Credentials(None, None)
      ensures !destroyed ==> c.username == username && c.password == password
    {
      if destroyed then Credentials(None, None) else Credentials(username, password)
    }

    function State(): (st: SessionState)
      reads this
      ensures st.Destroyed? <==> destroyed
      ensures st.Authenticated? <==> !destroyed && username.Some? && password.Some?
      ensures st.Authenticated? ==> Stored() == Credentials(Some(st.username), Some(st.password))
    {
      if destroyed then Destroyed
      else if username.Some? && password.Some? then Authenticated(username.value, password.value)
      else Anonymous
    }

    /** `session.destroy()`; destroying a destroyed session is a no-op. */
    method Destroy()
      modifies this`destroyed
      ensures destroyed && State().Destroyed?
      ensures Stored() == Credentials(None, None)
    {
      destroyed := true;
    }

    /** The oldest pending self-destruct timer fires. */
    method Expire()
      requires timers != []
      modifies this`destroyed, this`timers
      ensures destroyed && timers == old(timers)[1..]
    {
      timers := timers[1..];
      Destroy();
    }
  }

  /** The parts of an Express request the handlers read and write. */
  class Request {
    var params: Bag
    var query: Bag
    var user: Option<Principal>
    const session: Session?

    constructor (params: Bag, query: Bag, session: Session?)
      ensures this.params == params && this.query == query && this.session == session && user == None
    {
      this.params, this.query, this.session := params, query, session;
      user := None;
    }
  }

  /** The credentials `authorization` reads: `req.session ? req.session : {}`. */
  function SessionCredentials(s: Session?): (c: Credentials)
    reads s
    ensures s == null ==> c == Credentials(None, None)
    ensures s != null ==> c == s.Stored()
  {
    if s == null then Credentials(None, None) else s.Stored()
  }

  class Authentication {
    const service: UserService

    constructor (service: UserService)
      ensures this.service == service
    {
      this.service := service;
    }

    /** `authorizedUser`: scope the parameter and query bags to the request's user. */
    method AuthorizedUser(req: Request) returns (o: Outcome<string>)
      modifies req`params, req`query
      ensures req.params == AttachUser(req.user, old(req.params))
      ensures req.query == AttachUser(req.user, old(req.query))
      ensures o == Proceed
    {
      req.params := AttachUser(req.user, req.params);
      req.query := AttachUser(req.user, req.query);
      o := Proceed;
    }

    /** `authorization`: re-run the user service's `logIn` on the session's
        stored pair; proceed with its user, or fail with UNAUTHORIZED. */
    method Authorization(req: Request) returns (o: Outcome<string>)
      modifies req`user
      ensures var reply := service.logIn(SessionCredentials(req.session));
              && (reply.value.Some? ==> o == Proceed && req.user == reply.value)
              && (reply.value.None? ==> o == Fail(Failure(AuthFailedMsg, UNAUTHORIZED)) && req.user == old(req.user))
    {
      var reply := service.logIn(SessionCredentials(req.session));
      if reply.value.Some? {
        req.user := reply.value;
        return Proceed;
      }
      o := Fail(Failure(AuthFailedMsg, UNAUTHORIZED));
    }

    /** `logIn`: on a service error forward it and leave the session as it is;
        otherwise store the user's username and the submitted plaintext password,
        and schedule the session's self-destruct. */
    method LogIn(session: Session, body: Credentials) returns (o: Outcome<string>)
      requires !session.destroyed
      modifies session`username, session`password, session`timers
      ensures var reply := service.logIn(body);
              && (reply.error.Some? ==>
                    o == Fail(reply.error.value) && session.username == old(session.username)
                    && session.password == old(session.password) && session.timers == old(session.timers))
              && (reply.error.None? ==>
                    o == Respond(OK, LoggedInMsg)
                    && session.username == (if reply.value.Some? then reply.value.value.username else None)
                    && session.password == body.password
                    && session.timers == old(session.timers) + [SelfDestructDelay(session.maxAge)])
    {
      var reply := service.logIn(body);
      if reply.error.Some? {
        return Fail(reply.error.value);
      }
      session.username := if reply.value.Some? then reply.value.value.username else None;
      session.password := body.password;
      session.timers := session.timers + [SelfDestructDelay(session.maxAge)];
      o := Respond(OK, LoggedInMsg);
    }

    /** `logOut`: destroy the session and report success, whatever its state. */
    method LogOut(session: Session) returns (o: Outcome<string>)
      modifies session`destroyed
      ensures session.destroyed && o == Respond(OK, LoggedOutMsg)
    {
      session.Destroy();
      o := Respond(OK, LoggedOutMsg);
    }

    /** `changePassword`: ask the service with the session's username; on an
        error forward it and keep the session, on success destroy the session. */
    method ChangePassword(session: Session, body: PasswordBody) returns (o: Outcome<string>)
      modifies session`destroyed
      ensures var e := service.changePassword(PasswordChange(old(session.Stored()).username, body.currentPassword, body.password));
              && (e.Some? ==> o == Fail(e.value) && session.destroyed == old(session.destroyed))
              && (e.None? ==> o == Respond(OK, PasswordChangedMsg) && session.destroyed)
    {
      var e := service.changePassword(PasswordChange(session.Stored().username, body.currentPassword, body.password));
      if e.Some? {
        return Fail(e.value);
      }
      session.Destroy();
      o := Respond(OK, PasswordChangedMsg);
    }
  }

  /** The user service turns away a request that carries no credentials. */
  predicate RejectsAnonymous(service: UserService) {
    service.logIn(Credentials(None, None)).value.None?
  }

  /** The user service accepts again the pair a successful `logIn` with `body` stored. */
  predicate AcceptsStoredPair(service: UserService, body: Credentials) {
    var reply := service.logIn(body);
    reply.error.None? && reply.value.Some?
    && service.logIn(Credentials(reply.value.value.username, body.password)).value.Some?
  }

  /** Log in on a new session, make a gated request, log out, make another:
      the first request passes with the user, the second fails closed. */
  method LoginThenLogout(service: UserService, body: Credentials, maxAge: Option<int>)
    returns (first: Outcome<string>, second: Outcome<string>)
    requires AcceptsStoredPair(service, body) && RejectsAnonymous(service)
    ensures first == Proceed
    ensures second == Fail(Failure(AuthFailedMsg, UNAUTHORIZED))
  {
    var auth := new Authentication(service);
    var session := new Session(maxAge);
    var o := auth.LogIn(session, body);
    var req := new Request(map[], map[], session);
    first := auth.Authorization(req);
    o := auth.LogOut(session);
    var later := new Request(map[], map[], session);
    second := auth.Authorization(later);
  }

  /** After a successful log-in, the self-destruct timer fires: the next gated
      request fails closed. */
  method LoginThenExpire(service: UserService, body: Credentials, maxAge: Option<int>)
    returns (first: Outcome<string>, second: Outcome<string>)
    requires AcceptsStoredPair(service, body) && RejectsAnonymous(service)
    ensures first == Proceed
    ensures second == Fail(Failure(AuthFailedMsg, UNAUTHORIZED))
  {
    var auth := new Authentication(service);
    var session := new Session(maxAge);
    var o := auth.LogIn(session, body);
    var req := new Request(map[], map[], session);
    first := auth.Authorization(req);
    session.Expire();
    var later := new Request(map[], map[], session);
    second := auth.Authorization(later);
  }

  /** A log-in the service refuses leaves a new session anonymous, so a gated
      request on it fails closed. */
  method FailedLogin(service: UserService, body: Credentials, maxAge: Option<int>)
    returns (login: Outcome<string>, st: SessionState, next: Outcome<string>)
    requires service.logIn(body).error.Some? && RejectsAnonymous(service)
    ensures login == Fail(service.logIn(body).error.value)
    ensures st == Anonymous
    ensures next == Fail(Failure(AuthFailedMsg, UNAUTHORIZED))
  {
    var auth := new Authentication(service);
    var session := new Session(maxAge);
    login := auth.LogIn(session, body);
    st := session.State();
    var req := new Request(map[], map[], session);
    next := auth.Authorization(req);
  }

  /** A password change the service accepts ends the session: the next gated
      request fails closed even though the change reported success. */
  method PasswordChangeLogsOut(service: UserService, body: Credentials, change: PasswordBody, maxAge: Option<int>)
    returns (changed: Outcome<string>, next: Outcome<string>)
    requires AcceptsStoredPair(service, body) && RejectsAnonymous(service)
    requires service.changePassword(
               PasswordChange(service.logIn(body).value.value.username, change.currentPassword, change.password)).None?
    ensures changed == Respond(OK, PasswordChangedMsg)
    ensures next == Fail(Failure(AuthFailedMsg, UNAUTHORIZED))
  {
    var auth := new Authentication(service);
    var session := new Session(maxAge);
    var o := auth.LogIn(session, body);
    changed := auth.ChangePassword(session, change);
    var req := new Request(map[], map[], session);
    next := auth.Authorization(req);
  }
}
