/**
  The bearer check of handlers/auth.go: an Authorization value is accepted only when
  it names the Bearer scheme, its token parses as a user id and a session token, the
  user exists, the user has a session, the session's token is the one presented,
  and the session has not expired. Each check that fails ends CheckAuthorization with its
  own error, in that order.
 */
module Auth {
  import opened Wrappers
  import opened Values
  import opened Engine
  import opened Utils
  import opened Users
  import opened Sessions

  /** The two halves of a bearer token, `<userID>:<sessionToken>`. */
  datatype SessionToken = SessionToken(userID: string, secret: string)

  /** The error session.ParseToken gives for a token with no `:`. */
  const MalformedToken := Foreign("session: malformed token")

  /**
    A stand-in for session.ParseToken, whose source is not part of this model: the
    token split at its first `:` into the user id and the session token.
   */
  function ParseToken(token: string): (r: Result<SessionToken>)
    ensures r.Ok? <==> ':' in token
    ensures r.Err? ==> r.error == MalformedToken
    ensures r.Ok? ==> token == r.value.userID + ":" + r.value.secret && ':' !in r.value.userID
  {
    var i := FirstIndex(token, ':');
    if i == |token| then Err(MalformedToken)
    else
      assert token == token[..i] + ":" + token[i + 1..];
      Ok(SessionToken(token[..i], token[i + 1..]))
  }

  /** A stand-in for Session.ValidateToken: the session's token is the one presented. */
  predicate ValidToken(s: Session, secret: string) {
    s.token == secret
  }

  /** A stand-in for Session.Expired: the clock read `now` is past the session's expiry. */
  predicate Expired(s: Session, now: Time) {
    now.After(s.expires)
  }

  /**
    CheckAuthorization over the state the user and session handlers share (one
    database and the profile store); `now` is the clock read of Expired.
   */
  function CheckAuthorizationSpec(c: Config, s: UsersState, usersTable: string, sessionsTable: string,
                                  authorization: string, now: Time): (UsersState, Outcome)
    requires c.hasProvider
  {
    var p := ParseAuthorization(authorization);
    if p.err.Fail? then (s, p.err)
    else if p.authType != "Bearer" then (s, Fail(UnsupportedScheme))
    else match ParseToken(p.token)
      case Err(x) => (s, Fail(x))
      case Ok(t) => CheckTokenSpec(c, s, usersTable, sessionsTable, t, now)
  }

  /** The checks of CheckAuthorization once the token has parsed: the user, then the user's session. */
  function CheckTokenSpec(c: Config, s: UsersState, usersTable: string, sessionsTable: string,
                          t: SessionToken, now: Time): (UsersState, Outcome)
    requires c.hasProvider
  {
    var u := LookupSpec(c, s, usersTable, PublicID, t.userID);
    if u.1.Err? then (u.0, Fail(u.1.error))
    else
      var g := GetSessionSpec(c, u.0.engine, sessionsTable, t.userID);
      var s1 := u.0.(engine := g.0);
      match g.1
      case Err(x) => (s1, Fail(x))
      case Ok(session) =>
        if !ValidToken(session, t.secret) then (s1, Fail(InvalidSessionToken))
        else if Expired(session, now) then (s1, Fail(SessionExpired))
        else (s1, Pass)
  }

  /** The BearerAuth struct: the user handler and the session handler, over the same database. */
  class BearerAuth {
    const users: Users
    const sessions: Sessions

    constructor (users: Users, sessions: Sessions)
      ensures this.users == users && this.sessions == sessions
    {
      this.users := users;
      this.sessions := sessions;
    }

    method CheckAuthorization(authorization: string, now: Time) returns (err: Outcome)
      requires users.db == sessions.db && users.db.hasProvider
      modifies users.db, users.profiles
      ensures (users.State(), err) ==
              CheckAuthorizationSpec(users.db.Cfg(), old(users.State()), users.table, sessions.table, authorization, now)
    {
      var p := ParseAuthorization(authorization);
      if p.err.Fail? {
        return p.err;
      }
      if p.authType != "Bearer" {
        return Fail(UnsupportedScheme);
      }
      var t := ParseToken(p.token);
      if t.Err? {
        return Fail(t.error);
      }
      var found := users.Get(t.value.userID);
      if found.Err? {
        return Fail(found.error);
      }
      var userSession := sessions.Get(t.value.userID);
      if userSession.Err? {
        return Fail(userSession.error);
      }
      if userSession.value.token != t.value.secret {
        return Fail(InvalidSessionToken);
      }
      if now.After(userSession.value.expires) {
        return Fail(SessionExpired);
      }
      return Pass;
    }
  }
}
