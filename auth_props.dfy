/** What the bearer check (handlers/auth.go) promises, proved about its function. */
module AuthProps {
  import opened Wrappers
  import opened Values
  import opened Engine
  import opened EngineProps
  import opened Utils
  import opened Profiles
  import opened Users
  import opened UserProps
  import opened Sessions
  import opened SessionProps
  import opened Auth

  /** A user id with no `:` and a session token joined by `:` parse back into themselves. */
  lemma ParseTokenRoundTrip(userID: string, secret: string)
    requires ':' !in userID
    ensures ParseToken(userID + ":" + secret) == Ok(SessionToken(userID, secret))
  {
    var token := userID + ":" + secret;
    FirstIndexAfter(userID, ':', secret);
    assert token[..|userID|] == userID && token[|userID| + 1..] == secret;
  }

  /** A value ParseAuthorization rejects is rejected with its error, before any lookup: nothing is read or changed. */
  lemma RejectsMalformedFirst(c: Config, s: UsersState, usersTable: string, sessionsTable: string, authorization: string, now: Time)
    requires c.hasProvider && ParseAuthorization(authorization).err.Fail?
    ensures CheckAuthorizationSpec(c, s, usersTable, sessionsTable, authorization, now) == (s, Fail(InvalidAuthorization))
  {
  }

  /** Any scheme but exactly "Bearer" is rejected before any lookup. */
  lemma BearerOnly(c: Config, s: UsersState, usersTable: string, sessionsTable: string, authorization: string, now: Time)
    requires c.hasProvider && ParseAuthorization(authorization).err.Pass?
    requires ParseAuthorization(authorization).authType != "Bearer"
    ensures CheckAuthorizationSpec(c, s, usersTable, sessionsTable, authorization, now) == (s, Fail(UnsupportedScheme))
  {
  }

  /** "Basic abc" is rejected as an unsupported scheme. */
  lemma BasicRejected(c: Config, s: UsersState, usersTable: string, sessionsTable: string, now: Time)
    requires c.hasProvider
    ensures CheckAuthorizationSpec(c, s, usersTable, sessionsTable, "Basic abc", now) == (s, Fail(UnsupportedScheme))
  {
    var scheme, token := "Basic", "abc";
    assert "Basic abc" == scheme + " " + token;
    ParseRoundTrip(scheme, token);
  }

  /** A Bearer token with no `:` is rejected before any lookup. */
  lemma MalformedTokenFirst(c: Config, s: UsersState, usersTable: string, sessionsTable: string, authorization: string, now: Time)
    requires c.hasProvider && ParseAuthorization(authorization).err.Pass?
    requires ParseAuthorization(authorization).authType == "Bearer" && ':' !in ParseAuthorization(authorization).token
    ensures CheckAuthorizationSpec(c, s, usersTable, sessionsTable, authorization, now) == (s, Fail(MalformedToken))
  {
  }

  /** A Bearer header whose token holds no `:` is rejected as a malformed token, before any lookup. */
  lemma BearerWithoutColon(c: Config, s: UsersState, usersTable: string, sessionsTable: string, token: string, now: Time)
    requires c.hasProvider && ':' !in token && Trimmed(token)
    ensures CheckAuthorizationSpec(c, s, usersTable, sessionsTable, "Bearer " + token, now) == (s, Fail(MalformedToken))
  {
    var scheme := "Bearer";
    assert ' ' !in scheme by {
      forall k | 0 <= k < |scheme| ensures scheme[k] != ' ' { }
    }
    assert "Bearer " + token == scheme + " " + token;
    ParseRoundTrip(scheme, token);
  }

  /** "Bearer malformed" is rejected as a malformed token. */
  lemma BearerMalformedRejected(c: Config, s: UsersState, usersTable: string, sessionsTable: string, now: Time)
    requires c.hasProvider
    ensures CheckAuthorizationSpec(c, s, usersTable, sessionsTable, "Bearer malformed", now) == (s, Fail(MalformedToken))
  {
    var token := "malformed";
    assert "Bearer malformed" == "Bearer " + token;
    assert ':' !in token && Trimmed(token);
    BearerWithoutColon(c, s, usersTable, sessionsTable, token, now);
  }

  /**
    A header of the form `Bearer <userID>:<sessionToken>` reaches the lookups with
    that user id and that session token.
   */
  lemma BearerHeaderParses(userID: string, secret: string)
    requires ':' !in userID && Trimmed(userID + ":" + secret)
    ensures var p := ParseAuthorization("Bearer " + userID + ":" + secret);
            p.err.Pass? && p.authType == "Bearer" && ParseToken(p.token) == Ok(SessionToken(userID, secret))
  {
    var scheme := "Bearer";
    assert ' ' !in scheme by {
      forall k | 0 <= k < |scheme| ensures scheme[k] != ' ' { }
    }
    assert "Bearer " + userID + ":" + secret == scheme + " " + (userID + ":" + secret);
    ParseRoundTrip(scheme, userID + ":" + secret);
    ParseTokenRoundTrip(userID, secret);
  }

  /**
    An unknown user is rejected with the lookup's error, and the session store is
    not consulted: the state is the one the user lookup left.
   */
  lemma UnknownUserFirst(c: Config, s: UsersState, usersTable: string, sessionsTable: string, authorization: string, now: Time)
    requires c.hasProvider && ParseAuthorization(authorization).err.Pass? && ParseAuthorization(authorization).authType == "Bearer"
    requires ParseToken(ParseAuthorization(authorization).token).Ok?
    requires LookupSpec(c, s, usersTable, PublicID, ParseToken(ParseAuthorization(authorization).token).value.userID).1.Err?
    ensures var u := LookupSpec(c, s, usersTable, PublicID, ParseToken(ParseAuthorization(authorization).token).value.userID);
            CheckAuthorizationSpec(c, s, usersTable, sessionsTable, authorization, now) == (u.0, Fail(u.1.error))
  {
  }

  /**
    With the user found, a missing session is rejected with the session lookup's
    error; a session whose token differs is rejected as such whether or not it has
    expired; and only a session with the right token that has expired is rejected
    as expired.
   */
  lemma SessionChecksInOrder(c: Config, s: UsersState, usersTable: string, sessionsTable: string, authorization: string, now: Time)
    requires c.hasProvider && ParseAuthorization(authorization).err.Pass? && ParseAuthorization(authorization).authType == "Bearer"
    requires ParseToken(ParseAuthorization(authorization).token).Ok?
    requires LookupSpec(c, s, usersTable, PublicID, ParseToken(ParseAuthorization(authorization).token).value.userID).1.Ok?
    ensures var t := ParseToken(ParseAuthorization(authorization).token).value;
            var u := LookupSpec(c, s, usersTable, PublicID, t.userID);
            var g := GetSessionSpec(c, u.0.engine, sessionsTable, t.userID);
            var r := CheckAuthorizationSpec(c, s, usersTable, sessionsTable, authorization, now);
            r.0 == u.0.(engine := g.0) &&
            (g.1.Err? ==> r.1 == Fail(g.1.error)) &&
            (g.1.Ok? && g.1.value.token != t.secret ==> r.1 == Fail(InvalidSessionToken)) &&
            (g.1.Ok? && g.1.value.token == t.secret && now.After(g.1.value.expires) ==> r.1 == Fail(SessionExpired))
  {
  }

  /**
    CheckAuthorization passes exactly when the value is a Bearer header whose token parses,
    the user exists, the user has a session with the token presented, and that
    session has not expired; the user and the session found then both belong to the
    user id of the token.
   */
  lemma PassesExactly(c: Config, s: UsersState, usersTable: string, sessionsTable: string, authorization: string, now: Time)
    requires c.hasProvider
    ensures var p := ParseAuthorization(authorization);
            var t := ParseToken(p.token);
            var r := CheckAuthorizationSpec(c, s, usersTable, sessionsTable, authorization, now);
            r.1.Pass? <==>
              p.err.Pass? && p.authType == "Bearer" && t.Ok? &&
              var u := LookupSpec(c, s, usersTable, PublicID, t.value.userID);
              var g := GetSessionSpec(c, u.0.engine, sessionsTable, t.value.userID);
              u.1.Ok? && g.1.Ok? && g.1.value.token == t.value.secret && !now.After(g.1.value.expires) &&
              u.1.value.publicID == t.value.userID && g.1.value.userID == t.value.userID
  {
    var p := ParseAuthorization(authorization);
    var t := ParseToken(p.token);
    if p.err.Pass? && p.authType == "Bearer" && t.Ok? {
      var u := LookupSpec(c, s, usersTable, PublicID, t.value.userID);
      LookupOwned(c, s, usersTable, PublicID, t.value.userID);
      GetSessionOwned(c, u.0.engine, sessionsTable, t.value.userID);
    }
  }

  /** CheckAuthorization only reads the engine: everything is preserved and nothing is written. */
  lemma CheckOnlyReads(c: Config, s: UsersState, usersTable: string, sessionsTable: string, authorization: string, now: Time)
    requires c.hasProvider
    ensures var r := CheckAuthorizationSpec(c, s, usersTable, sessionsTable, authorization, now);
            ReadOnly(s.engine, r.0.engine) && Writes(r.0.engine) == Writes(s.engine)
  {
    var p := ParseAuthorization(authorization);
    var t := ParseToken(p.token);
    if p.err.Pass? && p.authType == "Bearer" && t.Ok? {
      CheckTokenReads(c, s, usersTable, sessionsTable, t.value, now);
    }
  }

  /** The user and session lookups only read the engine. */
  lemma CheckTokenReads(c: Config, s: UsersState, usersTable: string, sessionsTable: string, t: SessionToken, now: Time)
    requires c.hasProvider
    ensures ReadOnly(s.engine, CheckTokenSpec(c, s, usersTable, sessionsTable, t, now).0.engine)
  {
    var u := LookupSpec(c, s, usersTable, PublicID, t.userID);
    CheckTokenState(c, s, usersTable, sessionsTable, t, now);
    LookupReadOnly(c, s, usersTable, PublicID, t.userID);
    if u.1.Ok? {
      GetSessionReadOnly(c, u.0.engine, sessionsTable, t.userID);
      PreservesTrans(s.engine.backend, u.0.engine.backend, GetSessionSpec(c, u.0.engine, sessionsTable, t.userID).0.backend);
    }
  }

  /** CheckAuthorization keeps every profile of the profile store: at most it asks for the user's. */
  lemma CheckKeepsProfiles(c: Config, s: UsersState, usersTable: string, sessionsTable: string, authorization: string, now: Time)
    requires c.hasProvider
    ensures var r := CheckAuthorizationSpec(c, s, usersTable, sessionsTable, authorization, now);
            (s.book.Some? <==> r.0.book.Some?) &&
            (s.book.Some? ==> r.0.book.value.byUser == s.book.value.byUser &&
                               r.0.book.value.refusing == s.book.value.refusing)
  {
    var p := ParseAuthorization(authorization);
    var t := ParseToken(p.token);
    if p.err.Pass? && p.authType == "Bearer" && t.Ok? {
      CheckTokenKeepsProfiles(c, s, usersTable, sessionsTable, t.value, now);
    }
  }

  /** The user and session lookups keep every profile of the profile store. */
  lemma CheckTokenKeepsProfiles(c: Config, s: UsersState, usersTable: string, sessionsTable: string, t: SessionToken, now: Time)
    requires c.hasProvider
    ensures var r := CheckTokenSpec(c, s, usersTable, sessionsTable, t, now);
            (s.book.Some? <==> r.0.book.Some?) &&
            (s.book.Some? ==> r.0.book.value.byUser == s.book.value.byUser &&
                               r.0.book.value.refusing == s.book.value.refusing)
  {
    CheckTokenState(c, s, usersTable, sessionsTable, t, now);
    LookupProfile(c, s, usersTable, PublicID, t.userID);
  }

  /** After the token has parsed, CheckAuthorization leaves the profile store as the user lookup left it, and the engine as the last lookup left it. */
  lemma CheckTokenState(c: Config, s: UsersState, usersTable: string, sessionsTable: string, t: SessionToken, now: Time)
    requires c.hasProvider
    ensures var u := LookupSpec(c, s, usersTable, PublicID, t.userID);
            var r := CheckTokenSpec(c, s, usersTable, sessionsTable, t, now);
            r.0.book == u.0.book &&
            r.0.engine == if u.1.Err? then u.0.engine else GetSessionSpec(c, u.0.engine, sessionsTable, t.userID).0
  {
  }
}
