/** What the user handler (handlers/users.go) promises, proved about its functions. */
module UserProps {
  import opened Wrappers
  import opened Values
  import opened Text
  import opened Literal
  import opened Query
  import opened Store
  import opened Engine
  import opened EngineProps
  import opened Profiles
  import opened Users

  // ---------------------------------------------------------------------------
  // Fields and WithFields

  /** WithFields reads back the user Fields() wrote, whatever other fields the record holds; the profile is not a column. */
  lemma DecodeUserFields(u: User, r: Record)
    requires forall k :: k in UserFields(u) ==> k in r && r[k] == UserFields(u)[k]
    ensures DecodeUser(r) == Ok(u.(profile := None))
  {
    var f := UserFields(u);
    assert "public_id" in f && "private_id" in f && "email" in f && "hash" in f;
  }

  /** The row Save stores for a user, as Get hands it over, decodes to the user without its profile. */
  lemma DecodeStoredUser(u: User, createdAt: Time, updatedAt: Time)
    ensures DecodeUser(Naturalized(Stored(UserFields(u), createdAt, updatedAt))) == Ok(u.(profile := None))
  {
    var r := Naturalized(Stored(UserFields(u), createdAt, updatedAt));
    forall k | k in UserFields(u) ensures k in r && r[k] == UserFields(u)[k] {
      assert k != CreatedAt && k != UpdatedAt;
    }
    DecodeUserFields(u, r);
  }

  // ---------------------------------------------------------------------------
  // Get and GetByEmail

  /** Looking a user up only reads the engine. */
  lemma LookupReadOnly(c: Config, s: UsersState, table: string, index: string, key: string)
    requires c.hasProvider
    ensures ReadOnly(s.engine, LookupSpec(c, s, table, index, key).0.engine)
  {
    GetReadOnly(c, s.engine, table, index, VString(key));
  }

  /** The user Get finds has the public id asked for, and the user GetByEmail finds has the email asked for. */
  lemma LookupOwned(c: Config, s: UsersState, table: string, index: string, key: string)
    requires c.hasProvider
    ensures var r := LookupSpec(c, s, table, index, key);
            (r.1.Ok? && index == PublicID ==> r.1.value.publicID == key) &&
            (r.1.Ok? && index == "email" ==> r.1.value.email == key)
  {
    GetStringKey(c, s.engine, table, index, key);
  }

  /**
    The profile store is consulted only once the user's row is found and decoded,
    and then once, for the public id of the user found; a failure of the engine or of
    WithFields is returned as it is, and a failure of the profile store fails the
    lookup. Without a profile store the user comes back without a profile.
   */
  lemma LookupProfile(c: Config, s: UsersState, table: string, index: string, key: string)
    requires c.hasProvider
    ensures var r := LookupSpec(c, s, table, index, key);
            var g := GetSpec(c, s.engine, table, index, VString(key));
            (g.1.Err? ==> r.0.book == s.book && r.1 == Err(g.1.error)) &&
            (g.1.Ok? && DecodeUser(g.1.value).Err? ==> r.0.book == s.book && r.1 == DecodeUser(g.1.value)) &&
            (s.book.None? ==> r.0.book.None? && (r.1.Ok? ==> r.1.value.profile.None?)) &&
            (s.book.Some? && g.1.Ok? && DecodeUser(g.1.value).Ok? ==>
               var nu := DecodeUser(g.1.value).value;
               var p := GetByUserSpec(s.book.value, nu.publicID);
               r.0.book == Some(p.0) && (r.1.Ok? <==> p.1.Ok?) &&
               (r.1.Ok? ==> r.1.value == nu.(profile := Some(p.1.value))) &&
               (r.1.Err? ==> r.1.error == p.1.error))
  {
  }

  // ---------------------------------------------------------------------------
  // Delete

  /**
    Delete removes the user's row before anything else: when that fails the profile
    store is left alone and the engine's error is returned. The profile store is
    asked to delete the user's profile only after that, once.
   */
  lemma DeleteUserFirst(c: Config, s: UsersState, table: string, id: string)
    requires c.hasProvider
    ensures var r := DeleteUserSpec(c, s, table, id);
            var d := DeleteSpec(c, s.engine, table, PublicID, VString(id));
            r.0.engine == d.0 &&
            (d.1.Fail? ==> r.0.book == s.book && r.1 == d.1) &&
            (r.0.book != s.book ==>
               d.1.Pass? && s.book.Some? && r.0.book.Some? &&
               r.0.book.value.calls == s.book.value.calls + [DeleteByUserCall(id)]) &&
            (r.1.Fail? ==> r.1 == d.1 || (s.book.Some? && r.1 == Fail(Refused)))
  {
  }

  /** Delete writes exactly its DELETE by public_id once the engine connects, and nothing else. */
  lemma DeleteUserWrites(c: Config, s: UsersState, table: string, id: string)
    requires c.hasProvider
    ensures var r := DeleteUserSpec(c, s, table, id);
            (OpenSpec(c, s.engine).1.Pass? ==>
               Writes(r.0.engine) == Writes(s.engine) + [DeleteItem(table, PublicID, Quote(id))]) &&
            (OpenSpec(c, s.engine).1.Fail? ==> Writes(r.0.engine) == Writes(s.engine) && r.1.Fail?)
  {
    DeleteWrites(c, s.engine, table, PublicID, VString(id));
  }

  /** After Delete succeeds, Get by the same public id finds nothing, and the profile store holds no profile for it. */
  lemma DeleteUserThenGet(c: Config, s: UsersState, table: string, id: string)
    requires c.hasProvider && DeleteUserSpec(c, s, table, id).1.Pass?
    ensures var r := DeleteUserSpec(c, s, table, id);
            LookupSpec(c, r.0, table, PublicID, id).1 == Err(NoRows) &&
            (r.0.book.Some? ==> id !in r.0.book.value.byUser)
  {
    DeleteThenGet(c, s.engine, table, PublicID, VString(id));
  }

  // ---------------------------------------------------------------------------
  // Create

  /**
    Create saves nothing when user.New fails; otherwise it saves the user first,
    and the profile store is asked to create a profile only after that save
    succeeds, once, for the new user's public id.
   */
  lemma CreateUserOrder(c: Config, s: UsersState, table: string, made: Result<User>, names: seq<string>,
                        createdAt: Time, updatedAt: Time, profileID: string)
    requires c.hasProvider
    ensures var r := CreateUserSpec(c, s, table, made, names, createdAt, updatedAt, profileID);
            (made.Err? ==> r == (s, Err(made.error))) &&
            (r.0.book != s.book ==>
               made.Ok? && SaveSpec(c, s.engine, table, UserFields(made.value), names, createdAt, updatedAt).1.Pass? &&
               s.book.Some? && r.0.book.Some? &&
               r.0.book.value.calls == s.book.value.calls + [CreateCall(made.value.publicID)])
  {
  }

  /**
    What Create returns is the user user.New made: as made without a profile store,
    and with the profile just created, named by the generated id, with one.
   */
  lemma CreateUserReturns(c: Config, s: UsersState, table: string, made: Result<User>, names: seq<string>,
                          createdAt: Time, updatedAt: Time, profileID: string)
    requires c.hasProvider
    ensures var r := CreateUserSpec(c, s, table, made, names, createdAt, updatedAt, profileID);
            r.1.Ok? ==>
              made.Ok? &&
              (s.book.None? ==> r.1.value == made.value) &&
              (s.book.Some? ==>
                 r.1.value == made.value.(profile := Some(Profile(made.value.publicID, profileID))) &&
                 r.0.book.Some? && r.0.book.value.byUser[made.value.publicID] == Profile(made.value.publicID, profileID))
  {
  }

  /** Create writes nothing but the INSERT of the new user. */
  lemma CreateUserWrites(c: Config, s: UsersState, table: string, made: Result<User>, names: seq<string>,
                         createdAt: Time, updatedAt: Time, profileID: string)
    requires c.hasProvider
    ensures var r := CreateUserSpec(c, s, table, made, names, createdAt, updatedAt, profileID);
            (made.Err? ==> Writes(r.0.engine) == Writes(s.engine)) &&
            (made.Ok? ==>
               Writes(r.0.engine) == Writes(s.engine) ||
               Writes(r.0.engine) == Writes(s.engine) + [SaveStatement(table, UserFields(made.value), names, createdAt, updatedAt)])
  {
    if made.Ok? {
      SaveWrites(c, s.engine, table, UserFields(made.value), names, createdAt, updatedAt);
    }
  }

  /**
    For a public id with no row yet, on an existing table whose writes the
    database accepts, and with no profile store or one that serves calls, Create of a user
    user.New made (which carries no profile yet) succeeds, and Get by the new user's
    public id afterwards gives back what Create returned.
   */
  lemma CreateUserThenGet(c: Config, s: UsersState, table: string, nu: User, names: seq<string>,
                          createdAt: Time, updatedAt: Time, profileID: string)
    requires c.hasProvider && OpenSpec(c, s.engine).1.Pass?
    requires table in s.engine.backend.tables && table !in s.engine.backend.rejecting && table !in s.engine.backend.writeRefused
    requires forall row :: row in s.engine.backend.tables[table] ==> !Matches(row, PublicID, Quote(nu.publicID))
    requires Enumerates(names, UserFields(nu).Keys)
    requires nu.profile.None? && (s.book.Some? ==> !s.book.value.refusing)
    ensures var r := CreateUserSpec(c, s, table, Ok(nu), names, createdAt, updatedAt, profileID);
            r.1.Ok? && LookupSpec(c, r.0, table, PublicID, nu.publicID).1 == r.1
  {
    var saved := SaveSpec(c, s.engine, table, UserFields(nu), names, createdAt, updatedAt);
    SavedUserFound(c, s.engine, table, nu, names, createdAt, updatedAt);
    var a := AddProfileSpec(s.(engine := saved.0), nu, profileID);
    assert CreateUserSpec(c, s, table, Ok(nu), names, createdAt, updatedAt, profileID) == a;
    ProfileThenLookup(s.(engine := saved.0), nu, profileID, GetSpec(c, saved.0, table, PublicID, VString(nu.publicID)).0);
  }

  /**
    Saving a user whose public id has no row yet succeeds, and Get by that public id
    then finds and decodes the user, without its profile.
   */
  lemma SavedUserFound(c: Config, e: EngineState, table: string, nu: User, names: seq<string>, createdAt: Time, updatedAt: Time)
    requires c.hasProvider && OpenSpec(c, e).1.Pass?
    requires table in e.backend.tables && table !in e.backend.rejecting && table !in e.backend.writeRefused
    requires forall row :: row in e.backend.tables[table] ==> !Matches(row, PublicID, Quote(nu.publicID))
    requires Enumerates(names, UserFields(nu).Keys)
    ensures var saved := SaveSpec(c, e, table, UserFields(nu), names, createdAt, updatedAt);
            var g := GetSpec(c, saved.0, table, PublicID, VString(nu.publicID));
            saved.1.Pass? && g.1.Ok? && DecodeUser(g.1.value) == Ok(nu.(profile := None))
  {
    SaveAppends(c, e, table, UserFields(nu), names, createdAt, updatedAt);
    SaveThenGet(c, e, table, UserFields(nu), names, createdAt, updatedAt, PublicID);
    DecodeStoredUser(nu, createdAt, updatedAt);
  }

  /**
    With no profile store, or one that serves calls, the profile Create adds is the
    one a lookup of the same user then fills in, whatever the engine did meanwhile.
   */
  lemma ProfileThenLookup(s: UsersState, nu: User, profileID: string, e: EngineState)
    requires nu.profile.None? && (s.book.Some? ==> !s.book.value.refusing)
    ensures var a := AddProfileSpec(s, nu, profileID);
            a.1.Ok? && a.0.engine == s.engine && WithProfileSpec(a.0.(engine := e), nu.(profile := None)).1 == a.1
  {
  }

  // ---------------------------------------------------------------------------
  // UpdatePassword

  /**
    UpdatePassword checks the public id before the password, and either check that
    fails leaves everything as it was. The profile store is never touched.
   */
  lemma UpdatePasswordChecks(c: Config, s: UsersState, table: string, nw: UpdateUserPassword,
                             change: (User, string) -> Result<User>, now: Time, order: seq<string>)
    requires c.hasProvider
    ensures var r := UpdatePasswordSpec(c, s, table, nw, change, now, order);
            r.0.book == s.book &&
            (nw.publicID == "" ==> r == (s, Fail(EmptyField("UpdateUserPassword.PublicID")))) &&
            (nw.publicID != "" && nw.password == "" ==> r == (s, Fail(EmptyField("UpdateUserPassword.Password"))))
  {
  }

  /**
    When the user is not found, does not decode, or ChangePassword refuses, the
    handler returns that error and only read.
   */
  lemma UpdatePasswordStops(c: Config, s: UsersState, table: string, nw: UpdateUserPassword,
                            change: (User, string) -> Result<User>, now: Time, order: seq<string>)
    requires c.hasProvider && nw.publicID != "" && nw.password != ""
    requires ChangeFound(GetSpec(c, s.engine, table, PublicID, VString(nw.publicID)).1, nw.password, change).Err?
    ensures var r := UpdatePasswordSpec(c, s, table, nw, change, now, order);
            var cf := ChangeFound(GetSpec(c, s.engine, table, PublicID, VString(nw.publicID)).1, nw.password, change);
            r.1 == Fail(cf.error) && ReadOnly(s.engine, r.0.engine) && Writes(r.0.engine) == Writes(s.engine)
  {
    GetReadOnly(c, s.engine, table, PublicID, VString(nw.publicID));
  }

  /**
    Whatever UpdatePassword writes is one UPDATE of the changed user's columns and
    updated_at, addressed by the changed user's public id.
   */
  lemma UpdatePasswordWrites(c: Config, s: UsersState, table: string, nw: UpdateUserPassword,
                             change: (User, string) -> Result<User>, now: Time, order: seq<string>)
    requires c.hasProvider
    ensures var r := UpdatePasswordSpec(c, s, table, nw, change, now, order);
            var cf := ChangeFound(GetSpec(c, s.engine, table, PublicID, VString(nw.publicID)).1, nw.password, change);
            Writes(r.0.engine) == Writes(s.engine) ||
            (nw.publicID != "" && nw.password != "" && cf.Ok? &&
             exists sets :: Writes(r.0.engine) == Writes(s.engine) +
                              [UpdateSet(table, Stamped(UserFields(cf.value), now) - {PublicID}, sets, PublicID, Quote(cf.value.publicID))])
  {
    if nw.publicID != "" && nw.password != "" {
      var g := GetSpec(c, s.engine, table, PublicID, VString(nw.publicID));
      GetReadOnly(c, s.engine, table, PublicID, VString(nw.publicID));
      var cf := ChangeFound(g.1, nw.password, change);
      if cf.Ok? {
        UserFieldsLiterals(cf.value, now);
        UpdateWrites(c, g.0, table, UserFields(cf.value), PublicID, now, order);
      }
    }
  }

  /** When ChangePassword keeps the public id, the user changed is the user asked for. */
  lemma UpdatePasswordTargets(c: Config, s: UsersState, table: string, nw: UpdateUserPassword,
                              change: (User, string) -> Result<User>)
    requires c.hasProvider
    requires forall u: User, p: string :: change(u, p).Ok? ==> change(u, p).value.publicID == u.publicID
    ensures var cf := ChangeFound(GetSpec(c, s.engine, table, PublicID, VString(nw.publicID)).1, nw.password, change);
            cf.Ok? ==> cf.value.publicID == nw.publicID
  {
    GetStringKey(c, s.engine, table, PublicID, nw.publicID);
  }

  /**
    Once the changed user is at hand, on a table whose writes the database accepts, the UPDATE succeeds: every row with the
    changed user's public id gets its columns and updated_at, and every other row
    of the table as the lookup saw it is kept.
   */
  lemma UpdatePasswordApplies(c: Config, s: UsersState, table: string, nw: UpdateUserPassword,
                              change: (User, string) -> Result<User>, now: Time, order: seq<string>)
    requires c.hasProvider && nw.publicID != "" && nw.password != ""
    requires ChangeFound(GetSpec(c, s.engine, table, PublicID, VString(nw.publicID)).1, nw.password, change).Ok?
    requires table !in s.engine.backend.writeRefused
    ensures var r := UpdatePasswordSpec(c, s, table, nw, change, now, order);
            var g := GetSpec(c, s.engine, table, PublicID, VString(nw.publicID));
            var changed := ChangeFound(g.1, nw.password, change).value;
            var assigns := Stamped(UserFields(changed), now) - {PublicID};
            table in g.0.backend.tables && table in r.0.engine.backend.tables &&
            var before := g.0.backend.tables[table];
            r.1 == Pass && |r.0.engine.backend.tables[table]| == |before| &&
            forall i :: 0 <= i < |before| ==>
              r.0.engine.backend.tables[table][i] ==
                if Matches(before[i], PublicID, Quote(changed.publicID)) then before[i] + assigns else before[i]
  {
    var g := GetSpec(c, s.engine, table, PublicID, VString(nw.publicID));
    ChangedUserFound(c, s, table, nw, change);
    var changed := ChangeFound(g.1, nw.password, change).value;
    UpdatePasswordAfterChange(c, s, table, nw, change, now, order);
    UpdateUserRowApplies(c, g.0, table, changed, now, order);
  }

  /**
    On a served table whose writes the database accepts, the engine's Update of a user by
    public_id succeeds: the rows with that public id get the user's columns and updated_at,
    and every other row is kept.
   */
  lemma UpdateUserRowApplies(c: Config, e: EngineState, table: string, changed: User, now: Time, order: seq<string>)
    requires c.hasProvider && OpenSpec(c, e).1.Pass?
    requires table in e.backend.tables && table !in e.backend.rejecting && table !in e.backend.writeRefused
    ensures var u := UpdateSpec(c, e, table, UserFields(changed), PublicID, now, order);
            var assigns := Stamped(UserFields(changed), now) - {PublicID};
            var before := e.backend.tables[table];
            table in u.0.backend.tables && u.1 == Pass && |u.0.backend.tables[table]| == |before| &&
            forall i :: 0 <= i < |before| ==>
              u.0.backend.tables[table][i] ==
                if Matches(before[i], PublicID, Quote(changed.publicID)) then before[i] + assigns else before[i]
  {
    UserFieldsLiterals(changed, now);
    UpdateApplies(c, e, table, UserFields(changed), PublicID, now, order);
  }

  /**
    Every column of a user prints as a literal, the public id stamped for Update prints as its quoted text,
    and updated_at is left to SET once the public id is taken out.
   */
  lemma UserFieldsLiterals(u: User, now: Time)
    ensures forall k :: k in UserFields(u) ==> HasLiteral(UserFields(u)[k])
    ensures PublicID in Stamped(UserFields(u), now) && HasLiteral(Stamped(UserFields(u), now)[PublicID])
    ensures LiteralText(Stamped(UserFields(u), now)[PublicID]) == Quote(u.publicID)
    ensures UpdatedAt in Stamped(UserFields(u), now) - {PublicID}
  {
    assert Stamped(UserFields(u), now)[PublicID] == VString(u.publicID);
  }

  /** Once the changed user is at hand, what is left of UpdatePassword is the engine's Update by public_id. */
  lemma UpdatePasswordAfterChange(c: Config, s: UsersState, table: string, nw: UpdateUserPassword,
                                  change: (User, string) -> Result<User>, now: Time, order: seq<string>)
    requires c.hasProvider && nw.publicID != "" && nw.password != ""
    requires ChangeFound(GetSpec(c, s.engine, table, PublicID, VString(nw.publicID)).1, nw.password, change).Ok?
    ensures var g := GetSpec(c, s.engine, table, PublicID, VString(nw.publicID));
            var changed := ChangeFound(g.1, nw.password, change).value;
            var u := UpdateSpec(c, g.0, table, UserFields(changed), PublicID, now, order);
            UpdatePasswordSpec(c, s, table, nw, change, now, order) == (s.(engine := u.0), u.1)
  {
  }

  /** A changed user at hand means the lookup connected and found the table, which the database does not refuse. */
  lemma ChangedUserFound(c: Config, s: UsersState, table: string, nw: UpdateUserPassword, change: (User, string) -> Result<User>)
    requires c.hasProvider
    requires ChangeFound(GetSpec(c, s.engine, table, PublicID, VString(nw.publicID)).1, nw.password, change).Ok?
    ensures var g := GetSpec(c, s.engine, table, PublicID, VString(nw.publicID));
            OpenSpec(c, g.0).1.Pass? && table in g.0.backend.tables && table !in g.0.backend.rejecting &&
            g.0.backend.writeRefused == s.engine.backend.writeRefused
  {
    var g := GetSpec(c, s.engine, table, PublicID, VString(nw.publicID));
    GetReadOnly(c, s.engine, table, PublicID, VString(nw.publicID));
    GetReturnsRow(c, s.engine, table, PublicID, VString(nw.publicID));
    OpenSpecFacts(c, s.engine);
    ReadOnlyOpen(c, s.engine, g.0);
  }

  // ---------------------------------------------------------------------------
  // Update

  /** Update refuses an empty public id and then changes nothing. */
  lemma UpdateUserEmpty(c: Config, s: UsersState, table: string, nw: UpdateUser, now: Time, order: seq<string>)
    requires c.hasProvider && nw.publicID == ""
    ensures UpdateUserSpec(c, s, table, nw, now, order) == (s, Fail(EmptyField("User.PublicID")))
  {
  }

  /**
    On an existing table whose writes the database accepts, Update succeeds, sets the
    email and updated_at of every row with the public id asked for, and keeps every
    other row. The public id itself is never assigned.
   */
  lemma UpdateUserApplies(c: Config, s: UsersState, table: string, nw: UpdateUser, now: Time, order: seq<string>)
    requires c.hasProvider && nw.publicID != "" && OpenSpec(c, s.engine).1.Pass?
    requires table in s.engine.backend.tables && table !in s.engine.backend.rejecting && table !in s.engine.backend.writeRefused
    ensures var r := UpdateUserSpec(c, s, table, nw, now, order);
            var before := s.engine.backend.tables[table];
            var assigns := map["email" := VString(nw.email), UpdatedAt := VTime(now)];
            r.1 == Pass && r.0.book == s.book && |r.0.engine.backend.tables[table]| == |before| &&
            forall i :: 0 <= i < |before| ==>
              r.0.engine.backend.tables[table][i] ==
                if Matches(before[i], PublicID, Quote(nw.publicID)) then before[i] + assigns else before[i]
  {
    var fields := UpdateUserFields(nw);
    assert Stamped(fields, now) - {PublicID} == map["email" := VString(nw.email), UpdatedAt := VTime(now)];
    assert UpdatedAt in Stamped(fields, now) - {PublicID};
    UpdateApplies(c, s.engine, table, fields, PublicID, now, order);
  }

  /** Whatever Update writes is one UPDATE of the email and updated_at, addressed by the public id asked for. */
  lemma UpdateUserWrites(c: Config, s: UsersState, table: string, nw: UpdateUser, now: Time, order: seq<string>)
    requires c.hasProvider
    ensures var r := UpdateUserSpec(c, s, table, nw, now, order);
            var assigns := map["email" := VString(nw.email), UpdatedAt := VTime(now)];
            Writes(r.0.engine) == Writes(s.engine) ||
            (nw.publicID != "" &&
             exists sets :: Writes(r.0.engine) == Writes(s.engine) + [UpdateSet(table, assigns, sets, PublicID, Quote(nw.publicID))])
  {
    if nw.publicID != "" {
      var fields := UpdateUserFields(nw);
      assert Stamped(fields, now) - {PublicID} == map["email" := VString(nw.email), UpdatedAt := VTime(now)];
      UpdateWrites(c, s.engine, table, fields, PublicID, now, order);
    }
  }

  // ---------------------------------------------------------------------------
  // GetAll

  /**
    GetAll only reads and never consults the profile store. It echoes the page and
    page size and the engine's total, and lists one user per record, each decoded
    from the record in the same place; it fails with the engine's error, or with
    the error of the first record that does not decode.
   */
  lemma UsersListFacts(c: Config, s: UsersState, table: string, page: int, perPage: int)
    requires c.hasProvider
    ensures var l := ListSpec(c, s, table, page, perPage);
            var p := GetAllPerPageSpec(c, s.engine, table, "asc", PublicID, page, perPage).1;
            ReadOnly(s.engine, l.0.engine) && l.0.book == s.book &&
            (l.1.Ok? ==>
               p.err.Pass? && l.1.value.page == page && l.1.value.responsePerPage == perPage &&
               l.1.value.total == p.total && |l.1.value.records| == |p.records| &&
               forall i :: 0 <= i < |p.records| ==> DecodeUser(p.records[i]) == Ok(l.1.value.records[i])) &&
            (l.1.Err? ==>
               (p.err.Fail? && l.1.error == p.err.error) ||
               (p.err.Pass? && exists i :: 0 <= i < |p.records| && DecodeUser(p.records[i]) == Err(l.1.error) &&
                                          forall j :: 0 <= j < i ==> DecodeUser(p.records[j]).Ok?))
  {
    GetAllPerPageReadOnly(c, s.engine, table, "asc", PublicID, page, perPage);
  }
}
