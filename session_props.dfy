/** What the session handler (handlers/sessions.go) promises, proved about its functions. */
module SessionProps {
  import opened Wrappers
  import opened Values
  import opened Text
  import opened Literal
  import opened Query
  import opened Store
  import opened Engine
  import opened EngineProps
  import opened Sessions

  /** WithFields reads back the session Fields() wrote, whatever other fields the record holds. */
  lemma DecodeSessionFields(s: Session, r: Record)
    requires forall k :: k in SessionFields(s) ==> k in r && r[k] == SessionFields(s)[k]
    ensures DecodeSession(r) == Ok(s)
  {
    var f := SessionFields(s);
    assert "user_id" in f && "token" in f && "public_id" in f && "expires" in f;
  }

  /** The row Save stores for a session, as Get hands it over, decodes to the session. */
  lemma DecodeStored(s: Session, createdAt: Time, updatedAt: Time)
    ensures DecodeSession(Naturalized(Stored(SessionFields(s), createdAt, updatedAt))) == Ok(s)
  {
    var r := Naturalized(Stored(SessionFields(s), createdAt, updatedAt));
    forall k | k in SessionFields(s) ensures k in r && r[k] == SessionFields(s)[k] {
      assert k != CreatedAt && k != UpdatedAt;
    }
    DecodeSessionFields(s, r);
  }

  /** Looking a session up only reads. */
  lemma GetSessionReadOnly(c: Config, e: EngineState, table: string, userID: string)
    requires c.hasProvider
    ensures ReadOnly(e, GetSessionSpec(c, e, table, userID).0)
  {
    GetReadOnly(c, e, table, UniqueIndex, VString(userID));
  }

  /**
    A session the lookup finds belongs to the user asked for; finding one means the
    table exists and is not refused.
   */
  lemma GetSessionOwned(c: Config, e: EngineState, table: string, userID: string)
    requires c.hasProvider
    ensures var g := GetSessionSpec(c, e, table, userID);
            g.1.Ok? ==> g.1.value.userID == userID && OpenSpec(c, e).1.Pass? &&
                        table in g.0.backend.tables && table !in g.0.backend.rejecting
  {
    var g := GetSessionSpec(c, e, table, userID);
    GetReturnsRow(c, e, table, UniqueIndex, VString(userID));
    if g.1.Ok? {
      var row :| row in g.0.backend.tables[table] && Matches(row, UniqueIndex, Quote(userID)) &&
                 GetSpec(c, e, table, UniqueIndex, VString(userID)).1.value == Naturalized(row);
      NaturalizeKeepsLiteral(row[UniqueIndex]);
      StringLiteralInjective(g.1.value.userID, userID);
    }
  }

  /** When the session found is live, Create returns it as found and nothing is written. */
  lemma CreateReusesLive(c: Config, e: EngineState, table: string, expiration: int, userID: string, d: Draws, names: seq<string>)
    requires c.hasProvider
    requires GetSessionSpec(c, e, table, userID).1.Ok? && Live(GetSessionSpec(c, e, table, userID).1.value, d.now)
    ensures var r := CreateSpec(c, e, table, expiration, userID, d, names);
            r.1 == GetSessionSpec(c, e, table, userID).1 && ReadOnly(e, r.0) && Writes(r.0) == Writes(e)
  {
    GetSessionReadOnly(c, e, table, userID);
  }

  /**
    When the session found is stale, Create deletes the user's sessions and, once
    that succeeds, saves the new one: those two writes and no others, in that order.
   */
  lemma CreateReplacesStale(c: Config, e: EngineState, table: string, expiration: int, userID: string, d: Draws, names: seq<string>)
    requires c.hasProvider
    requires GetSessionSpec(c, e, table, userID).1.Ok? && Stale(GetSessionSpec(c, e, table, userID).1.value, d.now)
    requires DeleteSpec(c, GetSessionSpec(c, e, table, userID).0, table, UniqueIndex, VString(userID)).1.Pass?
    ensures var r := CreateSpec(c, e, table, expiration, userID, d, names);
            Writes(r.0) == Writes(e) + [DeleteItem(table, UniqueIndex, Quote(userID)),
                                        SaveStatement(table, SessionFields(Minted(userID, expiration, d)), names, d.createdAt, d.updatedAt)]
  {
    StaleDropWrites(c, e, table, userID);
    CreateAfterDrop(c, e, table, expiration, userID, d, names);
    var dropped := DeleteSpec(c, GetSessionSpec(c, e, table, userID).0, table, UniqueIndex, VString(userID));
    SaveWrites(c, dropped.0, table, SessionFields(Minted(userID, expiration, d)), names, d.createdAt, d.updatedAt);
  }

  /** After dropping a stale session, what is left of Create is saving the new one. */
  lemma CreateAfterDrop(c: Config, e: EngineState, table: string, expiration: int, userID: string, d: Draws, names: seq<string>)
    requires c.hasProvider
    requires GetSessionSpec(c, e, table, userID).1.Ok? && Stale(GetSessionSpec(c, e, table, userID).1.value, d.now)
    requires DeleteSpec(c, GetSessionSpec(c, e, table, userID).0, table, UniqueIndex, VString(userID)).1.Pass?
    ensures CreateSpec(c, e, table, expiration, userID, d, names) ==
            SaveSessionSpec(c, DeleteSpec(c, GetSessionSpec(c, e, table, userID).0, table, UniqueIndex, VString(userID)).0,
                            table, Minted(userID, expiration, d), names, d.createdAt, d.updatedAt)
  {
  }

  /** The DELETE after a lookup that found a session writes exactly itself, and the engine still connects. */
  lemma StaleDropWrites(c: Config, e: EngineState, table: string, userID: string)
    requires c.hasProvider && GetSessionSpec(c, e, table, userID).1.Ok?
    requires DeleteSpec(c, GetSessionSpec(c, e, table, userID).0, table, UniqueIndex, VString(userID)).1.Pass?
    ensures var dropped := DeleteSpec(c, GetSessionSpec(c, e, table, userID).0, table, UniqueIndex, VString(userID));
            Writes(dropped.0) == Writes(e) + [DeleteItem(table, UniqueIndex, Quote(userID))] &&
            OpenSpec(c, dropped.0).1.Pass?
  {
    var g := GetSessionSpec(c, e, table, userID);
    GetSessionReadOnly(c, e, table, userID);
    GetSessionOwned(c, e, table, userID);
    ReadOnlyOpen(c, e, g.0);
    DeleteWrites(c, g.0, table, UniqueIndex, VString(userID));
    DeleteKeepsOpen(c, g.0, table, UniqueIndex, VString(userID));
  }

  /** When deleting the stale session fails, Create returns that error and saves nothing. */
  lemma CreateDeleteFails(c: Config, e: EngineState, table: string, expiration: int, userID: string, d: Draws, names: seq<string>)
    requires c.hasProvider
    requires GetSessionSpec(c, e, table, userID).1.Ok? && Stale(GetSessionSpec(c, e, table, userID).1.value, d.now)
    requires DeleteSpec(c, GetSessionSpec(c, e, table, userID).0, table, UniqueIndex, VString(userID)).1.Fail?
    ensures var r := CreateSpec(c, e, table, expiration, userID, d, names);
            r.1 == Err(DeleteSpec(c, GetSessionSpec(c, e, table, userID).0, table, UniqueIndex, VString(userID)).1.error) &&
            (Writes(r.0) == Writes(e) || Writes(r.0) == Writes(e) + [DeleteItem(table, UniqueIndex, Quote(userID))])
  {
    var g := GetSessionSpec(c, e, table, userID);
    GetSessionReadOnly(c, e, table, userID);
    DeleteWrites(c, g.0, table, UniqueIndex, VString(userID));
  }

  /**
    A stale session on a table whose writes the database refuses: the DELETE of
    Create is refused, so Create returns that table's error and no row of any
    table changes.
   */
  lemma CreateDeleteRefused(c: Config, e: EngineState, table: string, expiration: int, userID: string, d: Draws, names: seq<string>)
    requires c.hasProvider
    requires GetSessionSpec(c, e, table, userID).1.Ok? && Stale(GetSessionSpec(c, e, table, userID).1.value, d.now)
    requires table in e.backend.writeRefused
    ensures var r := CreateSpec(c, e, table, expiration, userID, d, names);
            r.1 == Err(Rejected(table)) &&
            forall t :: t in e.backend.tables ==> t in r.0.backend.tables && r.0.backend.tables[t] == e.backend.tables[t]
  {
    var g := GetSessionSpec(c, e, table, userID);
    GetSessionReadOnly(c, e, table, userID);
    GetSessionOwned(c, e, table, userID);
    ReadOnlyOpen(c, e, g.0);
    OpenSpecFacts(c, g.0);
    DeleteRefused(c, g.0, table, UniqueIndex, VString(userID));
    PreservesTrans(e.backend, g.0.backend, OpenSpec(c, g.0).0.backend);
  }

  /**
    When the lookup fails for any reason, Create deletes nothing: the only write it
    can make is the save of the new session, and what it returns is that session.
   */
  lemma CreateLookupFails(c: Config, e: EngineState, table: string, expiration: int, userID: string, d: Draws, names: seq<string>)
    requires c.hasProvider
    requires GetSessionSpec(c, e, table, userID).1.Err?
    ensures var r := CreateSpec(c, e, table, expiration, userID, d, names);
            (Writes(r.0) == Writes(e) ||
             Writes(r.0) == Writes(e) + [SaveStatement(table, SessionFields(Minted(userID, expiration, d)), names, d.createdAt, d.updatedAt)]) &&
            (r.1.Ok? ==> r.1.value == Minted(userID, expiration, d))
  {
    var g := GetSessionSpec(c, e, table, userID);
    GetSessionReadOnly(c, e, table, userID);
    SaveWrites(c, g.0, table, SessionFields(Minted(userID, expiration, d)), names, d.createdAt, d.updatedAt);
  }

  /**
    A session that expires at this very instant is neither live nor stale: Create
    does not delete it and goes straight to saving a new one.
   */
  lemma CreateAtBoundary(c: Config, e: EngineState, table: string, expiration: int, userID: string, d: Draws, names: seq<string>)
    requires c.hasProvider
    requires GetSessionSpec(c, e, table, userID).1.Ok? && GetSessionSpec(c, e, table, userID).1.value.expires == d.now
    requires !d.now.IsZero() && table !in e.backend.writeRefused
    ensures var r := CreateSpec(c, e, table, expiration, userID, d, names);
            Writes(r.0) == Writes(e) + [SaveStatement(table, SessionFields(Minted(userID, expiration, d)), names, d.createdAt, d.updatedAt)]
  {
    var g := GetSessionSpec(c, e, table, userID);
    GetSessionReadOnly(c, e, table, userID);
    GetSessionOwned(c, e, table, userID);
    ReadOnlyOpen(c, e, g.0);
    SaveWrites(c, g.0, table, SessionFields(Minted(userID, expiration, d)), names, d.createdAt, d.updatedAt);
  }

  /**
    That save succeeds and leaves the old session in place beside the new one: the
    user then has at least two sessions in the table.
   */
  lemma CreateAtBoundaryKeepsOld(c: Config, e: EngineState, table: string, expiration: int, userID: string, d: Draws, names: seq<string>)
    requires c.hasProvider
    requires GetSessionSpec(c, e, table, userID).1.Ok? && GetSessionSpec(c, e, table, userID).1.value.expires == d.now
    requires !d.now.IsZero() && table !in e.backend.writeRefused
    requires Enumerates(names, SessionFields(Minted(userID, expiration, d)).Keys)
    ensures var r := CreateSpec(c, e, table, expiration, userID, d, names);
            r.1 == Ok(Minted(userID, expiration, d)) &&
            |MatchingRows(r.0.backend.tables[table], UniqueIndex, Quote(userID))| >= 2
  {
    var g := GetSessionSpec(c, e, table, userID);
    var m := Minted(userID, expiration, d);
    assert CreateSpec(c, e, table, expiration, userID, d, names) ==
           SaveSessionSpec(c, g.0, table, m, names, d.createdAt, d.updatedAt);
    GetSessionReadOnly(c, e, table, userID);
    GetSessionOwned(c, e, table, userID);
    ReadOnlyOpen(c, e, g.0);
    SaveSessionAppends(c, g.0, table, m, names, d.createdAt, d.updatedAt);
    BoundaryRows(c, e, table, userID, Stored(SessionFields(m), d.createdAt, d.updatedAt));
  }

  /** Saving a session on an existing table whose writes the database accepts succeeds and appends its row. */
  lemma SaveSessionAppends(c: Config, e: EngineState, table: string, s: Session, names: seq<string>, createdAt: Time, updatedAt: Time)
    requires c.hasProvider && OpenSpec(c, e).1.Pass?
    requires table in e.backend.tables && table !in e.backend.rejecting && table !in e.backend.writeRefused
    requires Enumerates(names, SessionFields(s).Keys)
    ensures var r := SaveSessionSpec(c, e, table, s, names, createdAt, updatedAt);
            r.1 == Ok(s) && r.0.backend.tables[table] == e.backend.tables[table] + [Stored(SessionFields(s), createdAt, updatedAt)]
  {
    SaveAppends(c, e, table, SessionFields(s), names, createdAt, updatedAt);
  }

  /** The row found by a lookup plus a row for the same user: two rows match. */
  lemma BoundaryRows(c: Config, e: EngineState, table: string, userID: string, rec: Record)
    requires c.hasProvider && GetSessionSpec(c, e, table, userID).1.Ok?
    requires Matches(rec, UniqueIndex, Quote(userID))
    ensures var g := GetSessionSpec(c, e, table, userID);
            table in g.0.backend.tables &&
            |MatchingRows(g.0.backend.tables[table] + [rec], UniqueIndex, Quote(userID))| >= 2
  {
    var g := GetSessionSpec(c, e, table, userID);
    GetReturnsRow(c, e, table, UniqueIndex, VString(userID));
    var rows := g.0.backend.tables[table];
    var row :| row in rows && Matches(row, UniqueIndex, Quote(userID));
    MatchingRowsAppend(rows, rec, UniqueIndex, Quote(userID));
    assert row in MatchingRows(rows, UniqueIndex, Quote(userID));
  }

  /**
    Whatever Create returns belongs to the user: either the live session it found,
    or the session it minted, whose expiry is the second clock read plus the
    lifetime. It never returns an expired session it found.
   */
  lemma CreateReturns(c: Config, e: EngineState, table: string, expiration: int, userID: string, d: Draws, names: seq<string>)
    requires c.hasProvider
    ensures var r := CreateSpec(c, e, table, expiration, userID, d, names);
            r.1.Ok? ==>
              r.1.value.userID == userID &&
              (Live(r.1.value, d.now) ||
               (r.1.value == Minted(userID, expiration, d) && r.1.value.expires == d.later.Add(expiration)))
  {
    GetSessionOwned(c, e, table, userID);
  }

  /**
    For a user with no session yet, on an existing table whose writes the
    database accepts, Create saves the new session and a lookup afterwards gives it back.
   */
  lemma CreateThenGet(c: Config, e: EngineState, table: string, expiration: int, userID: string, d: Draws, names: seq<string>)
    requires c.hasProvider && OpenSpec(c, e).1.Pass?
    requires table in e.backend.tables && table !in e.backend.rejecting && table !in e.backend.writeRefused
    requires forall row :: row in e.backend.tables[table] ==> !Matches(row, UniqueIndex, Quote(userID))
    requires Enumerates(names, SessionFields(Minted(userID, expiration, d)).Keys)
    ensures var r := CreateSpec(c, e, table, expiration, userID, d, names);
            r.1 == Ok(Minted(userID, expiration, d)) &&
            GetSessionSpec(c, r.0, table, userID).1 == Ok(Minted(userID, expiration, d))
  {
    var g := GetSessionSpec(c, e, table, userID);
    var m := Minted(userID, expiration, d);
    NoSessionYet(c, e, table, userID);
    CreateAfterMiss(c, e, table, expiration, userID, d, names);
    SaveSessionThenGet(c, g.0, table, m, names, d.createdAt, d.updatedAt);
  }

  /**
    Logging in twice: for a user with no session yet, a second Create while the
    first session is still live returns the very session the first Create minted,
    and writes nothing more.
   */
  lemma CreateTwiceSame(c: Config, e: EngineState, table: string, expiration: int, userID: string,
                        d1: Draws, names1: seq<string>, d2: Draws, names2: seq<string>)
    requires c.hasProvider && OpenSpec(c, e).1.Pass?
    requires table in e.backend.tables && table !in e.backend.rejecting && table !in e.backend.writeRefused
    requires forall row :: row in e.backend.tables[table] ==> !Matches(row, UniqueIndex, Quote(userID))
    requires Enumerates(names1, SessionFields(Minted(userID, expiration, d1)).Keys)
    requires Live(Minted(userID, expiration, d1), d2.now)
    ensures var first := CreateSpec(c, e, table, expiration, userID, d1, names1);
            var second := CreateSpec(c, first.0, table, expiration, userID, d2, names2);
            first.1 == Ok(Minted(userID, expiration, d1)) && second.1 == first.1 && Writes(second.0) == Writes(first.0)
  {
    var first := CreateSpec(c, e, table, expiration, userID, d1, names1);
    CreateThenGet(c, e, table, expiration, userID, d1, names1);
    CreateReusesLive(c, first.0, table, expiration, userID, d2, names2);
  }

  /** A session saved for a user with no row yet is what a lookup for that user gives back. */
  lemma SaveSessionThenGet(c: Config, e: EngineState, table: string, s: Session, names: seq<string>, createdAt: Time, updatedAt: Time)
    requires c.hasProvider && OpenSpec(c, e).1.Pass?
    requires table in e.backend.tables && table !in e.backend.rejecting && table !in e.backend.writeRefused
    requires forall row :: row in e.backend.tables[table] ==> !Matches(row, UniqueIndex, Quote(s.userID))
    requires Enumerates(names, SessionFields(s).Keys)
    ensures var r := SaveSessionSpec(c, e, table, s, names, createdAt, updatedAt);
            r.1 == Ok(s) && GetSessionSpec(c, r.0, table, s.userID).1 == Ok(s)
  {
    SaveSessionAppends(c, e, table, s, names, createdAt, updatedAt);
    SaveThenGet(c, e, table, SessionFields(s), names, createdAt, updatedAt, UniqueIndex);
    DecodeStored(s, createdAt, updatedAt);
  }

  /**
    For a user with no row in an existing table the database does not refuse, the
    lookup finds no session, only reads, and leaves the engine able to connect.
   */
  lemma NoSessionYet(c: Config, e: EngineState, table: string, userID: string)
    requires c.hasProvider && OpenSpec(c, e).1.Pass?
    requires table in e.backend.tables && table !in e.backend.rejecting
    requires forall row :: row in e.backend.tables[table] ==> !Matches(row, UniqueIndex, Quote(userID))
    ensures var g := GetSessionSpec(c, e, table, userID);
            g.1 == Err(NoRows) && ReadOnly(e, g.0) && OpenSpec(c, g.0).1.Pass?
  {
    NoneMatching(e.backend.tables[table], UniqueIndex, Quote(userID));
    GetFirstMatch(c, e, table, UniqueIndex, VString(userID));
    GetSessionReadOnly(c, e, table, userID);
    ReadOnlyOpen(c, e, GetSessionSpec(c, e, table, userID).0);
  }

  /** When the lookup fails, what is left of Create is saving the new session. */
  lemma CreateAfterMiss(c: Config, e: EngineState, table: string, expiration: int, userID: string, d: Draws, names: seq<string>)
    requires c.hasProvider && GetSessionSpec(c, e, table, userID).1.Err?
    ensures CreateSpec(c, e, table, expiration, userID, d, names) ==
            SaveSessionSpec(c, GetSessionSpec(c, e, table, userID).0, table, Minted(userID, expiration, d), names, d.createdAt, d.updatedAt)
  {
  }

  /** After Delete succeeds, a lookup for the same user finds no session. */
  lemma DeleteThenGetSession(c: Config, e: EngineState, table: string, userID: string)
    requires c.hasProvider && DeleteSpec(c, e, table, UniqueIndex, VString(userID)).1.Pass?
    ensures GetSessionSpec(c, DeleteSpec(c, e, table, UniqueIndex, VString(userID)).0, table, userID).1 == Err(NoRows)
  {
    DeleteThenGet(c, e, table, UniqueIndex, VString(userID));
  }

  /**
    GetAll only reads. It echoes the page and page size and the engine's total, and
    lists one session per record, each decoded from the record in the same place;
    it fails with the engine's error, or with the error of the first record that
    does not decode.
   */
  lemma ListFacts(c: Config, e: EngineState, table: string, page: int, perPage: int)
    requires c.hasProvider
    ensures var l := ListSpec(c, e, table, page, perPage);
            var p := GetAllPerPageSpec(c, e, table, "asc", "public_id", page, perPage).1;
            ReadOnly(e, l.0) &&
            (l.1.Ok? ==>
               p.err.Pass? && l.1.value.page == page && l.1.value.responsePerPage == perPage &&
               l.1.value.total == p.total && |l.1.value.records| == |p.records| &&
               forall i :: 0 <= i < |p.records| ==> DecodeSession(p.records[i]) == Ok(l.1.value.records[i])) &&
            (l.1.Err? ==>
               (p.err.Fail? && l.1.error == p.err.error) ||
               (p.err.Pass? && exists i :: 0 <= i < |p.records| && DecodeSession(p.records[i]) == Err(l.1.error) &&
                                          forall j :: 0 <= j < i ==> DecodeSession(p.records[j]).Ok?))
  {
    GetAllPerPageReadOnly(c, e, table, "asc", "public_id", page, perPage);
  }
}
