/** What the operations of the SQL engine (db/sql/sql.go) promise, proved about their functions. */
module EngineProps {
  import opened Wrappers
  import opened Values
  import opened Text
  import opened Literal
  import opened Query
  import opened Store
  import opened Schema
  import opened Engine

  /** The CREATE statements of a list of migrations, in list order. */
  function Creates(ms: seq<TableMigration>): (sts: seq<Statement>)
    decreases |ms|
    ensures |sts| == |ms|
  {
    if ms == [] then [] else [CreateTable(ms[0].tableName)] + Creates(ms[1..])
  }

  /** The i-th statement is the CREATE of the i-th migration's table. */
  lemma {:induction false} CreatesSpec(ms: seq<TableMigration>, i: nat)
    requires i < |ms|
    ensures Creates(ms)[i] == CreateTable(ms[i].tableName)
    decreases i
  {
    if i > 0 {
      CreatesSpec(ms[1..], i - 1);
    }
  }

  /** The database accepts every migration of the list. */
  predicate Accepts(b: Backend, ms: seq<TableMigration>) {
    forall i :: 0 <= i < |ms| ==> ms[i].tableName !in b.rejecting
  }

  /**
    What a sequence of reads leaves alone: connectivity, refused tables, the tables whose writes are refused, the
    statements already logged, the writes, and the rows of every existing table.
   */
  predicate Preserves(b0: Backend, b1: Backend) {
    b1.reachable == b0.reachable && b1.rejecting == b0.rejecting && b1.writeRefused == b0.writeRefused &&
    |b0.log| <= |b1.log| && b1.log[..|b0.log|] == b0.log &&
    WritesOf(b1.log) == WritesOf(b0.log) &&
    forall t :: t in b0.tables ==> t in b1.tables && b1.tables[t] == b0.tables[t]
  }

  /** A step that only reads, at the level of the engine: the latch is never unset either. */
  predicate ReadOnly(e0: EngineState, e1: EngineState) {
    Preserves(e0.backend, e1.backend) && (e0.inited ==> e1.inited)
  }

  lemma PreservesTrans(b0: Backend, b1: Backend, b2: Backend)
    requires Preserves(b0, b1) && Preserves(b1, b2)
    ensures Preserves(b0, b2)
  {
    assert b2.log[..|b0.log|] == b2.log[..|b1.log|][..|b0.log|];
  }

  lemma ReadStep(b: Backend, st: Statement)
    requires !st.IsWrite()
    ensures Preserves(b, Run(b, st).0)
  {
    RunSpec(b, st);
    var l := Run(b, st).0.log;
    assert l[..|b.log|] == b.log;
  }

  // ---------------------------------------------------------------------------
  // The migration latch

  /** A CREATE TABLE only reads, succeeds unless the table is refused, and leaves the table in place. */
  lemma CreateStep(b: Backend, t: string)
    ensures var step := RunCreate(b, t);
            Preserves(b, step.0) && step.0.log == b.log + [CreateTable(t)] &&
            (step.1.Ok? <==> t !in b.rejecting) &&
            (step.1.Ok? ==> t in step.0.tables) &&
            (step.1.Err? ==> step.1.error == Rejected(t))
  {
    ReadStep(b, CreateTable(t));
    RunSpec(b, CreateTable(t));
  }

  lemma AcceptsTail(b: Backend, ms: seq<TableMigration>)
    requires ms != []
    ensures Accepts(b, ms) <==> ms[0].tableName !in b.rejecting && Accepts(b, ms[1..])
  {
    if ms[0].tableName !in b.rejecting && Accepts(b, ms[1..]) {
      forall i | 0 <= i < |ms| ensures ms[i].tableName !in b.rejecting {
        if i > 0 {
          assert ms[i] == ms[1..][i - 1];
        }
      }
    }
  }

  /** The migrations all succeed exactly when the database accepts all of them; the run only reads. */
  lemma {:induction false} MigrateTablesAccepts(b: Backend, ms: seq<TableMigration>)
    ensures MigrateTables(b, ms).1.Pass? <==> Accepts(b, ms)
    ensures Preserves(b, MigrateTables(b, ms).0)
    decreases |ms|
  {
    if ms == [] {
      assert b.log[..|b.log|] == b.log;
    } else {
      var step := RunCreate(b, ms[0].tableName);
      CreateStep(b, ms[0].tableName);
      AcceptsTail(b, ms);
      if step.1.Ok? {
        MigrateTablesAccepts(step.0, ms[1..]);
        PreservesTrans(b, step.0, MigrateTables(step.0, ms[1..]).0);
      }
    }
  }

  /** When all are accepted, the migrations send their CREATE statements in list order. */
  lemma {:induction false} MigrateTablesSucceed(b: Backend, ms: seq<TableMigration>)
    requires Accepts(b, ms)
    ensures MigrateTables(b, ms).0.log == b.log + Creates(ms)
    decreases |ms|
  {
    if ms == [] {
      assert b.log + [] == b.log;
    } else {
      var st := CreateTable(ms[0].tableName);
      var step := RunCreate(b, ms[0].tableName);
      AcceptsTail(b, ms);
      MigrateTablesSucceed(step.0, ms[1..]);
      assert (b.log + [st]) + Creates(ms[1..]) == b.log + ([st] + Creates(ms[1..]));
    }
  }

  /** When all are accepted, every migration's table exists afterwards. */
  lemma {:induction false} MigrateTablesCreate(b: Backend, ms: seq<TableMigration>)
    requires Accepts(b, ms)
    ensures forall i :: 0 <= i < |ms| ==> ms[i].tableName in MigrateTables(b, ms).0.tables
    decreases |ms|
  {
    if ms != [] {
      var step := RunCreate(b, ms[0].tableName);
      CreateStep(b, ms[0].tableName);
      AcceptsTail(b, ms);
      var rest := MigrateTables(step.0, ms[1..]);
      MigrateTablesCreate(step.0, ms[1..]);
      MigrateTablesAccepts(step.0, ms[1..]);
      forall i | 0 <= i < |ms| ensures ms[i].tableName in rest.0.tables {
        if i > 0 {
          assert ms[i] == ms[1..][i - 1];
        }
      }
    }
  }

  /**
    When migration k is the first the database refuses, the run fails with its
    refusal...
   */
  lemma {:induction false} MigrateTablesStop(b: Backend, ms: seq<TableMigration>, k: nat)
    requires k < |ms| && ms[k].tableName in b.rejecting
    requires forall i :: 0 <= i < k ==> ms[i].tableName !in b.rejecting
    ensures MigrateTables(b, ms).1 == Fail(Rejected(ms[k].tableName))
    decreases k
  {
    if k > 0 {
      MigrateTablesStop(RunCreate(b, ms[0].tableName).0, ms[1..], k - 1);
    }
  }

  /** ... and it has sent the CREATE statements up to and including that one, and no later one. */
  lemma {:induction false} MigrateTablesStopLog(b: Backend, ms: seq<TableMigration>, k: nat)
    requires k < |ms| && ms[k].tableName in b.rejecting
    requires forall i :: 0 <= i < k ==> ms[i].tableName !in b.rejecting
    ensures MigrateTables(b, ms).0.log == b.log + Creates(ms[..k + 1])
    decreases k
  {
    var sent := ms[..k + 1];
    if k == 0 {
      assert sent[1..] == [];
    } else {
      MigrateTablesStopLog(RunCreate(b, ms[0].tableName).0, ms[1..], k - 1);
      assert sent[1..] == ms[1..][..k];
    }
  }

  /**
    migrate does nothing without a provider or once the latch is set. A failure
    leaves the latch unset, so the next call retries; the latch is set exactly when
    there is a provider, a connection opens and every migration is accepted. Once
    set, a second call changes nothing.
   */
  lemma MigrateLatch(c: Config, e: EngineState)
    ensures !c.hasProvider ==> MigrateSpec(c, e) == (e, Pass)
    ensures e.inited ==> MigrateSpec(c, e) == (e, Pass)
    ensures MigrateSpec(c, e).1.Fail? ==> !MigrateSpec(c, e).0.inited
    ensures MigrateSpec(c, e).0.inited <==>
            e.inited || (c.hasProvider && e.backend.reachable && Accepts(e.backend, c.migrations))
    ensures MigrateSpec(c, e).1.Pass? && c.hasProvider ==>
            MigrateSpec(c, MigrateSpec(c, e).0) == (MigrateSpec(c, e).0, Pass)
    ensures ReadOnly(e, MigrateSpec(c, e).0)
  {
    if c.hasProvider && !e.inited && e.backend.reachable {
      MigrateTablesAccepts(e.backend, c.migrations);
    } else {
      assert e.backend.log[..|e.backend.log|] == e.backend.log;
    }
  }

  /** One migration run sends the CREATE statements of the migrations, in list order, and nothing else. */
  lemma MigrationOrder(c: Config, e: EngineState)
    requires c.hasProvider && !e.inited && e.backend.reachable && Accepts(e.backend, c.migrations)
    ensures MigrateSpec(c, e).0.backend.log == e.backend.log + Creates(c.migrations)
    ensures forall i :: 0 <= i < |c.migrations| ==> c.migrations[i].tableName in MigrateSpec(c, e).0.backend.tables
  {
    MigrateTablesSucceed(e.backend, c.migrations);
    MigrateTablesCreate(e.backend, c.migrations);
  }

  /** Opening succeeds exactly when a connection opens and the latch is or gets set; it only reads. */
  lemma OpenSpecFacts(c: Config, e: EngineState)
    requires c.hasProvider
    ensures OpenSpec(c, e).1.Pass? <==> e.backend.reachable && (e.inited || Accepts(e.backend, c.migrations))
    ensures OpenSpec(c, e).1.Pass? ==> OpenSpec(c, e).0.inited
    ensures OpenSpec(c, e).1.Fail? ==> !OpenSpec(c, e).0.inited || OpenSpec(c, e).1.error == ConnectionFailed
    ensures ReadOnly(e, OpenSpec(c, e).0)
  {
    MigrateLatch(c, e);
  }

  /** A state reached by reads only from a state that connects connects as well. */
  lemma ReadOnlyOpen(c: Config, e0: EngineState, e1: EngineState)
    requires c.hasProvider && OpenSpec(c, e0).1.Pass? && ReadOnly(e0, e1)
    ensures OpenSpec(c, e1).1.Pass?
  {
    OpenSpecFacts(c, e0);
    OpenSpecFacts(c, e1);
  }

  // ---------------------------------------------------------------------------
  // Queries only read

  lemma GetReadOnly(c: Config, e: EngineState, table: string, index: string, indexValue: Value)
    requires c.hasProvider
    ensures ReadOnly(e, GetSpec(c, e, table, index, indexValue).0)
  {
    var o := OpenSpec(c, e);
    OpenSpecFacts(c, e);
    if o.1.Pass? && HasLiteral(indexValue) {
      var st := SelectItem(table, index, LiteralText(indexValue));
      assert GetSpec(c, e, table, index, indexValue).0.backend == Run(o.0.backend, st).0;
      ReadStep(o.0.backend, st);
      PreservesTrans(e.backend, o.0.backend, Run(o.0.backend, st).0);
    }
  }

  lemma GetAllReadOnly(c: Config, e: EngineState, table: string, order: string, orderBy: string)
    requires c.hasProvider
    ensures ReadOnly(e, GetAllSpec(c, e, table, order, orderBy).0)
  {
    var o := OpenSpec(c, e);
    OpenSpecFacts(c, e);
    if o.1.Pass? {
      ReadStep(o.0.backend, SelectAll(table, orderBy, NormalizeOrder(order)));
      PreservesTrans(e.backend, o.0.backend, GetAllSpec(c, e, table, order, orderBy).0.backend);
    }
  }

  lemma CountReadOnly(c: Config, e: EngineState, table: string)
    requires c.hasProvider
    ensures ReadOnly(e, CountSpec(c, e, table).0)
  {
    var o := OpenSpec(c, e);
    OpenSpecFacts(c, e);
    if o.1.Pass? {
      ReadStep(o.0.backend, CountRows(table));
      PreservesTrans(e.backend, o.0.backend, CountSpec(c, e, table).0.backend);
    }
  }

  lemma GetAllPerPageReadOnly(c: Config, e: EngineState, table: string, order: string, orderBy: string, page: int, perPage: int)
    requires c.hasProvider
    ensures ReadOnly(e, GetAllPerPageSpec(c, e, table, order, orderBy, page, perPage).0)
  {
    var o := OpenSpec(c, e);
    OpenSpecFacts(c, e);
    if o.1.Pass? {
      var p := GetAllPerPageSpec(c, e, table, order, orderBy, page, perPage);
      if page <= 0 && perPage <= 0 {
        assert p.0 == GetAllSpec(c, o.0, table, order, orderBy).0;
        GetAllReadOnly(c, o.0, table, order, orderBy);
      } else {
        PerPageWindowReadOnly(c, o.0, table, order, orderBy, page, perPage);
        assert p.0 == PerPageWindowState(c, o.0, table, order, orderBy, page, perPage);
      }
      PreservesTrans(e.backend, o.0.backend, p.0.backend);
    }
  }

  /** The state after the counting path of GetAllPerPage, from the state after connecting. */
  function PerPageWindowState(c: Config, e: EngineState, table: string, order: string, orderBy: string, page: int, perPage: int): EngineState
    requires c.hasProvider
  {
    var counted := CountSpec(c, e, table);
    var w := PageWindow(page, perPage);
    if counted.1.err.Fail? || w.start > counted.1.count then counted.0
    else counted.0.(backend := Run(counted.0.backend, SelectLimited(table, orderBy, NormalizeOrder(order), w.wanted, w.start)).0)
  }

  lemma PerPageWindowReadOnly(c: Config, e: EngineState, table: string, order: string, orderBy: string, page: int, perPage: int)
    requires c.hasProvider
    ensures ReadOnly(e, PerPageWindowState(c, e, table, order, orderBy, page, perPage))
  {
    var counted := CountSpec(c, e, table);
    CountReadOnly(c, e, table);
    var w := PageWindow(page, perPage);
    if counted.1.err.Pass? && w.start <= counted.1.count {
      var st := SelectLimited(table, orderBy, NormalizeOrder(order), w.wanted, w.start);
      ReadStep(counted.0.backend, st);
      PreservesTrans(e.backend, counted.0.backend, Run(counted.0.backend, st).0);
    }
  }

  // ---------------------------------------------------------------------------
  // Count

  /** Count gives the number of rows of an existing table the database does not refuse. */
  lemma CountRowsOf(c: Config, e: EngineState, table: string)
    requires c.hasProvider && OpenSpec(c, e).1.Pass?
    requires table in e.backend.tables && table !in e.backend.rejecting
    ensures CountSpec(c, e, table).1 == Counted(|e.backend.tables[table]|, Pass)
  {
    OpenSpecFacts(c, e);
  }

  // ---------------------------------------------------------------------------
  // Save

  /**
    The INSERT of Save names the record's fields followed by created_at and
    updated_at, lists each field's own value in the same position followed by the
    two times, and carries one `?` marker per name.
   */
  lemma SaveInsertShape(table: string, fields: Record, names: seq<string>, createdAt: Time, updatedAt: Time)
    requires Enumerates(names, fields.Keys)
    ensures var st := SaveStatement(table, fields, names, createdAt, updatedAt);
            st.names == names + [CreatedAt, UpdatedAt] &&
            |st.values| == |st.names| &&
            CountChar(MarkersText(|st.names|), '?') == |st.names| &&
            (forall i :: 0 <= i < |names| ==> names[i] in fields && st.values[i] == fields[names[i]]) &&
            st.values[|names|] == VTime(createdAt) && st.values[|names| + 1] == VTime(updatedAt)
  {
    FieldValuesOfKeys(names, fields);
    MarkerCount(|names| + 2);
  }

  /** Save sends exactly its INSERT once it connects, and nothing else that writes. */
  lemma SaveWrites(c: Config, e: EngineState, table: string, fields: Record, names: seq<string>, createdAt: Time, updatedAt: Time)
    requires c.hasProvider
    ensures var s := SaveSpec(c, e, table, fields, names, createdAt, updatedAt);
            (OpenSpec(c, e).1.Fail? ==> s == OpenSpec(c, e) && Writes(s.0) == Writes(e)) &&
            (OpenSpec(c, e).1.Pass? ==>
               Writes(s.0) == Writes(e) + [SaveStatement(table, fields, names, createdAt, updatedAt)])
  {
    OpenSpecFacts(c, e);
    RunSpec(OpenSpec(c, e).0.backend, SaveStatement(table, fields, names, createdAt, updatedAt));
  }

  /** The row Save stores: the record's fields with both timestamps. */
  function Stored(fields: Record, createdAt: Time, updatedAt: Time): Record {
    fields[CreatedAt := VTime(createdAt)][UpdatedAt := VTime(updatedAt)]
  }

  /** Storing the values fieldValues listed for an enumeration of the keys gives back the record. */
  lemma RecordOfValues(names: seq<string>, fields: Record)
    requires Enumerates(names, fields.Keys)
    ensures DistinctNames(names)
    ensures RecordOf(names, FieldValuesOf(names, fields)) == fields
  {
    EnumeratesSpec(names, fields.Keys);
    FieldValuesOfKeys(names, fields);
    var vals := FieldValuesOf(names, fields);
    RecordOfSpec(names, vals);
    var r := RecordOf(names, vals);
    forall k | k in fields ensures k in r {
      assert k in multiset(names);
    }
    forall k | k in r ensures r[k] == fields[k] {
      var i :| 0 <= i < |names| && names[i] == k;
    }
  }

  /** Adding a last column to an INSERT adds that column to the stored row. */
  lemma RecordOfSnoc(names: seq<string>, values: seq<Value>, n: string, v: Value)
    requires |names| == |values|
    ensures RecordOf(names + [n], values + [v]) == RecordOf(names, values)[n := v]
  {
    assert (names + [n])[..|names|] == names;
    assert (values + [v])[..|values|] == values;
  }

  /** The columns of Save's INSERT are distinct: the record's own, then both timestamps. */
  lemma SaveNamesDistinct(names: seq<string>, fields: Record)
    requires Enumerates(names, fields.Keys) && CreatedAt !in fields && UpdatedAt !in fields
    ensures DistinctNames(names + [CreatedAt, UpdatedAt])
  {
    EnumeratesSpec(names, fields.Keys);
    var all := names + [CreatedAt, UpdatedAt];
    forall i, j | 0 <= i < j < |all| ensures all[i] != all[j] {
      if j < |names| {
        assert all[i] == names[i] && all[j] == names[j];
      } else if i < |names| {
        assert all[i] == names[i] && names[i] in fields;
      }
    }
  }

  lemma SaveRecord(fields: Record, names: seq<string>, createdAt: Time, updatedAt: Time)
    requires Enumerates(names, fields.Keys) && CreatedAt !in fields && UpdatedAt !in fields
    ensures var st := SaveStatement("", fields, names, createdAt, updatedAt);
            DistinctNames(st.names) && |st.names| == |st.values| &&
            RecordOf(st.names, st.values) == Stored(fields, createdAt, updatedAt)
  {
    var vals := FieldValuesOf(names, fields);
    RecordOfValues(names, fields);
    SaveNamesDistinct(names, fields);
    FieldValuesOfKeys(names, fields);
    RecordOfSnoc(names, vals, CreatedAt, VTime(createdAt));
    RecordOfSnoc(names + [CreatedAt], vals + [VTime(createdAt)], UpdatedAt, VTime(updatedAt));
    assert names + [CreatedAt] + [UpdatedAt] == names + [CreatedAt, UpdatedAt];
    assert vals + [VTime(createdAt)] + [VTime(updatedAt)] == vals + [VTime(createdAt), VTime(updatedAt)];
  }

  /**
    A Save that connects, on an existing table whose statements and writes the
    database accepts, of a record with no timestamp field and no value of an
    unsupported type succeeds and appends the record with both timestamps to the table, so Count grows by one.
   */
  lemma SaveAppends(c: Config, e: EngineState, table: string, fields: Record, names: seq<string>, createdAt: Time, updatedAt: Time)
    requires c.hasProvider && OpenSpec(c, e).1.Pass?
    requires table in e.backend.tables && table !in e.backend.rejecting && table !in e.backend.writeRefused
    requires Enumerates(names, fields.Keys) && CreatedAt !in fields && UpdatedAt !in fields
    requires forall k :: k in fields ==> !fields[k].VOther?
    ensures var s := SaveSpec(c, e, table, fields, names, createdAt, updatedAt);
            s.1 == Pass &&
            s.0.backend.tables[table] == e.backend.tables[table] + [Stored(fields, createdAt, updatedAt)] &&
            CountSpec(c, s.0, table).1 == Counted(|e.backend.tables[table]| + 1, Pass)
  {
    var o := OpenSpec(c, e);
    OpenSpecFacts(c, e);
    var st := SaveStatement(table, fields, names, createdAt, updatedAt);
    SaveRecord(fields, names, createdAt, updatedAt);
    FieldValuesOfKeys(names, fields);
    assert InsertAccepted(st.names, st.values);
    InsertAppends(o.0.backend, table, st.names, st.values);
    var s := SaveSpec(c, e, table, fields, names, createdAt, updatedAt);
    RunSpec(o.0.backend, st);
    OpenSpecFacts(c, s.0);
    CountRowsOf(c, s.0, table);
  }

  // ---------------------------------------------------------------------------
  // Update

  /** A missing index key fails Update after connecting and before any further statement. */
  lemma UpdateIndexMissing(c: Config, e: EngineState, table: string, fields: Record, index: string, now: Time, order: seq<string>)
    requires c.hasProvider && OpenSpec(c, e).1.Pass?
    requires index !in fields && index != UpdatedAt
    ensures UpdateSpec(c, e, table, fields, index, now, order) == (OpenSpec(c, e).0, Fail(IndexNotFound(index)))
  {
  }

  /**
    The SET assignments of Update: every field of the stamped record but the index
    key. So the index key is only in the WHERE clause, and updated_at, with the clock
    read, is in SET unless it is itself the index key.
   */
  lemma UpdateAssignments(fields: Record, index: string, now: Time)
    ensures var assigns := Stamped(fields, now) - {index};
            index !in assigns &&
            assigns.Keys == (fields.Keys + {UpdatedAt}) - {index} &&
            (UpdatedAt in assigns <==> index != UpdatedAt) &&
            (index != UpdatedAt ==> assigns[UpdatedAt] == VTime(now)) &&
            (forall k :: k in assigns && k != UpdatedAt ==> assigns[k] == fields[k])
  {
  }

  /**
    Whatever Update writes is one UPDATE on the table with those assignments, with
    the SET clause setValues gives for them, addressed by the index key and the
    literal of its value.
   */
  lemma UpdateWrites(c: Config, e: EngineState, table: string, fields: Record, index: string, now: Time, order: seq<string>)
    requires c.hasProvider
    ensures var u := UpdateSpec(c, e, table, fields, index, now, order);
            var assigns := Stamped(fields, now) - {index};
            Writes(u.0) == Writes(e) ||
            (index in Stamped(fields, now) &&
             exists literal, sets ::
               Writes(u.0) == Writes(e) + [UpdateSet(table, assigns, sets, index, literal)] &&
               PrintLiteral(Stamped(fields, now)[index]) == Ok(literal) &&
               SetClause(assigns, order) == Ok(sets))
  {
    var o := OpenSpec(c, e);
    OpenSpecFacts(c, e);
    var stamped := Stamped(fields, now);
    if o.1.Pass? && index in stamped && HasLiteral(stamped[index]) {
      var assigns := stamped - {index};
      if SetClause(assigns, order).Ok? {
        var literal := LiteralText(stamped[index]);
        var sets := SetClause(assigns, order).value;
        RunSpec(o.0.backend, UpdateSet(table, assigns, sets, index, literal));
        assert Writes(UpdateSpec(c, e, table, fields, index, now, order).0) == Writes(e) + [UpdateSet(table, assigns, sets, index, literal)];
      }
    }
  }

  /**
    An Update that reaches an existing table whose writes the database accepts succeeds,
    gives every row whose index matches the SET assignments, and keeps every other
    row as it was.
   */
  lemma UpdateApplies(c: Config, e: EngineState, table: string, fields: Record, index: string, now: Time, order: seq<string>)
    requires c.hasProvider && OpenSpec(c, e).1.Pass?
    requires table in e.backend.tables && table !in e.backend.rejecting && table !in e.backend.writeRefused
    requires index in Stamped(fields, now) && HasLiteral(Stamped(fields, now)[index])
    requires Stamped(fields, now) - {index} != map[]
    requires forall k :: k in fields ==> HasLiteral(fields[k])
    ensures var u := UpdateSpec(c, e, table, fields, index, now, order);
            var literal := LiteralText(Stamped(fields, now)[index]);
            var assigns := Stamped(fields, now) - {index};
            var before := e.backend.tables[table];
            u.1 == Pass && |u.0.backend.tables[table]| == |before| &&
            forall i :: 0 <= i < |before| ==>
              u.0.backend.tables[table][i] == if Matches(before[i], index, literal) then before[i] + assigns else before[i]
  {
    OpenSpecFacts(c, e);
  }

  /**
    When the index is the only stamped field (`Update(t, {}, "updated_at")`), the SET clause is
    empty, the server refuses the statement, and Update returns that refusal with no row changed.
   */
  lemma UpdateEmptySetRefused(c: Config, e: EngineState, table: string, now: Time)
    requires c.hasProvider && OpenSpec(c, e).1.Pass?
    ensures var u := UpdateSpec(c, e, table, map[], UpdatedAt, now, []);
            u.1 == Fail(Rejected(table)) && u.0.backend.tables == OpenSpec(c, e).0.backend.tables &&
            Writes(u.0) == Writes(e) + [UpdateSet(table, map[], "", UpdatedAt, LiteralText(VTime(now)))]
  {
    var o := OpenSpec(c, e);
    OpenSpecFacts(c, e);
    var stamped := Stamped(map[], now);
    assert stamped - {UpdatedAt} == map[];
    LiteralDefined(VTime(now));
    var st := UpdateSet(table, map[], "", UpdatedAt, LiteralText(VTime(now)));
    RunSpec(o.0.backend, st);
  }

  // ---------------------------------------------------------------------------
  // Get

  /** An index value with no literal fails Get with "Not basic type" before any query. */
  lemma GetLiteralFirst(c: Config, e: EngineState, table: string, index: string, indexValue: Value)
    requires c.hasProvider && OpenSpec(c, e).1.Pass? && !HasLiteral(indexValue)
    ensures GetSpec(c, e, table, index, indexValue) == (OpenSpec(c, e).0, Err(NotBasicType))
  {
    LiteralDefined(indexValue);
  }

  /**
    On an existing table the database does not refuse, Get gives the naturalized
    first row whose index prints as the literal of the index value, and no rows when
    there is none.
   */
  lemma GetFirstMatch(c: Config, e: EngineState, table: string, index: string, indexValue: Value)
    requires c.hasProvider && OpenSpec(c, e).1.Pass? && HasLiteral(indexValue)
    requires table in e.backend.tables && table !in e.backend.rejecting
    ensures var rows := MatchingRows(e.backend.tables[table], index, LiteralText(indexValue));
            GetSpec(c, e, table, index, indexValue).1 == if rows == [] then Err(NoRows) else Ok(Naturalized(rows[0]))
  {
    OpenSpecFacts(c, e);
  }

  /**
    What Get returns is the naturalized form of a row of the table whose index prints
    as the literal of the index value.
   */
  lemma GetReturnsRow(c: Config, e: EngineState, table: string, index: string, indexValue: Value)
    requires c.hasProvider
    ensures var g := GetSpec(c, e, table, index, indexValue);
            g.1.Ok? ==>
              table in g.0.backend.tables && table !in g.0.backend.rejecting && HasLiteral(indexValue) &&
              exists row :: row in g.0.backend.tables[table] && Matches(row, index, LiteralText(indexValue)) &&
                            g.1.value == Naturalized(row)
  {
    var g := GetSpec(c, e, table, index, indexValue);
    if g.1.Ok? {
      var o := OpenSpec(c, e);
      var st := SelectItem(table, index, LiteralText(indexValue));
      RunSpec(o.0.backend, st);
      var rows := MatchingRows(o.0.backend.tables[table], index, LiteralText(indexValue));
      assert rows[0] in rows;
    }
  }

  /** A string field Get finds by holds exactly the string it was looked up by. */
  lemma GetStringKey(c: Config, e: EngineState, table: string, index: string, key: string)
    requires c.hasProvider
    ensures var g := GetSpec(c, e, table, index, VString(key));
            g.1.Ok? && index in g.1.value && g.1.value[index].VString? ==> g.1.value[index] == VString(key)
  {
    var g := GetSpec(c, e, table, index, VString(key));
    GetReturnsRow(c, e, table, index, VString(key));
    if g.1.Ok? && index in g.1.value && g.1.value[index].VString? {
      var row :| row in g.0.backend.tables[table] && Matches(row, index, Quote(key)) && g.1.value == Naturalized(row);
      NaturalizeKeepsLiteral(row[index]);
      StringLiteralInjective(g.1.value[index].s, key);
    }
  }

  /**
    Saving a record and getting it back by one of its fields, when no earlier row of
    the table matches that field, gives the saved record with its timestamps,
    naturalized.
   */
  lemma SaveThenGet(c: Config, e: EngineState, table: string, fields: Record, names: seq<string>,
                    createdAt: Time, updatedAt: Time, key: string)
    requires c.hasProvider && OpenSpec(c, e).1.Pass?
    requires table in e.backend.tables && table !in e.backend.rejecting && table !in e.backend.writeRefused
    requires Enumerates(names, fields.Keys) && CreatedAt !in fields && UpdatedAt !in fields
    requires forall k :: k in fields ==> !fields[k].VOther?
    requires key in fields && HasLiteral(fields[key])
    requires forall r :: r in e.backend.tables[table] ==> !Matches(r, key, LiteralText(fields[key]))
    ensures var s := SaveSpec(c, e, table, fields, names, createdAt, updatedAt);
            GetSpec(c, s.0, table, key, fields[key]).1 == Ok(Naturalized(Stored(fields, createdAt, updatedAt)))
  {
    var s := SaveSpec(c, e, table, fields, names, createdAt, updatedAt);
    SaveAppends(c, e, table, fields, names, createdAt, updatedAt);
    var before := e.backend.tables[table];
    var rec := Stored(fields, createdAt, updatedAt);
    var literal := LiteralText(fields[key]);
    SaveFacts(c, e, table, fields, names, createdAt, updatedAt);
    assert Matches(rec, key, literal);
    NoneMatching(before, key, literal);
    MatchingRowsAppend(before, rec, key, literal);
    GetFirstMatch(c, s.0, table, key, fields[key]);
  }

  /** After a Save that succeeds the engine can still connect, the refused tables and those whose writes are refused are unchanged, and the table is still there. */
  lemma SaveFacts(c: Config, e: EngineState, table: string, fields: Record, names: seq<string>, createdAt: Time, updatedAt: Time)
    requires c.hasProvider && OpenSpec(c, e).1.Pass?
    ensures var s := SaveSpec(c, e, table, fields, names, createdAt, updatedAt);
            OpenSpec(c, s.0).1.Pass? && s.0.inited && s.0.backend.rejecting == e.backend.rejecting &&
            s.0.backend.writeRefused == e.backend.writeRefused &&
            s.0.backend.reachable == e.backend.reachable &&
            (table in e.backend.tables ==> table in s.0.backend.tables)
  {
    OpenSpecFacts(c, e);
    RunSpec(OpenSpec(c, e).0.backend, SaveStatement(table, fields, names, createdAt, updatedAt));
    OpenSpecFacts(c, SaveSpec(c, e, table, fields, names, createdAt, updatedAt).0);
  }

  // ---------------------------------------------------------------------------
  // Delete

  /**
    A Delete that succeeds leaves no row matching the index, keeps every other row,
    and a Get by the same index and value afterwards finds nothing.
   */
  lemma DeleteThenGet(c: Config, e: EngineState, table: string, index: string, indexValue: Value)
    requires c.hasProvider && DeleteSpec(c, e, table, index, indexValue).1.Pass?
    ensures var d := DeleteSpec(c, e, table, index, indexValue);
            table in d.0.backend.tables &&
            (forall r :: r in d.0.backend.tables[table] ==> !Matches(r, index, LiteralText(indexValue))) &&
            GetSpec(c, d.0, table, index, indexValue).1 == Err(NoRows)
  {
    var o := OpenSpec(c, e);
    var literal := LiteralText(indexValue);
    var st := DeleteItem(table, index, literal);
    RunSpec(o.0.backend, st);
    var d := DeleteSpec(c, e, table, index, indexValue);
    OpenSpecFacts(c, e);
    OpenSpecFacts(c, d.0);
    NoneMatching(d.0.backend.tables[table], index, literal);
    GetFirstMatch(c, d.0, table, index, indexValue);
  }

  /** Delete sends exactly its DELETE once it connects and the value has a literal, and nothing else that writes. */
  lemma DeleteWrites(c: Config, e: EngineState, table: string, index: string, indexValue: Value)
    requires c.hasProvider
    ensures var d := DeleteSpec(c, e, table, index, indexValue);
            (OpenSpec(c, e).1.Pass? && HasLiteral(indexValue) ==>
               Writes(d.0) == Writes(e) + [DeleteItem(table, index, LiteralText(indexValue))]) &&
            (!(OpenSpec(c, e).1.Pass? && HasLiteral(indexValue)) ==> Writes(d.0) == Writes(e) && d.1.Fail?)
  {
    var o := OpenSpec(c, e);
    OpenSpecFacts(c, e);
    if o.1.Pass? && HasLiteral(indexValue) {
      RunSpec(o.0.backend, DeleteItem(table, index, LiteralText(indexValue)));
    } else if o.1.Pass? {
      LiteralDefined(indexValue);
    }
  }

  /** After a Delete that succeeds the engine still connects, the refused tables and those whose writes are refused are unchanged and every table is still there. */
  lemma DeleteKeepsOpen(c: Config, e: EngineState, table: string, index: string, indexValue: Value)
    requires c.hasProvider && DeleteSpec(c, e, table, index, indexValue).1.Pass?
    ensures var d := DeleteSpec(c, e, table, index, indexValue);
            OpenSpec(c, d.0).1.Pass? && d.0.backend.rejecting == e.backend.rejecting &&
            d.0.backend.writeRefused == e.backend.writeRefused &&
            e.backend.tables.Keys <= d.0.backend.tables.Keys
  {
    var o := OpenSpec(c, e);
    OpenSpecFacts(c, e);
    RunSpec(o.0.backend, DeleteItem(table, index, LiteralText(indexValue)));
    OpenSpecFacts(c, DeleteSpec(c, e, table, index, indexValue).0);
  }

  /**
    A Delete that connects, with an index value that has a literal, on a table whose
    writes the database refuses fails with that table's error and changes no rows.
   */
  lemma DeleteRefused(c: Config, e: EngineState, table: string, index: string, indexValue: Value)
    requires c.hasProvider && OpenSpec(c, e).1.Pass? && HasLiteral(indexValue)
    requires table in e.backend.writeRefused
    ensures var d := DeleteSpec(c, e, table, index, indexValue);
            d.1 == Fail(Rejected(table)) && d.0.backend.tables == OpenSpec(c, e).0.backend.tables
  {
    var o := OpenSpec(c, e);
    OpenSpecFacts(c, e);
    RunSpec(o.0.backend, DeleteItem(table, index, LiteralText(indexValue)));
  }

  /** Delete fails with "Not basic type", after connecting and before any statement, when the value has no literal. */
  lemma DeleteLiteralFirst(c: Config, e: EngineState, table: string, index: string, indexValue: Value)
    requires c.hasProvider && OpenSpec(c, e).1.Pass? && !HasLiteral(indexValue)
    ensures DeleteSpec(c, e, table, index, indexValue) == (OpenSpec(c, e).0, Fail(NotBasicType))
  {
    LiteralDefined(indexValue);
  }

  // ---------------------------------------------------------------------------
  // GetAll and GetAllPerPage

  /** GetAll returns every row of the table once, ordered by `orderBy` in the normalised direction, naturalized. */
  lemma GetAllOrdered(c: Config, e: EngineState, table: string, order: string, orderBy: string)
    requires c.hasProvider
    ensures var g := GetAllSpec(c, e, table, order, orderBy);
            g.1.Ok? ==>
              (table in g.0.backend.tables &&
               exists sorted :: multiset(sorted) == multiset(g.0.backend.tables[table]) &&
                                SortedBy(sorted, orderBy, NormalizeOrder(order) == "DESC") &&
                                g.1.value == NaturalizeAll(sorted))
  {
    var o := OpenSpec(c, e);
    if o.1.Pass? {
      var st := SelectAll(table, orderBy, NormalizeOrder(order));
      RunSpec(o.0.backend, st);
      if table in o.0.backend.tables {
        SortRowsSpec(o.0.backend.tables[table], orderBy, NormalizeOrder(order) == "DESC");
      }
    }
  }

  /**
    The totals GetAllPerPage reports: with neither page nor page size positive, the
    number of records GetAll returned, or 0 when GetAll fails; otherwise -1 exactly
    when it fails.
   */
  lemma PerPageTotals(c: Config, e: EngineState, table: string, order: string, orderBy: string, page: int, perPage: int)
    requires c.hasProvider
    ensures var p := GetAllPerPageSpec(c, e, table, order, orderBy, page, perPage).1;
            var o := OpenSpec(c, e);
            (o.1.Fail? ==> p == Page([], -1, o.1)) &&
            (o.1.Pass? && page <= 0 && perPage <= 0 ==>
               var all := GetAllSpec(c, o.0, table, order, orderBy).1;
               (all.Ok? ==> p == Page(all.value, |all.value|, Pass)) &&
               (all.Err? ==> p == Page([], 0, Fail(all.error)))) &&
            (!(page <= 0 && perPage <= 0) ==> (p.err.Fail? <==> p.total == -1)) &&
            (p.err.Fail? ==> p.records == [])
  {
    var o := OpenSpec(c, e);
    if o.1.Pass? && !(page <= 0 && perPage <= 0) {
      OpenSpecFacts(c, o.0);
    }
  }

  /** A window that starts past the total gives no records, the true total and no error. */
  lemma PerPagePastEnd(c: Config, e: EngineState, table: string, order: string, orderBy: string, page: int, perPage: int)
    requires c.hasProvider && OpenSpec(c, e).1.Pass? && !(page <= 0 && perPage <= 0)
    requires CountSpec(c, OpenSpec(c, e).0, table).1.err.Pass?
    requires PageWindow(page, perPage).start > CountSpec(c, OpenSpec(c, e).0, table).1.count
    ensures GetAllPerPageSpec(c, e, table, order, orderBy, page, perPage).1 ==
            Page([], CountSpec(c, OpenSpec(c, e).0, table).1.count, Pass)
  {
  }

  /**
    Otherwise, on an existing table the database does not refuse, GetAllPerPage
    reports the table's row count and the rows of its window, ordered, naturalized.
   */
  lemma PerPageWindowRows(c: Config, e: EngineState, table: string, order: string, orderBy: string, page: int, perPage: int)
    requires c.hasProvider && OpenSpec(c, e).1.Pass? && !(page <= 0 && perPage <= 0)
    requires table in e.backend.tables && table !in e.backend.rejecting
    requires PageWindow(page, perPage).wanted >= 0 && 0 <= PageWindow(page, perPage).start <= |e.backend.tables[table]|
    ensures var rows := e.backend.tables[table];
            var w := PageWindow(page, perPage);
            GetAllPerPageSpec(c, e, table, order, orderBy, page, perPage).1 ==
            Page(NaturalizeAll(Slice(SortRows(rows, orderBy, NormalizeOrder(order) == "DESC"), w.wanted, w.start)), |rows|, Pass)
  {
    var o := OpenSpec(c, e);
    OpenSpecFacts(c, e);
    OpenSpecFacts(c, o.0);
    CountRowsOf(c, o.0, table);
    CountReadOnly(c, o.0, table);
  }

  /** With no page size, the window is refused by the database, and GetAllPerPage reports -1. */
  lemma PerPageNegativeLimit(c: Config, e: EngineState, table: string, order: string, orderBy: string, page: int)
    requires c.hasProvider && OpenSpec(c, e).1.Pass? && page >= 1 && IsGoInt(page)
    requires table in e.backend.tables && table !in e.backend.rejecting
    ensures GetAllPerPageSpec(c, e, table, order, orderBy, page, -1).1.total == -1
  {
    var o := OpenSpec(c, e);
    OpenSpecFacts(c, e);
    OpenSpecFacts(c, o.0);
    CountRowsOf(c, o.0, table);
    CountReadOnly(c, o.0, table);
    NonPositivePerPageWindow(page, -1);
    assert PageWindow(page, -1).wanted == -page;
  }

  /**
    Page 2^62 with 3 rows per page: the product wraps to a negative LIMIT, the
    database refuses the window, and GetAllPerPage reports -1 with that refusal.
   */
  lemma PerPageWrappedLimit(c: Config, e: EngineState, table: string, order: string, orderBy: string)
    requires c.hasProvider && OpenSpec(c, e).1.Pass?
    requires table in e.backend.tables && table !in e.backend.rejecting
    ensures GetAllPerPageSpec(c, e, table, order, orderBy, Pow63 / 2, 3).1 == Page([], -1, Fail(Rejected(table)))
  {
    var o := OpenSpec(c, e);
    OpenSpecFacts(c, e);
    OpenSpecFacts(c, o.0);
    CountRowsOf(c, o.0, table);
    CountReadOnly(c, o.0, table);
    WrappedWindows();
  }
}
