/**
  The SQL engine of db/sql/sql.go: the one-shot migration latch and the CRUD
  operations. Each operation is a function over the engine's state (the latch and
  the database behind the connection provider), and a method of the class SQL
  that changes the object's fields step by step and is proved to agree with it.
 */
module Engine {
  import opened Wrappers
  import opened Values
  import opened Literal
  import opened Query
  import opened Store
  import opened Schema

  const CreatedAt := "created_at"
  const UpdatedAt := "updated_at"

  /** What never changes: whether a connection provider was given, and the migrations. */
  datatype Config = Config(hasProvider: bool, migrations: seq<TableMigration>)

  /** The `inited` latch and the database. */
  datatype EngineState = EngineState(inited: bool, backend: Backend)

  /** Count's `(int, error)`. */
  datatype Counted = Counted(count: int, err: Outcome)

  /** GetAllPerPage's `([]map[string]interface{}, int, error)`. */
  datatype Page = Page(records: seq<Record>, total: int, err: Outcome)

  /** The write statements sent so far. */
  function Writes(e: EngineState): seq<Statement> {
    WritesOf(e.backend.log)
  }

  // ---------------------------------------------------------------------------
  // migrate

  /** Runs the migrations in list order, stopping at the first one that fails. */
  function MigrateTables(b: Backend, ms: seq<TableMigration>): (Backend, Outcome)
    decreases |ms|
  {
    if ms == [] then (b, Pass)
    else
      var step := RunCreate(b, ms[0].tableName);
      if step.1.Err? then (step.0, Fail(step.1.error)) else MigrateTables(step.0, ms[1..])
  }

  /**
    migrate: nothing without a provider or once the latch is set; the provider's
    error when no connection opens; otherwise the migrations, and the latch is set
    only when every one of them succeeds.
   */
  function MigrateSpec(c: Config, e: EngineState): (EngineState, Outcome) {
    if !c.hasProvider || e.inited then (e, Pass)
    else if !e.backend.reachable then (e, Fail(ConnectionFailed))
    else
      var m := MigrateTables(e.backend, c.migrations);
      (EngineState(m.1.Pass?, m.0), m.1)
  }

  /** The common start of every operation: migrate, then open a connection. */
  function OpenSpec(c: Config, e: EngineState): (EngineState, Outcome)
    requires c.hasProvider
  {
    var m := MigrateSpec(c, e);
    if m.1.Fail? then m
    else if !m.0.backend.reachable then (m.0, Fail(ConnectionFailed))
    else (m.0, Pass)
  }

  // ---------------------------------------------------------------------------
  // The operations

  /** The INSERT of Save for the field names `names`, in the order fieldNames listed them. */
  function SaveStatement(table: string, fields: Record, names: seq<string>, createdAt: Time, updatedAt: Time): Statement {
    Insert(table, names + [CreatedAt, UpdatedAt],
           FieldValuesOf(names, fields) + [VTime(createdAt), VTime(updatedAt)])
  }

  /** Save; `createdAt` and `updatedAt` are the two clock reads. */
  function SaveSpec(c: Config, e: EngineState, table: string, fields: Record, names: seq<string>,
                    createdAt: Time, updatedAt: Time): (EngineState, Outcome)
    requires c.hasProvider
  {
    var o := OpenSpec(c, e);
    if o.1.Fail? then o
    else
      var step := Run(o.0.backend, SaveStatement(table, fields, names, createdAt, updatedAt));
      (o.0.(backend := step.0), ToOutcome(step.1))
  }

  /** The fields Update works on: the record's fields with `updated_at` set to the clock read. */
  function Stamped(fields: Record, now: Time): Record {
    fields[UpdatedAt := VTime(now)]
  }

  /** Update; `now` is the clock read and `order` the order setValues walks the assignments in. */
  function UpdateSpec(c: Config, e: EngineState, table: string, fields: Record, index: string,
                      now: Time, order: seq<string>): (EngineState, Outcome)
    requires c.hasProvider
  {
    var o := OpenSpec(c, e);
    var stamped := Stamped(fields, now);
    if o.1.Fail? then o
    else if index !in stamped then (o.0, Fail(IndexNotFound(index)))
    else match PrintLiteral(stamped[index])
      case Err(x) => (o.0, Fail(x))
      case Ok(literal) =>
        var assigns := stamped - {index};
        match SetClause(assigns, order)
        case Err(x) => (o.0, Fail(x))
        case Ok(sets) =>
          var step := Run(o.0.backend, UpdateSet(table, assigns, sets, index, literal));
          (o.0.(backend := step.0), ToOutcome(step.1))
  }

  /** Get: the first row whose `index` prints as the literal of `indexValue`, naturalized. */
  function GetSpec(c: Config, e: EngineState, table: string, index: string, indexValue: Value): (EngineState, Result<Record>)
    requires c.hasProvider
  {
    var o := OpenSpec(c, e);
    if o.1.Fail? then (o.0, Err(o.1.error))
    else match PrintLiteral(indexValue)
      case Err(x) => (o.0, Err(x))
      case Ok(literal) =>
        var step := Run(o.0.backend, SelectItem(table, index, literal));
        var e1 := o.0.(backend := step.0);
        match step.1
        case Err(x) => (e1, Err(x))
        case Ok(reply) =>
          if !reply.Rows? || reply.rows == [] then (e1, Err(NoRows))
          else (e1, Ok(Naturalized(reply.rows[0])))
  }

  /** GetAll: every row, ordered by `orderBy` in the normalised direction, naturalized. */
  function GetAllSpec(c: Config, e: EngineState, table: string, order: string, orderBy: string): (EngineState, Result<seq<Record>>)
    requires c.hasProvider
  {
    var o := OpenSpec(c, e);
    if o.1.Fail? then (o.0, Err(o.1.error))
    else
      var step := Run(o.0.backend, SelectAll(table, orderBy, NormalizeOrder(order)));
      var e1 := o.0.(backend := step.0);
      match step.1
      case Err(x) => (e1, Err(x))
      case Ok(reply) => (e1, Ok(if reply.Rows? then NaturalizeAll(reply.rows) else []))
  }

  /** Count: the number of rows, and 0 with the error when it fails. */
  function CountSpec(c: Config, e: EngineState, table: string): (EngineState, Counted)
    requires c.hasProvider
  {
    var o := OpenSpec(c, e);
    if o.1.Fail? then (o.0, Counted(0, o.1))
    else
      var step := Run(o.0.backend, CountRows(table));
      var e1 := o.0.(backend := step.0);
      match step.1
      case Err(x) => (e1, Counted(0, Fail(x)))
      case Ok(reply) => (e1, Counted(if reply.Number? then reply.n else 0, Pass))
  }

  /**
    GetAllPerPage. With neither page nor page size positive it is GetAll, with the
    length of what GetAll returned as the total. Otherwise it counts, computes the
    window, returns no records past the end, and reads one window of rows.
   */
  function GetAllPerPageSpec(c: Config, e: EngineState, table: string, order: string, orderBy: string,
                             page: int, perPage: int): (EngineState, Page)
    requires c.hasProvider
  {
    var o := OpenSpec(c, e);
    if o.1.Fail? then (o.0, Page([], -1, o.1))
    else if page <= 0 && perPage <= 0 then
      var all := GetAllSpec(c, o.0, table, order, orderBy);
      match all.1
      case Ok(rows) => (all.0, Page(rows, |rows|, Pass))
      case Err(x) => (all.0, Page([], 0, Fail(x)))
    else
      var counted := CountSpec(c, o.0, table);
      var e1 := counted.0;
      var total := counted.1.count;
      if counted.1.err.Fail? then (e1, Page([], -1, counted.1.err))
      else
        var w := PageWindow(page, perPage);
        if w.start > total then (e1, Page([], total, Pass))
        else
          var step := Run(e1.backend, SelectLimited(table, orderBy, NormalizeOrder(order), w.wanted, w.start));
          var e2 := e1.(backend := step.0);
          match step.1
          case Err(x) => (e2, Page([], -1, Fail(x)))
          case Ok(reply) => (e2, Page(if reply.Rows? then NaturalizeAll(reply.rows) else [], total, Pass))
  }

  /** Delete: removes every row whose `index` prints as the literal of `indexValue`. */
  function DeleteSpec(c: Config, e: EngineState, table: string, index: string, indexValue: Value): (EngineState, Outcome)
    requires c.hasProvider
  {
    var o := OpenSpec(c, e);
    if o.1.Fail? then o
    else match PrintLiteral(indexValue)
      case Err(x) => (o.0, Fail(x))
      case Ok(literal) =>
        var step := Run(o.0.backend, DeleteItem(table, index, literal));
        (o.0.(backend := step.0), ToOutcome(step.1))
  }

  // ---------------------------------------------------------------------------
  // The SQL object

  /**
    The SQL struct. `hasProvider` says whether its DB is non-nil; `backend` is the
    database that DB connects to, which every statement the object sends acts on.
   */
  class SQL {
    const hasProvider: bool
    const migrations: seq<TableMigration>
    var inited: bool
    var backend: Backend

    /** New: the latch starts unset. */
    constructor (hasProvider: bool, backend: Backend, migrations: seq<TableMigration>)
      ensures Cfg() == Config(hasProvider, migrations)
      ensures State() == EngineState(false, backend)
    {
      this.hasProvider := hasProvider;
      this.migrations := migrations;
      this.inited := false;
      this.backend := backend;
    }

    function Cfg(): Config {
      Config(hasProvider, migrations)
    }

    function State(): EngineState
      reads this
    {
      EngineState(inited, backend)
    }

    /** Sends one statement on the connection. */
    method Exec(st: Statement) returns (r: Result<Reply>)
      modifies this
      ensures backend == Run(old(backend), st).0 && r == Run(old(backend), st).1
      ensures inited == old(inited)
    {
      var step := Run(backend, st);
      backend := step.0;
      r := step.1;
    }

    method Migrate() returns (err: Outcome)
      modifies this
      ensures (State(), err) == MigrateSpec(Cfg(), old(State()))
    {
      if !hasProvider || inited {
        return Pass;
      }
      if !backend.reachable {
        return Fail(ConnectionFailed);
      }
      var i := 0;
      while i < |migrations|
        invariant 0 <= i <= |migrations|
        invariant !inited
        invariant MigrateTables(backend, migrations[i..]) == MigrateTables(old(backend), migrations)
      {
        ghost var before := backend;
        assert migrations[i..][0] == migrations[i] && migrations[i..][1..] == migrations[i + 1..];
        var r := Exec(CreateTable(migrations[i].tableName));
        if r.Err? {
          assert MigrateTables(before, migrations[i..]) == (backend, Fail(r.error));
          return Fail(r.error);
        }
        i := i + 1;
      }
      inited := true;
      return Pass;
    }

    /** Migrates, then opens a connection. */
    method Open() returns (err: Outcome)
      requires hasProvider
      modifies this
      ensures (State(), err) == OpenSpec(Cfg(), old(State()))
    {
      err := Migrate();
      if err.Fail? {
        return;
      }
      if !backend.reachable {
        err := Fail(ConnectionFailed);
      }
    }

    /** Save. The order fieldNames listed the names in is returned as `names`. */
    method Save(table: string, fields: Record, createdAt: Time, updatedAt: Time) returns (err: Outcome, ghost names: seq<string>)
      requires hasProvider
      modifies this
      ensures Enumerates(names, fields.Keys)
      ensures (State(), err) == SaveSpec(Cfg(), old(State()), table, fields, names, createdAt, updatedAt)
    {
      names := Enumeration(fields.Keys);
      err := Open();
      if err.Fail? {
        return;
      }
      var fieldNames := FieldNames(fields);
      names := fieldNames;
      var values := FieldValues(fieldNames, fields);
      assert values == FieldValuesOf(fieldNames, fields);
      fieldNames := fieldNames + [CreatedAt, UpdatedAt];
      values := values + [VTime(createdAt), VTime(updatedAt)];
      var r := Exec(Insert(table, fieldNames, values));
      err := ToOutcome(r);
    }

    /** Update. The order setValues walked the assignments in is returned as `order`. */
    method Update(table: string, fields: Record, index: string, now: Time) returns (err: Outcome, ghost order: seq<string>)
      requires hasProvider
      modifies this
      ensures Enumerates(order, (Stamped(fields, now) - {index}).Keys)
      ensures (State(), err) == UpdateSpec(Cfg(), old(State()), table, fields, index, now, order)
    {
      order := Enumeration((Stamped(fields, now) - {index}).Keys);
      err := Open();
      if err.Fail? {
        return;
      }
      var tableFields := fields[UpdatedAt := VTime(now)];
      if index !in tableFields {
        err := Fail(IndexNotFound(index));
        return;
      }
      var literal := PrintLiteral(tableFields[index]);
      if literal.Err? {
        err := Fail(literal.error);
        return;
      }
      tableFields := tableFields - {index};
      var sets;
      sets, order := SetValues(tableFields);
      if sets.Err? {
        err := Fail(sets.error);
        return;
      }
      var r := Exec(UpdateSet(table, tableFields, sets.value, index, literal.value));
      err := ToOutcome(r);
    }

    method Get(table: string, index: string, indexValue: Value) returns (r: Result<Record>)
      requires hasProvider
      modifies this
      ensures (State(), r) == GetSpec(Cfg(), old(State()), table, index, indexValue)
    {
      var err := Open();
      if err.Fail? {
        return Err(err.error);
      }
      var literal := PrintLiteral(indexValue);
      if literal.Err? {
        return Err(literal.error);
      }
      var reply := Exec(SelectItem(table, index, literal.value));
      if reply.Err? {
        return Err(reply.error);
      }
      if !reply.value.Rows? || reply.value.rows == [] {
        return Err(NoRows);
      }
      var row := NaturalizeMap(reply.value.rows[0]);
      return Ok(row);
    }

    /** Naturalizes every row of a reply, in order (the `rows.Next()` loops). */
    method NaturalizeRows(rows: seq<Record>) returns (fields: seq<Record>)
      ensures fields == NaturalizeAll(rows)
    {
      fields := [];
      for i := 0 to |rows|
        invariant fields == NaturalizeAll(rows[..i])
      {
        var mo := NaturalizeMap(rows[i]);
        assert rows[..i + 1] == rows[..i] + [rows[i]];
        fields := fields + [mo];
      }
      assert rows[..|rows|] == rows;
    }

    method GetAll(table: string, order: string, orderBy: string) returns (r: Result<seq<Record>>)
      requires hasProvider
      modifies this
      ensures (State(), r) == GetAllSpec(Cfg(), old(State()), table, order, orderBy)
    {
      var err := Open();
      if err.Fail? {
        return Err(err.error);
      }
      var direction := NormalizeOrder(order);
      var reply := Exec(SelectAll(table, orderBy, direction));
      if reply.Err? {
        return Err(reply.error);
      }
      var fields: seq<Record> := [];
      if reply.value.Rows? {
        fields := NaturalizeRows(reply.value.rows);
      }
      return Ok(fields);
    }

    method Count(table: string) returns (r: Counted)
      requires hasProvider
      modifies this
      ensures (State(), r) == CountSpec(Cfg(), old(State()), table)
    {
      var err := Open();
      if err.Fail? {
        return Counted(0, err);
      }
      var reply := Exec(CountRows(table));
      if reply.Err? {
        return Counted(0, Fail(reply.error));
      }
      var records := if reply.value.Number? then reply.value.n else 0;
      return Counted(records, Pass);
    }

    method GetAllPerPage(table: string, order: string, orderBy: string, page: int, perPage: int) returns (r: Page)
      requires hasProvider
      modifies this
      ensures (State(), r) == GetAllPerPageSpec(Cfg(), old(State()), table, order, orderBy, page, perPage)
    {
      var err := Open();
      if err.Fail? {
        return Page([], -1, err);
      }
      if page <= 0 && perPage <= 0 {
        var records := GetAll(table, order, orderBy);
        if records.Err? {
          return Page([], 0, Fail(records.error));
        }
        return Page(records.value, |records.value|, Pass);
      }
      var totalRecords := Count(table);
      if totalRecords.err.Fail? {
        return Page([], -1, totalRecords.err);
      }
      var direction := NormalizeOrder(order);
      var w := PageWindow(page, perPage);
      if w.start > totalRecords.count {
        return Page([], totalRecords.count, Pass);
      }
      var reply := Exec(SelectLimited(table, orderBy, direction, w.wanted, w.start));
      if reply.Err? {
        return Page([], -1, Fail(reply.error));
      }
      var fields: seq<Record> := [];
      if reply.value.Rows? {
        fields := NaturalizeRows(reply.value.rows);
      }
      return Page(fields, totalRecords.count, Pass);
    }

    method Delete(table: string, index: string, indexValue: Value) returns (err: Outcome)
      requires hasProvider
      modifies this
      ensures (State(), err) == DeleteSpec(Cfg(), old(State()), table, index, indexValue)
    {
      err := Open();
      if err.Fail? {
        return;
      }
      var literal := PrintLiteral(indexValue);
      if literal.Err? {
        return Fail(literal.error);
      }
      var r := Exec(DeleteItem(table, index, literal.value));
      err := ToOutcome(r);
    }
  }
}
