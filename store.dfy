/**
  The database the engine talks to, reduced to what its statements mean: named tables
  of records, a flag for whether a connection can be opened, the tables whose
  statements the database refuses, the tables whose writes it refuses, and the log of every statement sent to it.
 */
module Store {
  import opened Wrappers
  import opened Values
  import opened Text
  import opened Literal
  import opened Query

  datatype Backend = Backend(
    tables: map<string, seq<Record>>,
    reachable: bool,        // DB.New() opens a connection
    rejecting: set<string>, // the database refuses every statement on these tables
    writeRefused: set<string>,  // the database refuses the writes (INSERT, UPDATE, DELETE) on these tables
    log: seq<Statement>)    // every statement sent, refused ones included

  /** What a statement gives back: nothing, rows, or a number. */
  datatype Reply = Done | Rows(rows: seq<Record>) | Number(n: int)

  // ---------------------------------------------------------------------------
  // WHERE key=literal

  /** A row matches `key=literal` when it holds the key and the value prints as that literal. */
  predicate Matches(r: Record, key: string, literal: string) {
    key in r && PrintLiteral(r[key]) == Ok(literal)
  }

  function MatchingRows(rows: seq<Record>, key: string, literal: string): (r: seq<Record>)
    decreases |rows|
    ensures forall x :: x in r ==> x in rows && Matches(x, key, literal)
    ensures forall x :: x in rows && Matches(x, key, literal) ==> x in r
  {
    if rows == [] then []
    else (if Matches(rows[0], key, literal) then [rows[0]] else []) + MatchingRows(rows[1..], key, literal)
  }

  /** No row matches: the selection is empty. */
  lemma {:induction false} NoneMatching(rows: seq<Record>, key: string, literal: string)
    requires forall r :: r in rows ==> !Matches(r, key, literal)
    ensures MatchingRows(rows, key, literal) == []
    decreases |rows|
  {
    if rows != [] {
      assert rows[0] in rows;
      forall r | r in rows[1..] ensures !Matches(r, key, literal) {
        assert r in rows;
      }
      NoneMatching(rows[1..], key, literal);
    }
  }

  lemma {:induction false} MatchingRowsAppend(rows: seq<Record>, r: Record, key: string, literal: string)
    ensures MatchingRows(rows + [r], key, literal) ==
            MatchingRows(rows, key, literal) + (if Matches(r, key, literal) then [r] else [])
    decreases |rows|
  {
    if rows != [] {
      assert (rows + [r])[1..] == rows[1..] + [r];
      MatchingRowsAppend(rows[1..], r, key, literal);
    } else {
      assert rows + [r] == [r];
      var one: seq<Record> := [r];
      assert one[1..] == [];
    }
  }

  function RemoveMatching(rows: seq<Record>, key: string, literal: string): (r: seq<Record>)
    decreases |rows|
    ensures forall x :: x in r <==> x in rows && !Matches(x, key, literal)
    ensures |r| <= |rows|
  {
    if rows == [] then []
    else (if Matches(rows[0], key, literal) then [] else [rows[0]]) + RemoveMatching(rows[1..], key, literal)
  }

  /** Each row matching `key=literal` gets the assignments; every other row is kept as it is. */
  function AssignMatching(rows: seq<Record>, assigns: Record, key: string, literal: string): (r: seq<Record>)
    ensures |r| == |rows|
    ensures forall i :: 0 <= i < |rows| ==>
              r[i] == if Matches(rows[i], key, literal) then rows[i] + assigns else rows[i]
  {
    seq(|rows|, i requires 0 <= i < |rows| =>
      if Matches(rows[i], key, literal) then rows[i] + assigns else rows[i])
  }

  // ---------------------------------------------------------------------------
  // ORDER BY column ASC|DESC

  /**
    The key a row sorts by: missing and NULL first, then numbers, then text (a
    `[]byte` as the text it spells), then times, then anything else.
   */
  datatype SortKey = SortKey(rank: nat, num: int, text: string)

  function KeyOf(r: Record, col: string): SortKey {
    if col !in r then SortKey(0, 0, "")
    else match r[col]
      case VNil => SortKey(0, 0, "")
      case VInt(i) => SortKey(1, i, "")
      case VByte(c) => SortKey(1, c as int, "")
      case VString(s) => SortKey(2, 0, s)
      case VBytes(b) => SortKey(2, 0, BytesToString(b))
      case VTime(t) => SortKey(3, t.instant, "")
      case VOther => SortKey(4, 0, "")
  }

  /** Lexicographic order on character codes. */
  predicate TextLe(a: string, b: string)
    decreases |a|
  {
    if a == [] then true
    else if b == [] then false
    else if a[0] != b[0] then a[0] < b[0]
    else TextLe(a[1..], b[1..])
  }

  lemma {:induction false} TextLeTotal(a: string, b: string)
    ensures TextLe(a, b) || TextLe(b, a)
    decreases |a|
  {
    if a != [] && b != [] && a[0] == b[0] {
      TextLeTotal(a[1..], b[1..]);
    }
  }

  predicate KeyLe(x: SortKey, y: SortKey) {
    x.rank < y.rank || (x.rank == y.rank && (x.num < y.num || (x.num == y.num && TextLe(x.text, y.text))))
  }

  /** `x` may come before `y` in the requested direction. */
  predicate InOrder(x: Record, y: Record, col: string, desc: bool) {
    if desc then KeyLe(KeyOf(y, col), KeyOf(x, col)) else KeyLe(KeyOf(x, col), KeyOf(y, col))
  }

  lemma InOrderTotal(x: Record, y: Record, col: string, desc: bool)
    ensures InOrder(x, y, col, desc) || InOrder(y, x, col, desc)
  {
    TextLeTotal(KeyOf(x, col).text, KeyOf(y, col).text);
  }

  predicate SortedBy(rows: seq<Record>, col: string, desc: bool) {
    forall i :: 0 <= i < |rows| - 1 ==> InOrder(rows[i], rows[i + 1], col, desc)
  }

  /** Places `r` before the first row it may precede. */
  function InsertRow(r: Record, rows: seq<Record>, col: string, desc: bool): seq<Record>
    decreases |rows|
  {
    if rows == [] || InOrder(r, rows[0], col, desc) then [r] + rows
    else [rows[0]] + InsertRow(r, rows[1..], col, desc)
  }

  function SortRows(rows: seq<Record>, col: string, desc: bool): seq<Record>
    decreases |rows|
  {
    if rows == [] then [] else InsertRow(rows[0], SortRows(rows[1..], col, desc), col, desc)
  }

  lemma {:induction false} InsertRowKeeps(r: Record, rows: seq<Record>, col: string, desc: bool)
    ensures multiset(InsertRow(r, rows, col, desc)) == multiset(rows) + multiset{r}
    ensures |InsertRow(r, rows, col, desc)| > 0
    ensures InsertRow(r, rows, col, desc)[0] == r || (rows != [] && InsertRow(r, rows, col, desc)[0] == rows[0])
    decreases |rows|
  {
    if rows != [] && !InOrder(r, rows[0], col, desc) {
      InsertRowKeeps(r, rows[1..], col, desc);
      assert rows == [rows[0]] + rows[1..];
    }
  }

  lemma {:induction false} InsertRowSorted(r: Record, rows: seq<Record>, col: string, desc: bool)
    requires SortedBy(rows, col, desc)
    ensures SortedBy(InsertRow(r, rows, col, desc), col, desc)
    decreases |rows|
  {
    if rows != [] && !InOrder(r, rows[0], col, desc) {
      var rest := InsertRow(r, rows[1..], col, desc);
      InsertRowSorted(r, rows[1..], col, desc);
      InsertRowKeeps(r, rows[1..], col, desc);
      InOrderTotal(r, rows[0], col, desc);
      var out := [rows[0]] + rest;
      assert InOrder(out[0], out[1], col, desc);
      forall i | 1 <= i < |out| - 1 ensures InOrder(out[i], out[i + 1], col, desc) {
        assert out[i] == rest[i - 1] && out[i + 1] == rest[i];
      }
    }
  }

  /** ORDER BY keeps every row exactly once and puts them in the requested direction. */
  lemma {:induction false} SortRowsSpec(rows: seq<Record>, col: string, desc: bool)
    ensures multiset(SortRows(rows, col, desc)) == multiset(rows)
    ensures SortedBy(SortRows(rows, col, desc), col, desc)
    decreases |rows|
  {
    if rows != [] {
      SortRowsSpec(rows[1..], col, desc);
      InsertRowKeeps(rows[0], SortRows(rows[1..], col, desc), col, desc);
      InsertRowSorted(rows[0], SortRows(rows[1..], col, desc), col, desc);
      assert rows == [rows[0]] + rows[1..];
    }
  }

  /** LIMIT lim OFFSET off on an ordered listing. */
  function Slice(rows: seq<Record>, lim: nat, off: nat): (r: seq<Record>)
    ensures |r| <= lim
    ensures off >= |rows| ==> r == []
  {
    var from := if off < |rows| then off else |rows|;
    var to := if off + lim < |rows| then off + lim else |rows|;
    rows[from..to]
  }

  // ---------------------------------------------------------------------------
  // Running a statement

  /** The row an INSERT stores: each name gets the value in the same position. */
  function RecordOf(names: seq<string>, values: seq<Value>): (r: Record)
    requires |names| == |values|
    decreases |names|
    ensures r.Keys == set i | 0 <= i < |names| :: names[i]
  {
    if names == [] then map[]
    else RecordOf(names[..|names| - 1], values[..|values| - 1])[names[|names| - 1] := values[|values| - 1]]
  }

  predicate DistinctNames(names: seq<string>) {
    forall i, j :: 0 <= i < j < |names| ==> names[i] != names[j]
  }

  /** An INSERT the database accepts: distinct columns, one value each, none of an unsupported type. */
  predicate InsertAccepted(names: seq<string>, values: seq<Value>) {
    |names| == |values| && DistinctNames(names) && forall i :: 0 <= i < |values| ==> !values[i].VOther?
  }

  /** CREATE TABLE: refused on a refused table; otherwise adds the table if it is missing. */
  function RunCreate(b: Backend, t: string): (Backend, Result<Reply>) {
    var logged := b.(log := b.log + [CreateTable(t)]);
    if t in b.rejecting then (logged, Err(Rejected(t)))
    else (logged.(tables := if t in b.tables then b.tables else b.tables[t := []]), Ok(Done))
  }

  /**
    Sends a statement. It is logged whether or not it succeeds. A refused table, a
    missing table, a write on a table whose writes are refused, a negative LIMIT or OFFSET, a
    malformed INSERT and an UPDATE with nothing to SET (`UPDATE t SET  WHERE ...`) are refused,
    with the table in the error. CREATE TABLE adds the table if missing.
   */
  function Run(b: Backend, st: Statement): (Backend, Result<Reply>) {
    var logged := b.(log := b.log + [st]);
    var refused := Err(Rejected(st.table));
    if st.CreateTable? then RunCreate(b, st.table)
    else if st.table in b.rejecting || st.table !in b.tables then (logged, refused)
    else if st.IsWrite() && st.table in b.writeRefused then (logged, refused)
    else
      var rows := b.tables[st.table];
      match st
      case CountRows(_) => (logged, Ok(Number(|rows|)))
      case SelectAll(_, col, order) => (logged, Ok(Rows(SortRows(rows, col, order == "DESC"))))
      case SelectLimited(_, col, order, lim, off) =>
        if lim < 0 || off < 0 then (logged, refused)
        else (logged, Ok(Rows(Slice(SortRows(rows, col, order == "DESC"), lim, off))))
      case SelectItem(_, key, literal) => (logged, Ok(Rows(MatchingRows(rows, key, literal))))
      case Insert(t, names, values) =>
        if !InsertAccepted(names, values) then (logged, refused)
        else (logged.(tables := b.tables[t := rows + [RecordOf(names, values)]]), Ok(Done))
      case UpdateSet(t, assigns, _, key, literal) =>
        if assigns == map[] then (logged, refused)
        else (logged.(tables := b.tables[t := AssignMatching(rows, assigns, key, literal)]), Ok(Done))
      case DeleteItem(t, key, literal) =>
        (logged.(tables := b.tables[t := RemoveMatching(rows, key, literal)]), Ok(Done))
      case CreateTable(_) => (logged, Ok(Done))
  }

  /** The write statements of a log, in order. */
  function WritesOf(log: seq<Statement>): (w: seq<Statement>)
    decreases |log|
    ensures |w| <= |log|
  {
    if log == [] then []
    else WritesOf(log[..|log| - 1]) + (if log[|log| - 1].IsWrite() then [log[|log| - 1]] else [])
  }

  /**
    Every statement is logged, the connectivity, the refused tables and those whose writes are refused never change,
    and only a write can change rows that exist already.
   */
  lemma RunSpec(b: Backend, st: Statement)
    ensures Run(b, st).0.log == b.log + [st]
    ensures Run(b, st).0.reachable == b.reachable && Run(b, st).0.rejecting == b.rejecting && Run(b, st).0.writeRefused == b.writeRefused
    ensures Run(b, st).0.tables.Keys == b.tables.Keys + (if st.CreateTable? && st.table !in b.rejecting then {st.table} else {})
    ensures !st.IsWrite() ==> forall t :: t in b.tables ==> Run(b, st).0.tables[t] == b.tables[t]
    ensures forall t :: t in b.tables && t != st.table ==> Run(b, st).0.tables[t] == b.tables[t]
    ensures Run(b, st).1.Err? ==> Run(b, st).1.error == Rejected(st.table) && Run(b, st).0.tables == b.tables
    ensures WritesOf(Run(b, st).0.log) == WritesOf(b.log) + (if st.IsWrite() then [st] else [])
  {
    var l := b.log + [st];
    assert l[..|l| - 1] == b.log;
  }

  /** An accepted INSERT appends exactly the row its names and values spell. */
  lemma InsertAppends(b: Backend, t: string, names: seq<string>, values: seq<Value>)
    requires t in b.tables && t !in b.rejecting && t !in b.writeRefused && InsertAccepted(names, values)
    ensures Run(b, Insert(t, names, values)).1 == Ok(Done)
    ensures Run(b, Insert(t, names, values)).0.tables[t] == b.tables[t] + [RecordOf(names, values)]
  {
  }

  /** The row of an INSERT maps each name to the value in the same position. */
  lemma {:induction false} RecordOfSpec(names: seq<string>, values: seq<Value>)
    requires |names| == |values| && DistinctNames(names)
    ensures forall i :: 0 <= i < |names| ==> names[i] in RecordOf(names, values) && RecordOf(names, values)[names[i]] == values[i]
    decreases |names|
  {
    if names != [] {
      var n := |names| - 1;
      RecordOfSpec(names[..n], values[..n]);
      var r0 := RecordOf(names[..n], values[..n]);
      forall i | 0 <= i < n ensures names[i] in r0 && r0[names[i]] == values[i] && names[i] != names[n] {
        assert names[..n][i] == names[i] && values[..n][i] == values[i];
      }
    }
  }

  /** A DELETE leaves no matching row and every other row. */
  lemma DeleteRemovesMatching(b: Backend, t: string, key: string, literal: string)
    requires t in b.tables && t !in b.rejecting && t !in b.writeRefused
    ensures Run(b, DeleteItem(t, key, literal)).1 == Ok(Done)
    ensures var after := Run(b, DeleteItem(t, key, literal)).0.tables[t];
            (forall r :: r in after ==> !Matches(r, key, literal)) &&
            (forall r :: r in b.tables[t] && !Matches(r, key, literal) ==> r in after)
  {
  }
}
