/**
  The pure, statement-building parts of the SQL engine (db/sql/sql.go): the ORDER BY
  direction, the page window of GetAllPerPage, the INSERT name and marker lists, the
  UPDATE SET clause, and the statements themselves with the text of their templates.
 */
module Query {
  import opened Wrappers
  import opened Values
  import opened Text
  import opened Literal

  // ---------------------------------------------------------------------------
  // ORDER BY direction

  /** The switch on strings.ToLower(order) in GetAll and GetAllPerPage. */
  function NormalizeOrder(order: string): string {
    var o := ToLower(order);
    if o == "asc" then "ASC"
    else if o == "dsc" || o == "desc" then "DESC"
    else "ASC"
  }

  /**
    The direction is ASC or DESC; it is DESC exactly when the argument is "dsc" or
    "desc" up to letter case, so every other text, garbage included, gives ASC.
   */
  lemma NormalizeOrderSpec(order: string)
    ensures NormalizeOrder(order) == "ASC" || NormalizeOrder(order) == "DESC"
    ensures NormalizeOrder(order) == "DESC" <==> EqualFold(order, "dsc") || EqualFold(order, "desc")
  {
    ToLowerEquals(order, "dsc");
    ToLowerEquals(order, "desc");
  }

  /** Normalising a normalised direction changes nothing. */
  lemma NormalizeOrderIdempotent(order: string)
    ensures NormalizeOrder(NormalizeOrder(order)) == NormalizeOrder(order)
  {
    var n := NormalizeOrder(order);
    if n == "ASC" {
      assert ToLower(n) == "asc";
    } else {
      assert ToLower(n) == "desc";
    }
  }

  /** The spellings the callers use. */
  lemma NormalizeOrderExamples()
    ensures NormalizeOrder("asc") == "ASC" && NormalizeOrder("DeSc") == "DESC"
    ensures NormalizeOrder("Dsc") == "DESC" && NormalizeOrder("sideways") == "ASC" && NormalizeOrder("") == "ASC"
  {
    assert ToLower("asc") == "asc";
    assert ToLower("DeSc") == "desc";
    assert ToLower("Dsc") == "dsc";
    assert ToLower("sideways") == "sideways";
  }

  // ---------------------------------------------------------------------------
  // The page window of GetAllPerPage

  /** Go's `a / 2` on ints, which truncates toward zero. */
  function Half(a: int): (q: int)
    ensures a >= 0 ==> 0 <= a - 2 * q <= 1
    ensures a < 0 ==> -1 <= a - 2 * q <= 0
  {
    if a >= 0 then a / 2 else -((-a) / 2)
  }

  /** 2^63: Go's int is 64 bits wide and holds -2^63 to 2^63 - 1. */
  const Pow63: int := 0x8000_0000_0000_0000

  predicate IsGoInt(x: int) {
    -Pow63 <= x < Pow63
  }

  /** An integer result as Go's 64-bit int arithmetic leaves it: reduced modulo 2^64 into the int range. */
  function Wrap(x: int): (r: int)
    ensures IsGoInt(r)
    ensures IsGoInt(x) ==> r == x
    ensures (x - r) % (2 * Pow63) == 0
  {
    var m := (x + Pow63) % (2 * Pow63);
    assert x + Pow63 == (2 * Pow63) * ((x + Pow63) / (2 * Pow63)) + m;
    m - Pow63
  }

  /** The LIMIT (`totalWanted`) and OFFSET (`indexToStart`) of one page. */
  datatype Window = Window(wanted: int, start: int)

  /** The window of GetAllPerPage; `responsePerPage * page` is a Go int product, which wraps. */
  function PageWindow(page: int, perPage: int): Window {
    if page <= 1 && perPage > 0 then Window(perPage, 0)
    else
      var wanted := Wrap(perPage * page);
      Window(wanted, Half(wanted) + (if page > 1 then 1 else 0))
  }

  /**
    On a later page whose product fits in a Go int, the window asks for
    page * perPage rows and starts one past half of that, so it never starts at
    the first row.
   */
  lemma LaterPageWindow(page: int, perPage: int)
    requires page > 1 && perPage > 0 && page * perPage < Pow63
    ensures PageWindow(page, perPage).wanted == page * perPage
    ensures 2 * PageWindow(page, perPage).start == page * perPage + 2 || 2 * PageWindow(page, perPage).start == page * perPage + 1
    ensures PageWindow(page, perPage).start > perPage
  {
    var w := page * perPage;
    assert w >= 2 * perPage by {
      assert (page - 2) * perPage >= 0;
    }
  }

  /** A page of zero or fewer rows gives a LIMIT of zero or less, which the store refuses when negative. */
  lemma NonPositivePerPageWindow(page: int, perPage: int)
    requires page >= 0 && perPage <= 0 && IsGoInt(perPage * page)
    ensures PageWindow(page, perPage).wanted <= 0
    ensures PageWindow(page, perPage).start <= (if page > 1 then 1 else 0)
  {
    assert perPage * page <= 0 by {
      assert (-perPage) * page >= 0;
    }
  }

  /**
    With two rows per page, the row at offset 2 (the third row, in order) is on no
    page: every page up to 1 covers offsets 0 and 1, page p >= 2 starts at offset
    p + 1 >= 3, and a page whose product wraps asks for a negative number of rows.
   */
  lemma ThirdRowOnNoPage(page: int)
    requires IsGoInt(page)
    ensures var w := PageWindow(page, 2);
            !(w.start <= 2 < w.start + w.wanted)
  {
    var w := PageWindow(page, 2);
    if page <= 1 {
      assert w == Window(2, 0);
    } else if 2 * page < Pow63 {
      assert w.wanted == 2 * page;
      assert w.start == page + 1;
    } else {
      // The product wraps to a negative LIMIT, so the window is empty.
      assert w.wanted == 2 * page - 2 * Pow63;
    }
  }

  /**
    A product past the Go int range wraps: page 2^62 + 1 with 4 rows per page asks
    for 4 rows from offset 3, and page 2^62 with 3 rows per page gives a negative
    LIMIT, which the database refuses.
   */
  lemma WrappedWindows()
    ensures PageWindow(Pow63 / 2 + 1, 4) == Window(4, 3)
    ensures PageWindow(Pow63 / 2, 3) == Window(-Pow63 / 2, -Pow63 / 4 + 1)
  {
    assert Wrap(4 * (Pow63 / 2 + 1)) == 4;
    assert Wrap(3 * (Pow63 / 2)) == -Pow63 / 2;
  }

  /** The window sql_test.go asks for: page 2 with 2 rows per page starts at offset 3. */
  lemma SecondPageOfTwo()
    ensures PageWindow(2, 2) == Window(4, 3)
  {
  }

  // ---------------------------------------------------------------------------
  // INSERT lists

  /** `n` copies of `s` (none when `n` is not positive). */
  function Repeat(s: string, n: int): (r: seq<string>)
    decreases n
    ensures |r| == if n > 0 then n else 0
    ensures forall i :: 0 <= i < |r| ==> r[i] == s
  {
    if n <= 0 then [] else Repeat(s, n - 1) + [s]
  }

  /** The `(?,…,?)` text of fieldMarkers(total). */
  function MarkersText(total: int): string {
    "(" + Join(Repeat("?", total), ",") + ")"
  }

  /** fieldMarkers: one `?` per name, comma separated, in parentheses. */
  method FieldMarkers(total: int) returns (r: string)
    ensures r == MarkersText(total)
  {
    var markers: seq<string> := [];
    var i := 0;
    while i < total
      invariant 0 <= i <= (if total > 0 then total else 0)
      invariant markers == Repeat("?", i)
    {
      markers := markers + ["?"];
      i := i + 1;
    }
    r := "(" + Join(markers, ",") + ")";
  }

  lemma {:induction false} JoinMarksCount(parts: seq<string>)
    requires forall i :: 0 <= i < |parts| ==> parts[i] == "?"
    ensures CountChar(Join(parts, ","), '?') == |parts|
    decreases |parts|
  {
    if |parts| == 1 {
      assert Join(parts, ",") == "?";
      assert CountChar("?", '?') == 1 + CountChar("", '?');
    } else if |parts| > 1 {
      JoinMarksCount(parts[1..]);
      CountCharAppend("?" + ",", Join(parts[1..], ","), '?');
      CountCharAppend("?", ",", '?');
      assert CountChar("?", '?') == 1 + CountChar("", '?');
      assert CountChar(",", '?') == 0 + CountChar("", '?');
      assert Join(parts, ",") == ("?" + ",") + Join(parts[1..], ",");
    }
  }

  /** The marker text for `n` names holds exactly `n` markers (none when `n` is not positive). */
  lemma MarkerCount(n: int)
    ensures CountChar(MarkersText(n), '?') == if n > 0 then n else 0
  {
    var inner := Join(Repeat("?", n), ",");
    JoinMarksCount(Repeat("?", n));
    CountCharAppend("(" + inner, ")", '?');
    CountCharAppend("(", inner, '?');
    assert CountChar("(", '?') == 0 + CountChar("", '?');
    assert CountChar(")", '?') == 0 + CountChar("", '?');
  }

  /** fieldNameMarkers: the names, `, ` separated, in parentheses. */
  function FieldNameMarkers(names: seq<string>): string {
    "(" + Join(names, ", ") + ")"
  }

  /** `names` lists every key of `keys` exactly once, in some order (a Go map range). */
  predicate Enumerates(names: seq<string>, keys: set<string>) {
    multiset(names) == multiset(keys)
  }

  /** An enumeration is a duplicate-free list of exactly the keys, and every such list is one. */
  lemma EnumeratesSpec(names: seq<string>, keys: set<string>)
    ensures Enumerates(names, keys) <==>
            (|names| == |keys| && (forall i :: 0 <= i < |names| ==> names[i] in keys) &&
             (forall i, j :: 0 <= i < j < |names| ==> names[i] != names[j]))
  {
    if Enumerates(names, keys) {
      assert |names| == |multiset(names)| == |multiset(keys)| == |keys|;
      forall i | 0 <= i < |names| ensures names[i] in keys {
        assert names[i] in multiset(names);
      }
      forall i, j | 0 <= i < j < |names| ensures names[i] != names[j] {
        assert multiset(keys)[names[i]] <= 1;
        if names[i] == names[j] {
          MultisetCountsTwice(names, i, j);
        }
      }
    } else if |names| == |keys| && (forall i :: 0 <= i < |names| ==> names[i] in keys) &&
              (forall i, j :: 0 <= i < j < |names| ==> names[i] != names[j]) {
      DistinctEnumerates(names, keys);
    }
  }

  lemma {:induction false} MultisetCountsTwice(s: seq<string>, i: int, j: int)
    requires 0 <= i < j < |s| && s[i] == s[j]
    ensures multiset(s)[s[i]] >= 2
  {
    assert s == s[..i] + [s[i]] + s[i + 1..j] + [s[j]] + s[j + 1..];
    assert multiset(s) == multiset(s[..i]) + multiset{s[i]} + multiset(s[i + 1..j]) + multiset{s[j]} + multiset(s[j + 1..]);
  }

  lemma {:induction false} DistinctEnumerates(names: seq<string>, keys: set<string>)
    requires |names| == |keys| && forall i :: 0 <= i < |names| ==> names[i] in keys
    requires forall i, j :: 0 <= i < j < |names| ==> names[i] != names[j]
    ensures Enumerates(names, keys)
    decreases |names|
  {
    if names != [] {
      var last := names[|names| - 1];
      var front := names[..|names| - 1];
      forall i | 0 <= i < |front| ensures front[i] in keys - {last} {
        assert front[i] == names[i] != names[|names| - 1];
      }
      DistinctEnumerates(front, keys - {last});
      assert names == front + [last];
      assert keys == (keys - {last}) + {last};
      assert multiset(keys) == multiset(keys - {last}) + multiset{last};
    } else {
      assert keys == {};
    }
  }

  /** Moving one key from the keys still to walk to the keys walked keeps the walk an enumeration. */
  lemma TakeKey(names: seq<string>, rest: set<string>, k: string, keys: set<string>)
    requires multiset(names) + multiset(rest) == multiset(keys) && k in rest
    ensures multiset(names + [k]) + multiset(rest - {k}) == multiset(keys)
  {
    assert multiset(rest) == multiset(rest - {k}) + multiset{k} by {
      assert rest == (rest - {k}) + {k};
    }
  }

  /** Some enumeration of a set; which one is left open, as a Go map range leaves it. */
  ghost function Enumeration(keys: set<string>): (names: seq<string>)
    ensures Enumerates(names, keys)
    decreases |keys|
  {
    if keys == {} then []
    else
      var k :| k in keys;
      assert multiset(keys) == multiset(keys - {k}) + multiset{k} by {
        assert keys == (keys - {k}) + {k};
      }
      [k] + Enumeration(keys - {k})
  }

  /** fieldNames: the keys of the record, in the order the map range yields them. */
  method FieldNames(fields: Record) returns (names: seq<string>)
    ensures Enumerates(names, fields.Keys)
  {
    names := [];
    var rest := fields.Keys;
    while rest != {}
      invariant rest <= fields.Keys
      invariant multiset(names) + multiset(rest) == multiset(fields.Keys)
      decreases |rest|
    {
      var k :| k in rest;
      TakeKey(names, rest, k, fields.Keys);
      names := names + [k];
      rest := rest - {k};
    }
  }

  /** `fields[name]`: a missing key reads as nil. */
  function ValueAt(fields: Record, name: string): Value {
    if name in fields then fields[name] else VNil
  }

  /** The values fieldValues lists for `names`. */
  function FieldValuesOf(names: seq<string>, fields: Record): (vals: seq<Value>)
    ensures |vals| == |names|
    ensures forall i :: 0 <= i < |names| ==> vals[i] == ValueAt(fields, names[i])
  {
    seq(|names|, i requires 0 <= i < |names| => ValueAt(fields, names[i]))
  }

  /** fieldValues: the value of each name, in the order of the names. */
  method FieldValues(names: seq<string>, fields: Record) returns (vals: seq<Value>)
    ensures |vals| == |names|
    ensures forall i :: 0 <= i < |names| ==> vals[i] == ValueAt(fields, names[i])
  {
    vals := [];
    for i := 0 to |names|
      invariant |vals| == i
      invariant forall j :: 0 <= j < i ==> vals[j] == ValueAt(fields, names[j])
    {
      vals := vals + [ValueAt(fields, names[i])];
    }
  }

  /** Listing the values of an enumeration of the keys loses no field: each value is the record's own. */
  lemma FieldValuesOfKeys(names: seq<string>, fields: Record)
    requires Enumerates(names, fields.Keys)
    ensures forall i :: 0 <= i < |names| ==> names[i] in fields && FieldValuesOf(names, fields)[i] == fields[names[i]]
  {
    EnumeratesSpec(names, fields.Keys);
  }

  // ---------------------------------------------------------------------------
  // UPDATE SET clause

  /** One `name=literal` assignment. */
  function Assignment(fields: Record, name: string): string {
    name + "=" + LiteralText(ValueAt(fields, name))
  }

  /** The assignments for the keys of `order`, in that order. */
  function Assignments(fields: Record, order: seq<string>): (a: seq<string>)
    decreases |order|
    ensures |a| == |order|
  {
    if order == [] then [] else Assignments(fields, order[..|order| - 1]) + [Assignment(fields, order[|order| - 1])]
  }

  /**
    setValues for the map range order `order`: every value must have a literal, else
    "Not basic type"; the assignments are joined with commas.
   */
  function SetClause(fields: Record, order: seq<string>): Result<string> {
    if forall k :: k in fields ==> HasLiteral(fields[k]) then
      Ok(Join(Assignments(fields, order), ","))
    else
      Err(NotBasicType)
  }

  /** setValues. The order it walks the map in is returned as `order`. */
  method SetValues(fields: Record) returns (r: Result<string>, ghost order: seq<string>)
    ensures Enumerates(order, fields.Keys)
    ensures r == SetClause(fields, order)
  {
    var vals: seq<string> := [];
    var rest := fields.Keys;
    order := [];
    while rest != {}
      invariant rest <= fields.Keys
      invariant multiset(order) + multiset(rest) == multiset(fields.Keys)
      invariant |vals| == |order|
      invariant vals == Assignments(fields, order)
      invariant forall k :: k in fields && k !in rest ==> HasLiteral(fields[k])
      decreases |rest|
    {
      var name :| name in rest;
      TakeKey(order, rest, name, fields.Keys);
      var lit := PrintLiteral(fields[name]);
      if lit.Err? {
        ghost var tail := Enumeration(rest - {name});
        assert multiset(order + [name] + tail) == multiset(order + [name]) + multiset(tail);
        order := order + [name] + tail;
        r := Err(lit.error);
        return;
      }
      assert (order + [name])[..|order|] == order;
      vals := vals + [name + "=" + lit.value];
      order := order + [name];
      rest := rest - {name};
    }
    r := Ok(Join(vals, ","));
  }

  /** The SET clause fails exactly when some value has no literal, and the error is "Not basic type". */
  lemma SetClauseFails(fields: Record, order: seq<string>)
    ensures SetClause(fields, order).Err? <==> exists k :: k in fields && !HasLiteral(fields[k])
    ensures SetClause(fields, order).Err? ==> SetClause(fields, order).error == NotBasicType
  {
  }

  /** The SET clause of a record with one field is that field's assignment. */
  lemma SetClauseSingle(name: string, v: Value)
    requires HasLiteral(v)
    ensures SetClause(map[name := v], [name]) == Ok(name + "=" + LiteralText(v))
  {
    var one := [name];
    assert one[..0] == [];
  }

  /** naturalizeMap: a copy of the record with every `[]byte` value turned into a string. */
  method NaturalizeMap(fields: Record) returns (nz: Record)
    ensures nz == Naturalized(fields)
  {
    nz := map[];
    var rest := fields.Keys;
    while rest != {}
      invariant rest <= fields.Keys
      invariant nz.Keys == fields.Keys - rest
      invariant forall k :: k in nz ==> nz[k] == Naturalize(fields[k])
      decreases |rest|
    {
      var key :| key in rest;
      var val := fields[key];
      if val.VBytes? {
        nz := nz[key := VString(BytesToString(val.b))];
      } else {
        nz := nz[key := val];
      }
      rest := rest - {key};
    }
  }

  // ---------------------------------------------------------------------------
  // Statements

  /** The statements the engine sends, one per template, with their arguments. */
  datatype Statement =
    | CreateTable(table: string)
    | CountRows(table: string)
    | SelectAll(table: string, orderBy: string, order: string)
    | SelectLimited(table: string, orderBy: string, order: string, limit: int, offset: int)
    | SelectItem(table: string, key: string, literal: string)
    | Insert(table: string, names: seq<string>, values: seq<Value>)
    | UpdateSet(table: string, assigns: Record, clause: string, key: string, literal: string)
    | DeleteItem(table: string, key: string, literal: string)
  {
    /** Statements that can change a table's rows. */
    predicate IsWrite() {
      Insert? || UpdateSet? || DeleteItem?
    }
  }

  /**
    The text the templates give. The migration statement stands for
    TableMigration.String(), whose rendering is not part of this model.
   */
  function StatementText(st: Statement): string {
    match st
    case CreateTable(t) => "CREATE TABLE " + t
    case CountRows(t) => "SELECT count(*) FROM " + t
    case SelectAll(t, col, o) => "SELECT * FROM " + t + " ORDER BY " + col + " " + o
    case SelectLimited(t, col, o, lim, off) =>
      "SELECT * FROM " + t + " ORDER BY " + col + " " + o + " LIMIT " + Decimal(lim) + " OFFSET " + Decimal(off)
    case SelectItem(t, k, lit) => "SELECT * FROM " + t + " WHERE " + k + "=" + lit
    case Insert(t, names, _) => "INSERT INTO " + t + " " + FieldNameMarkers(names) + " VALUES " + MarkersText(|names|)
    case UpdateSet(t, _, sets, k, lit) => "UPDATE " + t + " SET " + sets + " WHERE " + k + "=" + lit
    case DeleteItem(t, k, lit) => "DELETE FROM " + t + " WHERE " + k + "=" + lit
  }

  /**
    The INSERT text carries one `?` marker per name beyond any `?` in the table and
    column names themselves: the VALUES list adds exactly `|names|` of them.
   */
  lemma InsertMarkers(table: string, names: seq<string>, values: seq<Value>)
    ensures CountChar(StatementText(Insert(table, names, values)), '?') ==
            CountChar(table, '?') + CountChar(FieldNameMarkers(names), '?') + |names|
  {
    var head := "INSERT INTO " + table + " " + FieldNameMarkers(names);
    MarkerCount(|names|);
    CountCharAppend(head + " VALUES ", MarkersText(|names|), '?');
    CountCharAppend(head, " VALUES ", '?');
    CountCharAppend("INSERT INTO " + table + " ", FieldNameMarkers(names), '?');
    CountCharAppend("INSERT INTO " + table, " ", '?');
    CountCharAppend("INSERT INTO ", table, '?');
    assert CountChar(" VALUES ", '?') == 0;
    assert CountChar("INSERT INTO ", '?') == 0;
    assert CountChar(" ", '?') == 0;
  }
}
