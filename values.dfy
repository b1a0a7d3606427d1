/**
  The dynamically typed field values carried between domain objects and the engine
  (Go's `map[string]interface{}`), as a closed tagged union.
 */
module Values {
  import opened Wrappers

  /** Go's `byte` (uint8). */
  newtype Byte = x: int | 0 <= x < 256

  /**
    Go's `time.Time`, as an instant in nanoseconds; instant 0 stands for Go's zero
    time, which is what `IsZero` tests.
   */
  datatype Time = Time(instant: int) {
    predicate IsZero() { instant == 0 }
    predicate Before(u: Time) { instant < u.instant }
    predicate After(u: Time) { instant > u.instant }
    /** `t.Add(d)` for a duration of `d` nanoseconds. */
    function Add(d: int): Time { Time(instant + d) }
  }

  /**
    The dynamic types a field value can have. VNil is Go's nil interface value;
    VOther stands for every dynamic type that has no case of its own.
   */
  datatype Value =
    | VNil
    | VInt(i: int)
    | VString(s: string)
    | VBytes(b: seq<Byte>)
    | VByte(c: Byte)
    | VTime(t: Time)
    | VOther

  /** A record: field name to value. */
  type Record = map<string, Value>

  // ---------------------------------------------------------------------------
  // string(b): UTF-8

  /** The code U+FFFD that Go's decoder gives for a byte that starts no valid sequence. */
  const Replacement: char := '\U{FFFD}'

  /** A continuation byte, 10xxxxxx. */
  predicate Cont(b: Byte) {
    0x80 <= b <= 0xBF
  }

  /**
    The length of the well-formed UTF-8 sequence at the head of `b`, as
    utf8.DecodeRune accepts it (no overlong form, no surrogate, nothing past
    U+10FFFF), or 0 when the head starts none.
   */
  function SequenceLength(b: seq<Byte>): (n: nat)
    ensures n <= |b| && n <= 4
    ensures b != [] && b[0] < 0x80 ==> n == 1
  {
    if b == [] then 0
    else if b[0] < 0x80 then 1
    else if 0xC2 <= b[0] <= 0xDF then
      if |b| >= 2 && Cont(b[1]) then 2 else 0
    else if 0xE0 <= b[0] <= 0xEF then
      var lo: Byte := if b[0] == 0xE0 then 0xA0 else 0x80;
      var hi: Byte := if b[0] == 0xED then 0x9F else 0xBF;
      if |b| >= 3 && lo <= b[1] <= hi && Cont(b[2]) then 3 else 0
    else if 0xF0 <= b[0] <= 0xF4 then
      var lo: Byte := if b[0] == 0xF0 then 0x90 else 0x80;
      var hi: Byte := if b[0] == 0xF4 then 0x8F else 0xBF;
      if |b| >= 4 && lo <= b[1] <= hi && Cont(b[2]) && Cont(b[3]) then 4 else 0
    else 0
  }

  /** The character a well-formed sequence of one to four bytes encodes. */
  function SequenceChar(b: seq<Byte>): char
    requires b != [] && SequenceLength(b) == |b|
  {
    if |b| == 1 then b[0] as int as char
    else if |b| == 2 then ((b[0] as int - 0xC0) * 64 + (b[1] as int - 0x80)) as char
    else if |b| == 3 then
      ((b[0] as int - 0xE0) * 4096 + (b[1] as int - 0x80) * 64 + (b[2] as int - 0x80)) as char
    else
      ((b[0] as int - 0xF0) * 262144 + (b[1] as int - 0x80) * 4096 + (b[2] as int - 0x80) * 64 +
       (b[3] as int - 0x80)) as char
  }

  /**
    Go's `string(b)` for a byte slice, read as the characters Go's decoder finds in
    it: each well-formed UTF-8 sequence gives its character, and each byte that
    starts none gives U+FFFD.
   */
  function BytesToString(b: seq<Byte>): (s: string)
    decreases |b|
    ensures |s| <= |b|
  {
    if b == [] then []
    else
      var n := SequenceLength(b);
      if n == 0 then [Replacement] + BytesToString(b[1..])
      else [SequenceChar(b[..n])] + BytesToString(b[n..])
  }

  /** The UTF-8 encoding of one character. */
  function EncodeChar(c: char): (b: seq<Byte>)
    ensures 1 <= |b| <= 4
  {
    var n := c as int;
    var q1 := n / 64;
    var q2 := q1 / 64;
    var q3 := q2 / 64;
    if n < 0x80 then [n as Byte]
    else if n < 0x800 then [(0xC0 + q1) as Byte, (0x80 + n % 64) as Byte]
    else if n < 0x10000 then [(0xE0 + q2) as Byte, (0x80 + q1 % 64) as Byte, (0x80 + n % 64) as Byte]
    else [(0xF0 + q3) as Byte, (0x80 + q2 % 64) as Byte, (0x80 + q1 % 64) as Byte, (0x80 + n % 64) as Byte]
  }

  /** The UTF-8 encoding of a string: `[]byte(s)`. */
  function Encode(s: string): (b: seq<Byte>)
    decreases |s|
    ensures |b| >= |s|
  {
    if s == [] then [] else EncodeChar(s[0]) + Encode(s[1..])
  }

  /** The encoding of a character is one well-formed sequence, and decodes back to it. */
  lemma EncodeCharDecodes(c: char, rest: seq<Byte>)
    ensures SequenceLength(EncodeChar(c) + rest) == |EncodeChar(c)|
    ensures SequenceChar(EncodeChar(c)) == c
  {
    var b := EncodeChar(c);
    var n := c as int;
    var q1 := n / 64;
    var q2 := q1 / 64;
    var q3 := q2 / 64;
    assert n == 64 * q1 + n % 64;
    assert q1 == 64 * q2 + q1 % 64;
    assert q2 == 64 * q3 + q2 % 64;
    var full := b + rest;
    assert full[..|b|] == b;
  }

  /** Decoding the UTF-8 encoding of a string gives the string back: `string([]byte(s)) == s`. */
  lemma {:induction false} DecodeEncode(s: string)
    ensures BytesToString(Encode(s)) == s
    decreases |s|
  {
    if s != [] {
      var head := EncodeChar(s[0]);
      var rest := Encode(s[1..]);
      var b := head + rest;
      EncodeCharDecodes(s[0], rest);
      assert b[..|head|] == head && b[|head|..] == rest;
      DecodeEncode(s[1..]);
    }
  }

  /** A byte slice of ASCII bytes reads as one character per byte, with that byte's code. */
  lemma {:induction false} AsciiBytes(b: seq<Byte>)
    requires forall i :: 0 <= i < |b| ==> b[i] < 0x80
    ensures |BytesToString(b)| == |b|
    ensures forall i :: 0 <= i < |b| ==> BytesToString(b)[i] as int == b[i] as int
    decreases |b|
  {
    if b != [] {
      assert b[..1] == [b[0]];
      AsciiBytes(b[1..]);
    }
  }

  /** The two bytes C3 A9 read as "é", and a lone A9 as U+FFFD. */
  lemma BytesToStringExamples()
    ensures BytesToString([0xC3, 0xA9]) == "\U{E9}"
    ensures BytesToString([0xA9]) == [Replacement]
    ensures BytesToString([0xC3]) == [Replacement]
  {
    var b: seq<Byte> := [0xC3, 0xA9];
    assert b[2..] == [];
    assert b[..2] == b;
    var lone: seq<Byte> := [0xA9];
    assert lone[1..] == [];
    var cut: seq<Byte> := [0xC3];
    assert cut[1..] == [];
  }

  /** The value a record field holds after naturalizeMap: a `[]byte` becomes a string. */
  function Naturalize(v: Value): (r: Value)
    ensures !r.VBytes?
    ensures v.VBytes? ==> r == VString(BytesToString(v.b))
    ensures !v.VBytes? ==> r == v
  {
    match v
    case VBytes(b) => VString(BytesToString(b))
    case _ => v
  }

  /** A record with every field naturalized. */
  function Naturalized(fields: Record): (r: Record)
    ensures r.Keys == fields.Keys
    ensures forall k :: k in r ==> r[k] == Naturalize(fields[k])
  {
    map k | k in fields :: Naturalize(fields[k])
  }

  function NaturalizeAll(rows: seq<Record>): (r: seq<Record>)
    ensures |r| == |rows|
    ensures forall i :: 0 <= i < |rows| ==> r[i] == Naturalized(rows[i])
  {
    seq(|rows|, i requires 0 <= i < |rows| => Naturalized(rows[i]))
  }

  /** Naturalizing twice changes nothing more. */
  lemma NaturalizedIdempotent(fields: Record)
    ensures Naturalized(Naturalized(fields)) == Naturalized(fields)
  {
  }

  /**
    Decoding every record of a listing in order with a consumer's WithFields, stopping
    at the first record that fails to decode (the loops of Users.GetAll and
    Sessions.GetAll).
   */
  function DecodeAll<T>(rows: seq<Record>, decode: Record -> Result<T>): (r: Result<seq<T>>)
    decreases |rows|
    ensures r.Ok? ==> |r.value| == |rows| && forall i :: 0 <= i < |rows| ==> decode(rows[i]) == Ok(r.value[i])
    ensures r.Err? ==> exists i :: 0 <= i < |rows| && decode(rows[i]) == Err(r.error) &&
                                   forall j :: 0 <= j < i ==> decode(rows[j]).Ok?
  {
    if rows == [] then Ok([])
    else
      match DecodeAll(rows[..|rows| - 1], decode)
      case Err(e) => Err(e)
      case Ok(done) =>
        match decode(rows[|rows| - 1])
        case Err(e) => Err(e)
        case Ok(x) => Ok(done + [x])
  }

  /** Once a prefix of the rows fails to decode, the whole listing fails with that error. */
  lemma {:induction false} DecodeAllFailsEarly<T>(rows: seq<Record>, k: nat, decode: Record -> Result<T>)
    requires k <= |rows|
    requires DecodeAll(rows[..k], decode).Err?
    ensures DecodeAll(rows, decode) == DecodeAll(rows[..k], decode)
    decreases |rows| - k
  {
    if k < |rows| {
      var longer := rows[..k + 1];
      assert longer[..|longer| - 1] == rows[..k];
      DecodeAllFailsEarly(rows, k + 1, decode);
    } else {
      assert rows[..k] == rows;
    }
  }

  /**
    The loop of Users.GetAll and Sessions.GetAll: each record decoded in turn, the
    first failure returned at once.
   */
  method DecodeEach<T>(rows: seq<Record>, decode: Record -> Result<T>) returns (r: Result<seq<T>>)
    ensures r == DecodeAll(rows, decode)
  {
    var list: seq<T> := [];
    for i := 0 to |rows|
      invariant DecodeAll(rows[..i], decode) == Ok(list)
    {
      var nw := decode(rows[i]);
      DecodeAllStep(rows, i, decode);
      if nw.Err? {
        DecodeAllFailsEarly(rows, i + 1, decode);
        return Err(nw.error);
      }
      list := list + [nw.value];
    }
    assert rows[..|rows|] == rows;
    return Ok(list);
  }

  /** Decoding one more row extends a successful prefix. */
  lemma DecodeAllStep<T>(rows: seq<Record>, k: nat, decode: Record -> Result<T>)
    requires k < |rows|
    ensures var prefix := rows[..k + 1];
            prefix[..|prefix| - 1] == rows[..k] && prefix[|prefix| - 1] == rows[k]
  {
  }
}
