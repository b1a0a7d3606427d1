/**
  The pieces of Go's `strings` and `strconv` packages the SQL layer relies on:
  ASCII case folding, decimal integers, quoting, and joining.
 */
module Text {
  import opened Wrappers

  // ---------------------------------------------------------------------------
  // Case folding

  /**
    Lower-case for ASCII letters; every other character is left unchanged. This is
    the part of Go's strings.ToLower that decides a comparison with ASCII text, since
    no non-ASCII letter lower-cases into a, c, d, e or s.
   */
  function Lower(c: char): char {
    if 'A' <= c <= 'Z' then (c as int - 'A' as int + 'a' as int) as char else c
  }

  function ToLower(s: string): (r: string)
    ensures |r| == |s| && forall i :: 0 <= i < |s| ==> r[i] == Lower(s[i])
  {
    seq(|s|, i requires 0 <= i < |s| => Lower(s[i]))
  }

  /** `s` equals the lower-case text `t` up to the case of ASCII letters. */
  predicate EqualFold(s: string, t: string) {
    |s| == |t| && forall i :: 0 <= i < |s| ==> Lower(s[i]) == t[i]
  }

  lemma ToLowerEquals(s: string, t: string)
    ensures ToLower(s) == t <==> EqualFold(s, t)
  {
    if EqualFold(s, t) {
      assert ToLower(s) == t;
    }
  }

  // ---------------------------------------------------------------------------
  // Decimal integers: strconv.Itoa and its inverse

  function DigitChar(d: nat): (c: char)
    requires d < 10
    ensures '0' <= c <= '9'
  {
    ('0' as int + d) as char
  }

  predicate IsDigit(c: char) { '0' <= c <= '9' }

  function DigitValue(c: char): nat
    requires IsDigit(c)
  {
    c as int - '0' as int
  }

  /** The decimal digits of a natural number, most significant first. */
  function NatText(n: nat): (r: string)
    decreases n
    ensures |r| > 0 && forall i :: 0 <= i < |r| ==> IsDigit(r[i])
  {
    if n < 10 then [DigitChar(n)] else NatText(n / 10) + [DigitChar(n % 10)]
  }

  /** strconv.Itoa. */
  function Decimal(i: int): string {
    if i < 0 then "-" + NatText(-i) else NatText(i)
  }

  function ParseNat(s: string): (r: Option<nat>)
    decreases |s|
  {
    if s == [] || !IsDigit(s[|s| - 1]) then None
    else if |s| == 1 then Some(DigitValue(s[0]))
    else match ParseNat(s[..|s| - 1])
      case None => None
      case Some(m) => Some(m * 10 + DigitValue(s[|s| - 1]))
  }

  /** Reads back an optional leading minus sign followed by decimal digits. */
  function ParseDecimal(s: string): Option<int> {
    if |s| > 0 && s[0] == '-' then
      match ParseNat(s[1..])
      case None => None
      case Some(n) => Some(0 - n as int)
    else
      match ParseNat(s)
      case None => None
      case Some(n) => Some(n)
  }

  lemma {:induction false} ParseNatText(n: nat)
    ensures ParseNat(NatText(n)) == Some(n)
    decreases n
  {
    if n >= 10 {
      var s := NatText(n);
      ParseNatText(n / 10);
      assert s[..|s| - 1] == NatText(n / 10);
    }
  }

  /** The decimal text of an integer reads back as that integer. */
  lemma DecimalRoundTrip(i: int)
    ensures ParseDecimal(Decimal(i)) == Some(i)
  {
    var s := Decimal(i);
    if i < 0 {
      ParseNatText(-i);
      assert s[0] == '-' && s[1..] == NatText(-i);
    } else {
      ParseNatText(i);
      assert s == NatText(i) && IsDigit(s[0]);
    }
  }

  /** Distinct integers have distinct decimal texts. */
  lemma DecimalInjective(i: int, j: int)
    requires Decimal(i) == Decimal(j)
    ensures i == j
  {
    DecimalRoundTrip(i);
    DecimalRoundTrip(j);
  }

  // ---------------------------------------------------------------------------
  // strconv.Quote and strconv.QuoteRune

  /** The escaping of strconv.Quote for `"` and `\`; every other character is kept. */
  function Escape(s: string): string
    decreases |s|
  {
    if s == [] then []
    else (if s[0] == '"' || s[0] == '\\' then ['\\', s[0]] else [s[0]]) + Escape(s[1..])
  }

  /** strconv.Quote: the text between double quotes, escaped. */
  function Quote(s: string): (q: string)
    ensures |q| >= 2 && q[0] == '"' && q[|q| - 1] == '"'
  {
    "\"" + Escape(s) + "\""
  }

  /** The inverse of Escape: a backslash keeps the next character, a bare `"` is malformed. */
  function Unescape(s: string): Option<string>
    decreases |s|
  {
    if s == [] then Some([])
    else if s[0] == '\\' then
      if |s| < 2 then None
      else match Unescape(s[2..])
        case None => None
        case Some(t) => Some([s[1]] + t)
    else if s[0] == '"' then None
    else match Unescape(s[1..])
      case None => None
      case Some(t) => Some([s[0]] + t)
  }

  function Unquote(q: string): Option<string> {
    if |q| >= 2 && q[0] == '"' && q[|q| - 1] == '"' then Unescape(q[1..|q| - 1]) else None
  }

  lemma {:induction false} UnescapeEscape(s: string)
    ensures Unescape(Escape(s)) == Some(s)
    decreases |s|
  {
    if s != [] {
      var rest := Escape(s[1..]);
      UnescapeEscape(s[1..]);
      if s[0] == '"' || s[0] == '\\' {
        var e := ['\\', s[0]] + rest;
        assert e[0] == '\\' && e[1] == s[0] && e[2..] == rest;
        assert [s[0]] + s[1..] == s;
      } else {
        var e := [s[0]] + rest;
        assert e[0] == s[0] && e[1..] == rest;
        assert [s[0]] + s[1..] == s;
      }
    }
  }

  /** Quoted text reads back as the original string. */
  lemma UnquoteQuote(s: string)
    ensures Unquote(Quote(s)) == Some(s)
  {
    var q := Quote(s);
    assert q[1..|q| - 1] == Escape(s);
    UnescapeEscape(s);
  }

  /** Distinct strings have distinct quoted texts. */
  lemma QuoteInjective(s: string, t: string)
    requires Quote(s) == Quote(t)
    ensures s == t
  {
    UnquoteQuote(s);
    UnquoteQuote(t);
  }

  // ---------------------------------------------------------------------------
  // strconv.QuoteRune on the runes of bytes

  /** strconv.IsPrint on the codes 0 to 255: the printable ASCII characters and Latin-1 from U+00A1 on, except the soft hyphen U+00AD. */
  predicate IsPrintLatin1(n: int) {
    (0x20 <= n <= 0x7E) || (0xA1 <= n <= 0xFF && n != 0xAD)
  }

  /** The lower-case hex digit of 0 to 15, as strconv writes it. */
  function HexDigit(n: int): (c: char)
    requires 0 <= n < 16
    ensures IsHexDigit(c) && HexValue(c) == n
  {
    if n < 10 then ('0' as int + n) as char else ('a' as int + n - 10) as char
  }

  predicate IsHexDigit(c: char) {
    ('0' <= c <= '9') || ('a' <= c <= 'f') || ('A' <= c <= 'F')
  }

  function HexValue(c: char): (n: int)
    requires IsHexDigit(c)
    ensures 0 <= n < 16
  {
    if '0' <= c <= '9' then c as int - '0' as int
    else if 'a' <= c <= 'f' then c as int - 'a' as int + 10
    else c as int - 'A' as int + 10
  }

  /**
    The escape strconv writes between the quotes for a rune of code 0 to 255: `\'`
    and `\\` for the quote and the backslash, the rune itself when printable, the
    seven C escapes, `\xHH` for the other controls and DEL, and `\u00HH` for the
    other Latin-1 codes.
   */
  function EscapeRune(r: char): string
    requires r as int < 256
  {
    var n := r as int;
    if r == '\'' || r == '\\' then ['\\', r]
    else if IsPrintLatin1(n) then [r]
    else if n == 7 then "\\a"
    else if n == 8 then "\\b"
    else if n == 12 then "\\f"
    else if n == 10 then "\\n"
    else if n == 13 then "\\r"
    else if n == 9 then "\\t"
    else if n == 11 then "\\v"
    else if n < 0x20 || n == 0x7F then ['\\', 'x', HexDigit(n / 16), HexDigit(n % 16)]
    else ['\\', 'u', '0', '0', HexDigit(n / 16), HexDigit(n % 16)]
  }

  /** strconv.QuoteRune for a rune of code 0 to 255 (the runes of bytes): its escape between single quotes. */
  function QuoteRune(r: char): (q: string)
    requires r as int < 256
    ensures |q| >= 3 && q[0] == '\'' && q[|q| - 1] == '\''
  {
    "'" + EscapeRune(r) + "'"
  }

  /** The rune an escape written by EscapeRune stands for, as strconv.UnquoteChar reads it. */
  function UnescapeRune(e: string): Option<char> {
    if |e| == 1 then (if e[0] != '\\' && e[0] != '\'' then Some(e[0]) else None)
    else if |e| < 2 || e[0] != '\\' then None
    else if |e| == 2 then
      match e[1]
      case '\'' => Some('\'')
      case '\\' => Some('\\')
      case 'a' => Some(7 as char)
      case 'b' => Some(8 as char)
      case 'f' => Some(12 as char)
      case 'n' => Some(10 as char)
      case 'r' => Some(13 as char)
      case 't' => Some(9 as char)
      case 'v' => Some(11 as char)
      case _ => None
    else if |e| == 4 && e[1] == 'x' && IsHexDigit(e[2]) && IsHexDigit(e[3]) then
      Some((HexValue(e[2]) * 16 + HexValue(e[3])) as char)
    else if |e| == 6 && e[1] == 'u' && IsHexDigit(e[2]) && IsHexDigit(e[3]) && IsHexDigit(e[4]) && IsHexDigit(e[5]) then
      var n := ((HexValue(e[2]) * 16 + HexValue(e[3])) * 16 + HexValue(e[4])) * 16 + HexValue(e[5]);
      if 0xD800 <= n < 0xE000 then None else Some(n as char)
    else None
  }

  /** strconv.UnquoteChar on a whole rune literal: the rune between single quotes. */
  function UnquoteRune(q: string): Option<char> {
    if |q| < 3 || q[0] != '\'' || q[|q| - 1] != '\'' then None
    else UnescapeRune(q[1..|q| - 1])
  }

  /** A quoted rune reads back as the rune. */
  lemma UnquoteQuoteRune(r: char)
    requires r as int < 256
    ensures UnquoteRune(QuoteRune(r)) == Some(r)
  {
    var q := QuoteRune(r);
    assert q[1..|q| - 1] == EscapeRune(r);
    var n := r as int;
    assert n == (n / 16) * 16 + n % 16;
  }

  /** Distinct runes have distinct quoted texts. */
  lemma QuoteRuneInjective(r: char, t: char)
    requires r as int < 256 && t as int < 256
    requires QuoteRune(r) == QuoteRune(t)
    ensures r == t
  {
    UnquoteQuoteRune(r);
    UnquoteQuoteRune(t);
  }

  /** A newline, a NUL and a no-break space are escaped; a letter and a quote are written as strconv writes them. */
  lemma QuoteRuneExamples()
    ensures QuoteRune(10 as char) == "'\\n'"
    ensures QuoteRune(0 as char) == "'\\x00'"
    ensures QuoteRune(0xA0 as char) == "'\\u00a0'"
    ensures QuoteRune('A') == "'A'" && QuoteRune('\'') == "'\\''"
  {
  }

  // ---------------------------------------------------------------------------
  // strings.Join and counting

  /** strings.Join. */
  function Join(parts: seq<string>, sep: string): string
    decreases |parts|
  {
    if |parts| == 0 then ""
    else if |parts| == 1 then parts[0]
    else parts[0] + sep + Join(parts[1..], sep)
  }

  /** The number of occurrences of `c` in `s`. */
  function CountChar(s: string, c: char): nat
    decreases |s|
  {
    if s == [] then 0 else (if s[0] == c then 1 else 0) + CountChar(s[1..], c)
  }

  lemma {:induction false} CountCharAppend(a: string, b: string, c: char)
    ensures CountChar(a + b, c) == CountChar(a, c) + CountChar(b, c)
    decreases |a|
  {
    if a != [] {
      assert (a + b)[1..] == a[1..] + b;
      CountCharAppend(a[1..], b, c);
    } else {
      assert a + b == b;
    }
  }
}
