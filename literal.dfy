/** printLiteral: the SQL literal text of a field value (db/sql/sql.go). */
module Literal {
  import opened Wrappers
  import opened Values
  import opened Text

  /**
    The text `time.Time.String()` gives. Go's layout is not modelled: this stand-in
    writes the instant in decimal, which keeps distinct instants distinct.
   */
  function TimeText(t: Time): string {
    Decimal(t.instant)
  }

  /**
    printLiteral. An int gives its decimal text; a string is quoted; a byte slice is
    quoted as the string `string(b)` gives; a time is its quoted String(); a byte is
    the rune literal strconv.QuoteRune writes. Every other dynamic type, nil included, is refused with "Not basic type".
   */
  function PrintLiteral(v: Value): Result<string> {
    match v
    case VInt(i) => Ok(Decimal(i))
    case VString(s) => Ok(Quote(s))
    case VBytes(b) => Ok(Quote(BytesToString(b)))
    case VTime(t) => Ok(Quote(TimeText(t)))
    case VByte(c) => Ok(QuoteRune((c as int) as char))
    case VNil => Err(NotBasicType)
    case VOther => Err(NotBasicType)
  }

  predicate HasLiteral(v: Value) {
    PrintLiteral(v).Ok?
  }

  /** The literal text of a value that has one, and "" otherwise. */
  function LiteralText(v: Value): string {
    match PrintLiteral(v)
    case Ok(text) => text
    case Err(_) => ""
  }

  /** Exactly nil and the unsupported dynamic types have no literal, and they fail with "Not basic type". */
  lemma LiteralDefined(v: Value)
    ensures PrintLiteral(v).Ok? <==> !(v.VNil? || v.VOther?)
    ensures PrintLiteral(v).Err? ==> PrintLiteral(v).error == NotBasicType
  {
  }

  /** An int literal is decimal text that reads back as the int. */
  lemma IntLiteral(i: int)
    ensures PrintLiteral(VInt(i)).Ok?
    ensures ParseDecimal(PrintLiteral(VInt(i)).value) == Some(i)
  {
    DecimalRoundTrip(i);
  }

  /**
    A string literal unquotes to the string, and the UTF-8 bytes of a string,
    `[]byte(s)`, have the same literal as the string.
   */
  lemma StringLiteral(s: string)
    ensures PrintLiteral(VString(s)).Ok? && Unquote(PrintLiteral(VString(s)).value) == Some(s)
    ensures PrintLiteral(VBytes(Encode(s))) == PrintLiteral(VString(s))
  {
    UnquoteQuote(s);
    DecodeEncode(s);
  }

  /** A byte's literal reads back as the rune of that byte; a time's literal unquotes to its String(). */
  lemma ByteAndTimeLiterals(c: Byte, t: Time)
    ensures PrintLiteral(VByte(c)).Ok? && UnquoteRune(PrintLiteral(VByte(c)).value) == Some((c as int) as char)
    ensures PrintLiteral(VTime(t)).Ok? && Unquote(PrintLiteral(VTime(t)).value) == Some(TimeText(t))
  {
    UnquoteQuoteRune((c as int) as char);
    UnquoteQuote(TimeText(t));
  }

  /** Two bytes whose literals coincide are equal. */
  lemma ByteLiteralInjective(c: Byte, d: Byte)
    requires PrintLiteral(VByte(c)) == PrintLiteral(VByte(d))
    ensures c == d
  {
    QuoteRuneInjective((c as int) as char, (d as int) as char);
  }

  /**
    The first character of a literal tells its kind: a digit or `-` for an int, `'` for
    a byte, `"` for the quoted kinds. So literals of an int, a byte and a quoted value
    never coincide.
   */
  lemma LiteralShape(v: Value)
    requires HasLiteral(v)
    ensures var text := LiteralText(v);
            |text| > 0 &&
            (v.VInt? ==> (IsDigit(text[0]) || text[0] == '-')) &&
            (v.VByte? ==> text[0] == '\'') &&
            ((v.VString? || v.VBytes? || v.VTime?) ==> text[0] == '"')
  {
  }

  /** Two strings whose literals coincide are equal. */
  lemma StringLiteralInjective(s: string, t: string)
    requires PrintLiteral(VString(s)) == PrintLiteral(VString(t))
    ensures s == t
  {
    QuoteInjective(s, t);
  }

  /** Two ints whose literals coincide are equal. */
  lemma IntLiteralInjective(i: int, j: int)
    requires PrintLiteral(VInt(i)) == PrintLiteral(VInt(j))
    ensures i == j
  {
    DecimalInjective(i, j);
  }

  /** naturalizeMap does not change the literal of any value. */
  lemma NaturalizeKeepsLiteral(v: Value)
    ensures PrintLiteral(Naturalize(v)) == PrintLiteral(v)
  {
  }
}
