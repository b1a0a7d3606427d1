/**
  ParseAuthorization of utils/utils.go: an Authorization header value split at its
  first space into a scheme and a token, each trimmed of surrounding white space.
  Strings are sequences of Unicode characters, as Go's TrimSpace decodes them.
 */
module Utils {
  import opened Wrappers

  /** unicode.IsSpace: the Latin-1 spaces, and the other characters of the Unicode White_Space property. */
  predicate IsSpace(c: char) {
    c == '\t' || c == '\n' || c == '\U{000B}' || c == '\U{000C}' || c == '\r' || c == ' ' ||
    c == '\U{0085}' || c == '\U{00A0}' || c == '\U{1680}' || ('\U{2000}' <= c <= '\U{200A}') ||
    c == '\U{2028}' || c == '\U{2029}' || c == '\U{202F}' || c == '\U{205F}' || c == '\U{3000}'
  }

  /** A string with no white space at either end. */
  predicate Trimmed(s: string) {
    s == [] || (!IsSpace(s[0]) && !IsSpace(s[|s| - 1]))
  }

  /** The position of the first `c` in `s`, or |s| when there is none. */
  function FirstIndex(s: string, c: char): (i: nat)
    ensures i <= |s|
    ensures i < |s| ==> s[i] == c
    ensures forall j :: 0 <= j < i ==> s[j] != c
    ensures i == |s| <==> c !in s
  {
    if s == [] then 0
    else if s[0] == c then 0
    else 1 + FirstIndex(s[1..], c)
  }

  /** strings.TrimLeftFunc(s, unicode.IsSpace): `s` without its leading white space. */
  function TrimLeft(s: string): (r: string)
    ensures |r| <= |s| && r == s[|s| - |r|..]
    ensures r == [] || !IsSpace(r[0])
    ensures forall i :: 0 <= i < |s| - |r| ==> IsSpace(s[i])
  {
    if s != [] && IsSpace(s[0]) then TrimLeft(s[1..]) else s
  }

  /** strings.TrimRightFunc(s, unicode.IsSpace): `s` without its trailing white space. */
  function TrimRight(s: string): (r: string)
    ensures |r| <= |s| && r == s[..|r|]
    ensures r == [] || !IsSpace(r[|r| - 1])
    ensures forall i :: |r| <= i < |s| ==> IsSpace(s[i])
  {
    if s != [] && IsSpace(s[|s| - 1]) then TrimRight(s[..|s| - 1]) else s
  }

  /** strings.TrimSpace: `s` without its leading and trailing white space. */
  function TrimSpace(s: string): (r: string)
    ensures Trimmed(r)
    ensures exists i, j :: 0 <= i <= j <= |s| && r == s[i..j] &&
                           (forall k :: 0 <= k < i ==> IsSpace(s[k])) &&
                           (forall k :: j <= k < |s| ==> IsSpace(s[k]))
  {
    var left := TrimLeft(s);
    var r := TrimRight(left);
    var i := |s| - |left|;
    assert r == s[i..i + |r|];
    r
  }

  /** strings.SplitN(s, " ", 2): `s` alone when it holds no space, and otherwise the text before and after its first space. */
  function SplitFirstSpace(s: string): (parts: seq<string>)
    ensures |parts| == 1 <==> ' ' !in s
    ensures |parts| == 1 || |parts| == 2
    ensures |parts| == 1 ==> parts[0] == s
    ensures |parts| == 2 ==> s == parts[0] + " " + parts[1] && ' ' !in parts[0]
  {
    var i := FirstIndex(s, ' ');
    if i == |s| then [s]
    else
      assert s == s[..i] + " " + s[i + 1..];
      [s[..i], s[i + 1..]]
  }

  /** What ParseAuthorization returns: the scheme, the token and the error. */
  datatype Parsed = Parsed(authType: string, token: string, err: Outcome)

  function ParseAuthorization(val: string): Parsed {
    var authSplit := SplitFirstSpace(val);
    if |authSplit| != 2 then Parsed("", "", Fail(InvalidAuthorization))
    else Parsed(TrimSpace(authSplit[0]), TrimSpace(authSplit[1]), Pass)
  }

  // ---------------------------------------------------------------------------
  // Properties

  /** ParseAuthorization fails exactly when the value holds no space, the empty value included, and then gives an empty scheme and token. */
  lemma ParseNeedsSpace(val: string)
    ensures ParseAuthorization(val).err.Fail? <==> ' ' !in val
    ensures ' ' !in val ==> ParseAuthorization(val) == Parsed("", "", Fail(InvalidAuthorization))
  {
  }

  /** The first `c` of `a + [c] + b` is the one after `a` when `a` holds none. */
  lemma FirstIndexAfter(a: string, c: char, b: string)
    requires c !in a
    ensures FirstIndex(a + [c] + b, c) == |a|
  {
    assert (a + [c] + b)[|a|] == c;
  }

  /** The value is split at its first space only: any later space stays inside the token. */
  lemma SplitAtFirstSpace(a: string, b: string)
    requires ' ' !in a
    ensures ParseAuthorization(a + " " + b) == Parsed(TrimSpace(a), TrimSpace(b), Pass)
  {
    var s := a + " " + b;
    FirstIndexAfter(a, ' ', b);
    assert s[..|a|] == a && s[|a| + 1..] == b;
  }

  /** On success the scheme holds no space at all, and neither part starts or ends with white space. */
  lemma ParsedParts(val: string)
    requires ParseAuthorization(val).err.Pass?
    ensures var p := ParseAuthorization(val);
            ' ' !in p.authType && Trimmed(p.authType) && Trimmed(p.token)
  {
    var parts := SplitFirstSpace(val);
    var p := ParseAuthorization(val);
    var i, j :| 0 <= i <= j <= |parts[0]| && p.authType == parts[0][i..j];
  }

  /** Trimming a string with no white space at either end leaves it as it is. */
  lemma TrimSpaceTrimmed(s: string)
    requires Trimmed(s)
    ensures TrimSpace(s) == s
  {
    assert TrimLeft(s) == s;
    assert TrimRight(s) == s;
  }

  /** Trimming twice is trimming once. */
  lemma TrimSpaceIdempotent(s: string)
    ensures TrimSpace(TrimSpace(s)) == TrimSpace(s)
  {
    TrimSpaceTrimmed(TrimSpace(s));
  }

  /** A scheme with no space and a token, neither with white space at its ends, joined by one space parse back into themselves. */
  lemma ParseRoundTrip(scheme: string, token: string)
    requires ' ' !in scheme && Trimmed(scheme) && Trimmed(token)
    ensures ParseAuthorization(scheme + " " + token) == Parsed(scheme, token, Pass)
  {
    SplitAtFirstSpace(scheme, token);
    TrimSpaceTrimmed(scheme);
    TrimSpaceTrimmed(token);
  }

  /** White space in front of a string is trimmed away. */
  lemma TrimSpaceLeading(c: char, s: string)
    requires IsSpace(c)
    ensures TrimSpace([c] + s) == TrimSpace(s)
  {
    assert ([c] + s)[1..] == s;
  }

  /** Extra spaces between the scheme and the token are trimmed off the token. */
  lemma ParseExtraSpace(scheme: string, token: string)
    requires ' ' !in scheme && Trimmed(scheme) && Trimmed(token)
    ensures ParseAuthorization(scheme + "  " + token) == Parsed(scheme, token, Pass)
  {
    assert scheme + "  " + token == scheme + " " + ([' '] + token);
    SplitAtFirstSpace(scheme, [' '] + token);
    TrimSpaceTrimmed(scheme);
    TrimSpaceLeading(' ', token);
    TrimSpaceTrimmed(token);
  }

  /** "Bearer  abc", with two spaces, parses as the scheme "Bearer" and the token "abc". */
  lemma ParseDoubleSpace()
    ensures ParseAuthorization("Bearer  abc") == Parsed("Bearer", "abc", Pass)
  {
    assert "Bearer  abc" == "Bearer" + "  " + "abc";
    ParseExtraSpace("Bearer", "abc");
  }
}
