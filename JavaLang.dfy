/**
 * The few pieces of the Java platform the services lean on: 32-bit `int`
 * arithmetic and the `String` operations `trim`, `equalsIgnoreCase`,
 * `lastIndexOf`, `substring` and `contains`.
 */
module JavaLang {

  import opened Wrappers

  const IntMin: int := -0x8000_0000
  const IntMax: int := 0x7FFF_FFFF

  /** A Java `int`. */
  type Int32 = x: int | IntMin <= x <= IntMax

  /** Java `int` arithmetic: the exact value reduced into 32-bit two's complement. */
  function Wrap32(x: int): (r: Int32)
    ensures (r - x) % 0x1_0000_0000 == 0
    ensures IntMin <= x <= IntMax ==> r == x
  {
    var m := x % 0x1_0000_0000;
    if m <= IntMax then m else m - 0x1_0000_0000
  }

  /** Decrementing and then incrementing a Java `int` gives it back, wrap-around included. */
  lemma DecrementIncrement(n: Int32)
    ensures Wrap32(Wrap32(n - 1) + 1) == n
  {
    if n == IntMin {
      assert Wrap32(n - 1) == IntMax;
    }
  }

  // ---------------------------------------------------------------------------
  // Case mapping

  /**
   * `Character.toUpperCase` on the characters that can meet an ASCII letter:
   * the ASCII lower-case letters, LATIN SMALL LETTER LONG S and LATIN SMALL
   * LETTER DOTLESS I. Every other character is left as it is.
   */
  function UpperCase(c: char): char
  {
    if 'a' <= c <= 'z' then (c as int - 32) as char
    else if c == '\U{017F}' then 'S'
    else if c == '\U{0131}' then 'I'
    else c
  }

  /**
   * `Character.toLowerCase` on the characters that can meet an ASCII letter:
   * the ASCII upper-case letters, LATIN CAPITAL LETTER I WITH DOT ABOVE and
   * KELVIN SIGN.
   */
  function LowerCase(c: char): char
  {
    if 'A' <= c <= 'Z' then (c as int + 32) as char
    else if c == '\U{0130}' then 'i'
    else if c == '\U{212A}' then 'k'
    else c
  }

  /** The per-character test of `String.equalsIgnoreCase`. */
  predicate CharsMatchIgnoringCase(a: char, b: char)
  {
    a == b || UpperCase(a) == UpperCase(b) || LowerCase(UpperCase(a)) == LowerCase(UpperCase(b))
  }

  /** One character folded: upper-cased, then lower-cased. */
  function Fold(c: char): char
  {
    LowerCase(UpperCase(c))
  }

  /** Every character of `s` folded. */
  function FoldCase(s: string): (r: string)
    ensures |r| == |s| && forall i :: 0 <= i < |s| ==> r[i] == Fold(s[i])
  {
    seq(|s|, i requires 0 <= i < |s| => Fold(s[i]))
  }

  /**
   * `String.equalsIgnoreCase`: same length, and every pair of characters
   * matches ignoring case. Two strings match exactly when they fold to the
   * same string.
   */
  predicate EqualsIgnoreCase(s: string, t: string)
    ensures EqualsIgnoreCase(s, t) <==> FoldCase(s) == FoldCase(t)
  {
    assert |s| == |t| && FoldCase(s) == FoldCase(t) ==>
             forall i :: 0 <= i < |s| ==> FoldCase(s)[i] == FoldCase(t)[i];
    |s| == |t| && forall i :: 0 <= i < |s| ==> CharsMatchIgnoringCase(s[i], t[i])
  }

  /** Matching ignoring case is an equivalence: reflexive, symmetric and transitive. */
  lemma EqualsIgnoreCaseIsEquivalence(s: string, t: string, u: string)
    ensures EqualsIgnoreCase(s, s)
    ensures EqualsIgnoreCase(s, t) ==> EqualsIgnoreCase(t, s)
    ensures EqualsIgnoreCase(s, t) && EqualsIgnoreCase(t, u) ==> EqualsIgnoreCase(s, u)
  {
  }

  /** The characters that match an ASCII lower-case letter ignoring case. */
  function CaseVariants(c: char): (r: set<char>)
    requires 'a' <= c <= 'z'
    ensures forall x :: x in r <==> CharsMatchIgnoringCase(x, c)
  {
    var upper := (c as int - 32) as char;
    if c == 's' then {c, upper, '\U{017F}'}
    else if c == 'i' then {c, upper, '\U{0131}', '\U{0130}'}
    else if c == 'k' then {c, upper, '\U{212A}'}
    else {c, upper}
  }

  // ---------------------------------------------------------------------------
  // trim

  /** `String.trim` removes every character up to U+0020 at either end. */
  predicate IsTrimmed(c: char)
  {
    c <= ' '
  }

  function TrimStart(s: string): (r: string)
    ensures |r| <= |s| && r == s[|s| - |r|..]
    ensures r == [] || !IsTrimmed(r[0])
    ensures forall i :: 0 <= i < |s| - |r| ==> IsTrimmed(s[i])
  {
    if s != [] && IsTrimmed(s[0]) then TrimStart(s[1..]) else s
  }

  function TrimEnd(s: string): (r: string)
    ensures |r| <= |s| && r == s[..|r|]
    ensures r == [] || !IsTrimmed(r[|r| - 1])
    ensures forall i :: |r| <= i < |s| ==> IsTrimmed(s[i])
  {
    if s != [] && IsTrimmed(s[|s| - 1]) then TrimEnd(s[..|s| - 1]) else s
  }

  /**
   * `String.trim`: the result is a contiguous piece of `s`, everything cut off
   * is white space or a control character, and the result neither starts nor
   * ends with one.
   */
  function Trim(s: string): (r: string)
    ensures Contains(s, r)
    ensures r == [] || (!IsTrimmed(r[0]) && !IsTrimmed(r[|r| - 1]))
    ensures exists a, b :: 0 <= a <= b <= |s| && r == s[a..b]
                           && (forall i :: 0 <= i < a ==> IsTrimmed(s[i]))
                           && (forall i :: b <= i < |s| ==> IsTrimmed(s[i]))
  {
    var t := TrimStart(s);
    var r := TrimEnd(t);
    var a := |s| - |t|;
    assert OccursAt(r, s, a);
    assert r == s[a..a + |r|];
    assert forall i :: a + |r| <= i < |s| ==> s[i] == t[i - a];
    r
  }

  /**
   * `trim` removes as little as its rule allows: the piece kept is
   * determined by `s`, since any two cuts that satisfy the rule agree.
   */
  lemma TrimIsMaximal(s: string, a: int, b: int)
    requires 0 <= a <= b <= |s|
    requires b > a ==> !IsTrimmed(s[a]) && !IsTrimmed(s[b - 1])
    requires forall i :: 0 <= i < a ==> IsTrimmed(s[i])
    requires forall i :: b <= i < |s| ==> IsTrimmed(s[i])
    ensures Trim(s) == s[a..b]
  {
    var a', b' :| 0 <= a' <= b' <= |s| && Trim(s) == s[a'..b']
                  && (forall i :: 0 <= i < a' ==> IsTrimmed(s[i]))
                  && (forall i :: b' <= i < |s| ==> IsTrimmed(s[i]));
    var r := Trim(s);
    if b' > a' {
      assert r[0] == s[a'] && r[|r| - 1] == s[b' - 1];
    }
  }

  /** A string that neither starts nor ends with a trimmed character is its own trim. */
  lemma TrimOfTrimmed(r: string)
    requires r == [] || (!IsTrimmed(r[0]) && !IsTrimmed(r[|r| - 1]))
    ensures Trim(r) == r
  {
    assert TrimStart(r) == r;
    assert TrimEnd(r) == r;
  }

  /** Trimming twice is trimming once. */
  lemma TrimIdempotent(s: string)
    ensures Trim(Trim(s)) == Trim(s)
  {
    TrimOfTrimmed(Trim(s));
  }

  // ---------------------------------------------------------------------------
  // Character.isWhitespace and Spring's StringUtils.hasText

  /**
   * `Character.isWhitespace` on a Java 17 runtime: the Unicode space, line
   * and paragraph separators other than the no-break spaces (U+00A0, U+2007,
   * U+202F), and the controls U+0009 to U+000D and U+001C to U+001F.
   */
  predicate IsWhitespace(c: char)
  {
    ('\t' <= c <= '\r') || ('\U{1C}' <= c <= ' ') || c == '\U{1680}'
    || ('\U{2000}' <= c <= '\U{2006}') || ('\U{2008}' <= c <= '\U{200A}')
    || c == '\U{2028}' || c == '\U{2029}' || c == '\U{205F}' || c == '\U{3000}'
  }

  /** `StringUtils.hasText`: some character of `s` is not white space. */
  predicate HasText(s: string)
  {
    exists i :: 0 <= i < |s| && !IsWhitespace(s[i])
  }

  // ---------------------------------------------------------------------------
  // lastIndexOf, substring, contains

  /** `String.lastIndexOf`: the index of the last `c` in `s`, or -1 when `s` has none. */
  function LastIndexOf(s: string, c: char): (r: int)
    ensures -1 <= r < |s|
    ensures r >= 0 ==> s[r] == c
    ensures forall k :: r < k < |s| ==> s[k] != c
    ensures r == -1 <==> c !in s
  {
    if s == [] then -1
    else if s[|s| - 1] == c then |s| - 1
    else LastIndexOf(s[..|s| - 1], c)
  }

  /** `String.substring(begin)`: the suffix from `begin`, or `None` where Java throws StringIndexOutOfBoundsException. */
  function Substring(s: string, begin: int): (r: Option<string>)
    ensures r.Some? <==> 0 <= begin <= |s|
    ensures r.Some? ==> |r.value| == |s| - begin && s == s[..begin] + r.value
  {
    if 0 <= begin <= |s| then Some(s[begin..]) else None
  }

  /** `keyword` occurs in `s` starting at index `i`. */
  predicate OccursAt(keyword: string, s: string, i: int)
  {
    0 <= i <= |s| - |keyword| && s[i..i + |keyword|] == keyword
  }

  /** `String.contains`, and the SQL `LIKE %keyword%` of a derived `...Containing` query. */
  predicate Contains(s: string, keyword: string)
  {
    exists i | 0 <= i <= |s| - |keyword| :: OccursAt(keyword, s, i)
  }
}
