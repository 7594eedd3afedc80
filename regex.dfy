/**
 * The part of Python's `re` module the server's URL code relies on: an
 * anchored `match` that reports where the match ends and which named groups
 * it bound, and the character classes the fixed patterns are built from
 * (`\w`, `\d`, `[^/]`), each consumed greedily.
 */
module RegexParts {
  import opened Wrappers
  import JavaMath

  /** What a successful `match` yields: the index just past the match and `groupdict()`. */
  datatype MatchObject = MatchObject(end: nat, groups: map<string, string>)

  /** A compiled pattern's `match`: tried at the start of its argument only. */
  type Matcher = string -> Option<MatchObject>

  /** `\w` without the UNICODE flag: an ASCII letter, an ASCII digit or '_'. */
  predicate IsWordChar(c: char)
  {
    'a' <= c <= 'z' || 'A' <= c <= 'Z' || JavaMath.IsDigit(c) || c == '_'
  }

  /** `[^/]`. */
  predicate NotSlash(c: char) { c != '/' }

  predicate AllWord(s: string) { forall i :: 0 <= i < |s| ==> IsWordChar(s[i]) }

  /**
   * How many characters from i on are in the class: what a greedy `[...]*`
   * consumes at i. Everything it takes is in the class, and the character
   * after it (if any) is not.
   */
  function Span(cls: char -> bool, s: string, i: nat): (n: nat)
    requires i <= |s|
    ensures i + n <= |s|
    ensures forall k :: i <= k < i + n ==> cls(s[k])
    ensures i + n == |s| || !cls(s[i + n])
    decreases |s| - i
  {
    if i < |s| && cls(s[i]) then 1 + Span(cls, s, i + 1) else 0
  }

  /** A run of class characters ended by the end of the string or by a character outside the class is the whole span. */
  lemma {:induction false} SpanIs(cls: char -> bool, s: string, i: nat, n: nat)
    requires i + n <= |s|
    requires forall k :: i <= k < i + n ==> cls(s[k])
    requires i + n == |s| || !cls(s[i + n])
    ensures Span(cls, s, i) == n
    decreases n
  {
    if n > 0 {
      SpanIs(cls, s, i + 1, n - 1);
    }
  }

  /** The span of `a + b` at |a| is the span of b at 0: what comes before i does not matter. */
  lemma {:induction false} SpanAfter(cls: char -> bool, a: string, b: string, i: nat)
    requires i <= |b|
    ensures Span(cls, a + b, |a| + i) == Span(cls, b, i)
    decreases |b| - i
  {
    if i < |b| {
      assert (a + b)[|a| + i] == b[i];
      SpanAfter(cls, a, b, i + 1);
    }
  }

  /** Python's `$`: the end of the string, or the position of a final newline. */
  predicate AtEnd(s: string, i: nat)
  {
    i == |s| || (i + 1 == |s| && s[i] == '\n')
  }

  /** `/?` at i: one slash when there is one. */
  function OptSlash(s: string, i: nat): (n: nat)
    ensures n <= 1
    ensures n == 1 <==> i < |s| && s[i] == '/'
  {
    if i < |s| && s[i] == '/' then 1 else 0
  }

  /** A pattern without metacharacters: it matches exactly the strings it begins, and binds nothing. */
  function Literal(p: string): Matcher
  {
    s => if p <= s then Some(MatchObject(|p|, map[])) else None
  }

  /** A literal pattern's match ends where the pattern does. */
  lemma LiteralMatches(p: string, s: string)
    ensures Literal(p)(s).Some? <==> |p| <= |s| && s[..|p|] == p
    ensures Literal(p)(s).Some? ==> Literal(p)(s).value == MatchObject(|p|, map[])
  {
  }

  /** A `\w+` match. */
  predicate Word(s: string) { s != [] && AllWord(s) }

  /** `\w+` at the start: the length of the word, 0 when there is none. */
  function WordLength(s: string): (n: nat)
    ensures n <= |s|
    ensures forall k :: 0 <= k < n ==> IsWordChar(s[k])
    ensures n == |s| || !IsWordChar(s[n])
  {
    Span(IsWordChar, s, 0)
  }

  /** `\d+` at the start: the number of digits, 0 when there are none. */
  function DigitLength(s: string): (n: nat)
    ensures n <= |s|
    ensures forall k :: 0 <= k < n ==> JavaMath.IsDigit(s[k])
    ensures n == |s| || !JavaMath.IsDigit(s[n])
  {
    Span(JavaMath.IsDigit, s, 0)
  }

  /** A word, then something that does not continue it. */
  lemma WordPrefix(w: string, x: string)
    requires AllWord(w) && (x == [] || !IsWordChar(x[0]))
    ensures WordLength(w + x) == |w| && (w + x)[..|w|] == w && (w + x)[|w|..] == x
  {
    SpanIs(IsWordChar, w + x, 0, |w|);
  }

  /** Digits, then something that is not a digit. */
  lemma DigitPrefix(d: string, x: string)
    requires JavaMath.AllDigits(d) && (x == [] || !JavaMath.IsDigit(x[0]))
    ensures DigitLength(d + x) == |d| && (d + x)[..|d|] == d && (d + x)[|d|..] == x
  {
    SpanIs(JavaMath.IsDigit, d + x, 0, |d|);
  }
}
