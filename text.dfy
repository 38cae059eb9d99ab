/**
 * The string operations the client relies on: ECMAScript's `String.prototype.trim`
 * and the "blank" test `!s.trim()` built on it.
 */
module Text {

  /**
   * The ECMAScript WhiteSpace and LineTerminator code points, the set that
   * `trim` strips: TAB, LF, VT, FF, CR, SPACE, NO-BREAK SPACE, the byte-order
   * mark, the line and paragraph separators and the other space separators (Zs).
   */
  predicate IsWhitespace(c: char) {
    var n := c as int;
    (9 <= n <= 13) || n == 0x20 || n == 0xA0 || n == 0x1680 ||
    (0x2000 <= n <= 0x200A) || n == 0x2028 || n == 0x2029 ||
    n == 0x202F || n == 0x205F || n == 0x3000 || n == 0xFEFF
  }

  /** Every character of `s` is whitespace (so is the empty string). */
  predicate IsBlank(s: string) {
    forall i :: 0 <= i < |s| ==> IsWhitespace(s[i])
  }

  /** The number of whitespace characters `s` starts with. */
  function LeadingCount(s: string): (k: nat)
    ensures k <= |s| && IsBlank(s[..k])
    ensures k == |s| || !IsWhitespace(s[k])
  {
    if s != [] && IsWhitespace(s[0]) then
      var k := 1 + LeadingCount(s[1..]);
      LeadingStep(s, k);
      k
    else 0
  }

  /** One more whitespace character in front extends the blank prefix. */
  lemma LeadingStep(s: string, k: nat)
    requires s != [] && IsWhitespace(s[0]) && 1 <= k <= |s|
    requires IsBlank(s[1..][..k - 1])
    requires k - 1 == |s| - 1 || !IsWhitespace(s[1..][k - 1])
    ensures IsBlank(s[..k])
    ensures k == |s| || !IsWhitespace(s[k])
  {
    assert s[..k] == [s[0]] + s[1..][..k - 1];
    BlankConcat([s[0]], s[1..][..k - 1]);
  }

  /** The number of whitespace characters `s` ends with. */
  function TrailingCount(s: string): (k: nat)
    ensures k <= |s| && IsBlank(s[|s| - k..])
    ensures k == |s| || !IsWhitespace(s[|s| - k - 1])
  {
    if s != [] && IsWhitespace(s[|s| - 1]) then
      var k := 1 + TrailingCount(s[..|s| - 1]);
      TrailingStep(s, k);
      k
    else 0
  }

  /** One more whitespace character at the end extends the blank suffix. */
  lemma TrailingStep(s: string, k: nat)
    requires s != [] && IsWhitespace(s[|s| - 1]) && 1 <= k <= |s|
    requires IsBlank(s[..|s| - 1][|s| - k..])
    requires k - 1 == |s| - 1 || !IsWhitespace(s[..|s| - 1][|s| - k - 1])
    ensures IsBlank(s[|s| - k..])
    ensures k == |s| || !IsWhitespace(s[|s| - k - 1])
  {
    assert s[|s| - k..] == s[..|s| - 1][|s| - k..] + [s[|s| - 1]];
    BlankConcat(s[..|s| - 1][|s| - k..], [s[|s| - 1]]);
  }

  /**
   * `s.trim()`: `s` without its leading and trailing whitespace; it neither
   * starts nor ends with whitespace, and it is empty exactly when `s` is blank.
   */
  function Trim(s: string): (r: string)
    ensures |r| <= |s|
    ensures r == [] || (!IsWhitespace(r[0]) && !IsWhitespace(r[|r| - 1]))
    ensures r == [] <==> IsBlank(s)
  {
    var t := s[LeadingCount(s)..];
    var r := t[..|t| - TrailingCount(t)];
    TrimmedBlank(s, t, r);
    r
  }

  /** `trim()` is a slice of its input with only blanks before and after it. */
  lemma TrimInfix(s: string)
    ensures exists a, b :: 0 <= a <= b <= |s| && Trim(s) == s[a..b] && IsBlank(s[..a]) && IsBlank(s[b..])
  {
    var a := LeadingCount(s);
    var t := s[a..];
    var n := TrailingCount(t);
    var b := a + |t| - n;
    assert Trim(s) == t[..|t| - n] == s[a..b];
    assert s[b..] == t[|t| - n..];
  }

  lemma BlankConcat(a: string, b: string)
    ensures IsBlank(a + b) <==> IsBlank(a) && IsBlank(b)
  {
    if IsBlank(a) && IsBlank(b) {
      forall i | 0 <= i < |a + b| ensures IsWhitespace((a + b)[i]) {
        if i < |a| { assert (a + b)[i] == a[i]; } else { assert (a + b)[i] == b[i - |a|]; }
      }
    }
    if IsBlank(a + b) {
      forall i | 0 <= i < |a| ensures IsWhitespace(a[i]) { assert (a + b)[i] == a[i]; }
      forall i | 0 <= i < |b| ensures IsWhitespace(b[i]) { assert (a + b)[|a| + i] == b[i]; }
    }
  }

  /** Dropping a blank prefix does not change whether a string is blank. */
  lemma BlankPrefixed(s: string, k: int)
    requires 0 <= k <= |s| && IsBlank(s[..k])
    ensures IsBlank(s) <==> IsBlank(s[k..])
  {
    assert s == s[..k] + s[k..];
    BlankConcat(s[..k], s[k..]);
  }

  /** Dropping a blank suffix does not change whether a string is blank. */
  lemma BlankSuffixed(s: string, k: int)
    requires 0 <= k <= |s| && IsBlank(s[k..])
    ensures IsBlank(s) <==> IsBlank(s[..k])
  {
    assert s == s[..k] + s[k..];
    BlankConcat(s[..k], s[k..]);
  }

  /**
   * Removing a blank prefix that ends before a non-whitespace character, and
   * then a blank suffix that starts after one, leaves a string that neither
   * starts nor ends with whitespace, and that is empty exactly when the input
   * was blank.
   */
  lemma TrimmedBlank(s: string, t: string, r: string)
    requires |t| <= |s| && t == s[|s| - |t|..] && IsBlank(s[..|s| - |t|])
    requires t == [] || !IsWhitespace(t[0])
    requires |r| <= |t| && r == t[..|r|] && IsBlank(t[|r|..])
    requires r == [] || !IsWhitespace(t[|r| - 1])
    ensures r == [] || (!IsWhitespace(r[0]) && !IsWhitespace(r[|r| - 1]))
    ensures r == [] <==> IsBlank(s)
  {
    BlankPrefixed(s, |s| - |t|);
    BlankSuffixed(t, |r|);
    if r != [] {
      assert r[0] == t[0];
      assert r[|r| - 1] == t[|r| - 1];
    }
  }
}
