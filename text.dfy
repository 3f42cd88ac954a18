/** Character classes and substring occurrence, shared by the masking filter and the config codec. */
module Text {

  /** An ASCII decimal digit. */
  predicate IsDigit(c: char) { '0' <= c <= '9' }

  /** The digit character for d. */
  function DigitChar(d: nat): (c: char)
    requires d < 10
    ensures IsDigit(c)
  {
    (48 + d) as char
  }

  /** The value of a digit character. */
  function DigitValue(c: char): (d: nat)
    requires IsDigit(c)
    ensures d < 10 && DigitChar(d) == c
  {
    c as int - 48
  }

  /** Every character of s is a digit. */
  predicate AllDigits(s: string) {
    forall i | 0 <= i < |s| :: IsDigit(s[i])
  }

  /** The number a numeral denotes. */
  function NumeralValue(ds: string): nat
    requires AllDigits(ds)
  {
    if ds == [] then 0 else NumeralValue(ds[..|ds| - 1]) * 10 + DigitValue(ds[|ds| - 1])
  }

  /** `t` occurs in `s` starting at index `p`. */
  predicate OccursAt(s: string, t: string, p: nat) {
    p + |t| <= |s| && s[p..p + |t|] == t
  }

  /** `t` is a substring of `s`. */
  predicate Contains(s: string, t: string) {
    exists p: nat | p <= |s| :: OccursAt(s, t, p)
  }

  /** An occurrence survives putting text in front. */
  lemma ContainsAfterPrefix(pre: string, s: string, t: string)
    requires Contains(s, t)
    ensures Contains(pre + s, t)
  {
    var p: nat :| p <= |s| && OccursAt(s, t, p);
    assert (pre + s)[|pre| + p..|pre| + p + |t|] == s[p..p + |t|];
    assert OccursAt(pre + s, t, |pre| + p);
  }

  /** A substring of a substring is a substring. */
  lemma ContainsTransitive(s: string, u: string, t: string)
    requires Contains(s, u) && Contains(u, t)
    ensures Contains(s, t)
  {
    var p: nat :| p <= |s| && OccursAt(s, u, p);
    var q: nat :| q <= |u| && OccursAt(u, t, q);
    assert u == s[p..p + |u|];
    forall k | 0 <= k < |t|
      ensures s[p + q..p + q + |t|][k] == t[k]
    {
      assert t[k] == u[q + k] == s[p + q + k];
    }
    assert OccursAt(s, t, p + q);
  }

  /** Concatenation is associative. */
  lemma ConcatAssociates(a: string, b: string, c: string)
    ensures a + (b + c) == a + b + c
  {
  }

  /** Slicing a concatenation at the seam gives back its parts. */
  lemma ConcatSplit(a: string, b: string)
    ensures (a + b)[..|a|] == a && (a + b)[|a|..] == b
  {
  }
}
