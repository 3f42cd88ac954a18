/**
 * The log-line masking filter (`mask_sensitive_info`). It makes two regex rewrite passes,
 * first over paths below the user's home directory, then over dotted quads. Each pass is a
 * leftmost-first, non-overlapping `replace_all` with greedy quantifiers; here each one is a
 * match function (the length of the match starting at a position, 0 for none) and a scanner
 * that copies characters until a match starts, emits the replacement and resumes after it.
 */
module Masking {
  import opened Wrappers
  import opened Text

  // ---------------------------------------------------------------------------
  // Character classes
  // ---------------------------------------------------------------------------

  /** The class `[/\\]` of the home-path pattern. */
  predicate IsSeparator(c: char) { c == '/' || c == '\\' }

  /** A word character for `\b` (ASCII letters, digits and underscore). */
  predicate IsWordChar(c: char) {
    IsDigit(c) || ('a' <= c <= 'z') || ('A' <= c <= 'Z') || c == '_'
  }

  /** The characters that `regex::escape` prefixes with a backslash. */
  predicate IsRegexMeta(c: char) {
    c in "\\.+*?()|[]{}^$#&-~"
  }

  // ---------------------------------------------------------------------------
  // regex::escape
  // ---------------------------------------------------------------------------

  /** `regex::escape`: a backslash in front of every metacharacter. */
  function EscapeRegex(s: string): string
  {
    if s == [] then []
    else (if IsRegexMeta(s[0]) then ['\\', s[0]] else [s[0]]) + EscapeRegex(s[1..])
  }

  /** The literal text an escaped pattern stands for: each `\x` read as `x`. */
  function UnescapeRegex(p: string): string
  {
    if p == [] then []
    else if p[0] == '\\' && |p| >= 2 then [p[1]] + UnescapeRegex(p[2..])
    else [p[0]] + UnescapeRegex(p[1..])
  }

  /** Escaping loses nothing: the escaped home pattern matches exactly the home text. */
  lemma {:induction false} UnescapeEscapeRegex(s: string)
    ensures UnescapeRegex(EscapeRegex(s)) == s
  {
    if s != [] {
      UnescapeEscapeRegex(s[1..]);
      var e := EscapeRegex(s);
      if IsRegexMeta(s[0]) {
        assert e == ['\\', s[0]] + EscapeRegex(s[1..]);
        assert e[2..] == EscapeRegex(s[1..]);
      } else {
        assert e == [s[0]] + EscapeRegex(s[1..]);
        assert e[1..] == EscapeRegex(s[1..]);
      }
    }
  }

  /** Escaping never shortens, and lengthens exactly when there is a metacharacter. */
  lemma {:induction false} EscapeRegexLength(s: string)
    ensures |EscapeRegex(s)| >= |s|
    ensures |EscapeRegex(s)| == |s| <==> forall k :: 0 <= k < |s| ==> !IsRegexMeta(s[k])
  {
    if s != [] {
      EscapeRegexLength(s[1..]);
      assert forall k :: 1 <= k < |s| ==> s[k] == s[1..][k - 1];
    }
  }

  /** A home directory is inserted verbatim into the replacement exactly when it has no metacharacter. */
  lemma {:induction false} EscapeRegexIdentity(s: string)
    ensures EscapeRegex(s) == s <==> forall k :: 0 <= k < |s| ==> !IsRegexMeta(s[k])
  {
    EscapeRegexLength(s);
    if s != [] {
      EscapeRegexIdentity(s[1..]);
      assert forall k :: 1 <= k < |s| ==> s[k] == s[1..][k - 1];
    }
  }

  /** Text without a regex metacharacter. */
  predicate Plain(t: string) {
    forall c | c in t :: !IsRegexMeta(c)
  }

  /** Escaping text without metacharacters changes nothing. */
  lemma EscapeRegexPlain(s: string)
    requires Plain(s)
    ensures EscapeRegex(s) == s
  {
    EscapeRegexIdentity(s);
  }

  /** Escaping works character by character, so it distributes over concatenation. */
  lemma {:induction false} EscapeRegexConcat(a: string, b: string)
    ensures EscapeRegex(a + b) == EscapeRegex(a) + EscapeRegex(b)
  {
    if a == [] {
      assert a + b == b;
    } else {
      assert (a + b)[0] == a[0];
      assert (a + b)[1..] == a[1..] + b;
      EscapeRegexConcat(a[1..], b);
      var head := if IsRegexMeta(a[0]) then ['\\', a[0]] else [a[0]];
      assert EscapeRegex(a + b) == head + EscapeRegex(a[1..] + b);
      assert EscapeRegex(a) == head + EscapeRegex(a[1..]);
      ConcatAssociates(head, EscapeRegex(a[1..]), EscapeRegex(b));
    }
  }

  // ---------------------------------------------------------------------------
  // Pass 1: home paths, `<escaped home>[/\\][^/\\]+`
  // ---------------------------------------------------------------------------

  /** Length of the greedy `[^/\\]+` run at the start of `s` (0 when `s` starts with a separator). */
  function SegmentLen(s: string): (n: nat)
    ensures n <= |s|
  {
    if s != [] && !IsSeparator(s[0]) then 1 + SegmentLen(s[1..]) else 0
  }

  /** SegmentLen is the maximal run: no separator before it, a separator or the end after it. */
  lemma {:induction false} SegmentLenIsMaximalRun(s: string, n: nat)
    requires n <= |s|
    ensures SegmentLen(s) == n <==>
      (forall k :: 0 <= k < n ==> !IsSeparator(s[k])) && (n == |s| || IsSeparator(s[n]))
  {
    if s != [] && n > 0 {
      SegmentLenIsMaximalRun(s[1..], n - 1);
      assert forall k :: 1 <= k < |s| ==> s[k] == s[1..][k - 1];
    }
  }

  /** Length of the match of the home-path pattern at the start of `s`, or 0 when there is none. */
  function HomeMatchLen(home: string, s: string): (n: nat)
    ensures n <= |s|
  {
    var j := |home|;
    if j < |s| && home <= s && IsSeparator(s[j]) && SegmentLen(s[j + 1..]) > 0
    then j + 1 + SegmentLen(s[j + 1..])
    else 0
  }

  /**
   * The first `n` characters of `s` are the home text, one separator and a non-empty run of
   * non-separators that the greedy quantifier cannot extend.
   */
  predicate IsHomeSegment(home: string, s: string, n: nat) {
    |home| + 2 <= n <= |s|
    && s[..|home|] == home
    && IsSeparator(s[|home|])
    && (forall k :: |home| < k < n ==> !IsSeparator(s[k]))
    && (n == |s| || IsSeparator(s[n]))
  }

  /** The match function agrees with the pattern: a match of length n is exactly a home segment of n characters. */
  lemma HomeMatchIsHomeSegment(home: string, s: string, n: nat)
    requires n > 0
    ensures HomeMatchLen(home, s) == n <==> IsHomeSegment(home, s, n)
  {
    var j := |home|;
    if j < |s| && j + 1 <= n <= |s| {
      var t := s[j + 1..];
      SegmentLenIsMaximalRun(t, n - j - 1);
      assert forall k :: j + 1 <= k < |s| ==> s[k] == t[k - j - 1];
      if n == j + 1 {
        assert SegmentLen(t) == 0 || SegmentLen(t) != n - j - 1;
      }
    }
  }

  /** The replacement: the regex-escaped home followed by the literal text `[/\\][MASKED]`. */
  function HomeReplacement(home: string): string {
    EscapeRegex(home) + "[/\\\\][MASKED]"
  }

  /** `path_re.replace_all(message, …)`: copy characters until a match starts, replace it, resume after it. */
  function MaskHomePaths(home: string, s: string): string
    decreases |s|
  {
    if s == [] then []
    else
      var n := HomeMatchLen(home, s);
      if n > 0 then HomeReplacement(home) + MaskHomePaths(home, s[n..])
      else [s[0]] + MaskHomePaths(home, s[1..])
  }

  /** No home-path match starts at any position of `s`. */
  predicate NoHomeMatch(home: string, s: string) {
    forall k :: 0 <= k < |s| ==> HomeMatchLen(home, s[k..]) == 0
  }

  /** One step of the scan where no match starts: the first character is copied. */
  lemma MaskHomePathsCopies(home: string, s: string)
    requires s != [] && HomeMatchLen(home, s) == 0
    ensures MaskHomePaths(home, s) == [s[0]] + MaskHomePaths(home, s[1..])
  {
  }

  /** A stretch at the front of `s` in which no match starts is copied unchanged; the scan resumes right after it. */
  lemma {:induction false} MaskHomePathsSkipsUnmatched(home: string, s: string, j: nat)
    requires j <= |s|
    requires forall k :: 0 <= k < j ==> HomeMatchLen(home, s[k..]) == 0
    ensures MaskHomePaths(home, s) == s[..j] + MaskHomePaths(home, s[j..])
    decreases j
  {
    if j > 0 {
      var t := s[1..];
      NoHomeMatchAfterFirst(home, s, j);
      MaskHomePathsSkipsUnmatched(home, t, j - 1);
      assert s[0..] == s;
      MaskHomePathsCopies(home, s);
      SliceAfterFirst(s, j);
      ConcatAssociates([s[0]], t[..j - 1], MaskHomePaths(home, s[j..]));
    }
  }

  /** Dropping the first character shifts a match-free stretch by one. */
  lemma NoHomeMatchAfterFirst(home: string, s: string, j: nat)
    requires 0 < j <= |s|
    requires forall k :: 0 <= k < j ==> HomeMatchLen(home, s[k..]) == 0
    ensures forall k :: 0 <= k < j - 1 ==> HomeMatchLen(home, s[1..][k..]) == 0
  {
    forall k | 0 <= k < j - 1
      ensures HomeMatchLen(home, s[1..][k..]) == 0
    {
      assert s[1..][k..] == s[k + 1..];
    }
  }

  /** Slicing facts for peeling off the first character. */
  lemma SliceAfterFirst(s: string, j: nat)
    requires 0 < j <= |s|
    ensures s[1..][j - 1..] == s[j..]
    ensures s[..j] == [s[0]] + s[1..][..j - 1]
  {
  }

  /** A line with no home-path match is returned unchanged by the first pass. */
  lemma MaskHomePathsWithoutMatch(home: string, s: string)
    requires NoHomeMatch(home, s)
    ensures MaskHomePaths(home, s) == s
  {
    MaskHomePathsSkipsUnmatched(home, s, |s|);
    assert s[..|s|] == s;
  }

  /** Home, a separator and a maximal segment, in front of anything that starts with a separator, is one match. */
  lemma HomeMatchOfParts(home: string, sep: char, seg: string, rest: string)
    requires IsSeparator(sep) && seg != []
    requires forall k :: 0 <= k < |seg| ==> !IsSeparator(seg[k])
    requires rest == [] || IsSeparator(rest[0])
    ensures HomeMatchLen(home, home + [sep] + seg + rest) == |home| + 1 + |seg|
  {
    var m := home + [sep] + seg + rest;
    var n := |home| + 1 + |seg|;
    assert m[..|home|] == home;
    assert m[|home|] == sep;
    forall k | |home| < k < n
      ensures !IsSeparator(m[k])
    {
      assert m[k] == seg[k - |home| - 1];
    }
    assert n < |m| ==> m[n] == rest[0];
    assert IsHomeSegment(home, m, n);
    HomeMatchIsHomeSegment(home, m, n);
  }

  /**
   * Every occurrence of home + separator + a maximal segment that the scan reaches becomes the
   * replacement; the text after the segment (later path components included) is scanned on.
   */
  lemma MaskHomePathsRewritesSegment(home: string, pre: string, sep: char, seg: string, rest: string)
    requires IsSeparator(sep) && seg != []
    requires forall k :: 0 <= k < |seg| ==> !IsSeparator(seg[k])
    requires rest == [] || IsSeparator(rest[0])
    requires forall k :: 0 <= k < |pre| ==>
      HomeMatchLen(home, (pre + (home + [sep] + seg + rest))[k..]) == 0
    ensures MaskHomePaths(home, pre + (home + [sep] + seg + rest))
         == pre + HomeReplacement(home) + MaskHomePaths(home, rest)
  {
    var m := home + [sep] + seg + rest;
    MaskHomePathsAfterPrefix(home, pre, m);
    MaskHomePathsRewritesLeadingSegment(home, sep, seg, rest);
    ConcatAssociates(pre, HomeReplacement(home), MaskHomePaths(home, rest));
  }

  /** The case with nothing in front: the line starts with home, a separator and a maximal segment. */
  lemma MaskHomePathsRewritesLeadingSegment(home: string, sep: char, seg: string, rest: string)
    requires IsSeparator(sep) && seg != []
    requires forall k :: 0 <= k < |seg| ==> !IsSeparator(seg[k])
    requires rest == [] || IsSeparator(rest[0])
    ensures MaskHomePaths(home, home + [sep] + seg + rest) == HomeReplacement(home) + MaskHomePaths(home, rest)
  {
    HomeMatchOfParts(home, sep, seg, rest);
    ConcatSplit(home + [sep] + seg, rest);
    MaskHomePathsReplaces(home, home + [sep] + seg + rest);
  }

  /** A prefix in which no match starts is copied unchanged in front of the scan of the rest. */
  lemma MaskHomePathsAfterPrefix(home: string, pre: string, m: string)
    requires forall k :: 0 <= k < |pre| ==> HomeMatchLen(home, (pre + m)[k..]) == 0
    ensures MaskHomePaths(home, pre + m) == pre + MaskHomePaths(home, m)
  {
    ConcatSplit(pre, m);
    MaskHomePathsSkipsUnmatched(home, pre + m, |pre|);
  }

  /** One step of the scan where a match starts: it is replaced and the scan resumes after it. */
  lemma MaskHomePathsReplaces(home: string, s: string)
    requires HomeMatchLen(home, s) > 0
    ensures MaskHomePaths(home, s) == HomeReplacement(home) + MaskHomePaths(home, s[HomeMatchLen(home, s)..])
  {
  }

  /** If a home-path match starts anywhere, the first pass's output contains the replacement text. */
  lemma {:induction false} MaskHomePathsMarksMatch(home: string, s: string, k: nat)
    requires k < |s| && HomeMatchLen(home, s[k..]) > 0
    ensures Contains(MaskHomePaths(home, s), HomeReplacement(home))
    decreases k
  {
    var r := HomeReplacement(home);
    assert s[0..] == s;
    if HomeMatchLen(home, s) > 0 {
      var out := MaskHomePaths(home, s);
      assert out == r + MaskHomePaths(home, s[HomeMatchLen(home, s)..]);
      assert out[0..|r|] == r;
      assert OccursAt(out, r, 0);
    } else {
      assert s[1..][k - 1..] == s[k..];
      MaskHomePathsMarksMatch(home, s[1..], k - 1);
      ContainsAfterPrefix([s[0]], MaskHomePaths(home, s[1..]), r);
    }
  }

  // ---------------------------------------------------------------------------
  // Pass 2: dotted quads, `\b\d{1,3}\.\d{1,3}\.\d{1,3}\.\d{1,3}\b`
  // ---------------------------------------------------------------------------

  /** Length of the greedy `\d+` run starting at index i. */
  function DigitRun(s: string, i: nat): (n: nat)
    requires i <= |s|
    ensures i + n <= |s|
    decreases |s| - i
  {
    if i < |s| && IsDigit(s[i]) then 1 + DigitRun(s, i + 1) else 0
  }

  /** DigitRun is the maximal run: digits up to it, a non-digit or the end after it. */
  lemma {:induction false} DigitRunIsMaximalRun(s: string, i: nat, m: nat)
    requires i + m <= |s|
    ensures DigitRun(s, i) == m <==>
      (forall k :: i <= k < i + m ==> IsDigit(s[k])) && (i + m == |s| || !IsDigit(s[i + m]))
    decreases m
  {
    if m > 0 && i < |s| {
      DigitRunIsMaximalRun(s, i + 1, m - 1);
    }
  }

  /** The index just past `\d{1,3}\.` starting at i, when that matches (greedy digits must meet the dot). */
  function DottedOctetEnd(s: string, i: nat): (r: Option<nat>)
    requires i <= |s|
    ensures r.Some? ==> i < r.value <= |s|
  {
    var n := DigitRun(s, i);
    if 1 <= n <= 3 && i + n < |s| && s[i + n] == '.' then Some(i + n + 1) else None
  }

  /** `\b` in front of a digit at index i. */
  predicate BoundaryBefore(s: string, i: nat)
    requires i <= |s|
  {
    i == 0 || !IsWordChar(s[i - 1])
  }

  /** `\b` behind a digit that ends at index e. */
  predicate BoundaryAfter(s: string, e: nat)
    requires e <= |s|
  {
    e == |s| || !IsWordChar(s[e])
  }

  /** Length of the dotted-quad match starting at index i of `s`, or 0 when there is none. */
  function IpMatchLen(s: string, i: nat): (n: nat)
    requires i <= |s|
    ensures i + n <= |s|
  {
    if i < |s| && IsDigit(s[i]) && BoundaryBefore(s, i) then
      match DottedOctetEnd(s, i)
      case None => 0
      case Some(p1) =>
        match DottedOctetEnd(s, p1)
        case None => 0
        case Some(p2) =>
          match DottedOctetEnd(s, p2)
          case None => 0
          case Some(p3) =>
            var d := DigitRun(s, p3);
            if 1 <= d <= 3 && BoundaryAfter(s, p3 + d) then p3 + d - i else 0
    else 0
  }

  /** Positions lo..hi of `t` hold one to three digits: `\d{1,3}`. No numeric range is checked. */
  predicate IsOctetSpan(t: string, lo: nat, hi: nat) {
    lo < hi <= |t| && hi - lo <= 3 && forall k :: lo <= k < hi ==> IsDigit(t[k])
  }

  /** `t` is four octets joined by the dots at a < b < c. */
  predicate IsDottedQuadAt(t: string, a: nat, b: nat, c: nat) {
    a < b < c < |t| && t[a] == '.' && t[b] == '.' && t[c] == '.'
    && IsOctetSpan(t, 0, a) && IsOctetSpan(t, a + 1, b) && IsOctetSpan(t, b + 1, c)
    && IsOctetSpan(t, c + 1, |t|)
  }

  /** `t` is in the language of `\d{1,3}\.\d{1,3}\.\d{1,3}\.\d{1,3}`. */
  ghost predicate IsDottedQuad(t: string) {
    exists a: nat, b: nat, c: nat :: IsDottedQuadAt(t, a, b, c)
  }

  /** An octet span of a slice is an octet span of the whole string, shifted. */
  lemma OctetSpanShift(s: string, i: nat, n: nat, lo: nat, hi: nat)
    requires i + n <= |s| && lo <= hi <= n
    ensures IsOctetSpan(s[i..i + n], lo, hi) <==> IsOctetSpan(s, i + lo, i + hi)
  {
    var t := s[i..i + n];
    if IsOctetSpan(t, lo, hi) {
      forall k | i + lo <= k < i + hi
        ensures IsDigit(s[k])
      {
        assert s[k] == t[k - i];
      }
    }
    if IsOctetSpan(s, i + lo, i + hi) {
      forall k | lo <= k < hi
        ensures IsDigit(t[k])
      {
        assert t[k] == s[i + k];
      }
    }
  }

  /** Four octets and three dots laid out in `s` itself: octets at i..p1-1, p1..p2-1, p2..p3-1, p3..e. */
  predicate QuadLaidOut(s: string, i: nat, p1: nat, p2: nat, p3: nat, e: nat) {
    i < p1 && p1 < p2 && p2 < p3 && p3 < e <= |s|
    && s[p1 - 1] == '.' && s[p2 - 1] == '.' && s[p3 - 1] == '.'
    && IsOctetSpan(s, i, p1 - 1) && IsOctetSpan(s, p1, p2 - 1) && IsOctetSpan(s, p2, p3 - 1)
    && IsOctetSpan(s, p3, e)
  }

  /** A dotted quad in the slice s[i..i+n], with dots at a, b, c, is the same layout in `s`. */
  lemma QuadLayoutShift(s: string, i: nat, n: nat, a: nat, b: nat, c: nat)
    requires i + n <= |s|
    ensures IsDottedQuadAt(s[i..i + n], a, b, c) <==> QuadLaidOut(s, i, i + a + 1, i + b + 1, i + c + 1, i + n)
  {
    if a < b < c < n {
      var t := s[i..i + n];
      OctetSpanShift(s, i, n, 0, a);
      OctetSpanShift(s, i, n, a + 1, b);
      OctetSpanShift(s, i, n, b + 1, c);
      OctetSpanShift(s, i, n, c + 1, n);
      assert t[a] == s[i + a] && t[b] == s[i + b] && t[c] == s[i + c];
    }
  }

  /** `\d{1,3}\.` found from i and ending at p is an octet span followed by a dot, and back. */
  lemma DottedOctetEndIsOctetAndDot(s: string, i: nat, p: nat)
    requires i < p <= |s|
    ensures DottedOctetEnd(s, i) == Some(p) <==> IsOctetSpan(s, i, p - 1) && s[p - 1] == '.'
  {
    DigitRunIsMaximalRun(s, i, p - 1 - i);
  }

  /** The last octet: greedy digits from p3 reaching e, followed by `\b`, are an octet span. */
  lemma LastOctetIsOctetSpan(s: string, p3: nat, e: nat)
    requires p3 < e <= |s| && BoundaryAfter(s, e)
    ensures DigitRun(s, p3) == e - p3 && e - p3 <= 3 <==> IsOctetSpan(s, p3, e)
  {
    DigitRunIsMaximalRun(s, p3, e - p3);
  }

  /** Every match the function reports spells a dotted quad between two word boundaries. */
  lemma IpMatchSpellsDottedQuad(s: string, i: nat, n: nat)
    requires n > 0 && i + n <= |s| && IpMatchLen(s, i) == n
    ensures IsDottedQuad(s[i..i + n]) && BoundaryBefore(s, i) && BoundaryAfter(s, i + n)
  {
    var p1 := DottedOctetEnd(s, i).value;
    var p2 := DottedOctetEnd(s, p1).value;
    var p3 := DottedOctetEnd(s, p2).value;
    DottedOctetEndIsOctetAndDot(s, i, p1);
    DottedOctetEndIsOctetAndDot(s, p1, p2);
    DottedOctetEndIsOctetAndDot(s, p2, p3);
    LastOctetIsOctetSpan(s, p3, i + n);
    QuadLayoutShift(s, i, n, p1 - 1 - i, p2 - 1 - i, p3 - 1 - i);
    assert IsDottedQuadAt(s[i..i + n], p1 - 1 - i, p2 - 1 - i, p3 - 1 - i);
  }

  /** Every dotted quad between two word boundaries is found, with its full length. */
  lemma DottedQuadIsIpMatch(s: string, i: nat, n: nat)
    requires i + n <= |s|
    requires IsDottedQuad(s[i..i + n]) && BoundaryBefore(s, i) && BoundaryAfter(s, i + n)
    ensures IpMatchLen(s, i) == n > 0
  {
    var a: nat, b: nat, c: nat :| IsDottedQuadAt(s[i..i + n], a, b, c);
    var p1, p2, p3 := i + a + 1, i + b + 1, i + c + 1;
    QuadLayoutShift(s, i, n, a, b, c);
    DottedOctetEndIsOctetAndDot(s, i, p1);
    DottedOctetEndIsOctetAndDot(s, p1, p2);
    DottedOctetEndIsOctetAndDot(s, p2, p3);
    LastOctetIsOctetSpan(s, p3, i + n);
  }

  /** The match function agrees with the pattern: a match of length n is exactly a dotted quad with a word boundary at both ends. */
  lemma IpMatchIsDottedQuad(s: string, i: nat, n: nat)
    requires n > 0 && i + n <= |s|
    ensures IpMatchLen(s, i) == n <==>
      IsDottedQuad(s[i..i + n]) && BoundaryBefore(s, i) && BoundaryAfter(s, i + n)
  {
    if IpMatchLen(s, i) == n {
      IpMatchSpellsDottedQuad(s, i, n);
    }
    if IsDottedQuad(s[i..i + n]) && BoundaryBefore(s, i) && BoundaryAfter(s, i + n) {
      DottedQuadIsIpMatch(s, i, n);
    }
  }

  /** Every character a match covers is a digit or a dot. */
  lemma IpMatchIsDigitsAndDots(s: string, i: nat, k: nat)
    requires i <= |s| && i <= k < i + IpMatchLen(s, i)
    ensures IsDigit(s[k]) || s[k] == '.'
  {
    var p1 := DottedOctetEnd(s, i).value;
    var p2 := DottedOctetEnd(s, p1).value;
    var p3 := DottedOctetEnd(s, p2).value;
    DottedOctetEndIsOctetAndDot(s, i, p1);
    DottedOctetEndIsOctetAndDot(s, p1, p2);
    DottedOctetEndIsOctetAndDot(s, p2, p3);
    LastOctetIsOctetSpan(s, p3, i + IpMatchLen(s, i));
  }

  /** `ip_re.replace_all(message, "[MASKED_IP]")`, scanning from index i; `\b` may look at s[i - 1]. */
  function MaskIpsFrom(s: string, i: nat): string
    requires i <= |s|
    decreases |s| - i
  {
    if i == |s| then []
    else
      var n := IpMatchLen(s, i);
      if n > 0 then "[MASKED_IP]" + MaskIpsFrom(s, i + n)
      else [s[i]] + MaskIpsFrom(s, i + 1)
  }

  /** The IP pass over a whole line. */
  function MaskIpAddresses(s: string): string {
    MaskIpsFrom(s, 0)
  }

  /** No dotted-quad match starts at any position of `s`. */
  predicate NoIpMatch(s: string) {
    forall k :: 0 <= k < |s| ==> IpMatchLen(s, k) == 0
  }

  /** From index i on, a stretch in which no match starts is copied unchanged. */
  lemma {:induction false} MaskIpsSkipsUnmatched(s: string, i: nat, j: nat)
    requires i <= j <= |s|
    requires forall k :: i <= k < j ==> IpMatchLen(s, k) == 0
    ensures MaskIpsFrom(s, i) == s[i..j] + MaskIpsFrom(s, j)
    decreases j - i
  {
    if i < j {
      MaskIpsSkipsUnmatched(s, i + 1, j);
      MaskIpsCopies(s, i);
      SliceFirst(s, i, j);
      ConcatAssociates([s[i]], s[i + 1..j], MaskIpsFrom(s, j));
    }
  }

  /** One step of the scan where no match starts: the character is copied. */
  lemma MaskIpsCopies(s: string, i: nat)
    requires i < |s| && IpMatchLen(s, i) == 0
    ensures MaskIpsFrom(s, i) == [s[i]] + MaskIpsFrom(s, i + 1)
  {
  }

  /** One step of the scan where a match starts: it becomes the marker and the scan resumes after it. */
  lemma MaskIpsReplaces(s: string, i: nat)
    requires i < |s| && IpMatchLen(s, i) > 0
    ensures MaskIpsFrom(s, i) == "[MASKED_IP]" + MaskIpsFrom(s, i + IpMatchLen(s, i))
  {
  }

  /** A non-empty slice is its first character followed by the rest. */
  lemma SliceFirst(s: string, i: nat, j: nat)
    requires i < j <= |s|
    ensures s[i..j] == [s[i]] + s[i + 1..j]
  {
  }

  /** Text without digits cannot start a match, so the scan copies it unchanged. */
  lemma MaskIpsSkipsDigitFree(s: string, i: nat, j: nat)
    requires i <= j <= |s|
    requires forall k :: i <= k < j ==> !IsDigit(s[k])
    ensures MaskIpsFrom(s, i) == s[i..j] + MaskIpsFrom(s, j)
  {
    MaskIpsSkipsUnmatched(s, i, j);
  }

  /** A line with no dotted-quad match is returned unchanged by the second pass. */
  lemma MaskIpAddressesWithoutMatch(s: string)
    requires NoIpMatch(s)
    ensures MaskIpAddresses(s) == s
  {
    MaskIpsSkipsUnmatched(s, 0, |s|);
    assert s[0..|s|] == s;
  }

  /** Text with no digit and no dot that starts at index i reappears at the start of the scan from i. */
  lemma {:induction false} MaskIpsKeepsDigitFreePrefix(s: string, i: nat, t: string)
    requires OccursAt(s, t, i)
    requires forall k :: 0 <= k < |t| ==> !IsDigit(t[k])
    ensures OccursAt(MaskIpsFrom(s, i), t, 0)
    decreases |t|
  {
    if t != [] {
      assert s[i] == t[0];
      assert OccursAt(s, t[1..], i + 1) by {
        assert s[i + 1..i + 1 + |t[1..]|] == s[i..i + |t|][1..];
      }
      MaskIpsKeepsDigitFreePrefix(s, i + 1, t[1..]);
      var out := MaskIpsFrom(s, i);
      assert out == [s[i]] + MaskIpsFrom(s, i + 1);
      assert out[..|t|] == [t[0]] + MaskIpsFrom(s, i + 1)[..|t| - 1];
      assert t == [t[0]] + t[1..];
    }
  }

  /** Text with no digit and no dot survives the IP pass, wherever it stands. */
  lemma {:induction false} MaskIpsKeepsDigitFreeText(s: string, i: nat, t: string, p: nat)
    requires i <= p && OccursAt(s, t, p) && t != []
    requires forall k :: 0 <= k < |t| ==> !IsDigit(t[k]) && t[k] != '.'
    ensures Contains(MaskIpsFrom(s, i), t)
    decreases p - i
  {
    if i == p {
      MaskIpsKeepsDigitFreePrefix(s, i, t);
    } else {
      var n := IpMatchLen(s, i);
      if n > 0 {
        MatchEndsBeforeText(s, i, t, p);
        MaskIpsKeepsDigitFreeText(s, i + n, t, p);
        MaskIpsReplaces(s, i);
        ContainsAfterPrefix("[MASKED_IP]", MaskIpsFrom(s, i + n), t);
      } else {
        MaskIpsKeepsDigitFreeText(s, i + 1, t, p);
        MaskIpsCopies(s, i);
        ContainsAfterPrefix([s[i]], MaskIpsFrom(s, i + 1), t);
      }
    }
  }

  /** A match cannot run into text that has no digit or dot at its front. */
  lemma MatchEndsBeforeText(s: string, i: nat, t: string, p: nat)
    requires i <= p && OccursAt(s, t, p) && t != []
    requires !IsDigit(t[0]) && t[0] != '.'
    ensures i + IpMatchLen(s, i) <= p
  {
    assert s[p] == t[0];
    if p < i + IpMatchLen(s, i) {
      IpMatchIsDigitsAndDots(s, i, p);
    }
  }

  // ---------------------------------------------------------------------------
  // The filter
  // ---------------------------------------------------------------------------

  /**
   * `mask_sensitive_info`. `home` is what `dirs::home_dir()` and `to_str()` yield: None when the
   * home directory is unknown or not valid UTF-8, in which case only the IP pass runs.
   */
  function MaskSensitiveInfo(home: Option<string>, message: string): string {
    var afterHome := if home.Some? then MaskHomePaths(home.value, message) else message;
    MaskIpAddresses(afterHome)
  }

  /** A line with neither a home path nor a dotted quad is returned unchanged. */
  lemma MaskSensitiveInfoKeepsCleanLine(home: Option<string>, message: string)
    requires home.Some? ==> NoHomeMatch(home.value, message)
    requires NoIpMatch(message)
    ensures MaskSensitiveInfo(home, message) == message
  {
    if home.Some? {
      MaskHomePathsWithoutMatch(home.value, message);
    }
    MaskIpAddressesWithoutMatch(message);
  }

  /** With the home directory unknown, paths are not masked: a line without digits comes back as it is. */
  lemma MaskSensitiveInfoWithoutHome(message: string)
    requires DigitFree(message)
    ensures MaskSensitiveInfo(None, message) == message
  {
    DigitFreeKeepsIpPass(message);
  }

  /** The replacement text carries the `[MASKED]` marker right after the escaped home and the class text. */
  lemma HomeReplacementCarriesMarker(home: string)
    ensures OccursAt(HomeReplacement(home), "[MASKED]", |EscapeRegex(home)| + 5)
  {
    var e := EscapeRegex(home);
    ConcatSplit(e, "[/\\\\][MASKED]");
  }

  /** If a home-path match starts anywhere in a line, the filtered line carries the `[MASKED]` marker. */
  lemma MaskSensitiveInfoMarksHomePath(home: string, s: string, k: nat)
    requires k < |s| && HomeMatchLen(home, s[k..]) > 0
    ensures Contains(MaskSensitiveInfo(Some(home), s), "[MASKED]")
  {
    var afterHome := MaskHomePaths(home, s);
    MaskHomePathsMarksMatch(home, s, k);
    HomeReplacementCarriesMarker(home);
    ContainsTransitive(afterHome, HomeReplacement(home), "[MASKED]");
    var p: nat :| p <= |afterHome| && OccursAt(afterHome, "[MASKED]", p);
    MaskIpsKeepsDigitFreeText(afterHome, 0, "[MASKED]", p);
  }

  /** Whatever the home directory, a file below it named in a log line comes out carrying the marker. */
  lemma MaskedHomePathCarriesMarker(home: string)
    ensures Contains(MaskSensitiveInfo(Some(home), "Error accessing " + (home + "/some/file.txt")), "[MASKED]")
  {
    var pre := "Error accessing ";
    var m := home + ['/'] + "some" + "/file.txt";
    var tail := "some" + "/file.txt";
    assert "/some/file.txt" == ['/'] + tail;
    ConcatAssociates(home, ['/'], tail);
    ConcatAssociates(home + ['/'], "some", "/file.txt");
    HomeMatchOfParts(home, '/', "some", "/file.txt");
    ConcatSplit(pre, m);
    MaskSensitiveInfoMarksHomePath(home, pre + m, |pre|);
  }

  /** A line without `/` or `\\` holds no home-path match, whatever the home directory. */
  lemma NoSeparatorNoHomeMatch(home: string, s: string)
    requires forall c | c in s :: !IsSeparator(c)
    ensures NoHomeMatch(home, s)
  {
    forall k | 0 <= k < |s|
      ensures HomeMatchLen(home, s[k..]) == 0
    {
      if |home| < |s[k..]| {
        assert s[k..][|home|] == s[k + |home|];
      }
    }
  }

  /** If a dotted-quad match starts at k at or after i, the scan from i emits the `[MASKED_IP]` marker. */
  lemma {:induction false} MaskIpsMarksMatch(s: string, i: nat, k: nat)
    requires i <= k < |s| && IpMatchLen(s, k) > 0
    ensures Contains(MaskIpsFrom(s, i), "[MASKED_IP]")
    decreases k - i
  {
    if IpMatchLen(s, i) > 0 {
      MaskIpsReplaces(s, i);
      ConcatSplit("[MASKED_IP]", MaskIpsFrom(s, i + IpMatchLen(s, i)));
      assert OccursAt(MaskIpsFrom(s, i), "[MASKED_IP]", 0);
    } else {
      MaskIpsMarksMatch(s, i + 1, k);
      MaskIpsCopies(s, i);
      ContainsAfterPrefix([s[i]], MaskIpsFrom(s, i + 1), "[MASKED_IP]");
    }
  }

  /**
   * A dotted quad standing between word boundaries at i, after text without digits, is the first
   * match: the text before it is kept, it becomes `[MASKED_IP]` and the scan goes on after it.
   */
  lemma MaskIpAddressesRewritesQuad(s: string, i: nat, n: nat)
    requires i + n <= |s| && forall k :: 0 <= k < i ==> !IsDigit(s[k])
    requires IsDottedQuad(s[i..i + n]) && BoundaryBefore(s, i) && BoundaryAfter(s, i + n)
    ensures MaskIpAddresses(s) == s[0..i] + ("[MASKED_IP]" + MaskIpsFrom(s, i + n))
  {
    DottedQuadIsIpMatch(s, i, n);
    MaskIpsRewritesFirstMatch(s, i);
  }

  /** The first match of a line, after text without digits, is the first thing replaced. */
  lemma MaskIpsRewritesFirstMatch(s: string, i: nat)
    requires i < |s| && IpMatchLen(s, i) > 0
    requires forall k :: 0 <= k < i ==> !IsDigit(s[k])
    ensures MaskIpAddresses(s) == s[0..i] + ("[MASKED_IP]" + MaskIpsFrom(s, i + IpMatchLen(s, i)))
  {
    MaskIpsSkipsDigitFree(s, 0, i);
    MaskIpsReplaces(s, i);
  }

  /** The scan from j over a tail without digits copies it unchanged. */
  lemma MaskIpsCopiesDigitFreeTail(s: string, j: nat)
    requires j <= |s|
    requires forall k :: j <= k < |s| ==> !IsDigit(s[k])
    ensures MaskIpsFrom(s, j) == s[j..]
  {
    MaskIpsSkipsDigitFree(s, j, |s|);
  }

  /** Text in which no character is a digit. */
  predicate DigitFree(t: string) {
    forall c | c in t :: !IsDigit(c)
  }

  /** Joining digit-free texts gives digit-free text. */
  lemma DigitFreeConcat(a: string, b: string)
    requires DigitFree(a) && DigitFree(b)
    ensures DigitFree(a + b)
  {
  }

  /** Where the parts of `pre + q + post` sit. */
  lemma ThreePartSlices(pre: string, q: string, post: string)
    ensures var s := pre + q + post;
      s[0..|pre|] == pre && s[|pre|..|pre| + |q|] == q && s[|pre| + |q|..] == post
  {
  }

  /** The characters around and outside `q` in `pre + q + post`. */
  lemma ThreePartChars(pre: string, q: string, post: string)
    requires DigitFree(pre) && DigitFree(post)
    requires pre == [] || !IsWordChar(pre[|pre| - 1])
    requires post == [] || !IsWordChar(post[0])
    ensures var s := pre + q + post;
      (forall k :: 0 <= k < |pre| ==> !IsDigit(s[k]))
      && (forall k :: |pre| + |q| <= k < |s| ==> !IsDigit(s[k]))
      && BoundaryBefore(s, |pre|) && BoundaryAfter(s, |pre| + |q|)
  {
    var s := pre + q + post;
    forall k | 0 <= k < |pre|
      ensures !IsDigit(s[k])
    {
      assert s[k] == pre[k];
    }
    forall k | |pre| + |q| <= k < |s|
      ensures !IsDigit(s[k])
    {
      assert s[k] == post[k - |pre| - |q|];
    }
    if pre != [] {
      assert s[|pre| - 1] == pre[|pre| - 1];
    }
    if post != [] {
      assert s[|pre| + |q|] == post[0];
    }
  }

  /**
   * A dotted quad between digit-free text that does not glue word characters to it is masked to
   * exactly the surrounding text with `[MASKED_IP]` in its place.
   */
  lemma MaskIpAddressesOfQuadInText(pre: string, q: string, post: string)
    requires DigitFree(pre) && DigitFree(post) && IsDottedQuad(q)
    requires pre == [] || !IsWordChar(pre[|pre| - 1])
    requires post == [] || !IsWordChar(post[0])
    ensures MaskIpAddresses(pre + q + post) == pre + "[MASKED_IP]" + post
  {
    ThreePartSlices(pre, q, post);
    ThreePartChars(pre, q, post);
    MaskIpAddressesOfQuadAt(pre + q + post, |pre|, |pre| + |q|);
  }

  /** The same, for a line `s` with the dotted quad at i..e. */
  lemma MaskIpAddressesOfQuadAt(s: string, i: nat, e: nat)
    requires i <= e <= |s| && IsDottedQuad(s[i..e]) && BoundaryBefore(s, i) && BoundaryAfter(s, e)
    requires forall k :: 0 <= k < i ==> !IsDigit(s[k])
    requires forall k :: e <= k < |s| ==> !IsDigit(s[k])
    ensures MaskIpAddresses(s) == s[0..i] + "[MASKED_IP]" + s[e..]
  {
    MaskIpAddressesRewritesQuad(s, i, e - i);
    MaskIpsCopiesDigitFreeTail(s, e);
    ConcatAssociates(s[0..i], "[MASKED_IP]", s[e..]);
  }

  /** Four runs of one to three digits joined by dots make a dotted quad, whatever their numeric value. */
  lemma OctetsMakeDottedQuad(w: string, x: string, y: string, z: string)
    requires 1 <= |w| <= 3 && 1 <= |x| <= 3 && 1 <= |y| <= 3 && 1 <= |z| <= 3
    requires forall c | c in w + x + y + z :: IsDigit(c)
    ensures IsDottedQuad(w + "." + x + "." + y + "." + z)
  {
    var t := w + "." + x + "." + y + "." + z;
    var a, b, c := |w|, |w| + 1 + |x|, |w| + 1 + |x| + 1 + |y|;
    var d := w + x + y + z;
    forall k | 0 <= k < a ensures IsDigit(t[k]) { assert t[k] == d[k]; }
    forall k | a < k < b ensures IsDigit(t[k]) { assert t[k] == d[k - 1]; }
    forall k | b < k < c ensures IsDigit(t[k]) { assert t[k] == d[k - 2]; }
    forall k | c < k < |t| ensures IsDigit(t[k]) { assert t[k] == d[k - 3]; }
    assert IsDottedQuadAt(t, a, b, c);
  }

  /** A match starts with the home text, so none starts in text that lacks the home's first character. */
  lemma NoHomeMatchInPrefix(home: string, pre: string, m: string)
    requires home != [] && home[0] !in pre
    ensures forall k :: 0 <= k < |pre| ==> HomeMatchLen(home, (pre + m)[k..]) == 0
  {
    forall k | 0 <= k < |pre|
      ensures HomeMatchLen(home, (pre + m)[k..]) == 0
    {
      assert (pre + m)[k..][0] == pre[k];
    }
  }

  /** Text no longer than the home text holds no match and passes the first pass unchanged. */
  lemma ShortTextKeepsHomePass(home: string, s: string)
    requires |s| <= |home|
    ensures MaskHomePaths(home, s) == s
  {
    MaskHomePathsWithoutMatch(home, s);
  }

  /** Text without digits passes the second pass unchanged. */
  lemma DigitFreeKeepsIpPass(s: string)
    requires DigitFree(s)
    ensures MaskIpAddresses(s) == s
  {
    MaskIpsCopiesDigitFreeTail(s, 0);
    assert s[0..] == s;
  }
}
