/**
  Foundation's `trimmingCharacters(in: .whitespacesAndNewlines)`, modelled
  over a fixed set of whitespace characters, and the blank test
  (`trimmed.isEmpty`) that every validation in the vocabulary store uses.
 */
module Text {

  /** The members of `CharacterSet.whitespacesAndNewlines`: the Unicode
      space separators (category Zs), U+0009 to U+000D, U+0085 and the line
      and paragraph separators U+2028 and U+2029. */
  predicate IsWhitespace(c: char) {
    || c == ' '
    || ('\t' <= c <= '\r')
    || c == '\U{85}'
    || c == '\U{A0}'
    || c == '\U{1680}'
    || ('\U{2000}' <= c <= '\U{200A}')
    || c == '\U{2028}'
    || c == '\U{2029}'
    || c == '\U{202F}'
    || c == '\U{205F}'
    || c == '\U{3000}'
  }

  /** Every character of `s` is whitespace (true of the empty string). */
  predicate AllSpace(s: string) {
    forall i :: 0 <= i < |s| ==> IsWhitespace(s[i])
  }

  /** `s` neither starts nor ends with whitespace. */
  predicate Clean(s: string) {
    s == [] || (!IsWhitespace(s[0]) && !IsWhitespace(s[|s| - 1]))
  }

  /** The first position at or after `i` that does not hold whitespace
      (`|s|` when there is none). */
  function SkipLeading(s: string, i: nat): (k: nat)
    requires i <= |s|
    ensures i <= k <= |s|
    decreases |s| - i
  {
    if i < |s| && IsWhitespace(s[i]) then SkipLeading(s, i + 1) else i
  }

  /** The end of `s[lo..j]` once its trailing whitespace is dropped. */
  function SkipTrailing(s: string, lo: nat, j: nat): (k: nat)
    requires lo <= j <= |s|
    ensures lo <= k <= j
  {
    if lo < j && IsWhitespace(s[j - 1]) then SkipTrailing(s, lo, j - 1) else j
  }

  /** `trimmingCharacters(in: .whitespacesAndNewlines)`: the part of `s`
      between its leading and its trailing whitespace. */
  function Trim(s: string): (r: string)
    ensures Clean(r)
  {
    var i := SkipLeading(s, 0);
    var j := SkipTrailing(s, i, |s|);
    SkipLeadingStops(s, 0);
    SkipTrailingStops(s, i, |s|);
    s[i..j]
  }

  /** `s.trimmingCharacters(in: .whitespacesAndNewlines).isEmpty`: the text
      is empty or whitespace only. */
  function IsBlank(s: string): (blank: bool)
    ensures blank <==> AllSpace(s)
  {
    TrimEmptyIffAllSpace(s);
    Trim(s) == []
  }

  /** `SkipLeading` passes over whitespace only, and stops at a character
      that is not whitespace or at the end. */
  lemma {:induction false} SkipLeadingStops(s: string, i: nat)
    requires i <= |s|
    ensures forall x :: i <= x < SkipLeading(s, i) ==> IsWhitespace(s[x])
    ensures SkipLeading(s, i) < |s| ==> !IsWhitespace(s[SkipLeading(s, i)])
    decreases |s| - i
  {
    if i < |s| && IsWhitespace(s[i]) {
      SkipLeadingStops(s, i + 1);
    }
  }

  /** `SkipTrailing` passes over whitespace only, and stops after a
      character that is not whitespace or at `lo`. */
  lemma {:induction false} SkipTrailingStops(s: string, lo: nat, j: nat)
    requires lo <= j <= |s|
    ensures forall x :: SkipTrailing(s, lo, j) <= x < j ==> IsWhitespace(s[x])
    ensures lo < SkipTrailing(s, lo, j) ==> !IsWhitespace(s[SkipTrailing(s, lo, j) - 1])
  {
    if lo < j && IsWhitespace(s[j - 1]) {
      SkipTrailingStops(s, lo, j - 1);
    }
  }

  /** `SkipLeading` stops at the first non-whitespace position `p`. */
  lemma {:induction false} SkipLeadingTo(s: string, i: nat, p: nat)
    requires i <= p <= |s|
    requires forall x :: i <= x < p ==> IsWhitespace(s[x])
    requires p < |s| ==> !IsWhitespace(s[p])
    ensures SkipLeading(s, i) == p
    decreases p - i
  {
    if i < p {
      SkipLeadingTo(s, i + 1, p);
    }
  }

  /** `SkipTrailing` stops just after the last non-whitespace position
      `q - 1`. */
  lemma {:induction false} SkipTrailingTo(s: string, lo: nat, j: nat, q: nat)
    requires lo <= q <= j <= |s|
    requires forall x :: q <= x < j ==> IsWhitespace(s[x])
    requires lo < q ==> !IsWhitespace(s[q - 1])
    ensures SkipTrailing(s, lo, j) == q
    decreases j - q
  {
    if q < j {
      SkipTrailingTo(s, lo, j - 1, q);
    }
  }

  /** Where `Trim` cuts: whitespace before `i` and from `j` on, and the kept
      part neither starts nor ends with whitespace. */
  lemma TrimCuts(s: string) returns (i: nat, j: nat)
    ensures i <= j <= |s| && Trim(s) == s[i..j]
    ensures forall x :: 0 <= x < i ==> IsWhitespace(s[x])
    ensures forall x :: j <= x < |s| ==> IsWhitespace(s[x])
    ensures i < j ==> !IsWhitespace(s[i]) && !IsWhitespace(s[j - 1])
  {
    i := SkipLeading(s, 0);
    j := SkipTrailing(s, i, |s|);
    SkipLeadingStops(s, 0);
    SkipTrailingStops(s, i, |s|);
  }

  /** Trimming only removes whitespace: `s` is `Trim(s)` padded on both
      sides by whitespace, which the two out-parameters name. */
  lemma TrimSplit(s: string) returns (a: string, b: string)
    ensures s == a + Trim(s) + b
    ensures AllSpace(a) && AllSpace(b)
  {
    var i, j := TrimCuts(s);
    a := s[..i];
    b := s[j..];
    assert s == a + s[i..j] + b;
    assert AllSpace(b) by {
      forall x | 0 <= x < |b| ensures IsWhitespace(b[x]) {
        assert b[x] == s[j + x];
      }
    }
  }

  /** A split of `s` into whitespace, a clean middle and whitespace is
      unique: its middle is `Trim(s)`. */
  lemma TrimUnique(s: string, a: string, m: string, b: string)
    requires s == a + m + b
    requires AllSpace(a) && AllSpace(b) && Clean(m)
    ensures Trim(s) == m
  {
    var p := |a|;
    var q := |a| + |m|;
    assert forall x :: 0 <= x < p ==> s[x] == a[x];
    assert forall x :: q <= x < |s| ==> s[x] == b[x - q];
    if m == [] {
      SkipLeadingTo(s, 0, |s|);
      SkipTrailingTo(s, |s|, |s|, |s|);
    } else {
      assert s[p] == m[0] && s[q - 1] == m[|m| - 1];
      SkipLeadingTo(s, 0, p);
      SkipTrailingTo(s, p, |s|, q);
      assert s[p..q] == m;
    }
  }

  lemma AllSpaceConcat(x: string, y: string)
    requires AllSpace(x) && AllSpace(y)
    ensures AllSpace(x + y)
  {
    forall i | 0 <= i < |x + y| ensures IsWhitespace((x + y)[i]) {
      if i >= |x| { assert (x + y)[i] == y[i - |x|]; }
    }
  }

  lemma Regroup(p: string, a: string, t: string, b: string, q: string)
    ensures p + (a + t + b) + q == (p + a) + t + (b + q)
  {
  }

  /** Whitespace added before or after a text does not change what it
      trims to. */
  lemma TrimIgnoresPadding(p: string, s: string, q: string)
    requires AllSpace(p) && AllSpace(q)
    ensures Trim(p + s + q) == Trim(s)
  {
    var a, b := TrimSplit(s);
    var t := Trim(s);
    AllSpaceConcat(p, a);
    AllSpaceConcat(b, q);
    Regroup(p, a, t, b, q);
    TrimUnique(p + s + q, p + a, t, b + q);
  }

  /** Whitespace around a text never changes what it trims to, for any
      padding. */
  lemma TrimIgnoresAnyPadding(s: string)
    ensures forall p, q :: AllSpace(p) && AllSpace(q) ==> Trim(p + s + q) == Trim(s)
  {
    forall p, q | AllSpace(p) && AllSpace(q) ensures Trim(p + s + q) == Trim(s) {
      TrimIgnoresPadding(p, s, q);
    }
  }

  /** Trimming twice is trimming once. */
  lemma TrimIdempotent(s: string)
    ensures Trim(Trim(s)) == Trim(s)
  {
    assert Trim(s) == [] + Trim(s) + [];
    TrimUnique(Trim(s), [], Trim(s), []);
  }

  /** A text trims to nothing exactly when it consists of whitespace
      only. */
  lemma TrimEmptyIffAllSpace(s: string)
    ensures Trim(s) == [] <==> AllSpace(s)
  {
    var a, b := TrimSplit(s);
    if AllSpace(s) {
      assert s == s + [] + [];
      TrimUnique(s, s, [], []);
    } else {
      AllSpaceConcat(a, b);
    }
  }

  /** A trimmed text that is not blank is clean and non-empty: what the
      store keeps as a category name or a word. */
  predicate IsCleanText(s: string) {
    s != [] && Clean(s)
  }

  lemma TrimOfCleanText(s: string)
    requires IsCleanText(s)
    ensures Trim(s) == s && !IsBlank(s)
  {
    assert s == [] + s + [];
    TrimUnique(s, [], s, []);
  }
}
