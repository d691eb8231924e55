/** Trimming the equal ends of two line lists, as both diffs do before they compare what is left. */
module Trimming {
  function PrefixLength<T(==)>(a: seq<T>, b: seq<T>): (n: nat)
    ensures n <= |a| && n <= |b| && a[..n] == b[..n]
    ensures n < |a| && n < |b| ==> a[n] != b[n]
  {
    if a != [] && b != [] && a[0] == b[0] then
      var rest := PrefixLength(a[1..], b[1..]);
      assert a[..rest + 1] == [a[0]] + a[1..][..rest] && b[..rest + 1] == [b[0]] + b[1..][..rest];
      rest + 1
    else 0
  }

  function SuffixLength<T(==)>(a: seq<T>, b: seq<T>): (n: nat)
    ensures n <= |a| && n <= |b|
  {
    if a != [] && b != [] && a[|a| - 1] == b[|b| - 1] then 1 + SuffixLength(a[..|a| - 1], b[..|b| - 1]) else 0
  }

  lemma {:induction false} SuffixesEqual<T>(a: seq<T>, b: seq<T>)
    ensures a[|a| - SuffixLength(a, b)..] == b[|b| - SuffixLength(a, b)..]
  {
    if a != [] && b != [] && a[|a| - 1] == b[|b| - 1] {
      SuffixesEqual(a[..|a| - 1], b[..|b| - 1]);
      var n := SuffixLength(a, b);
      assert a[|a| - n..] == a[..|a| - 1][|a| - n..] + [a[|a| - 1]];
      assert b[|b| - n..] == b[..|b| - 1][|b| - n..] + [b[|b| - 1]];
    }
  }

  /** Taking the two lengths apart, a text is its start, its middle and its end. */
  lemma Parts<T>(text: seq<T>, p: nat, s: nat)
    requires p + s <= |text|
    ensures text == text[..p] + (text[p..|text| - s] + text[|text| - s..])
  {
  }

  lemma TailOfTail<T>(text: seq<T>, p: nat, s: nat)
    requires p + s <= |text|
    ensures text[p..][|text| - p - s..] == text[|text| - s..]
  {
  }

  /** Both texts are the same start, their own middle, and the same end. */
  lemma TrimmedParts<T>(before: seq<T>, after: seq<T>, p: nat, s: nat)
    requires p == PrefixLength(before, after) && s == SuffixLength(before[p..], after[p..])
    ensures p + s <= |before| && p + s <= |after|
    ensures before[..p] == after[..p] && before[|before| - s..] == after[|after| - s..]
  {
    SuffixesEqual(before[p..], after[p..]);
    TailOfTail(before, p, s);
    TailOfTail(after, p, s);
  }

  /** The trimmed suffix is as long as it can be. */
  lemma {:induction false} SuffixStops<T>(a: seq<T>, b: seq<T>)
    ensures var n := SuffixLength(a, b); n < |a| && n < |b| ==> a[|a| - n - 1] != b[|b| - n - 1]
  {
    if a != [] && b != [] && a[|a| - 1] == b[|b| - 1] {
      SuffixStops(a[..|a| - 1], b[..|b| - 1]);
    }
  }

  lemma SuffixDiffers<T>(before: seq<T>, after: seq<T>, p: nat, s: nat, a: seq<T>, b: seq<T>)
    requires p <= |before| && p <= |after| && a == before[p..] && b == after[p..] && s == SuffixLength(a, b)
    requires p + s < |before| && p + s < |after|
    ensures before[|before| - s - 1] != after[|after| - s - 1]
  {
    SuffixStops(a, b);
    assert a[|a| - s - 1] == before[|before| - s - 1];
    assert b[|b| - s - 1] == after[|after| - s - 1];
  }

  /** What is left between the trimmed ends differs at its own ends. */
  lemma TrimmedDiffers<T>(before: seq<T>, after: seq<T>, p: nat, s: nat)
    requires p == PrefixLength(before, after) && s == SuffixLength(before[p..], after[p..])
    requires p + s < |before| && p + s < |after|
    ensures before[p] != after[p] && before[|before| - s - 1] != after[|after| - s - 1]
  {
    SuffixDiffers(before, after, p, s, before[p..], after[p..]);
  }

  /** `p` and `s` are the lengths of equal ends that do not overlap, and what is left differs at its own ends. */
  predicate Trimmed<T(==)>(before: seq<T>, after: seq<T>, p: nat, s: nat)
  {
    && p + s <= |before| && p + s <= |after|
    && before[..p] == after[..p] && before[|before| - s..] == after[|after| - s..]
    && (p + s < |before| && p + s < |after| ==>
          before[p] != after[p] && before[|before| - s - 1] != after[|after| - s - 1])
  }

  /** Trimming both ends: the prefix first, and the suffix of what the prefix leaves. */
  method TrimEnds<T(==)>(before: seq<T>, after: seq<T>) returns (p: nat, s: nat)
    ensures Trimmed(before, after, p, s)
    ensures p == PrefixLength(before, after) && s == SuffixLength(before[p..], after[p..])
  {
    p := PrefixLength(before, after);
    s := SuffixLength(before[p..], after[p..]);
    TrimmedParts(before, after, p, s);
    if p + s < |before| && p + s < |after| {
      TrimmedDiffers(before, after, p, s);
    }
  }
}
