/**
 The command line's diff (crates/atlas-cli/src/diff.rs): equal ends are trimmed, a table of common lengths is
 filled for the middle, and a walk over the table writes the changes. What it writes spells both texts, and
 no diff keeps more lines: the kept lines are a longest common subsequence of the whole inputs.
 */
module CliDiff {
  import opened Wrappers
  import opened Trimming

  type Line = string

  // ----- longest common subsequences

  /** `s` is `a` with some elements left out. */
  predicate Subsequence(s: seq<Line>, a: seq<Line>)
  {
    s == [] || (a != [] && ((s[0] == a[0] && Subsequence(s[1..], a[1..])) || Subsequence(s, a[1..])))
  }

  predicate Common(s: seq<Line>, a: seq<Line>, b: seq<Line>)
  {
    Subsequence(s, a) && Subsequence(s, b)
  }

  function Max(a: nat, b: nat): nat { if a >= b then a else b }

  /** The recurrence of the table. */
  function Lcs(a: seq<Line>, b: seq<Line>): nat
    decreases |a| + |b|
  {
    if a == [] || b == [] then 0
    else if a[0] == b[0] then Lcs(a[1..], b[1..]) + 1
    else Max(Lcs(a[1..], b), Lcs(a, b[1..]))
  }

  lemma {:induction false} DropFirst(s: seq<Line>, a: seq<Line>)
    requires s != [] && Subsequence(s, a)
    ensures Subsequence(s[1..], a)
  {
    if s[0] == a[0] && Subsequence(s[1..], a[1..]) {
      if s[1..] != [] {
        SkipOne(s[1..], a);
      }
    } else {
      DropFirst(s, a[1..]);
    }
  }

  lemma SkipOne(s: seq<Line>, a: seq<Line>)
    requires a != [] && Subsequence(s, a[1..])
    ensures Subsequence(s, a)
  {
  }

  /** No common subsequence is longer than the recurrence says. */
  lemma {:induction false} LcsIsUpperBound(s: seq<Line>, a: seq<Line>, b: seq<Line>)
    requires Common(s, a, b)
    ensures |s| <= Lcs(a, b)
    decreases |a| + |b|
  {
    if s != [] {
      if a[0] == b[0] {
        if Subsequence(s, a[1..]) {
          DropFirst(s, a[1..]);
        }
        if Subsequence(s, b[1..]) {
          DropFirst(s, b[1..]);
        }
        LcsIsUpperBound(s[1..], a[1..], b[1..]);
      } else if Subsequence(s, a[1..]) {
        LcsIsUpperBound(s, a[1..], b);
      } else {
        LcsIsUpperBound(s, a, b[1..]);
      }
    }
  }

  /** And one is as long. */
  lemma {:induction false} LcsIsReached(a: seq<Line>, b: seq<Line>) returns (s: seq<Line>)
    ensures Common(s, a, b) && |s| == Lcs(a, b)
    decreases |a| + |b|
  {
    if a == [] || b == [] {
      s := [];
    } else if a[0] == b[0] {
      var rest := LcsIsReached(a[1..], b[1..]);
      s := [a[0]] + rest;
      assert s[1..] == rest;
    } else if Lcs(a[1..], b) >= Lcs(a, b[1..]) {
      s := LcsIsReached(a[1..], b);
      SkipOne(s, a);
    } else {
      s := LcsIsReached(a, b[1..]);
      SkipOne(s, b);
    }
  }

  lemma {:induction false} SubsequenceLength(s: seq<Line>, a: seq<Line>)
    requires Subsequence(s, a)
    ensures |s| <= |a|
  {
    if s != [] {
      if s[0] == a[0] && Subsequence(s[1..], a[1..]) {
        SubsequenceLength(s[1..], a[1..]);
      } else {
        SubsequenceLength(s, a[1..]);
      }
    }
  }

  lemma LcsBounded(a: seq<Line>, b: seq<Line>)
    ensures Lcs(a, b) <= |a| && Lcs(a, b) <= |b|
  {
    var s := LcsIsReached(a, b);
    SubsequenceLength(s, a);
    SubsequenceLength(s, b);
  }

  // ----- trimming equal ends keeps the maximum

  lemma {:induction false} SubsequenceSnoc(s: seq<Line>, a: seq<Line>, c: Line)
    requires Subsequence(s, a)
    ensures Subsequence(s + [c], a + [c])
  {
    if s == [] {
      SubsequenceLast(a, c);
      assert s + [c] == [c];
    } else if s[0] == a[0] && Subsequence(s[1..], a[1..]) {
      SubsequenceSnoc(s[1..], a[1..], c);
      assert (s + [c])[1..] == s[1..] + [c] && (a + [c])[1..] == a[1..] + [c];
    } else {
      SubsequenceSnoc(s, a[1..], c);
      assert (a + [c])[1..] == a[1..] + [c];
    }
  }

  lemma {:induction false} SubsequenceLast(a: seq<Line>, c: Line)
    ensures Subsequence([c], a + [c])
  {
    if a == [] {
      assert Subsequence([c][1..], (a + [c])[1..]);
    } else {
      SubsequenceLast(a[1..], c);
      assert (a + [c])[1..] == a[1..] + [c];
    }
  }

  lemma {:induction false} SubsequenceInit(s: seq<Line>, a: seq<Line>, c: Line)
    requires s != [] && Subsequence(s, a + [c])
    ensures Subsequence(s[..|s| - 1], a)
  {
    if a == [] {
      SubsequenceLength(s, a + [c]);
      assert s[..|s| - 1] == [];
    } else {
      assert (a + [c])[1..] == a[1..] + [c];
      if s[0] == a[0] && Subsequence(s[1..], a[1..] + [c]) {
        if |s| > 1 {
          SubsequenceInit(s[1..], a[1..], c);
          assert s[1..][..|s| - 2] == s[..|s| - 1][1..];
        }
      } else {
        SubsequenceInit(s, a[1..], c);
      }
    }
  }

  lemma LcsSnoc(a: seq<Line>, b: seq<Line>, c: Line)
    ensures Lcs(a + [c], b + [c]) == Lcs(a, b) + 1
  {
    var s := LcsIsReached(a, b);
    SubsequenceSnoc(s, a, c);
    SubsequenceSnoc(s, b, c);
    LcsIsUpperBound(s + [c], a + [c], b + [c]);
    var t := LcsIsReached(a + [c], b + [c]);
    if t != [] {
      SubsequenceInit(t, a, c);
      SubsequenceInit(t, b, c);
      LcsIsUpperBound(t[..|t| - 1], a, b);
    }
  }

  lemma {:induction false} LcsSuffix(a: seq<Line>, b: seq<Line>, suffix: seq<Line>)
    ensures Lcs(a + suffix, b + suffix) == Lcs(a, b) + |suffix|
  {
    if suffix == [] {
      assert a + suffix == a && b + suffix == b;
    } else {
      var init, last := suffix[..|suffix| - 1], suffix[|suffix| - 1];
      LcsSuffix(a, b, init);
      LcsSnoc(a + init, b + init, last);
      assert suffix == init + [last];
      assert a + suffix == a + init + [last] && b + suffix == b + init + [last];
    }
  }

  lemma {:induction false} LcsPrefix(a: seq<Line>, b: seq<Line>, prefix: seq<Line>)
    ensures Lcs(prefix + a, prefix + b) == |prefix| + Lcs(a, b)
  {
    if prefix == [] {
      assert prefix + a == a && prefix + b == b;
    } else {
      LcsPrefix(a, b, prefix[1..]);
      assert (prefix + a)[1..] == prefix[1..] + a && (prefix + b)[1..] == prefix[1..] + b;
    }
  }

  // ----- the changes

  datatype Change = Keep(line: Line) | Remove(line: Line) | Add(line: Line)

  function OldLines(changes: seq<Change>): seq<Line>
  {
    if changes == [] then []
    else
      var last := changes[|changes| - 1];
      OldLines(changes[..|changes| - 1]) + (if last.Add? then [] else [last.line])
  }

  function NewLines(changes: seq<Change>): seq<Line>
  {
    if changes == [] then []
    else
      var last := changes[|changes| - 1];
      NewLines(changes[..|changes| - 1]) + (if last.Remove? then [] else [last.line])
  }

  function KeptCount(changes: seq<Change>): nat
  {
    if changes == [] then 0
    else KeptCount(changes[..|changes| - 1]) + (if changes[|changes| - 1].Keep? then 1 else 0)
  }

  lemma ChangesSnoc(changes: seq<Change>, change: Change)
    ensures OldLines(changes + [change]) == OldLines(changes) + (if change.Add? then [] else [change.line])
    ensures NewLines(changes + [change]) == NewLines(changes) + (if change.Remove? then [] else [change.line])
    ensures KeptCount(changes + [change]) == KeptCount(changes) + (if change.Keep? then 1 else 0)
  {
    assert (changes + [change])[..|changes|] == changes;
  }

  /** The changes so far spell what has been read of both texts, and may still keep as much as is possible. */
  ghost predicate Walked(changes: seq<Change>, old': seq<Line>, new': seq<Line>, i: nat, j: nat)
  {
    && i <= |old'| && j <= |new'|
    && OldLines(changes) == old'[..i] && NewLines(changes) == new'[..j]
    && KeptCount(changes) + Lcs(old'[i..], new'[j..]) == Lcs(old', new')
  }

  lemma WalkStep(changes: seq<Change>, change: Change, old': seq<Line>, new': seq<Line>, i: nat, j: nat)
    requires Walked(changes, old', new', i, j)
    requires !change.Add? ==> i < |old'| && change.line == old'[i]
    requires !change.Remove? ==> j < |new'| && change.line == new'[j]
    requires change.Remove? ==> Lcs(old'[i + 1..], new'[j..]) == Lcs(old'[i..], new'[j..])
    requires change.Add? ==> Lcs(old'[i..], new'[j + 1..]) == Lcs(old'[i..], new'[j..])
    ensures Walked(changes + [change], old', new', if change.Add? then i else i + 1,
                   if change.Remove? then j else j + 1)
  {
    ChangesSnoc(changes, change);
    if !change.Add? {
      assert old'[..i + 1] == old'[..i] + [old'[i]];
      assert old'[i..][1..] == old'[i + 1..];
    }
    if !change.Remove? {
      assert new'[..j + 1] == new'[..j] + [new'[j]];
      assert new'[j..][1..] == new'[j + 1..];
    }
  }

  // ----- the table

  const MAX_TABLE_CELLS := 4_000_000

  type u32 = n: nat | n < 0x1_0000_0000

  /** Where row `i`, column `j` lies in the flat table: `i * width + j`. */
  function Cell(i: nat, j: nat, width: nat): nat
  {
    if i == 0 then j else Cell(i - 1, j, width) + width
  }

  lemma {:induction false} CellIsProduct(i: nat, j: nat, width: nat)
    ensures Cell(i, j, width) == i * width + j
  {
    if i > 0 {
      CellIsProduct(i - 1, j, width);
      assert i * width == (i - 1) * width + width;
    }
  }

  lemma {:induction false} CellOrder(i: nat, j: nat, k: nat, l: nat, width: nat)
    requires i < k && j < width
    ensures Cell(i, j, width) < Cell(k, l, width)
  {
    if i == 0 && k > 1 {
      CellOrder(0, j, k - 1, l, width);
    } else if i > 0 {
      CellOrder(i - 1, j, k - 1, l, width);
    }
  }

  lemma {:induction false} CellsInRow(i: nat, j: nat, l: nat, width: nat)
    ensures Cell(i, j, width) - j == Cell(i, l, width) - l
  {
    if i > 0 {
      CellsInRow(i - 1, j, l, width);
    }
  }

  lemma CellsApart(i: nat, j: nat, k: nat, l: nat, width: nat)
    requires j < width && l < width && (i != k || j != l)
    ensures Cell(i, j, width) != Cell(k, l, width)
  {
    if i < k {
      CellOrder(i, j, k, l, width);
    } else if k < i {
      CellOrder(k, l, i, j, width);
    } else {
      CellsInRow(i, j, l, width);
    }
  }

  lemma SquareBound(x: nat, n: nat, m: nat)
    requires x <= n && x <= m
    ensures x <= x * x <= n * m
  {
  }

  /** A table small enough to be filled holds lengths far below `u32::MAX`. */
  lemma SmallEnough(a: seq<Line>, b: seq<Line>, n: nat, m: nat)
    requires |a| <= n && |b| <= m && n * m <= MAX_TABLE_CELLS
    ensures Lcs(a, b) < 0x1_0000_0000
  {
    LcsBounded(a, b);
    SquareBound(Lcs(a, b), n, m);
  }

  function TableSize(n: nat, m: nat): nat { Cell(n + 1, 0, m + 1) }

  /** The cell holds the answer for the texts from line `k` and line `l` on. */
  predicate Right(common: seq<u32>, old': seq<Line>, new': seq<Line>, k: nat, l: nat)
    requires k <= |old'| && l <= |new'|
  {
    var at := Cell(k, l, |new'| + 1);
    at < |common| && common[at] == Lcs(old'[k..], new'[l..])
  }

  /** Every cell is right that comes after row `i`, column `j` in the order they are filled, and the last column. */
  ghost predicate Filled(common: seq<u32>, old': seq<Line>, new': seq<Line>, i: nat, j: nat)
  {
    forall k, l :: 0 <= k <= |old'| && 0 <= l <= |new'| && (k > i || (k == i && l >= j) || l == |new'|) ==>
      Right(common, old', new', k, l)
  }

  /** Writing one cell leaves the others. */
  lemma CellWritten(common: seq<u32>, old': seq<Line>, new': seq<Line>, i: nat, j: nat, value: u32)
    requires |common| == TableSize(|old'|, |new'|) && i < |old'| && j < |new'| && Filled(common, old', new', i, j + 1)
    requires value == Lcs(old'[i..], new'[j..])
    ensures Cell(i, j, |new'| + 1) < |common| && Filled(common[Cell(i, j, |new'| + 1) := value], old', new', i, j)
  {
    var width := |new'| + 1;
    CellOrder(i, j, |old'| + 1, 0, width);
    var common' := common[Cell(i, j, width) := value];
    forall k, l | 0 <= k <= |old'| && 0 <= l <= |new'| && (k > i || (k == i && l >= j) || l == |new'|)
      ensures Right(common', old', new', k, l)
    {
      if k != i || l != j {
        assert Right(common, old', new', k, l);
        CellsApart(k, l, i, j, width);
      }
    }
  }

  /** What the recurrence makes of the three neighbours. */
  lemma CellValue(common: seq<u32>, old': seq<Line>, new': seq<Line>, i: nat, j: nat)
    requires i < |old'| && j < |new'| && Filled(common, old', new', i, j + 1) && |old'| * |new'| <= MAX_TABLE_CELLS
    ensures Right(common, old', new', i + 1, j + 1) && Right(common, old', new', i + 1, j)
            && Right(common, old', new', i, j + 1)
    ensures Lcs(old'[i..], new'[j..]) < 0x1_0000_0000
    ensures Lcs(old'[i..], new'[j..]) ==
            if old'[i] == new'[j] then Lcs(old'[i + 1..], new'[j + 1..]) + 1
            else Max(Lcs(old'[i + 1..], new'[j..]), Lcs(old'[i..], new'[j + 1..]))
  {
    assert old'[i..][1..] == old'[i + 1..] && new'[j..][1..] == new'[j + 1..];
    SmallEnough(old'[i..], new'[j..], |old'|, |new'|);
  }

  /** The cell at `i * width + j` holds what lines `i` and `j` on have in common. */
  ghost predicate Indexed(common: seq<u32>, old': seq<Line>, new': seq<Line>, i: nat, j: nat)
    requires i <= |old'| && j <= |new'|
  {
    var at := i * (|new'| + 1) + j;
    at < |common| && common[at] == Lcs(old'[i..], new'[j..])
  }

  lemma FilledIsIndexed(common: seq<u32>, old': seq<Line>, new': seq<Line>, i: nat, j: nat)
    requires i <= |old'| && j <= |new'| && Filled(common, old', new', 0, 0)
    ensures Indexed(common, old', new', i, j)
  {
    CellIsProduct(i, j, |new'| + 1);
    assert Right(common, old', new', i, j);
  }

  /** The first half of `push_changes`: the table, filled from the bottom right. */
  method FillTable(old': seq<Line>, new': seq<Line>) returns (common: array<u32>)
    requires |old'| * |new'| <= MAX_TABLE_CELLS
    ensures common.Length == TableSize(|old'|, |new'|) && Filled(common[..], old', new', 0, 0)
    ensures forall i, j :: 0 <= i <= |old'| && 0 <= j <= |new'| ==> Indexed(common[..], old', new', i, j)
  {
    var width := |new'| + 1;
    common := new u32[TableSize(|old'|, |new'|)](_ => 0);
    forall k, l | 0 <= k <= |old'| && 0 <= l <= |new'| && (k == |old'| || l == |new'|)
      ensures Right(common[..], old', new', k, l)
    {
      CellOrder(k, l, |old'| + 1, 0, width);
    }
    var i := |old'|;
    while i > 0
      invariant 0 <= i <= |old'| && Filled(common[..], old', new', i, 0)
    {
      i := i - 1;
      var j := |new'|;
      while j > 0
        invariant 0 <= j <= |new'| && Filled(common[..], old', new', i, j)
      {
        j := j - 1;
        CellValue(common[..], old', new', i, j);
        var value: u32 :=
          if old'[i] == new'[j] then common[Cell(i + 1, j + 1, width)] + 1
          else Max(common[Cell(i + 1, j, width)], common[Cell(i, j + 1, width)]);
        CellWritten(common[..], old', new', i, j, value);
        ghost var before := common[..];
        common[Cell(i, j, width)] := value;
        assert common[..] == before[Cell(i, j, width) := value];
      }
    }
    forall k, l | 0 <= k <= |old'| && 0 <= l <= |new'| ensures Indexed(common[..], old', new', k, l) {
      FilledIsIndexed(common[..], old', new', k, l);
    }
  }

  /** `push_changes`. */
  method PushChanges(old': seq<Line>, new': seq<Line>) returns (changes: seq<Change>)
    requires |old'| * |new'| <= MAX_TABLE_CELLS
    ensures OldLines(changes) == old' && NewLines(changes) == new'
    ensures KeptCount(changes) == Lcs(old', new')
  {
    var width := |new'| + 1;
    var common := FillTable(old', new');
    changes := [];
    var i, j := 0, 0;
    while i < |old'| && j < |new'|
      invariant Walked(changes, old', new', i, j) && Filled(common[..], old', new', 0, 0)
      decreases |old'| - i + |new'| - j
    {
      assert old'[i..][1..] == old'[i + 1..] && new'[j..][1..] == new'[j + 1..];
      assert Right(common[..], old', new', i + 1, j) && Right(common[..], old', new', i, j + 1);
      if old'[i] == new'[j] {
        WalkStep(changes, Keep(old'[i]), old', new', i, j);
        changes := changes + [Keep(old'[i])];
        i, j := i + 1, j + 1;
      } else if common[Cell(i + 1, j, width)] >= common[Cell(i, j + 1, width)] {
        WalkStep(changes, Remove(old'[i]), old', new', i, j);
        changes := changes + [Remove(old'[i])];
        i := i + 1;
      } else {
        WalkStep(changes, Add(new'[j]), old', new', i, j);
        changes := changes + [Add(new'[j])];
        j := j + 1;
      }
    }
    while i < |old'|
      invariant Walked(changes, old', new', i, j) && (i == |old'| || j == |new'|)
    {
      WalkStep(changes, Remove(old'[i]), old', new', i, j);
      changes := changes + [Remove(old'[i])];
      i := i + 1;
    }
    while j < |new'|
      invariant Walked(changes, old', new', i, j) && i == |old'|
    {
      WalkStep(changes, Add(new'[j]), old', new', i, j);
      changes := changes + [Add(new'[j])];
      j := j + 1;
    }
  }

  // ----- the whole diff

  const CONTEXT_LINES := 2

  datatype Body = Changes(changes: seq<Change>) | Summary(removed: nat, added: nat)

  /** What `unified` writes between its two header lines and the end. */
  datatype Unified = Unified(isNew: bool, leading: seq<Line>, body: Body, trailing: seq<Line>)

  lemma TrimmingKeepsTheMaximum(before: seq<Line>, after: seq<Line>, p: nat, s: nat)
    requires p == PrefixLength(before, after) && s == SuffixLength(before[p..], after[p..])
    ensures p + s <= |before| && p + s <= |after|
    ensures Lcs(before, after) == p + Lcs(before[p..|before| - s], after[p..|after| - s]) + s
  {
    TrimmedParts(before, after, p, s);
    Parts(before, p, s);
    Parts(after, p, s);
    var start, end := before[..p], before[|before| - s..];
    LcsPrefix(before[p..|before| - s] + end, after[p..|after| - s] + end, start);
    LcsSuffix(before[p..|before| - s], after[p..|after| - s], end);
  }

  /** With its trimmed ends put back, the diff spells both texts and keeps as many lines as any diff can. */
  ghost predicate Explains(changes: seq<Change>, before: seq<Line>, after: seq<Line>, p: nat, s: nat)
    requires p + s <= |before|
  {
    && before == before[..p] + (OldLines(changes) + before[|before| - s..])
    && after == before[..p] + (NewLines(changes) + before[|before| - s..])
    && p + KeptCount(changes) + s == Lcs(before, after)
  }

  /** A diff of the middle explains the whole. */
  lemma MiddleExplains(changes: seq<Change>, before: seq<Line>, after: seq<Line>, p: nat, s: nat, oldMiddle: seq<Line>,
                       newMiddle: seq<Line>)
    requires p == PrefixLength(before, after) && s == SuffixLength(before[p..], after[p..])
    requires p + s <= |before| && p + s <= |after|
    requires oldMiddle == before[p..|before| - s] && newMiddle == after[p..|after| - s]
    requires OldLines(changes) == oldMiddle && NewLines(changes) == newMiddle
             && KeptCount(changes) == Lcs(oldMiddle, newMiddle)
    ensures Explains(changes, before, after, p, s)
  {
    TrimmingKeepsTheMaximum(before, after, p, s);
    TrimmedParts(before, after, p, s);
    Parts(before, p, s);
    Parts(after, p, s);
  }

  /** The unchanged lines shown on either side of the changes. */
  function Leading(before: seq<Line>, p: nat): seq<Line>
    requires p <= |before|
  {
    before[if p < CONTEXT_LINES then 0 else p - CONTEXT_LINES..p]
  }

  function Trailing(before: seq<Line>, s: nat): seq<Line>
    requires s <= |before|
  {
    var start := |before| - s;
    before[start..if start + CONTEXT_LINES < |before| then start + CONTEXT_LINES else |before|]
  }

  /** The middle of `unified`: the table, or one summary line when the table would be too large. */
  method WriteMiddle(old': seq<Line>, new': seq<Line>, n: nat, m: nat) returns (body: Body)
    requires n == |old'| && m == |new'|
    ensures body.Changes? <==> n * m <= MAX_TABLE_CELLS
    ensures body.Changes? ==> OldLines(body.changes) == old' && NewLines(body.changes) == new'
    ensures body.Changes? ==> KeptCount(body.changes) == Lcs(old', new')
    ensures body.Summary? ==> body == Summary(n, m)
  {
    if n * m <= MAX_TABLE_CELLS {
      var changes := PushChanges(old', new');
      body := Changes(changes);
    } else {
      body := Summary(n, m);
    }
  }

  method WriteBody(before: seq<Line>, after: seq<Line>, p: nat, s: nat) returns (body: Body)
    requires p == PrefixLength(before, after) && s == SuffixLength(before[p..], after[p..])
    ensures p + s <= |before| && p + s <= |after|
    ensures body.Changes? <==> (|before| - p - s) * (|after| - p - s) <= MAX_TABLE_CELLS
    ensures body.Changes? ==> Explains(body.changes, before, after, p, s)
    ensures body.Summary? ==> body == Summary(|before| - p - s, |after| - p - s)
  {
    TrimmedParts(before, after, p, s);
    var n, m := |before| - p - s, |after| - p - s;
    var oldMiddle, newMiddle := before[p..p + n], after[p..p + m];
    body := WriteMiddle(oldMiddle, newMiddle, n, m);
    if body.Changes? {
      MiddleExplains(body.changes, before, after, p, s, oldMiddle, newMiddle);
    }
  }

  /** A new file has no old text. */
  function Was(before: Option<seq<Line>>): seq<Line>
  {
    if before.Some? then before.value else []
  }

  /** `unified`: trim, show two lines of context on each side, and write the middle. */
  method WriteDiff(before: Option<seq<Line>>, after: seq<Line>) returns (diff: Unified, ghost p: nat, ghost s: nat)
    ensures p == PrefixLength(Was(before), after) && s == SuffixLength(Was(before)[p..], after[p..])
    ensures p + s <= |Was(before)| && p + s <= |after|
    ensures diff.isNew == before.None? && diff.leading == Leading(Was(before), p)
            && diff.trailing == Trailing(Was(before), s)
    ensures diff.body.Changes? <==> (|Was(before)| - p - s) * (|after| - p - s) <= MAX_TABLE_CELLS
    ensures diff.body.Changes? ==> Explains(diff.body.changes, Was(before), after, p, s)
    ensures diff.body.Summary? ==> diff.body == Summary(|Was(before)| - p - s, |after| - p - s)
  {
    var was := Was(before);
    var prefix := PrefixLength(was, after);
    var suffix := SuffixLength(was[prefix..], after[prefix..]);
    p, s := prefix, suffix;
    var body := WriteBody(was, after, prefix, suffix);
    diff := Unified(before.None?, Leading(was, prefix), body, Trailing(was, suffix));
  }
}
