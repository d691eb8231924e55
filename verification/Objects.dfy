/**
 Reading object literals from tokens (crates/atlas-detect/src/objects.rs). Brackets are matched once, with a stack;
 the reader then jumps over bracketed parts. Inside a matched pair every bracket is matched inside, so the reader
 never runs past the part it was given, and it stops nesting at a fixed depth.
 */
module Objects {
  import opened Wrappers

  datatype TokenKind = Word | Text | Number | TemplateChunk | Punct

  datatype Token = Token(kind: TokenKind, text: string)
  {
    predicate IsPunct(what: string) { kind.Punct? && text == what }
  }

  predicate Opens(t: Token) { t.IsPunct("(") || t.IsPunct("[") || t.IsPunct("{") || t.IsPunct("${") }

  predicate Closes(t: Token) { t.IsPunct(")") || t.IsPunct("]") || t.IsPunct("}") }

  // ----- matching brackets

  /** From inside `depth` brackets, where the outermost of them closes. */
  function CloserFrom(tokens: seq<Token>, i: nat, depth: nat): (r: Option<nat>)
    ensures r.Some? ==> i <= r.value < |tokens| && Closes(tokens[r.value])
    decreases |tokens| - i
  {
    if i >= |tokens| then None
    else if Opens(tokens[i]) then CloserFrom(tokens, i + 1, depth + 1)
    else if Closes(tokens[i]) then (if depth <= 1 then Some(i) else CloserFrom(tokens, i + 1, depth - 1))
    else CloserFrom(tokens, i + 1, depth)
  }

  /** Where the bracket at `at` closes, by counting. */
  function CloserOf(tokens: seq<Token>, at: nat): (r: Option<nat>)
    ensures r.Some? ==> at < r.value < |tokens|
  {
    if at < |tokens| && Opens(tokens[at]) then CloserFrom(tokens, at + 1, 1) else None
  }

  /** The openers on the stack at `index`: counting from each of them, as many brackets are open as are above it. */
  predicate StackCounts(tokens: seq<Token>, open: seq<nat>, index: nat)
  {
    && (forall p :: 0 <= p < |open| ==> open[p] < index && open[p] < |tokens| && Opens(tokens[open[p]]))
    && (forall p :: 0 <= p < |open| ==> CloserOf(tokens, open[p]) == CloserFrom(tokens, index, |open| - p))
    && (forall p, q :: 0 <= p < q < |open| ==> open[p] < open[q])
  }

  function NextStack(tokens: seq<Token>, open: seq<nat>, index: nat): seq<nat>
    requires index < |tokens|
  {
    if Opens(tokens[index]) then open + [index]
    else if Closes(tokens[index]) && open != [] then open[..|open| - 1]
    else open
  }

  lemma StackStep(tokens: seq<Token>, open: seq<nat>, index: nat)
    requires index < |tokens| && StackCounts(tokens, open, index)
    ensures StackCounts(tokens, NextStack(tokens, open, index), index + 1)
  {
    var next := NextStack(tokens, open, index);
    forall p | 0 <= p < |next| ensures CloserOf(tokens, next[p]) == CloserFrom(tokens, index + 1, |next| - p) {
      if p < |open| {
        assert CloserOf(tokens, open[p]) == CloserFrom(tokens, index, |open| - p);
      }
    }
  }

  lemma TopCloses(tokens: seq<Token>, open: seq<nat>, index: nat)
    requires index < |tokens| && StackCounts(tokens, open, index) && open != [] && Closes(tokens[index])
    ensures CloserOf(tokens, open[|open| - 1]) == Some(index)
  {
    assert CloserOf(tokens, open[|open| - 1]) == CloserFrom(tokens, index, 1);
  }

  lemma NeverClosed(tokens: seq<Token>, open: seq<nat>, i: nat)
    requires StackCounts(tokens, open, |tokens|) && i in open
    ensures CloserOf(tokens, i) == None
  {
    var p :| 0 <= p < |open| && open[p] == i;
    assert CloserOf(tokens, open[p]) == CloserFrom(tokens, |tokens|, |open| - p);
  }

  /** The closers found before `index`, and none for the openers still on the stack. */
  predicate ClosersSoFar(tokens: seq<Token>, closers: seq<Option<nat>>, open: seq<nat>, index: nat)
  {
    && |closers| == |tokens|
    && (forall i :: 0 <= i < index && i < |tokens| && i !in open ==> closers[i] == CloserOf(tokens, i))
    && (forall i :: 0 <= i < |tokens| && (i >= index || i in open) ==> closers[i] == None)
  }

  lemma NotAnOpener(tokens: seq<Token>, index: nat)
    requires index < |tokens| && !Opens(tokens[index])
    ensures CloserOf(tokens, index) == None
  {
  }

  lemma PushKeepsClosers(tokens: seq<Token>, closers: seq<Option<nat>>, open: seq<nat>, index: nat)
    requires index < |tokens| && ClosersSoFar(tokens, closers, open, index)
    ensures ClosersSoFar(tokens, closers, open + [index], index + 1)
  {
    forall i | 0 <= i < |tokens| ensures i in open + [index] <==> i in open || i == index {
    }
  }

  lemma PopKeepsClosers(tokens: seq<Token>, closers: seq<Option<nat>>, open: seq<nat>, index: nat)
    requires index < |tokens| && StackCounts(tokens, open, index) && ClosersSoFar(tokens, closers, open, index)
    requires open != [] && !Opens(tokens[index]) && Closes(tokens[index])
    ensures open[|open| - 1] < |closers|
    ensures ClosersSoFar(tokens, closers[open[|open| - 1] := Some(index)], open[..|open| - 1], index + 1)
  {
    var init, top := open[..|open| - 1], open[|open| - 1];
    TopCloses(tokens, open, index);
    NotAnOpener(tokens, index);
    assert open == init + [top];
    forall i | 0 <= i < |tokens| ensures i in open <==> i in init || i == top {
    }
    assert top !in init;
  }

  lemma ClosersStep(tokens: seq<Token>, closers: seq<Option<nat>>, open: seq<nat>, index: nat,
                    closers': seq<Option<nat>>)
    requires index < |tokens| && StackCounts(tokens, open, index) && ClosersSoFar(tokens, closers, open, index)
    requires closers' == if !Opens(tokens[index]) && Closes(tokens[index])
             && open != [] then closers[open[|open| - 1] := Some(index)] else closers
    ensures ClosersSoFar(tokens, closers', NextStack(tokens, open, index), index + 1)
  {
    if Opens(tokens[index]) {
      PushKeepsClosers(tokens, closers, open, index);
    } else if Closes(tokens[index]) && open != [] {
      PopKeepsClosers(tokens, closers, open, index);
    } else {
      NotAnOpener(tokens, index);
    }
  }

  ghost predicate Matched(tokens: seq<Token>, closers: seq<Option<nat>>, open: seq<nat>, index: nat)
  {
    StackCounts(tokens, open, index) && ClosersSoFar(tokens, closers, open, index)
  }

  lemma MatchedNext(tokens: seq<Token>, closers: seq<Option<nat>>, open: seq<nat>, index: nat,
                    closers': seq<Option<nat>>, open': seq<nat>)
    requires index < |tokens| && Matched(tokens, closers, open, index) && open' == NextStack(tokens, open, index)
    requires open != [] ==> open[|open| - 1] < |closers|
    requires closers' == if !Opens(tokens[index]) && Closes(tokens[index])
             && open != [] then closers[open[|open| - 1] := Some(index)] else closers
    ensures Matched(tokens, closers', open', index + 1)
  {
    StackStep(tokens, open, index);
    ClosersStep(tokens, closers, open, index, closers');
  }

  lemma MatchedAll(tokens: seq<Token>, closers: seq<Option<nat>>, open: seq<nat>)
    requires Matched(tokens, closers, open, |tokens|)
    ensures |closers| == |tokens| && forall i :: 0 <= i < |tokens| ==> closers[i] == CloserOf(tokens, i)
  {
    forall i | 0 <= i < |tokens| ensures closers[i] == CloserOf(tokens, i) {
      if i in open {
        NeverClosed(tokens, open, i);
      }
    }
  }

  /** `closing_brackets`: the stack finds for each opener what counting finds. */
  method ClosingBrackets(tokens: seq<Token>) returns (closers: array<Option<nat>>)
    ensures fresh(closers) && closers.Length == |tokens|
    ensures forall i :: 0 <= i < |tokens| ==> closers[..][i] == CloserOf(tokens, i)
  {
    closers := new Option<nat>[|tokens|](_ => None);
    var open: seq<nat> := [];
    for index := 0 to |tokens|
      invariant Matched(tokens, closers[..], open, index)
    {
      ghost var before, stack := closers[..], open;
      if Opens(tokens[index]) {
        open := open + [index];
      } else if Closes(tokens[index]) && open != [] {
        closers[open[|open| - 1]] := Some(index);
        open := open[..|open| - 1];
      }
      MatchedNext(tokens, before, stack, index, closers[..], open);
    }
    MatchedAll(tokens, closers[..], open);
  }

  /** Fewer open brackets are closed earlier. */
  lemma {:induction false} FewerCloseEarlier(tokens: seq<Token>, i: nat, depth: nat, fewer: nat)
    requires 1 <= fewer < depth && CloserFrom(tokens, i, depth).Some?
    ensures CloserFrom(tokens, i, fewer).Some?
            && CloserFrom(tokens, i, fewer).value < CloserFrom(tokens, i, depth).value
    decreases |tokens| - i
  {
    if Opens(tokens[i]) {
      FewerCloseEarlier(tokens, i + 1, depth + 1, fewer + 1);
    } else if Closes(tokens[i]) {
      if fewer > 1 {
        FewerCloseEarlier(tokens, i + 1, depth - 1, fewer - 1);
      }
    } else {
      FewerCloseEarlier(tokens, i + 1, depth, fewer);
    }
  }

  /** Before its closer, counting goes on: at `at` some brackets are open, and the same closer is ahead. */
  lemma {:induction false} CountsTo(tokens: seq<Token>, i: nat, depth: nat, at: nat) returns (now: nat)
    requires depth >= 1 && CloserFrom(tokens, i, depth).Some? && i <= at <= CloserFrom(tokens, i, depth).value
    ensures now >= 1 && CloserFrom(tokens, at, now) == CloserFrom(tokens, i, depth)
    decreases at - i
  {
    if i == at {
      now := depth;
    } else if Opens(tokens[i]) {
      now := CountsTo(tokens, i + 1, depth + 1, at);
    } else if Closes(tokens[i]) {
      now := CountsTo(tokens, i + 1, depth - 1, at);
    } else {
      now := CountsTo(tokens, i + 1, depth, at);
    }
  }

  /** Proper nesting: every opener strictly inside a matched pair is matched, and closes inside. */
  lemma InsideIsMatchedInside(tokens: seq<Token>, outer: nat, inner: nat)
    requires CloserOf(tokens, outer).Some? && outer < inner < CloserOf(tokens, outer).value && Opens(tokens[inner])
    ensures CloserOf(tokens, inner).Some? && CloserOf(tokens, inner).value < CloserOf(tokens, outer).value
  {
    var now := CountsTo(tokens, outer + 1, 1, inner);
    FewerCloseEarlier(tokens, inner + 1, now + 1, 1);
  }

  /** Two openers never share a closer. */
  lemma ClosersAreApart(tokens: seq<Token>, a: nat, b: nat)
    requires a < b && CloserOf(tokens, a).Some? && CloserOf(tokens, b).Some?
    ensures CloserOf(tokens, a) != CloserOf(tokens, b)
  {
    if b < CloserOf(tokens, a).value {
      InsideIsMatchedInside(tokens, a, b);
    }
  }

  // ----- entries

  /** How deep in brackets a place is, counted from `from`. */
  function Depth(tokens: seq<Token>, from: nat, at: nat): int
    requires from <= at <= |tokens|
  {
    if at == from then 0
    else Depth(tokens, from, at - 1) + if Opens(tokens[at - 1]) then 1 else if Closes(tokens[at - 1]) then -1 else 0
  }

  lemma {:induction false} DepthJoins(tokens: seq<Token>, from: nat, mid: nat, at: nat)
    requires from <= mid <= at <= |tokens|
    ensures Depth(tokens, from, at) == Depth(tokens, from, mid) + Depth(tokens, mid, at)
    decreases at
  {
    if mid < at {
      DepthJoins(tokens, from, mid, at - 1);
    }
  }

  /** While brackets are counted down to zero, the depth stays positive before the closer and is zero after it. */
  lemma {:induction false} DepthInside(tokens: seq<Token>, i: nat, depth: nat, at: nat)
    requires depth >= 1 && CloserFrom(tokens, i, depth).Some? && i <= at <= CloserFrom(tokens, i, depth).value
    ensures depth + Depth(tokens, i, at) >= 1
    ensures at == CloserFrom(tokens, i, depth).value ==> depth + Depth(tokens, i, at) == 1
    decreases at - i
  {
    if i < at {
      var next := if Opens(tokens[i]) then depth + 1 else if Closes(tokens[i]) then depth - 1 else depth;
      DepthInside(tokens, i + 1, next, at);
      DepthJoins(tokens, i, i + 1, at);
    } else if Closes(tokens[i]) {
    } else if at == CloserFrom(tokens, i, depth).value {
      assert false;
    }
  }

  lemma DepthOfPair(tokens: seq<Token>, open: nat, at: nat)
    requires CloserOf(tokens, open).Some? && open < at <= CloserOf(tokens, open).value + 1
    ensures at <= CloserOf(tokens, open).value ==> Depth(tokens, open, at) >= 1
    ensures at == CloserOf(tokens, open).value + 1 ==> Depth(tokens, open, at) == 0
  {
    var close := CloserOf(tokens, open).value;
    DepthJoins(tokens, open, open + 1, if at <= close then at else close);
    DepthInside(tokens, open + 1, 1, if at <= close then at else close);
  }

  /** Between `from` and `limit` every opener closes, and no closer is without its opener. */
  predicate SelfContained(tokens: seq<Token>, from: nat, limit: nat)
  {
    && from <= limit <= |tokens|
    && (forall i :: from <= i < limit && Opens(tokens[i]) ==>
        CloserOf(tokens, i).Some? && CloserOf(tokens, i).value < limit)
    && (forall i :: from <= i <= limit ==> Depth(tokens, from, i) >= 0)
  }

  /** The inside of a matched pair is self-contained. */
  lemma InsideIsSelfContained(tokens: seq<Token>, at: nat)
    requires CloserOf(tokens, at).Some?
    ensures SelfContained(tokens, at + 1, CloserOf(tokens, at).value)
  {
    var close := CloserOf(tokens, at).value;
    forall i | at + 1 <= i < close && Opens(tokens[i]) ensures CloserOf(tokens, i).Some?
      && CloserOf(tokens, i).value < close {
      InsideIsMatchedInside(tokens, at, i);
    }
    var from := at + 1;
    forall i | from <= i <= close ensures Depth(tokens, from, i) >= 0 {
      DepthInside(tokens, from, 1, i);
    }
  }

  /** So is what follows a place at depth zero. */
  lemma RestIsSelfContained(tokens: seq<Token>, from: nat, next: nat, limit: nat)
    requires SelfContained(tokens, from, limit) && from <= next <= limit && Depth(tokens, from, next) == 0
    ensures SelfContained(tokens, next, limit)
  {
    forall i | next <= i <= limit ensures Depth(tokens, next, i) >= 0 {
      DepthJoins(tokens, from, next, i);
    }
  }

  /** Past the bracket or the token at `from`, still at depth zero. */
  lemma StepOver(tokens: seq<Token>, from: nat, limit: nat) returns (next: nat)
    requires SelfContained(tokens, from, limit) && from < limit
    ensures next == if Opens(tokens[from]) then CloserOf(tokens, from).value + 1 else from + 1
    ensures from < next <= limit && Depth(tokens, from, next) == 0 && SelfContained(tokens, next, limit)
    ensures forall i :: from < i < next ==> Depth(tokens, from, i) > 0
  {
    if Opens(tokens[from]) {
      next := CloserOf(tokens, from).value + 1;
      forall i | from < i <= next ensures i < next ==> Depth(tokens, from, i) > 0 {
        DepthOfPair(tokens, from, i);
      }
      DepthOfPair(tokens, from, next);
    } else {
      next := from + 1;
      assert Depth(tokens, from, from + 1) >= 0;
      assert Depth(tokens, from, from) == 0;
    }
    RestIsSelfContained(tokens, from, next, limit);
  }

  /** `entry_end`, on the matched brackets. */
  function EntryEnd(tokens: seq<Token>, from: nat, limit: nat): (r: Option<nat>)
    requires limit <= |tokens|
    ensures r.Some? ==> from <= r.value <= limit
    decreases |tokens| - from
  {
    if from >= limit then (if from == limit then Some(limit) else None)
    else if Opens(tokens[from]) then
      match CloserOf(tokens, from)
      case None => None
      case Some(close) => EntryEnd(tokens, close + 1, limit)
    else if tokens[from].IsPunct(",") then Some(from)
    else EntryEnd(tokens, from + 1, limit)
  }

  method FindEntryEnd(tokens: seq<Token>, closers: seq<Option<nat>>, from: nat, limit: nat) returns (r: Option<nat>)
    requires limit <= |tokens| && |closers| == |tokens|
    requires forall i :: 0 <= i < |tokens| ==> closers[i] == CloserOf(tokens, i)
    ensures r == EntryEnd(tokens, from, limit)
  {
    var index := from;
    while index < limit
      invariant EntryEnd(tokens, index, limit) == EntryEnd(tokens, from, limit)
    {
      if Opens(tokens[index]) {
        if closers[index].None? {
          return None;
        }
        index := closers[index].value + 1;
        continue;
      }
      if tokens[index].IsPunct(",") {
        return Some(index);
      }
      index := index + 1;
    }
    r := if index == limit then Some(limit) else None;
  }

  /** An entry's end: inside the limit, at depth zero, with no comma at depth zero before it. */
  ghost predicate EndsEntry(tokens: seq<Token>, from: nat, limit: nat, end: nat)
    requires from <= limit <= |tokens|
  {
    && from <= end <= limit && (end < limit ==> tokens[end].IsPunct(","))
    && (forall i :: from <= i < end && tokens[i].IsPunct(",") ==> Depth(tokens, from, i) > 0)
  }

  /** On self-contained tokens an entry always ends, at its first comma outside brackets or at the limit. */
  lemma {:induction false} EntryEnds(tokens: seq<Token>, from: nat, limit: nat)
    requires SelfContained(tokens, from, limit)
    ensures EntryEnd(tokens, from, limit).Some? && EndsEntry(tokens, from, limit, EntryEnd(tokens, from, limit).value)
    ensures Depth(tokens, from, EntryEnd(tokens, from, limit).value) == 0
    decreases |tokens| - from
  {
    if from < limit && !tokens[from].IsPunct(",") {
      var next := StepOver(tokens, from, limit);
      EntryEnds(tokens, next, limit);
      var end := EntryEnd(tokens, from, limit).value;
      forall i | next <= i <= end ensures Depth(tokens, from, i) == Depth(tokens, next, i) {
        DepthJoins(tokens, from, next, i);
      }
    }
  }
}
