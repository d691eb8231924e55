/**
 Comments, attributes and decorators (crates/atlas-edit/src/region.rs): where each one ends. The functions work on
 the text up to the declaration and take positions in it; `base` is where the scanned part begins, and only the
 two places that look back depend on it.
 */
module Trivia {
  import opened Wrappers
  import opened Utf8
  import opened WhiteSpace

  datatype Syntax = Rust | TypeScript

  const SLASH: byte := 47
  const STAR: byte := 42
  const NEWLINE: byte := 10
  const BACKSLASH: byte := 92
  const QUOTE: byte := 34
  const TICK: byte := 39

  /** The text has these bytes at the position. */
  predicate At(t: seq<byte>, position: nat, what: seq<byte>)
  {
    position + |what| <= |t| && t[position..position + |what|] == what
  }

  predicate ByteAt(t: seq<byte>, position: nat, b: byte) { position < |t| && t[position] == b }

  predicate IsAlphabetic(b: byte) { 65 <= b <= 90 || 97 <= b <= 122 }

  predicate IsIdentifierByte(b: byte) { IsAlphabetic(b) || 48 <= b <= 57 || b == 95 || b == 36 }

  /** ASCII white space: space, tab, newline, form feed, return. */
  predicate IsAsciiSpace(b: byte) { b == 32 || b == 9 || b == 10 || b == 12 || b == 13 }

  /** The first place at or after `from` where the byte stands, or the end. */
  function FindByte(t: seq<byte>, from: nat, b: byte): (r: nat)
    requires from <= |t|
    ensures from <= r <= |t| && (r < |t| ==> t[r] == b) && forall i :: from <= i < r ==> t[i] != b
    decreases |t| - from
  {
    if from == |t| || t[from] == b then from else FindByte(t, from + 1, b)
  }

  /** The first place at or after `from` where the bytes stand. */
  function FindBytes(t: seq<byte>, from: nat, what: seq<byte>): (r: Option<nat>)
    ensures r.Some? ==> from <= r.value && At(t, r.value, what)
    decreases |t| - from
  {
    if At(t, from, what) then Some(from) else if from >= |t| then None else FindBytes(t, from + 1, what)
  }

  // ----- block comments

  /** From inside `depth` comments; they nest in Rust only. */
  function BlockEnd(t: seq<byte>, position: nat, depth: nat, syntax: Syntax): (r: Option<nat>)
    ensures r.Some? ==> position + 2 <= r.value <= |t| && t[r.value - 1] == SLASH
    decreases |t| - position
  {
    if position + 1 >= |t| then None
    else if t[position] == SLASH && t[position + 1] == STAR && (depth == 0 || syntax.Rust?) then
      BlockEnd(t, position + 2, depth + 1, syntax)
    else if t[position] == STAR && t[position + 1] == SLASH then
      (if depth <= 1 then Some(position + 2) else BlockEnd(t, position + 2, depth - 1, syntax))
    else BlockEnd(t, position + 1, depth, syntax)
  }

  /** `block_comment_end`: the depth it counts down is never zero. */
  method BlockCommentEnd(t: seq<byte>, start: nat, syntax: Syntax) returns (r: Option<nat>)
    requires At(t, start, [SLASH, STAR])
    ensures r == BlockEnd(t, start, 0, syntax)
  {
    assert t[start] == SLASH && t[start + 1] == STAR by {
      assert t[start..start + 2][0] == t[start] && t[start..start + 2][1] == t[start + 1];
    }
    var depth: nat := 0;
    var position := start;
    while position + 1 < |t|
      invariant start <= position && (depth == 0 ==> position == start)
      invariant BlockEnd(t, position, depth, syntax) == BlockEnd(t, start, 0, syntax)
      decreases |t| - position
    {
      if t[position] == SLASH && t[position + 1] == STAR && (depth == 0 || syntax.Rust?) {
        depth := depth + 1;
        position := position + 2;
      } else if t[position] == STAR && t[position + 1] == SLASH {
        depth := depth - 1;
        position := position + 2;
        if depth == 0 {
          return Some(position);
        }
      } else {
        position := position + 1;
      }
    }
    r := None;
  }

  predicate ClosesComment(t: seq<byte>, k: nat) { k + 1 < |t| && t[k] == STAR && t[k + 1] == SLASH }

  /** In TypeScript a block comment ends at the first closing mark after its opening mark, whatever else it holds. */
  lemma {:induction false} CommentEndsAtFirstMark(t: seq<byte>, position: nat, r: Option<nat>)
    requires r == BlockEnd(t, position, 1, TypeScript)
    ensures r.Some? ==> ClosesComment(t, r.value - 2)
    ensures forall k :: position <= k && (r.Some? ==> k < r.value - 2) ==> !ClosesComment(t, k)
    decreases |t| - position
  {
    if position + 1 < |t| && !ClosesComment(t, position) {
      CommentEndsAtFirstMark(t, position + 1, r);
    }
  }

  // ----- strings and regular expressions

  function QuotedEnd(t: seq<byte>, position: nat, quote: byte): (end: nat)
    requires position <= |t|
    ensures position <= end <= |t| && (end == |t| || (position < end && t[end - 1] == quote))
    decreases |t| - position
  {
    if position >= |t| then |t|
    else if t[position] == BACKSLASH then (if position + 2 <= |t| then QuotedEnd(t, position + 2, quote) else |t|)
    else if t[position] == quote then position + 1
    else QuotedEnd(t, position + 1, quote)
  }

  function CountHashes(t: seq<byte>, position: nat): (n: nat)
    ensures position <= |t| ==> position + n <= |t|
    decreases |t| - position
  {
    if ByteAt(t, position, 35) then 1 + CountHashes(t, position + 1) else 0
  }

  function Hashes(n: nat): seq<byte> { seq(n, _ => 35) }

  /** `raw_string_end`. */
  function RawStringEnd(t: seq<byte>, start: nat): (r: Option<nat>)
    requires start < |t|
    ensures r.Some? ==> start < r.value <= |t| && (r.value == |t| || t[r.value - 1] < 0x80)
  {
    var hashes := CountHashes(t, start + 1);
    if !ByteAt(t, start + 1 + hashes, QUOTE) then None
    else
      var bodyStart := start + 1 + hashes + 1;
      match FindBytes(t, bodyStart, [QUOTE] + Hashes(hashes))
      case None => Some(|t|)
      case Some(found) =>
        assert t[found..found + 1 + hashes][hashes] == t[found + hashes];
        Some(found + 1 + hashes)
  }

  function CharWidth(b: byte): nat { if b < 0x80 then 1 else if b < 0xE0 then 2 else if b < 0xF0 then 3 else 4 }

  /** `char_literal_end`: an escape runs to the next quote; otherwise one character stands between quotes. */
  function CharLiteralEnd(t: seq<byte>, start: nat): (r: Option<nat>)
    requires start < |t|
    ensures r.Some? ==> start < r.value <= |t| && t[r.value - 1] == TICK
  {
    if ByteAt(t, start + 1, BACKSLASH) then
      if start + 3 > |t| || !IsCharBoundary(t, start + 3) then None
      else
        var found := FindByte(t, start + 3, TICK);
        if found < |t| then Some(found + 1) else None
    else if start + 1 >= |t| then None
    else
      var next := start + 1 + CharWidth(t[start + 1]);
      if ByteAt(t, next, TICK) then Some(next + 1) else None
  }

  /** `string_end`; a raw string may not continue an identifier, as far as the scanned part shows. */
  function StringEnd(t: seq<byte>, base: nat, position: nat, syntax: Syntax): (r: Option<nat>)
    requires base <= position < |t|
    ensures r.Some? ==> position < r.value <= |t| && (r.value == |t| || t[r.value - 1] < 0x80)
  {
    if t[position] == QUOTE then Some(QuotedEnd(t, position + 1, QUOTE))
    else if syntax.TypeScript? && (t[position] == TICK || t[position] == 96)
      then Some(QuotedEnd(t, position + 1, t[position]))
    else if syntax.Rust? && t[position] == 114
      && (position == base || !IsIdentifierByte(t[position - 1])) then RawStringEnd(t, position)
    else if syntax.Rust? && t[position] == TICK then CharLiteralEnd(t, position)
    else None
  }

  /** The last byte before `at` that is no white space, in the scanned part. */
  function LastSolid(t: seq<byte>, base: nat, at: nat): Option<byte>
    requires at <= |t|
    decreases at
  {
    if at <= base then None
    else if IsAsciiSpace(t[at - 1]) then LastSolid(t, base, at - 1)
    else Some(t[at - 1])
  }

  /** One of `(,=:[!&|?{};+-*%<>~^`. */
  predicate BeforeRegex(b: byte)
  {
    || b == 40 || b == 44 || b == 61 || b == 58 || b == 91 || b == 33 || b == 38 || b == 124 || b == 63 || b == 123
    || b == 125 || b == 59 || b == 43 || b == 45 || b == 42 || b == 37 || b == 60 || b == 62 || b == 126 || b == 94
  }

  /** `regex_may_start`. */
  predicate RegexMayStart(t: seq<byte>, base: nat, slash: nat)
    requires slash <= |t|
  {
    var previous := LastSolid(t, base, slash);
    previous.None? || BeforeRegex(previous.value)
  }

  function SkipAlphabetic(t: seq<byte>, position: nat): (r: nat)
    requires position <= |t|
    ensures position <= r <= |t| && (r == position || IsAlphabetic(t[r - 1]))
    decreases |t| - position
  {
    if position < |t| && IsAlphabetic(t[position]) then SkipAlphabetic(t, position + 1) else position
  }

  /** `regex_literal_end`, after the first slash. */
  function RegexEnd(t: seq<byte>, position: nat, inClass: bool): (r: Option<nat>)
    ensures r.Some? ==> position < r.value <= |t| && t[r.value - 1] < 0x80
    decreases |t| - position
  {
    if position >= |t| || t[position] == NEWLINE then None
    else if t[position] == BACKSLASH then RegexEnd(t, position + 2, inClass)
    else if t[position] == 91 then RegexEnd(t, position + 1, true)
    else if t[position] == 93 then RegexEnd(t, position + 1, false)
    else if t[position] == SLASH && !inClass then Some(SkipAlphabetic(t, position + 1))
    else RegexEnd(t, position + 1, inClass)
  }

  // ----- brackets

  /** What may hide brackets: nothing here, something without an end, or something that ends; or the scan panics. */
  datatype Nested = Nothing | Endless | Ends(at: nat) | Panics

  function EndsOrNothing(r: Option<nat>): Nested { if r.Some? then Ends(r.value) else Nothing }

  /** The place is the end of the text, or a newline stands there, or an ASCII byte before it. */
  predicate EndsClean(t: seq<byte>, at: nat)
  {
    0 < at <= |t| && (at == |t| || t[at] == NEWLINE || t[at - 1] < 0x80)
  }

  function EndsOrEndless(r: Option<nat>): Nested { if r.Some? then Ends(r.value) else Endless }

  /** `skip_nested`: it slices the text at the position, which panics inside a character. */
  function SkipNested(t: seq<byte>, base: nat, position: nat, syntax: Syntax): (r: Nested)
    requires base <= position < |t|
    ensures r.Ends? ==> position < r.at && EndsClean(t, r.at)
  {
    if !IsCharBoundary(t, position) then Panics
    else if At(t, position, [SLASH, SLASH]) then Ends(FindByte(t, position + 2, NEWLINE))
    else if At(t, position, [SLASH, STAR]) then EndsOrEndless(BlockEnd(t, position, 0, syntax))
    else if syntax.TypeScript? && t[position] == SLASH && RegexMayStart(t, base, position) then
      EndsOrNothing(RegexEnd(t, position + 1, false))
    else EndsOrNothing(StringEnd(t, base, position, syntax))
  }

  datatype Step = Stop(end: Nested) | On(next: nat, depth: nat)

  /** What one place does to the count of brackets. */
  function BracketStep(t: seq<byte>, base: nat, position: nat, depth: nat, opener: byte, closer: byte,
                       syntax: Syntax): (r: Step)
    requires base <= position < |t|
    ensures r.On? ==> position < r.next <= |t|
    ensures r.Stop? ==> !r.end.Nothing? && (r.end.Ends? ==> r.end.at == position + 1)
  {
    if t[position] == opener then On(position + 1, depth + 1)
    else if t[position] == closer then (if depth <= 1 then Stop(Ends(position + 1)) else On(position + 1, depth - 1))
    else
      match SkipNested(t, base, position, syntax)
      case Nothing => On(position + 1, depth)
      case Endless => Stop(Endless)
      case Ends(next) => On(next, depth)
      case Panics => Stop(Panics)
  }

  /** From inside `depth` brackets, the place after the outermost closer. */
  function Balanced(t: seq<byte>, base: nat, position: nat, depth: nat, opener: byte, closer: byte,
                    syntax: Syntax): (r: Nested)
    requires base <= position
    ensures !r.Nothing? && (r.Ends? ==> position < r.at <= |t| && t[r.at - 1] == closer)
    decreases |t| - position
  {
    if position >= |t| then Endless
    else
      match BracketStep(t, base, position, depth, opener, closer, syntax)
      case Stop(end) => end
      case On(next, now) => Balanced(t, base, next, now, opener, closer, syntax)
  }

  /** `balanced_end`: it starts at an opener, so the depth it counts down is never zero. */
  method BalancedEnd(t: seq<byte>, base: nat, open: nat, opener: byte, closer: byte, syntax: Syntax)
    returns (r: Nested)
    requires base <= open && ByteAt(t, open, opener) && opener != closer
    ensures r == Balanced(t, base, open, 0, opener, closer, syntax)
  {
    var depth: nat := 0;
    var position := open;
    while position < |t|
      invariant open <= position && (depth == 0 ==> position == open)
      invariant Balanced(t, base, position, depth, opener, closer, syntax) ==
                Balanced(t, base, open, 0, opener, closer, syntax)
      decreases |t| - position
    {
      match BracketStep(t, base, position, depth, opener, closer, syntax) {
        case Stop(end) =>
          return end;
        case On(next, now) =>
          position, depth := next, now;
      }
    }
    r := Endless;
  }

  /** Behind a solid byte of the scanned part, where that part begins makes no difference. */
  lemma {:induction false} LastSolidLocal(t: seq<byte>, base: nat, base': nat, open: nat, at: nat)
    requires base <= open && base' <= open < at <= |t| && !IsAsciiSpace(t[open])
    ensures LastSolid(t, base, at) == LastSolid(t, base', at)
    decreases at
  {
    if IsAsciiSpace(t[at - 1]) {
      LastSolidLocal(t, base, base', open, at - 1);
    }
  }

  lemma SkipNestedLocal(t: seq<byte>, base: nat, base': nat, open: nat, position: nat, syntax: Syntax)
    requires base <= open && base' <= open < position < |t| && !IsAsciiSpace(t[open])
    ensures SkipNested(t, base, position, syntax) == SkipNested(t, base', position, syntax)
  {
    LastSolidLocal(t, base, base', open, position);
  }

  lemma BracketStepLocal(t: seq<byte>, base: nat, base': nat, open: nat, position: nat, depth: nat, opener: byte,
                         closer: byte, syntax: Syntax)
    requires base <= open && base' <= open < position < |t| && !IsAsciiSpace(t[open])
    ensures BracketStep(t, base, position, depth, opener, closer, syntax) ==
            BracketStep(t, base', position, depth, opener, closer, syntax)
  {
    SkipNestedLocal(t, base, base', open, position, syntax);
  }

  lemma {:induction false} BalancedLocal(t: seq<byte>, base: nat, base': nat, open: nat, position: nat, depth: nat,
                                         opener: byte, closer: byte, syntax: Syntax)
    requires base <= open && base' <= open < position && open < |t| && !IsAsciiSpace(t[open])
    ensures Balanced(t, base, position, depth, opener, closer, syntax) ==
            Balanced(t, base', position, depth, opener, closer, syntax)
    decreases |t| - position
  {
    if position < |t| {
      BracketStepLocal(t, base, base', open, position, depth, opener, closer, syntax);
      var step := BracketStep(t, base, position, depth, opener, closer, syntax);
      if step.On? {
        BalancedLocal(t, base, base', open, step.next, step.depth, opener, closer, syntax);
      }
    }
  }

  /** A bracket's end depends on nothing before the bracket. */
  lemma BalancedFromOpener(t: seq<byte>, base: nat, base': nat, open: nat, opener: byte, closer: byte, syntax: Syntax)
    requires base <= open && base' <= open && ByteAt(t, open, opener) && !IsAsciiSpace(opener)
    ensures Balanced(t, base, open, 0, opener, closer, syntax) == Balanced(t, base', open, 0, opener, closer, syntax)
  {
    BalancedLocal(t, base, base', open, open + 1, 1, opener, closer, syntax);
  }

  // ----- where the bracket scan panics

  /** The bracket scan if it went on by whole characters. */
  function CharStep(t: seq<byte>, base: nat, position: nat, depth: nat, opener: byte, closer: byte,
                    syntax: Syntax): (r: Step)
    requires base <= position < |t|
    ensures r.On? ==> position < r.next
  {
    if t[position] >= 0x80 then On(position + CharWidth(t[position]), depth)
    else BracketStep(t, base, position, depth, opener, closer, syntax)
  }

  function ByChars(t: seq<byte>, base: nat, position: nat, depth: nat, opener: byte, closer: byte,
                   syntax: Syntax): (r: Nested)
    requires base <= position
    decreases |t| - position
  {
    if position >= |t| then Endless
    else
      match CharStep(t, base, position, depth, opener, closer, syntax)
      case Stop(end) => end
      case On(next, now) => ByChars(t, base, next, now, opener, closer, syntax)
  }

  /** The scan comes to a character that is not ASCII, between the brackets and outside what it skips as a whole. */
  predicate MeetsWide(t: seq<byte>, base: nat, position: nat, depth: nat, opener: byte, closer: byte, syntax: Syntax)
    requires base <= position
    decreases |t| - position
  {
    && position < |t|
    && (t[position] >= 0x80 ||
        var step := BracketStep(t, base, position, depth, opener, closer, syntax);
        step.On? && MeetsWide(t, base, step.next, step.depth, opener, closer, syntax))
  }

  /** In valid text what hides brackets ends at a character boundary. */
  lemma SkipsWholeCharacters(t: seq<byte>, base: nat, position: nat, syntax: Syntax)
    requires IsUtf8(t) && base <= position < |t| && IsCharBoundary(t, position)
    ensures !SkipNested(t, base, position, syntax).Panics?
    ensures SkipNested(t, base, position, syntax).Ends? ==>
              IsCharBoundary(t, SkipNested(t, base, position, syntax).at)
  {
    var r := SkipNested(t, base, position, syntax);
    if r.Ends? {
      CleanIsBoundary(t, r.at);
    }
  }

  lemma CleanIsBoundary(t: seq<byte>, at: nat)
    requires IsUtf8(t) && EndsClean(t, at)
    ensures IsCharBoundary(t, at)
  {
    if t[at - 1] < 0x80 {
      BoundaryAfterAscii(t, at);
    }
  }

  lemma AtFirst(t: seq<byte>, position: nat, what: seq<byte>)
    requires position < |t| && what != []
    ensures At(t, position, what) ==> t[position] == what[0]
  {
    if At(t, position, what) {
      assert t[position..position + |what|][0] == t[position];
    }
  }

  /** After a first byte of 0x80 or more the next place is inside the character, where slicing panics. */
  lemma WidePanics(t: seq<byte>, base: nat, position: nat, depth: nat, opener: byte, closer: byte, syntax: Syntax)
    requires IsUtf8(t) && base <= position < |t| && IsCharBoundary(t, position) && t[position] >= 0x80
    requires opener < 0x80 && closer < 0x80
    ensures Balanced(t, base, position, depth, opener, closer, syntax).Panics?
  {
    var width := CharAt(t, position);
    assert IsContinuation(t[position + 1]);
    AtFirst(t, position, [SLASH, SLASH]);
    AtFirst(t, position, [SLASH, STAR]);
    assert BracketStep(t, base, position, depth, opener, closer, syntax) == On(position + 1, depth);
    assert BracketStep(t, base, position + 1, depth, opener, closer, syntax) == Stop(Panics);
  }

  /**
   In valid text the bracket scan panics exactly when it comes to a character that is not ASCII, and otherwise it
   finds what a scan by whole characters would.
   */
  lemma {:induction false} BracketsPanicExactlyWhen(t: seq<byte>, base: nat, position: nat, depth: nat, opener: byte,
                                                    closer: byte, syntax: Syntax)
    requires IsUtf8(t) && base <= position <= |t| && IsCharBoundary(t, position) && opener < 0x80 && closer < 0x80
    ensures Balanced(t, base, position, depth, opener, closer, syntax).Panics? <==>
            MeetsWide(t, base, position, depth, opener, closer, syntax)
    ensures !MeetsWide(t, base, position, depth, opener, closer, syntax) ==>
              Balanced(t, base, position, depth, opener, closer, syntax) ==
              ByChars(t, base, position, depth, opener, closer, syntax)
    decreases |t| - position
  {
    if position < |t| {
      if t[position] >= 0x80 {
        WidePanics(t, base, position, depth, opener, closer, syntax);
      } else {
        SkipsWholeCharacters(t, base, position, syntax);
        BoundaryAfterAscii(t, position + 1);
        var step := BracketStep(t, base, position, depth, opener, closer, syntax);
        if step.On? {
          BracketsPanicExactlyWhen(t, base, step.next, step.depth, opener, closer, syntax);
        }
      }
    }
  }

  // ----- decorators

  predicate StopsArguments(b: byte) { b == NEWLINE || b == 40 || b == 41 || b == 59 }

  /** `type_arguments_end`, from inside `depth` angle brackets; an arrow's head is none. */
  function TypeArguments(t: seq<byte>, position: nat, depth: nat): (r: Option<nat>)
    requires position > 0
    ensures r.Some? ==> position < r.value <= |t| && t[r.value - 1] == 62
    decreases |t| - position
  {
    if position >= |t| then None
    else if t[position] == 60 then TypeArguments(t, position + 1, depth + 1)
    else if t[position] == 62 && t[position - 1] != 61 then
      (if depth <= 1 then Some(position + 1) else TypeArguments(t, position + 1, depth - 1))
    else if depth == 0 && StopsArguments(t[position]) then None
    else TypeArguments(t, position + 1, depth)
  }

  method TypeArgumentsEnd(t: seq<byte>, open: nat) returns (r: Option<nat>)
    requires 0 < open && ByteAt(t, open, 60)
    ensures r == TypeArguments(t, open, 0)
  {
    var depth: nat := 0;
    for position := open to |t|
      invariant depth == 0 ==> position == open
      invariant TypeArguments(t, position, depth) == TypeArguments(t, open, 0)
    {
      var b := t[position];
      if b == 60 {
        depth := depth + 1;
      } else if b == 62 && t[position - 1] != 61 {
        depth := depth - 1;
        if depth == 0 {
          return Some(position + 1);
        }
      } else if depth == 0 && StopsArguments(b) {
        return None;
      }
    }
    r := None;
  }

  /** What a byte adds to the depth in angle brackets. */
  function Angle(t: seq<byte>, i: nat): int
    requires 0 < i < |t|
  {
    if t[i] == 60 then 1 else if t[i] == 62 && t[i - 1] != 61 then -1 else 0
  }

  function AngleDepth(t: seq<byte>, from: nat, to: nat): int
    requires 0 < from <= to <= |t|
  {
    if from == to then 0 else AngleDepth(t, from, to - 1) + Angle(t, to - 1)
  }

  lemma {:induction false} TypeArgumentsCount(t: seq<byte>, open: nat, position: nat, depth: nat, r: Option<nat>)
    requires 0 < open < position <= |t| && depth == AngleDepth(t, open, position) > 0
             && r == TypeArguments(t, position, depth)
    ensures r.Some? ==> AngleDepth(t, open, r.value) == 0
    ensures forall k :: position <= k <= |t| && (r.Some? ==> k < r.value) ==> AngleDepth(t, open, k) > 0
    decreases |t| - position
  {
    if position < |t| {
      var next := AngleDepth(t, open, position + 1);
      assert next == depth + Angle(t, position);
      if next > 0 {
        TypeArgumentsCount(t, open, position + 1, next, r);
      }
    }
  }

  /** Type arguments end at the first place where as many brackets have closed as have opened. */
  lemma TypeArgumentsBalance(t: seq<byte>, open: nat, r: Option<nat>)
    requires 0 < open && ByteAt(t, open, 60) && r == TypeArguments(t, open, 0)
    ensures r.Some? ==> open < r.value <= |t| && AngleDepth(t, open, r.value) == 0
    ensures forall k :: open < k <= |t| && (r.Some? ==> k < r.value) ==> AngleDepth(t, open, k) > 0
  {
    assert AngleDepth(t, open, open) == 0 && Angle(t, open) == 1;
    assert AngleDepth(t, open, open + 1) == 1;
    TypeArgumentsCount(t, open, open + 1, 1, r);
  }

  function SkipIdentifier(t: seq<byte>, position: nat): (r: nat)
    requires position <= |t|
    ensures position <= r <= |t| && (r == position || IsIdentifierByte(t[r - 1]))
    decreases |t| - position
  {
    if position < |t| && IsIdentifierByte(t[position]) then SkipIdentifier(t, position + 1) else position
  }

  /** The names of a decorator, joined by dots. */
  function DecoratorName(t: seq<byte>, position: nat): (r: Option<nat>)
    ensures r.Some? ==> position < r.value <= |t| && IsIdentifierByte(t[r.value - 1])
    decreases |t| - position
  {
    if position >= |t| || !(IsAlphabetic(t[position]) || t[position] == 95 || t[position] == 36) then None
    else
      var end := SkipIdentifier(t, position + 1);
      if ByteAt(t, end, 46) then DecoratorName(t, end + 1) else Some(end)
  }

  /** The arguments of a decorator, if there are any. */
  function DecoratorArguments(t: seq<byte>, base: nat, position: nat): (r: Nested)
    requires base <= position <= |t|
    ensures r.Ends? ==> r.at == position || (position < r.at <= |t| && t[r.at - 1] == 41)
  {
    if ByteAt(t, position, 40) then Balanced(t, base, position, 0, 40, 41, TypeScript) else Ends(position)
  }

  /** `decorator_end`: nothing where no name follows the sign. */
  function DecoratorEnd(t: seq<byte>, base: nat, at: nat): (r: Nested)
    requires base <= at < |t|
    ensures r.Ends? ==> at < r.at && EndsClean(t, r.at)
  {
    match DecoratorName(t, at + 1)
    case None => Nothing
    case Some(name) =>
      if ByteAt(t, name, 60) then
        match TypeArguments(t, name, 0)
        case None => Endless
        case Some(end) => DecoratorArguments(t, base, end)
      else DecoratorArguments(t, base, name)
  }

  lemma DecoratorLocal(t: seq<byte>, base: nat, base': nat, at: nat)
    requires base <= at && base' <= at < |t|
    ensures DecoratorEnd(t, base, at) == DecoratorEnd(t, base', at)
  {
    var name := DecoratorName(t, at + 1);
    if name.Some? {
      var end := if ByteAt(t, name.value, 60) then TypeArguments(t, name.value, 0) else name;
      if end.Some? && ByteAt(t, end.value, 40) {
        BalancedFromOpener(t, base, base', end.value, 40, 41, TypeScript);
      }
    }
  }

  // ----- one token

  datatype TokenKind = DocComment | Comment | Attribute

  datatype Token = Token(kind: TokenKind, offset: nat, end: nat)

  /** White space in the sense of `trim_start`, decoded from the text. */
  function TrimStart(s: seq<byte>): seq<byte>
  {
    match DecodeChar(s)
    case None => s
    case Some((c, width)) => if IsSpace(c) then TrimStart(s[width..]) else s
  }

  /** `is_doc_attribute`: `#[doc = …]`. */
  predicate IsDocAttribute(attribute: seq<byte>)
  {
    && [35, 91] <= attribute
    && var rest := TrimStart(attribute[2..]);
    [100, 111, 99] <= rest && [61] <= TrimStart(rest[3..])
  }

  /** `comment_kind`. */
  function CommentKind(t: seq<byte>, position: nat, syntax: Syntax): TokenKind
  {
    var blockDoc := At(t, position, [SLASH, STAR, STAR]) && !At(t, position, [SLASH, STAR, STAR, STAR])
      && !At(t, position, [SLASH, STAR, STAR, SLASH]);
    var lineDoc := syntax.Rust? && At(t, position, [SLASH, SLASH, SLASH])
      && !At(t, position, [SLASH, SLASH, SLASH, SLASH]);
    if blockDoc || lineDoc then DocComment else Comment
  }

  datatype Lexed = Code | Unterminated | Found(token: Token) | Panicked

  /** The token of a kind that ends there, if it does. */
  function FoundOr(kind: TokenKind, position: nat, end: Nested): Lexed
  {
    match end
    case Nothing => Code
    case Endless => Unterminated
    case Ends(at) => Found(Token(kind, position, at))
    case Panics => Panicked
  }

  /** What stands at a position that is neither blank nor a newline; the text is sliced there. */
  function TokenAt(t: seq<byte>, base: nat, syntax: Syntax, position: nat): (r: Lexed)
    requires base <= position < |t|
    ensures r.Found? ==> r.token.offset == position < r.token.end && EndsClean(t, r.token.end)
  {
    if !IsCharBoundary(t, position) then Panicked
    else if At(t, position, [SLASH, SLASH]) then
      if syntax.Rust? && At(t, position, [SLASH, SLASH, 33]) then Code
      else Found(Token(CommentKind(t, position, syntax), position, FindByte(t, position + 2, NEWLINE)))
    else if At(t, position, [SLASH, STAR]) then
      if syntax.Rust? && At(t, position, [SLASH, STAR, 33]) then Code
      else FoundOr(CommentKind(t, position, syntax), position, EndsOrEndless(BlockEnd(t, position, 0, syntax)))
    else if syntax.Rust? && At(t, position, [35, 91]) then
      var end := Balanced(t, base, position + 1, 0, 91, 93, Rust);
      FoundOr(if end.Ends? && IsDocAttribute(t[position..end.at]) then DocComment else Attribute, position, end)
    else if syntax.TypeScript? && t[position] == 64 then FoundOr(Attribute, position, DecoratorEnd(t, base, position))
    else Code
  }

  /** A token depends on nothing before it. */
  lemma TokenLocal(t: seq<byte>, base: nat, base': nat, syntax: Syntax, position: nat)
    requires base <= position && base' <= position < |t|
    ensures TokenAt(t, base, syntax, position) == TokenAt(t, base', syntax, position)
  {
    if syntax.Rust? && At(t, position, [35, 91]) {
      assert t[position..position + 2][1] == t[position + 1];
      BalancedFromOpener(t, base, base', position + 1, 91, 93, Rust);
    } else if syntax.TypeScript? {
      DecoratorLocal(t, base, base', position);
    }
  }

  /** Where the parenthesis of a decorator's arguments is. */
  function ArgumentsOf(t: seq<byte>, at: nat): (r: Option<nat>)
    requires at < |t|
    ensures r.Some? ==> at < r.value < |t| && t[r.value] == 40
  {
    var name := DecoratorName(t, at + 1);
    var end := if name.Some? && ByteAt(t, name.value, 60) then TypeArguments(t, name.value, 0) else name;
    if end.Some? && ByteAt(t, end.value, 40) then end else None
  }

  /** An attribute or decorator whose brackets hold a character that is not ASCII where nothing hides it. */
  predicate WideAttribute(t: seq<byte>, base: nat, syntax: Syntax, p: nat)
    requires base <= p < |t|
  {
    if syntax.Rust? then At(t, p, [35, 91]) && MeetsWide(t, base, p + 1, 0, 91, 93, Rust)
    else
      && t[p] == 64 && ArgumentsOf(t, p).Some?
      && MeetsWide(t, base, ArgumentsOf(t, p).value, 0, 40, 41, TypeScript)
  }

  lemma DecoratorPanicsExactlyWhen(t: seq<byte>, base: nat, at: nat)
    requires IsUtf8(t) && base <= at < |t| && t[at] == 64
    ensures DecoratorEnd(t, base, at).Panics? <==> WideAttribute(t, base, TypeScript, at)
  {
    var arguments := ArgumentsOf(t, at);
    if arguments.Some? {
      assert IsCharBoundary(t, arguments.value);
      BracketsPanicExactlyWhen(t, base, arguments.value, 0, 40, 41, TypeScript);
    }
  }

  lemma AttributePanicsExactlyWhen(t: seq<byte>, base: nat, p: nat)
    requires IsUtf8(t) && base <= p < |t| && At(t, p, [35, 91])
    ensures Balanced(t, base, p + 1, 0, 91, 93, Rust).Panics? <==> WideAttribute(t, base, Rust, p)
  {
    assert t[p..p + 2][0] == t[p] && t[p..p + 2][1] == t[p + 1];
    BracketsPanicExactlyWhen(t, base, p + 1, 0, 91, 93, Rust);
  }

  /** In valid text reading a token panics exactly at such an attribute, and a token ends at a character boundary. */
  lemma TokenPanicsExactlyWhen(t: seq<byte>, base: nat, syntax: Syntax, p: nat, r: Lexed)
    requires IsUtf8(t) && base <= p < |t| && IsCharBoundary(t, p) && r == TokenAt(t, base, syntax, p)
    ensures r.Panicked? <==> WideAttribute(t, base, syntax, p)
    ensures r.Found? ==> IsCharBoundary(t, r.token.end)
  {
    if r.Found? {
      CleanIsBoundary(t, r.token.end);
    }
    if t[p] == SLASH {
      AtFirst(t, p, [35, 91]);
    } else {
      AtFirst(t, p, [SLASH, SLASH]);
      AtFirst(t, p, [SLASH, STAR]);
      if syntax.Rust? {
        if At(t, p, [35, 91]) {
          AttributePanicsExactlyWhen(t, base, p);
        }
      } else if t[p] == 64 {
        DecoratorPanicsExactlyWhen(t, base, p);
      }
    }
  }
}
