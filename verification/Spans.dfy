/**
 Source spans, found twice: by counting newlines from the start (crates/atlas-core/src/span.rs) and by searching
 cached line starts (crates/atlas-detect/src/view.rs). Both give the same span wherever numbers fit 32 bits, and
 tokens in a byte range are found by two binary searches instead of a filter.
 */
module Spans {
  import opened Wrappers
  import opened Utf8
  import opened Lines

  const U32_MAX: nat := 0xFFFF_FFFF

  datatype Position = Position(line: nat, col: nat)

  datatype Span = Span(startByte: nat, endByte: nat, startLine: nat, startCol: nat, endLine: nat, endCol: nat)

  function Fits(n: nat): Option<nat> { if n <= U32_MAX then Some(n) else None }

  function Saturated(n: nat): nat { if n <= U32_MAX then n else U32_MAX }

  function SaturatingSucc(n: nat): nat { Saturated(n + 1) }

  // ----- by counting

  /** The place after the last newline, or the beginning: `rposition` and one. */
  function AfterLastNewline(before: seq<byte>): (r: nat)
    ensures r <= |before|
  {
    if before == [] || EndsLine(before) then |before| else AfterLastNewline(before[..|before| - 1])
  }

  /** `Span::position_of`. */
  function PositionOf(source: seq<byte>, at: nat): Position
    requires at <= |source|
  {
    var before := source[..at];
    Position(SaturatingSucc(Saturated(CountNewlines(before))), Saturated(at - AfterLastNewline(before)))
  }

  /** `Span::of_text`. */
  function OfText(source: seq<byte>, startByte: nat, endByte: nat): Option<Span>
  {
    if startByte > endByte || endByte > |source| then None
    else
      var start, end := PositionOf(source, startByte), PositionOf(source, endByte);
      match (Fits(startByte), Fits(endByte))
      case (Some(s), Some(e)) => Some(Span(s, e, start.line, start.col, end.line, end.col))
      case _ => None
  }

  // ----- by searching the line starts

  /**
   The closure `position` of `span_of`: the line's number, from one, and the column, where they fit. No line starts
   later.
   */
  function FindPosition(lineStarts: seq<nat>, at: nat): Option<Position>
  {
    var line := PartitionPoint(lineStarts, at);
    var lineStart := if line > 0 then lineStarts[line - 1] else 0;
    if lineStart > at then None
    else
      match (Fits(line), Fits(at - lineStart))
      case (Some(l), Some(c)) => Some(Position(l, c))
      case _ => None
  }

  /** `FileView::span_of`. */
  function SpanOf(source: seq<byte>, start: nat, end: nat): Option<Span>
  {
    if start > end || end > |source| then None
    else
      match (FindPosition(LineStarts(source), start), FindPosition(LineStarts(source), end))
      case (Some(s), Some(e)) =>
        (match (Fits(start), Fits(end))
         case (Some(a), Some(b)) => Some(Span(a, b, s.line, s.col, e.line, e.col))
         case _ => None)
      case _ => None
  }

  // ----- agreement

  lemma {:induction false} CountIsLess(text: seq<byte>)
    ensures CountNewlines(text) <= |text|
  {
    if text != [] {
      CountIsLess(text[..|text| - 1]);
    }
  }

  /** The last line start at or before a place is the place after the last newline before it. */
  lemma {:induction false} LastStartIsAfterNewline(text: seq<byte>, at: nat)
    requires at <= |text|
    ensures PartitionPoint(LineStarts(text), at) > 0
    ensures LineStarts(text)[PartitionPoint(LineStarts(text), at) - 1] == AfterLastNewline(text[..at])
    ensures PartitionPoint(LineStarts(text), at) == CountNewlines(text[..at]) + 1
    decreases |text|
  {
    StartsCountNewlines(text);
    if text == [] {
      assert text[..at] == [];
    } else {
      var init := text[..|text| - 1];
      if at == |text| {
        assert text[..at] == text;
        if EndsLine(text) {
          assert LineStarts(text)[|LineStarts(text)| - 1] == |text|;
        } else {
          LastStartIsAfterNewline(init, |init|);
          assert init[..|init|] == init;
          assert LineStarts(text) == LineStarts(init);
          StartsCountNewlines(init);
        }
      } else {
        LastStartIsAfterNewline(init, at);
        assert init[..at] == text[..at];
        if EndsLine(text) {
          assert LineStarts(text)[..|LineStarts(text)| - 1] == LineStarts(init);
        } else {
          assert LineStarts(text) == LineStarts(init);
        }
      }
    }
  }

  lemma FoundPosition(lineStarts: seq<nat>, at: nat, line: nat, lineStart: nat)
    requires line == PartitionPoint(lineStarts, at) && 0 < line <= U32_MAX
             && lineStart == lineStarts[line - 1] <= at <= U32_MAX
    ensures FindPosition(lineStarts, at) == Some(Position(line, at - lineStart))
  {
  }

  lemma CountedPosition(source: seq<byte>, at: nat, newlines: nat, lineStart: nat)
    requires at <= |source| && newlines == CountNewlines(source[..at]) < U32_MAX
    requires lineStart == AfterLastNewline(source[..at]) <= at <= U32_MAX
    ensures PositionOf(source, at) == Position(newlines + 1, at - lineStart)
  {
  }

  lemma SearchedPosition(source: seq<byte>, at: nat, newlines: nat, lineStart: nat)
    requires at <= |source| < U32_MAX && newlines == CountNewlines(source[..at]) < U32_MAX
    requires lineStart == AfterLastNewline(source[..at]) <= at
    ensures FindPosition(LineStarts(source), at) == Some(Position(newlines + 1, at - lineStart))
  {
    LastStartIsAfterNewline(source, at);
    FoundPosition(LineStarts(source), at, newlines + 1, lineStart);
  }

  lemma PositionsAgree(source: seq<byte>, at: nat)
    requires at <= |source| < U32_MAX
    ensures FindPosition(LineStarts(source), at) == Some(PositionOf(source, at))
  {
    var newlines, lineStart := CountNewlines(source[..at]), AfterLastNewline(source[..at]);
    CountIsLess(source[..at]);
    SearchedPosition(source, at, newlines, lineStart);
    CountedPosition(source, at, newlines, lineStart);
  }

  /** For every range of a source below 2^32 - 1 bytes, the search finds the span that counting finds. */
  lemma SpansAgree(source: seq<byte>, start: nat, end: nat)
    requires |source| < U32_MAX
    ensures SpanOf(source, start, end) == OfText(source, start, end)
    ensures SpanOf(source, start, end).Some? <==> start <= end <= |source|
  {
    if start <= end <= |source| {
      PositionsAgree(source, start);
      PositionsAgree(source, end);
    }
  }
}
