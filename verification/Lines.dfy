/**
 Newline-terminated pieces of a text (`split_inclusive('\n')`) and the index from byte offsets to lines
 (crates/atlas-edit/src/text.rs). A text that ends in a newline, and the empty text, have one more line start
 than they have pieces.
 */
module Lines {
  import opened Utf8
  import Slices

  const NEWLINE: byte := 10
  const RETURN: byte := 13

  type Piece = seq<byte>

  predicate EndsLine(text: seq<byte>) { text != [] && text[|text| - 1] == NEWLINE }

  function Concat(pieces: seq<Piece>): seq<byte>
  {
    if pieces == [] then [] else Concat(pieces[..|pieces| - 1]) + pieces[|pieces| - 1]
  }

  lemma ConcatSnoc(pieces: seq<Piece>, last: Piece)
    ensures Concat(pieces + [last]) == Concat(pieces) + last
  {
    assert (pieces + [last])[..|pieces|] == pieces;
  }

  lemma {:induction false} ConcatJoin(a: seq<Piece>, b: seq<Piece>)
    ensures Concat(a + b) == Concat(a) + Concat(b)
  {
    if b == [] {
      assert a + b == a;
    } else {
      var init, last := b[..|b| - 1], b[|b| - 1];
      ConcatJoin(a, init);
      assert a + b == (a + init) + [last];
      ConcatSnoc(a + init, last);
    }
  }

  /** `split_inclusive('\n')`, byte by byte: a byte starts a new piece exactly after a newline. */
  function Extend(pieces: seq<Piece>, b: byte): seq<Piece>
  {
    if pieces == [] || EndsLine(pieces[|pieces| - 1]) then pieces + [[b]]
    else pieces[..|pieces| - 1] + [pieces[|pieces| - 1] + [b]]
  }

  function SplitInclusive(text: seq<byte>): seq<Piece>
  {
    if text == [] then [] else Extend(SplitInclusive(text[..|text| - 1]), text[|text| - 1])
  }

  /** A line: not empty, and a newline at most as its last byte. */
  predicate IsLine(piece: Piece)
  {
    piece != [] && NEWLINE !in piece[..|piece| - 1]
  }

  /** Lines, of which only the last may lack its newline. */
  predicate AreLines(pieces: seq<Piece>)
  {
    && (forall i :: 0 <= i < |pieces| ==> IsLine(pieces[i]))
    && (forall i :: 0 <= i < |pieces| - 1 ==> EndsLine(pieces[i]))
  }

  lemma ExtendKeepsLines(pieces: seq<Piece>, b: byte)
    requires AreLines(pieces)
    ensures AreLines(Extend(pieces, b)) && Concat(Extend(pieces, b)) == Concat(pieces) + [b]
  {
    if pieces == [] || EndsLine(pieces[|pieces| - 1]) {
      ConcatSnoc(pieces, [b]);
      assert IsLine([b]);
    } else {
      var init, last := pieces[..|pieces| - 1], pieces[|pieces| - 1];
      ConcatSnoc(init, last + [b]);
      assert IsLine(last) && (last + [b])[..|last|] == last;
      assert last == last[..|last| - 1] + [last[|last| - 1]];
      assert IsLine(last + [b]);
    }
  }

  /** The pieces spell the text and are its lines. */
  lemma {:induction false} SplitSpells(text: seq<byte>)
    ensures Concat(SplitInclusive(text)) == text && AreLines(SplitInclusive(text))
  {
    if text != [] {
      SplitSpells(text[..|text| - 1]);
      ExtendKeepsLines(SplitInclusive(text[..|text| - 1]), text[|text| - 1]);
      assert text == text[..|text| - 1] + [text[|text| - 1]];
    }
  }

  lemma SplitSnoc(text: seq<byte>, b: byte)
    ensures SplitInclusive(text + [b]) == Extend(SplitInclusive(text), b)
  {
    assert (text + [b])[..|text|] == text;
  }

  /** The bytes before the last one of a line do not end a line. */
  lemma InsideLine(line: Piece, n: nat)
    requires IsLine(line) && 0 < n < |line|
    ensures !EndsLine(line[..n])
  {
    assert line[n - 1] in line[..|line| - 1];
  }

  /** Appending the bytes of a line one by one to finished lines. */
  lemma {:induction false} SplitOneMore(base: seq<byte>, pieces: seq<Piece>, line: Piece, n: nat, text: seq<byte>)
    requires IsLine(line) && (pieces == [] || EndsLine(pieces[|pieces| - 1])) && 1 <= n <= |line|
    requires SplitInclusive(base) == pieces && text == base + line[..n]
    ensures SplitInclusive(text) == pieces + [line[..n]]
  {
    if n == 1 {
      assert line[..1] == [line[0]];
      SplitSnoc(base, line[0]);
    } else {
      var shorter, part := base + line[..n - 1], line[..n - 1];
      SplitOneMore(base, pieces, line, n - 1, shorter);
      InsideLine(line, n - 1);
      assert line[..n] == part + [line[n - 1]];
      LineGrows(shorter, pieces, part, line[n - 1]);
      Slices.Associates(base, part, [line[n - 1]]);
    }
  }

  lemma LineGrows(text: seq<byte>, pieces: seq<Piece>, part: Piece, b: byte)
    requires SplitInclusive(text) == pieces + [part] && !EndsLine(part)
    ensures SplitInclusive(text + [b]) == pieces + [part + [b]]
  {
    SplitSnoc(text, b);
  }

  /** There is only one way to cut a text into lines. */
  lemma {:induction false} LinesAreUnique(pieces: seq<Piece>)
    requires AreLines(pieces)
    ensures SplitInclusive(Concat(pieces)) == pieces
  {
    if pieces != [] {
      var init, last := pieces[..|pieces| - 1], pieces[|pieces| - 1];
      assert pieces == init + [last];
      assert forall i :: 0 <= i < |init| ==> init[i] == pieces[i];
      LinesAreUnique(init);
      assert last[..|last|] == last;
      SplitOneMore(Concat(init), init, last, |last|, Concat(init) + last);
    }
  }

  // ----- the line index

  /** The offsets after each newline, and 0. */
  function LineStarts(text: seq<byte>): (starts: seq<nat>)
    ensures starts != []
  {
    if text == [] then [0]
    else LineStarts(text[..|text| - 1]) + if EndsLine(text) then [|text|] else []
  }

  /** `partition_point` of the line starts at or before the offset. */
  function PartitionPoint(starts: seq<nat>, offset: nat): (n: nat)
    ensures n <= |starts|
  {
    if starts == [] || starts[|starts| - 1] <= offset then |starts|
    else PartitionPoint(starts[..|starts| - 1], offset)
  }

  datatype LineIndex = LineIndex(starts: seq<nat>)
  {
    /** `LineIndex::line_of`, with its saturating subtraction. */
    function LineOf(offset: nat): nat
    {
      var n := PartitionPoint(starts, offset);
      if n == 0 then 0 else n - 1
    }
  }

  function Index(text: seq<byte>): LineIndex { LineIndex(LineStarts(text)) }

  function CountNewlines(text: seq<byte>): nat
  {
    if text == [] then 0 else CountNewlines(text[..|text| - 1]) + if EndsLine(text) then 1 else 0
  }

  lemma {:induction false} StartsCountNewlines(text: seq<byte>)
    ensures |LineStarts(text)| == CountNewlines(text) + 1
    ensures LineStarts(text)[|LineStarts(text)| - 1] <= |text|
  {
    if text != [] {
      StartsCountNewlines(text[..|text| - 1]);
    }
  }

  /** The binary search finds the line by counting: an offset lies on the line numbered by the newlines before it. */
  lemma {:induction false} LineOfCounts(text: seq<byte>, offset: nat)
    requires offset <= |text|
    ensures Index(text).LineOf(offset) == CountNewlines(text[..offset])
  {
    StartsCountNewlines(text);
    if offset == |text| {
      assert text[..offset] == text;
    } else {
      var init := text[..|text| - 1];
      LineOfCounts(init, offset);
      assert init[..offset] == text[..offset];
      if EndsLine(text) {
        assert LineStarts(text)[..|LineStarts(text)| - 1] == LineStarts(init);
      } else {
        assert LineStarts(text) == LineStarts(init);
      }
    }
  }

  // ----- lines and starts together

  /** Where line `k` begins; past the last line start, the end of the text. */
  function LineBegin(text: seq<byte>, k: nat): nat
  {
    if k < |LineStarts(text)| then LineStarts(text)[k] else |text|
  }

  function Min(a: nat, b: nat): nat { if a <= b then a else b }

  lemma {:induction false} StartsOrdered(text: seq<byte>, i: nat, j: nat)
    requires i <= j
    ensures LineBegin(text, i) <= LineBegin(text, j) <= |text|
    ensures i < j < |LineStarts(text)| ==> LineBegin(text, i) < LineBegin(text, j)
  {
    StartsCountNewlines(text);
    if text != [] {
      var init := text[..|text| - 1];
      StartsCountNewlines(init);
      StartsOrdered(init, i, j);
      StartsOrdered(init, i, i);
    }
  }

  lemma {:induction false} FirstStart(text: seq<byte>)
    ensures LineStarts(text)[0] == 0
  {
    if text != [] {
      FirstStart(text[..|text| - 1]);
    }
  }

  /** How many line starts there are: one more than pieces when the last piece is finished. */
  lemma {:induction false} StartsAndPieces(text: seq<byte>)
    ensures var n := |SplitInclusive(text)|;
            && (n == 0 <==> text == []) && (n > 0 ==> EndsLine(SplitInclusive(text)[n - 1]) == EndsLine(text))
            && |LineStarts(text)| == if text == [] || EndsLine(text) then n + 1 else n
  {
    if text != [] {
      StartsAndPieces(text[..|text| - 1]);
    }
  }

  lemma AllPieces(text: seq<byte>, k: nat)
    requires k >= |SplitInclusive(text)|
    ensures LineBegin(text, k) == |text|
  {
    StartsAndPieces(text);
    if k < |LineStarts(text)| {
      assert LineStarts(text)[k] == |text|;
    }
  }

  lemma EarlierPieces(text: seq<byte>, k: nat)
    requires k < |SplitInclusive(text)|
    ensures var init := text[..|text| - 1];
            k <= |SplitInclusive(init)| && SplitInclusive(text)[..k] == SplitInclusive(init)[..k]
              && LineBegin(text, k) == LineBegin(init, k)
  {
    StartsAndPieces(text);
    StartsAndPieces(text[..|text| - 1]);
  }

  /** The first `k` pieces are the text up to where line `k` begins. */
  lemma {:induction false} PiecesBefore(text: seq<byte>, k: nat)
    ensures LineBegin(text, k) <= |text|
    ensures Concat(SplitInclusive(text)[..Min(k, |SplitInclusive(text)|)]) == text[..LineBegin(text, k)]
  {
    var pieces := SplitInclusive(text);
    if k >= |pieces| {
      AllPieces(text, k);
      assert pieces[..|pieces|] == pieces && text[..|text|] == text;
      SplitSpells(text);
    } else {
      var init := text[..|text| - 1];
      EarlierPieces(text, k);
      PiecesBefore(init, k);
      assert init[..LineBegin(init, k)] == text[..LineBegin(init, k)];
    }
  }

  /** Pieces `i` to `j` are the text between the beginnings of lines `i` and `j`. */
  lemma PiecesBetween(text: seq<byte>, i: nat, j: nat)
    requires i <= j
    ensures LineBegin(text, i) <= LineBegin(text, j) <= |text|
    ensures var n := |SplitInclusive(text)|;
            Concat(SplitInclusive(text)[Min(i, n)..Min(j, n)]) == text[LineBegin(text, i)..LineBegin(text, j)]
  {
    var pieces := SplitInclusive(text);
    var a, b := Min(i, |pieces|), Min(j, |pieces|);
    StartsOrdered(text, i, j);
    PiecesBefore(text, i);
    PiecesBefore(text, j);
    ConcatJoin(pieces[..a], pieces[a..b]);
    assert pieces[..b] == pieces[..a] + pieces[a..b];
    assert text[..LineBegin(text, j)] == text[..LineBegin(text, i)] + text[LineBegin(text, i)..LineBegin(text, j)];
  }

  /** An offset lies on its line: not before the line begins, and before the next one does. */
  lemma {:induction false} PartitionSplits(starts: seq<nat>, offset: nat)
    requires starts != [] && starts[0] <= offset
    ensures var n := PartitionPoint(starts, offset);
            n > 0 && starts[n - 1] <= offset && (n < |starts| ==> offset < starts[n])
  {
    if starts[|starts| - 1] > offset {
      PartitionSplits(starts[..|starts| - 1], offset);
    }
  }

  lemma OnItsLine(text: seq<byte>, offset: nat)
    requires offset <= |text|
    ensures var line := Index(text).LineOf(offset);
            && line < |LineStarts(text)| && LineBegin(text, line) <= offset
            && (line + 1 < |LineStarts(text)| ==> offset < LineBegin(text, line + 1))
  {
    FirstStart(text);
    PartitionSplits(LineStarts(text), offset);
  }
}
