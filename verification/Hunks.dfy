/**
 Hunks of a file diff (crates/atlas-edit/src/diff.rs): changes closer than twice the context share a hunk, and a
 builder collects context, removed and added lines. The hunks apply: each one's old side is what the file holds
 at the place its header names, and putting the new sides in gives the changed file, line by line as shown.
 */
module Hunks {
  import opened Wrappers
  import opened Utf8
  import opened Plan
  import opened Lines
  import opened EditDiff
  import Slices

  const CONTEXT: nat := 3

  datatype LineKind = Context | Removed | Added

  datatype Occurrence = Occurrence(start: nat, id: string)

  datatype DiffLine = DiffLine(kind: LineKind, text: Piece, occurrences: seq<string>)

  datatype Hunk = Hunk(oldStart: nat, oldLines: nat, newStart: nat, newLines: nat, lines: seq<DiffLine>)

  datatype FileDiff = FileDiff(file: FileTarget, hunks: seq<Hunk>)

  function StripSuffix(text: Piece, last: byte): Piece
  {
    if text != [] && text[|text| - 1] == last then text[..|text| - 1] else text
  }

  /** A line is shown without its terminator. */
  function Shown(piece: Piece): Piece { StripSuffix(StripSuffix(piece, NEWLINE), RETURN) }

  function Texts(pieces: seq<Piece>): (texts: seq<Piece>)
    ensures |texts| == |pieces|
  {
    seq(|pieces|, i requires 0 <= i < |pieces| => Shown(pieces[i]))
  }

  lemma NextText(side: seq<Piece>, base: seq<Piece>, pieces: seq<Piece>, from: nat, to: nat)
    requires from <= to < |pieces| && side == base + Texts(pieces)[from..to]
    ensures side + [Shown(pieces[to])] == base + Texts(pieces)[from..to + 1]
  {
  }

  lemma TextsJoin(a: seq<Piece>, b: seq<Piece>)
    ensures Texts(a + b) == Texts(a) + Texts(b)
  {
  }

  lemma TextsSlice(pieces: seq<Piece>, i: nat, j: nat)
    requires i <= j <= |pieces|
    ensures Texts(pieces[i..j]) == Texts(pieces)[i..j]
  {
  }

  // ----- the two sides of a hunk

  /** Context and removed lines: what the hunk says the file holds. */
  function OldSide(lines: seq<DiffLine>): seq<Piece>
  {
    if lines == [] then []
    else
      var last := lines[|lines| - 1];
      OldSide(lines[..|lines| - 1]) + if last.kind.Added? then [] else [last.text]
  }

  /** Context and added lines: what the hunk puts there. */
  function NewSide(lines: seq<DiffLine>): seq<Piece>
  {
    if lines == [] then []
    else
      var last := lines[|lines| - 1];
      NewSide(lines[..|lines| - 1]) + if last.kind.Removed? then [] else [last.text]
  }

  /** The ids of the occurrences on a line. */
  function IdsOn(annotations: seq<(nat, string)>, line: nat): seq<string>
  {
    if annotations == [] then []
    else
      var last := annotations[|annotations| - 1];
      IdsOn(annotations[..|annotations| - 1], line) + if last.0 == line then [last.1] else []
  }

  /** Each removed line carries the occurrences that start on it, and no other line carries any. */
  predicate Annotated(lines: seq<DiffLine>, oldFrom: nat, annotations: seq<(nat, string)>)
  {
    lines == [] ||
    var init, last := lines[..|lines| - 1], lines[|lines| - 1];
    && Annotated(init, oldFrom, annotations)
    && last.occurrences == if last.kind.Removed? then IdsOn(annotations, oldFrom + |OldSide(init)|) else []
  }

  lemma SidesSnoc(lines: seq<DiffLine>, last: DiffLine)
    ensures OldSide(lines + [last]) == OldSide(lines) + if last.kind.Added? then [] else [last.text]
    ensures NewSide(lines + [last]) == NewSide(lines) + if last.kind.Removed? then [] else [last.text]
  {
    assert (lines + [last])[..|lines|] == lines;
  }

  lemma AnnotatedSnoc(lines: seq<DiffLine>, last: DiffLine, oldFrom: nat, annotations: seq<(nat, string)>)
    requires Annotated(lines, oldFrom, annotations)
    requires last.occurrences == if last.kind.Removed? then IdsOn(annotations, oldFrom + |OldSide(lines)|) else []
    ensures Annotated(lines + [last], oldFrom, annotations)
  {
    assert (lines + [last])[..|lines|] == lines;
  }

  /** The same lines on both sides. */
  predicate GrowsBy(lines: seq<DiffLine>, lines': seq<DiffLine>, more: seq<Piece>)
  {
    OldSide(lines') == OldSide(lines) + more && NewSide(lines') == NewSide(lines) + more
  }

  // ----- the builder

  class HunkBuilder {
    const oldFrom: nat
    const newFrom: nat
    var cursor: nat
    var oldLines: nat
    var newLines: nat
    var lines: seq<DiffLine>
    ghost const annotations: seq<(nat, string)>

    ghost predicate Valid()
      reads this
    {
      && oldLines == |OldSide(lines)| && newLines == |NewSide(lines)|
      && Annotated(lines, oldFrom, annotations)
    }

    constructor (oldFrom: nat, newFrom: nat, ghost annotations: seq<(nat, string)>)
      ensures Valid() && cursor == oldFrom && lines == [] && oldLines == 0 && newLines == 0
      ensures this.oldFrom == oldFrom && this.newFrom == newFrom && this.annotations == annotations
    {
      this.oldFrom, this.newFrom, this.annotations := oldFrom, newFrom, annotations;
      cursor, oldLines, newLines, lines := oldFrom, 0, 0, [];
    }

    method Push(kind: LineKind, text: Piece, occurrences: seq<string>)
      requires Valid()
      requires occurrences == if kind.Removed? then IdsOn(annotations, oldFrom + oldLines) else []
      modifies this
      ensures Valid() && cursor == old(cursor)
      ensures OldSide(lines) == old(OldSide(lines)) + if kind.Added? then [] else [Shown(text)]
      ensures NewSide(lines) == old(NewSide(lines)) + if kind.Removed? then [] else [Shown(text)]
    {
      match kind {
        case Context =>
          oldLines := oldLines + 1;
          newLines := newLines + 1;
        case Removed =>
          oldLines := oldLines + 1;
        case Added =>
          newLines := newLines + 1;
      }
      var line := DiffLine(kind, Shown(text), occurrences);
      SidesSnoc(lines, line);
      AnnotatedSnoc(lines, line, oldFrom, annotations);
      lines := lines + [line];
    }

    /** `context`: copy the lines up to `until`. */
    method CopyContext(pieces: seq<Piece>, until: nat)
      requires Valid() && cursor <= until <= |pieces|
      modifies this
      ensures Valid() && cursor == until
      ensures GrowsBy(old(lines), lines, Texts(pieces)[old(cursor)..until])
    {
      var i := cursor;
      while i < until
        invariant old(cursor) <= i <= until && Valid() && cursor == old(cursor)
        invariant OldSide(lines) == old(OldSide(lines)) + Texts(pieces)[old(cursor)..i]
        invariant NewSide(lines) == old(NewSide(lines)) + Texts(pieces)[old(cursor)..i]
      {
        NextText(OldSide(lines), old(OldSide(lines)), pieces, cursor, i);
        NextText(NewSide(lines), old(NewSide(lines)), pieces, cursor, i);
        Push(Context, pieces[i], []);
        i := i + 1;
      }
      cursor := if cursor >= until then cursor else until;
    }

    /** `change`: the removed lines with their occurrences, then the added ones. */
    method TakeChange(pieces: seq<Piece>, change: Change, annotations: seq<(nat, string)>)
      requires Valid() && annotations == this.annotations
      requires cursor == change.oldFrom == oldFrom + oldLines && change.oldFrom + change.removed <= |pieces|
      modifies this
      ensures Valid() && cursor == change.oldFrom + change.removed
      ensures OldSide(lines) == old(OldSide(lines)) + Texts(pieces)[change.oldFrom..change.oldFrom + change.removed]
      ensures NewSide(lines) == old(NewSide(lines)) + Texts(change.added)
    {
      TakeRemoved(pieces, change, annotations);
      TakeAdded(change);
      cursor := change.oldFrom + change.removed;
    }

    method TakeRemoved(pieces: seq<Piece>, change: Change, annotations: seq<(nat, string)>)
      requires Valid() && annotations == this.annotations
      requires cursor == change.oldFrom == oldFrom + oldLines && change.oldFrom + change.removed <= |pieces|
      modifies this
      ensures Valid() && cursor == old(cursor)
      ensures OldSide(lines) == old(OldSide(lines)) + Texts(pieces)[change.oldFrom..change.oldFrom + change.removed]
      ensures NewSide(lines) == old(NewSide(lines))
    {
      var end := change.oldFrom + change.removed;
      for number := change.oldFrom to end
        invariant Valid() && oldFrom + oldLines == number && cursor == old(cursor)
        invariant OldSide(lines) == old(OldSide(lines)) + Texts(pieces)[change.oldFrom..number]
        invariant NewSide(lines) == old(NewSide(lines))
      {
        NextText(OldSide(lines), old(OldSide(lines)), pieces, change.oldFrom, number);
        Push(Removed, pieces[number], IdsOn(annotations, number));
      }
    }

    method TakeAdded(change: Change)
      requires Valid()
      modifies this
      ensures Valid() && cursor == old(cursor)
      ensures OldSide(lines) == old(OldSide(lines))
      ensures NewSide(lines) == old(NewSide(lines)) + Texts(change.added)
    {
      for i := 0 to |change.added|
        invariant Valid() && cursor == old(cursor)
        invariant OldSide(lines) == old(OldSide(lines))
        invariant NewSide(lines) == old(NewSide(lines)) + Texts(change.added)[..i]
      {
        assert Texts(change.added)[..i + 1] == Texts(change.added)[..i] + [Shown(change.added[i])];
        Push(Added, change.added[i], []);
      }
      assert Texts(change.added)[..|change.added|] == Texts(change.added);
    }

    /** `finish`: trailing context, and the header. */
    method Finish(pieces: seq<Piece>) returns (hunk: Hunk)
      requires Valid() && cursor <= |pieces|
      modifies this
      ensures Valid() && cursor == Min(old(cursor) + CONTEXT, |pieces|)
      ensures GrowsBy(old(lines), lines, Texts(pieces)[old(cursor)..cursor])
      ensures hunk == Hunk(oldFrom + 1, |OldSide(lines)|, newFrom + 1, |NewSide(lines)|, lines)
    {
      CopyContext(pieces, Min(cursor + CONTEXT, |pieces|));
      hunk := Hunk(oldFrom + 1, oldLines, newFrom + 1, newLines, lines);
    }
  }

  // ----- applying hunks, as a patch tool would

  /** The first old line after the hunks. */
  function HunkEnd(hunks: seq<Hunk>): int
  {
    if hunks == [] then 0 else hunks[|hunks| - 1].oldStart - 1 + hunks[|hunks| - 1].oldLines
  }

  /** The file up to the end of the hunks, with each hunk's new side put in place of its old lines. */
  function Carried(hunks: seq<Hunk>, texts: seq<Piece>): seq<Piece>
  {
    if hunks == [] then []
    else
      var init, last := hunks[..|hunks| - 1], hunks[|hunks| - 1];
      var between := if 0 <= HunkEnd(init) <= last.oldStart - 1 <= |texts| then texts[HunkEnd(init)..last.oldStart - 1]
        else [];
      Carried(init, texts) + between + NewSide(last.lines)
  }

  /**
   A hunk at its place: after the earlier ones, its old side is what the file holds there, and its header is right.
   */
  predicate HunkFits(texts: seq<Piece>, before: seq<Hunk>, hunk: Hunk)
  {
    var from := hunk.oldStart - 1;
    && 0 <= HunkEnd(before) <= from && from + hunk.oldLines <= |texts|
    && OldSide(hunk.lines) == texts[from..from + hunk.oldLines]
    && hunk.newLines == |NewSide(hunk.lines)|
    && hunk.newStart - 1 == |Carried(before, texts)| + from - HunkEnd(before)
  }

  predicate HunksFit(texts: seq<Piece>, hunks: seq<Hunk>)
  {
    hunks == [] ||
    var init := hunks[..|hunks| - 1];
    HunksFit(texts, init) && HunkFits(texts, init, hunks[|hunks| - 1])
  }

  lemma HunksSnoc(texts: seq<Piece>, hunks: seq<Hunk>, hunk: Hunk)
    requires HunksFit(texts, hunks) && HunkFits(texts, hunks, hunk)
    ensures HunksFit(texts, hunks + [hunk]) && HunkEnd(hunks + [hunk]) == hunk.oldStart - 1 + hunk.oldLines
    ensures Carried(hunks + [hunk], texts) ==
            Carried(hunks, texts) + texts[HunkEnd(hunks)..hunk.oldStart - 1] + NewSide(hunk.lines)
  {
    assert (hunks + [hunk])[..|hunks|] == hunks;
  }

  /** No open hunk: the hunks carry the file, with `done` carried out, up to where the last one ends. */
  ghost predicate Closed(pieces: seq<Piece>, hunks: seq<Hunk>, done: seq<Change>)
  {
    && ChangesFit(pieces, done) && HunksFit(Texts(pieces), hunks)
    && EndOf(done) <= HunkEnd(hunks) <= |pieces|
    && Carried(hunks, Texts(pieces)) == Texts(PatchedTo(pieces, done, HunkEnd(hunks)))
  }

  /** An open hunk with the given lines: it has read up to `cursor`. */
  ghost predicate Underway(pieces: seq<Piece>, hunks: seq<Hunk>, done: seq<Change>, oldFrom: nat, newFrom: nat,
                           lines: seq<DiffLine>, cursor: nat)
  {
    var texts := Texts(pieces);
    && ChangesFit(pieces, done) && HunksFit(texts, hunks)
    && EndOf(done) <= cursor <= |pieces| && 0 <= HunkEnd(hunks) <= oldFrom <= cursor
    && OldSide(lines) == texts[oldFrom..cursor]
    && newFrom == |Carried(hunks, texts)| + oldFrom - HunkEnd(hunks)
    && Carried(hunks, texts) + texts[HunkEnd(hunks)..oldFrom] + NewSide(lines) == Texts(PatchedTo(pieces, done, cursor))
  }

  lemma TextsFurther(pieces: seq<Piece>, done: seq<Change>, from: nat, to: nat)
    requires ChangesFit(pieces, done) && EndOf(done) <= from <= to <= |pieces|
    ensures Texts(PatchedTo(pieces, done, to)) == Texts(PatchedTo(pieces, done, from)) + Texts(pieces)[from..to]
  {
    Slices.Halves(pieces, EndOf(done), from, to);
    Slices.Associates(Patched(pieces, done), pieces[EndOf(done)..from], pieces[from..to]);
    TextsJoin(PatchedTo(pieces, done, from), pieces[from..to]);
    TextsSlice(pieces, from, to);
  }

  lemma Opens(pieces: seq<Piece>, hunks: seq<Hunk>, done: seq<Change>, lead: nat)
    requires Closed(pieces, hunks, done) && HunkEnd(hunks) <= lead <= |pieces|
    ensures 0 <= lead + |Patched(pieces, done)| - EndOf(done)
    ensures Underway(pieces, hunks, done, lead, lead + |Patched(pieces, done)| - EndOf(done), [], lead)
  {
    CarriedLength(pieces, hunks, done);
    TextsFurther(pieces, done, HunkEnd(hunks), lead);
    Slices.Nothing(Carried(hunks, Texts(pieces)) + Texts(pieces)[HunkEnd(hunks)..lead]);
  }

  lemma CarriedLength(pieces: seq<Piece>, hunks: seq<Hunk>, done: seq<Change>)
    requires Closed(pieces, hunks, done)
    ensures |Carried(hunks, Texts(pieces))| == |Patched(pieces, done)| + HunkEnd(hunks) - EndOf(done)
  {
  }

  lemma CopiesContext(pieces: seq<Piece>, hunks: seq<Hunk>, done: seq<Change>, oldFrom: nat, newFrom: nat,
                      lines: seq<DiffLine>, cursor: nat, lines': seq<DiffLine>, until: nat)
    requires Underway(pieces, hunks, done, oldFrom, newFrom, lines, cursor) && cursor <= until <= |pieces|
    requires GrowsBy(lines, lines', Texts(pieces)[cursor..until])
    ensures Underway(pieces, hunks, done, oldFrom, newFrom, lines', until)
  {
    var texts := Texts(pieces);
    TextsFurther(pieces, done, cursor, until);
    Slices.Halves(texts, oldFrom, cursor, until);
    Slices.Associates(Carried(hunks, texts) + texts[HunkEnd(hunks)..oldFrom], NewSide(lines), texts[cursor..until]);
  }

  lemma TextsWithChange(pieces: seq<Piece>, done: seq<Change>, change: Change)
    requires ChangesFit(pieces, done) && ChangeFits(pieces, EndOf(done), change)
    ensures ChangesFit(pieces, done + [change]) && EndOf(done + [change]) == change.oldFrom + change.removed
    ensures Texts(PatchedTo(pieces, done + [change], change.oldFrom + change.removed)) ==
            Texts(PatchedTo(pieces, done, change.oldFrom)) + Texts(change.added)
  {
    PatchedSnoc(pieces, done, change);
    TextsJoin(PatchedTo(pieces, done, change.oldFrom), change.added);
    assert PatchedTo(pieces, done + [change], change.oldFrom + change.removed) == Patched(pieces, done + [change]);
  }

  lemma TakesTheChange(pieces: seq<Piece>, hunks: seq<Hunk>, done: seq<Change>, oldFrom: nat, newFrom: nat,
                       lines: seq<DiffLine>, change: Change, lines': seq<DiffLine>)
    requires Underway(pieces, hunks, done, oldFrom, newFrom, lines, change.oldFrom)
             && ChangeFits(pieces, EndOf(done), change)
    requires OldSide(lines') == OldSide(lines) + Texts(pieces)[change.oldFrom..change.oldFrom + change.removed]
    requires NewSide(lines') == NewSide(lines) + Texts(change.added)
    ensures Underway(pieces, hunks, done + [change], oldFrom, newFrom, lines', change.oldFrom + change.removed)
  {
    var texts := Texts(pieces);
    TextsWithChange(pieces, done, change);
    Slices.Halves(texts, oldFrom, change.oldFrom, change.oldFrom + change.removed);
    Slices.Associates(Carried(hunks, texts) + texts[HunkEnd(hunks)..oldFrom], NewSide(lines), Texts(change.added));
  }

  lemma Closes(pieces: seq<Piece>, hunks: seq<Hunk>, done: seq<Change>, oldFrom: nat, newFrom: nat,
               lines: seq<DiffLine>, cursor: nat)
    requires Underway(pieces, hunks, done, oldFrom, newFrom, lines, cursor)
    ensures var hunk := Hunk(oldFrom + 1, |OldSide(lines)|, newFrom + 1, |NewSide(lines)|, lines);
            Closed(pieces, hunks + [hunk], done) && HunkEnd(hunks + [hunk]) == cursor
  {
    HunksSnoc(Texts(pieces), hunks, Hunk(oldFrom + 1, |OldSide(lines)|, newFrom + 1, |NewSide(lines)|, lines));
  }

  /** The whole file after the hunks are applied. */
  function Applied(hunks: seq<Hunk>, texts: seq<Piece>): seq<Piece>
  {
    Carried(hunks, texts) + if 0 <= HunkEnd(hunks) <= |texts| then texts[HunkEnd(hunks)..] else []
  }

  lemma ClosedToTheEnd(pieces: seq<Piece>, hunks: seq<Hunk>, changes: seq<Change>)
    requires Closed(pieces, hunks, changes)
    ensures Applied(hunks, Texts(pieces)) == Texts(NewPieces(pieces, changes))
  {
    TextsFurther(pieces, changes, HunkEnd(hunks), |pieces|);
    assert PatchedTo(pieces, changes, |pieces|) == NewPieces(pieces, changes);
  }

  predicate AllAnnotated(hunks: seq<Hunk>, annotations: seq<(nat, string)>)
  {
    forall i :: 0 <= i < |hunks| ==>
      hunks[i].oldStart > 0 && Annotated(hunks[i].lines, hunks[i].oldStart - 1, annotations)
  }

  ghost predicate Open(builder: HunkBuilder, pieces: seq<Piece>, hunks: seq<Hunk>, done: seq<Change>)
    reads builder
  {
    builder.Valid() && Underway(pieces, hunks, done, builder.oldFrom, builder.newFrom, builder.lines, builder.cursor)
  }

  lemma FinishedCloses(pieces: seq<Piece>, hunks: seq<Hunk>, done: seq<Change>, oldFrom: nat, newFrom: nat,
                       lines: seq<DiffLine>, cursor: nat, lines': seq<DiffLine>, until: nat, hunk: Hunk)
    requires Underway(pieces, hunks, done, oldFrom, newFrom, lines, cursor) && cursor <= until <= |pieces|
    requires GrowsBy(lines, lines', Texts(pieces)[cursor..until])
    requires hunk == Hunk(oldFrom + 1, |OldSide(lines')|, newFrom + 1, |NewSide(lines')|, lines')
    ensures Closed(pieces, hunks + [hunk], done) && HunkEnd(hunks + [hunk]) == until
  {
    CopiesContext(pieces, hunks, done, oldFrom, newFrom, lines, cursor, lines', until);
    Closes(pieces, hunks, done, oldFrom, newFrom, lines', until);
  }

  lemma AllAnnotatedSnoc(hunks: seq<Hunk>, hunk: Hunk, annotations: seq<(nat, string)>)
    requires AllAnnotated(hunks, annotations) && hunk.oldStart > 0
             && Annotated(hunk.lines, hunk.oldStart - 1, annotations)
    ensures AllAnnotated(hunks + [hunk], annotations)
  {
  }

  /** Finishing the open hunk. */
  method FinishHunk(builder: HunkBuilder, pieces: seq<Piece>, hunks: seq<Hunk>, ghost done: seq<Change>)
    returns (more: seq<Hunk>)
    requires Open(builder, pieces, hunks, done) && AllAnnotated(hunks, builder.annotations)
    modifies builder
    ensures Closed(pieces, more, done) && HunkEnd(more) <= old(builder.cursor) + CONTEXT
    ensures AllAnnotated(more, builder.annotations)
  {
    ghost var lines, cursor := builder.lines, builder.cursor;
    var hunk := builder.Finish(pieces);
    FinishedCloses(pieces, hunks, done, builder.oldFrom, builder.newFrom, lines, cursor, builder.lines, builder.cursor,
                   hunk);
    AllAnnotatedSnoc(hunks, hunk, builder.annotations);
    more := hunks + [hunk];
  }

  /** The change starts a hunk of its own: the open one is finished, and the new one begins with its context. */
  method StartHunk(current: HunkBuilder?, pieces: seq<Piece>, hunks: seq<Hunk>, ghost done: seq<Change>, change: Change,
                   delta: int, annotations: seq<(nat, string)>) returns (more: seq<Hunk>, next: HunkBuilder)
    requires AllAnnotated(hunks, annotations) && ChangesFit(pieces, done) && ChangeFits(pieces, EndOf(done), change)
    requires delta == |Patched(pieces, done)| - EndOf(done)
    requires current == null ==> Closed(pieces, hunks, done) && HunkEnd(hunks) == 0
    requires current != null ==> Open(current, pieces, hunks, done) && current.annotations == annotations
    requires current != null ==> change.oldFrom > current.cursor + 2 * CONTEXT
    modifies current
    ensures fresh(next) && next.annotations == annotations && AllAnnotated(more, annotations)
    ensures Open(next, pieces, more, done) && next.cursor <= change.oldFrom
  {
    more := hunks;
    if current != null {
      more := FinishHunk(current, pieces, hunks, done);
    }
    var lead := if change.oldFrom < CONTEXT then 0 else change.oldFrom - CONTEXT;
    Opens(pieces, more, done, lead);
    next := new HunkBuilder(lead, if lead + delta < 0 then 0 else lead + delta, annotations);
  }

  /** Adding a change to the open hunk, with the lines that lead to it. */
  method ExtendHunk(builder: HunkBuilder, pieces: seq<Piece>, ghost hunks: seq<Hunk>, ghost done: seq<Change>,
                    change: Change, annotations: seq<(nat, string)>)
    requires Open(builder, pieces, hunks, done) && annotations == builder.annotations
    requires builder.cursor <= change.oldFrom && ChangeFits(pieces, EndOf(done), change)
    modifies builder
    ensures Open(builder, pieces, hunks, done + [change]) && builder.cursor == change.oldFrom + change.removed
  {
    ghost var lines, cursor := builder.lines, builder.cursor;
    builder.CopyContext(pieces, change.oldFrom);
    CopiesContext(pieces, hunks, done, builder.oldFrom, builder.newFrom, lines, cursor, builder.lines, change.oldFrom);
    lines := builder.lines;
    builder.TakeChange(pieces, change, annotations);
    TakesTheChange(pieces, hunks, done, builder.oldFrom, builder.newFrom, lines, change, builder.lines);
  }

  /** The loop of `file_diff`. */
  method HunksOf(pieces: seq<Piece>, changes: seq<Change>, annotations: seq<(nat, string)>) returns (hunks: seq<Hunk>)
    requires ChangesFit(pieces, changes)
    ensures HunksFit(Texts(pieces), hunks)
    ensures Applied(hunks, Texts(pieces)) == Texts(NewPieces(pieces, changes))
    ensures AllAnnotated(hunks, annotations)
  {
    hunks := [];
    var current: HunkBuilder? := null;
    var delta: int := 0;
    for k := 0 to |changes|
      invariant ChangesFit(pieces, changes[..k]) && AllAnnotated(hunks, annotations)
      invariant delta == |Patched(pieces, changes[..k])| - EndOf(changes[..k])
      invariant current == null ==> Closed(pieces, hunks, changes[..k]) && hunks == [] && k == 0
      invariant current != null ==> fresh(current) && current.annotations == annotations
      invariant current != null ==> Open(current, pieces, hunks, changes[..k]) && current.cursor == EndOf(changes[..k])
    {
      var change := changes[k];
      NextChange(pieces, changes, k);
      if current == null || change.oldFrom > current.cursor + 2 * CONTEXT {
        hunks, current := StartHunk(current, pieces, hunks, changes[..k], change, delta, annotations);
      }
      ExtendHunk(current, pieces, hunks, changes[..k], change, annotations);
      delta := delta + |change.added| - change.removed;
    }
    assert changes[..|changes|] == changes;
    if current != null {
      hunks := FinishHunk(current, pieces, hunks, changes);
    }
    ClosedToTheEnd(pieces, hunks, changes);
  }

  lemma {:induction false} ChangesPrefix(pieces: seq<Piece>, changes: seq<Change>, k: nat)
    requires ChangesFit(pieces, changes) && k <= |changes|
    ensures ChangesFit(pieces, changes[..k])
    decreases |changes|
  {
    if k == |changes| {
      assert changes[..k] == changes;
    } else {
      ChangesPrefix(pieces, changes[..|changes| - 1], k);
      assert changes[..|changes| - 1][..k] == changes[..k];
    }
  }

  lemma NextChange(pieces: seq<Piece>, changes: seq<Change>, k: nat)
    requires ChangesFit(pieces, changes) && k < |changes|
    ensures changes[..k + 1] == changes[..k] + [changes[k]]
    ensures ChangesFit(pieces, changes[..k]) && ChangeFits(pieces, EndOf(changes[..k]), changes[k])
    ensures ChangesFit(pieces, changes[..k + 1])
    ensures |Patched(pieces, changes[..k + 1])| - EndOf(changes[..k + 1]) ==
            |Patched(pieces, changes[..k])| - EndOf(changes[..k]) + |changes[k].added| - changes[k].removed
  {
    ChangesPrefix(pieces, changes, k + 1);
    assert changes[..k + 1] == changes[..k] + [changes[k]];
    assert changes[..k + 1][..k] == changes[..k];
    PatchedSnoc(pieces, changes[..k], changes[k]);
  }

  function Annotations(text: seq<byte>, occurrences: seq<Occurrence>): seq<(nat, string)>
  {
    seq(|occurrences|, i requires 0 <= i < |occurrences| =>
      (Index(text).LineOf(occurrences[i].start), occurrences[i].id))
  }

  /**
   `file_diff`. It refuses exactly the edits that do not fit the text; otherwise applying its hunks to the shown
   lines of the text gives the shown lines of pieces that spell the spliced text.
   */
  method DiffFile(file: FileTarget, original: seq<byte>, edits: seq<TextEdit>, occurrences: seq<Occurrence>)
    returns (r: Result<FileDiff, PlanViolation>, ghost pieces: seq<Piece>)
    ensures r.Ok? <==> Allowed(original, edits)
    ensures r.Ok? ==>
              && r.value.file == file && HunksFit(Texts(SplitInclusive(original)), r.value.hunks)
              && Applied(r.value.hunks, Texts(SplitInclusive(original))) == Texts(pieces)
              && Splices(original, 0, edits) && Concat(pieces) == Spliced(original, edits)
              && AllAnnotated(r.value.hunks, Annotations(original, occurrences))
  {
    pieces := [];
    var violation := Check(file, original, edits);
    if violation.Some? {
      return Err(violation.value), [];
    }
    var lines := SplitInclusive(original);
    var changes := Changes(original, edits);
    var hunks := HunksOf(lines, changes, Annotations(original, occurrences));
    pieces := NewPieces(lines, changes);
    r := Ok(FileDiff(file, hunks));
  }
}
