/**
 Grouping the byte edits of one file into line changes (crates/atlas-edit/src/diff.rs): edits that touch a
 common line form a group, the group's lines are compared with what replaces them, and equal lines are trimmed
 from both ends. Carrying the changes out on the newline-terminated pieces of the file gives the splice.
 */
module EditDiff {
  import opened Wrappers
  import opened Utf8
  import opened Plan
  import opened Lines
  import opened Trimming
  import Slices

  /** The edits lie inside the text, in order and apart, and begin and end between characters. */
  predicate Allowed(text: seq<byte>, edits: seq<TextEdit>)
  {
    && (forall i :: 0 <= i < |edits| ==>
          && edits[i].start <= edits[i].end <= |text|
          && IsCharBoundary(text, edits[i].start) && IsCharBoundary(text, edits[i].end))
    && (forall i, j :: 0 <= i < j < |edits| ==> edits[i].end <= edits[j].start)
  }

  /** `check`. */
  method Check(file: FileTarget, original: seq<byte>, edits: seq<TextEdit>) returns (r: Option<PlanViolation>)
    ensures r.None? <==> Allowed(original, edits)
  {
    var previousEnd: nat := 0;
    for position := 0 to |edits|
      invariant Allowed(original, edits[..position])
      invariant previousEnd == if position == 0 then 0 else edits[position - 1].end
    {
      var edit := edits[position];
      if edit.start > edit.end || edit.end > |original| {
        return Some(OutOfBounds(file, edit.start, edit.end, |original|));
      }
      if edit.start < previousEnd {
        return Some(Unsorted(file, position));
      }
      if !IsCharBoundary(original, edit.start) {
        return Some(NotCharBoundary(file, edit.start));
      }
      if !IsCharBoundary(original, edit.end) {
        return Some(NotCharBoundary(file, edit.end));
      }
      if position > 0 {
        assert forall i :: 0 <= i < position - 1 ==> edits[..position][i].end <= edits[..position][position - 1].start;
      }
      previousEnd := edit.end;
    }
    assert edits[..|edits|] == edits;
    return None;
  }

  // ----- splicing in parts

  lemma SplicedStep(text: seq<byte>, cursor: nat, e: TextEdit, before: seq<TextEdit>, mid: nat, after: seq<TextEdit>)
    requires mid <= |text| && cursor <= e.start <= e.end && Splices(text[..mid], e.end, before)
             && Splices(text, mid, after)
    requires Splices(text, e.end, before + after)
    requires SplicedFrom(text, e.end, before + after) ==
             SplicedFrom(text[..mid], e.end, before) + SplicedFrom(text, mid, after)
    ensures Splices(text, cursor, [e] + before + after) && Splices(text[..mid], cursor, [e] + before)
    ensures SplicedFrom(text, cursor, [e] + before + after) ==
            SplicedFrom(text[..mid], cursor, [e] + before) + SplicedFrom(text, mid, after)
  {
    SplicesInside(text[..mid], e.end, before);
    SplicesInside(text, e.end, before + after);
    assert ([e] + before + after)[1..] == before + after && ([e] + before)[1..] == before;
    Slices.OfPrefix(text, mid, cursor, e.start);
    Slices.Associates(text[cursor..e.start] + e.newText, SplicedFrom(text[..mid], e.end, before),
                      SplicedFrom(text, mid, after));
  }

  /** A splice up to `mid` and one from there on make the whole splice. */
  lemma {:induction false} SplicedInParts(text: seq<byte>, cursor: nat, before: seq<TextEdit>, mid: nat,
                                          after: seq<TextEdit>)
    requires mid <= |text| && Splices(text[..mid], cursor, before) && Splices(text, mid, after)
    ensures Splices(text, cursor, before + after)
    ensures SplicedFrom(text, cursor, before + after) ==
            SplicedFrom(text[..mid], cursor, before) + SplicedFrom(text, mid, after)
    decreases |before|
  {
    SplicesInside(text[..mid], cursor, before);
    if before == [] {
      assert before + after == after;
      LaterStart(text, cursor, mid, after);
      Slices.OfPrefix(text, mid, cursor, mid);
    } else {
      SplicedInParts(text, before[0].end, before[1..], mid, after);
      SplicedStep(text, cursor, before[0], before[1..], mid, after);
      assert [before[0]] + before[1..] == before;
    }
  }

  /** Text before the first edit is copied. */
  lemma LaterStart(text: seq<byte>, cursor: nat, from: nat, edits: seq<TextEdit>)
    requires cursor <= from && Splices(text, from, edits)
    ensures from <= |text| && Splices(text, cursor, edits)
    ensures SplicedFrom(text, cursor, edits) == text[cursor..from] + SplicedFrom(text, from, edits)
  {
    SplicesInside(text, from, edits);
    if edits == [] {
      Slices.Halves(text, cursor, from, |text|);
    } else {
      var e := edits[0];
      SplicesInside(text, e.end, edits[1..]);
      Slices.Halves(text, cursor, from, e.start);
      Slices.Associates(text[cursor..from], text[from..e.start], e.newText);
      Slices.Associates(text[cursor..from], text[from..e.start] + e.newText, SplicedFrom(text, e.end, edits[1..]));
    }
  }

  // ----- groups

  datatype Group = Group(first: nat, last: nat, members: seq<TextEdit>)

  function Members(groups: seq<Group>): seq<TextEdit>
  {
    if groups == [] then [] else Members(groups[..|groups| - 1]) + groups[|groups| - 1].members
  }

  lemma MembersSnoc(groups: seq<Group>, last: Group)
    ensures Members(groups + [last]) == Members(groups) + last.members
  {
    assert (groups + [last])[..|groups|] == groups;
  }

  /** The edits lie within the lines `first` to `last`. */
  predicate Within(text: seq<byte>, first: nat, last: nat, edits: seq<TextEdit>)
  {
    && first <= last < |LineStarts(text)|
    && forall i :: 0 <= i < |edits| ==>
         LineBegin(text, first) <= edits[i].start && edits[i].end <= LineBegin(text, last + 1)
  }

  /** The groups have edits, hold them within their lines, and share no line. */
  predicate Grouped(text: seq<byte>, groups: seq<Group>)
  {
    groups == [] ||
    var last := groups[|groups| - 1];
    && Grouped(text, groups[..|groups| - 1])
    && last.members != [] && Within(text, last.first, last.last, last.members)
    && (|groups| > 1 ==> groups[|groups| - 2].last < last.first)
  }

  function FirstLine(text: seq<byte>, edit: TextEdit): nat { Index(text).LineOf(edit.start) }

  function LastLine(text: seq<byte>, edit: TextEdit): nat
  {
    if edit.end > edit.start then Index(text).LineOf(edit.end - 1) else FirstLine(text, edit)
  }

  lemma SpanHoldsEdit(text: seq<byte>, edit: TextEdit)
    requires edit.start <= edit.end <= |text|
    ensures Within(text, FirstLine(text, edit), LastLine(text, edit), [edit])
  {
    OnItsLine(text, edit.start);
    if edit.end > edit.start {
      OnItsLine(text, edit.end - 1);
      if LastLine(text, edit) < FirstLine(text, edit) {
        StartsOrdered(text, LastLine(text, edit) + 1, FirstLine(text, edit));
      }
    }
  }

  lemma WithinWider(text: seq<byte>, first: nat, last: nat, edits: seq<TextEdit>, last': nat)
    requires Within(text, first, last, edits) && last <= last' < |LineStarts(text)|
    ensures Within(text, first, last', edits)
  {
    StartsOrdered(text, last + 1, last' + 1);
  }

  /** Joining an edit to the group before it. */
  lemma GroupTakes(text: seq<byte>, group: Group, edit: TextEdit)
    requires group.members != [] && Within(text, group.first, group.last, group.members)
    requires edit.start <= edit.end <= |text| && group.members[0].start <= edit.start
    requires FirstLine(text, edit) <= group.last
    ensures var last := if group.last >= LastLine(text, edit) then group.last else LastLine(text, edit);
            Within(text, group.first, last, group.members + [edit])
  {
    SpanHoldsEdit(text, edit);
    var last := if group.last >= LastLine(text, edit) then group.last else LastLine(text, edit);
    WithinWider(text, group.first, group.last, group.members, last);
    WithinWider(text, FirstLine(text, edit), LastLine(text, edit), [edit], last);
    assert [edit][0].end <= LineBegin(text, last + 1);
  }

  /** Replacing the last group by one that holds the edit, too. */
  lemma GroupJoins(text: seq<byte>, groups: seq<Group>, edit: TextEdit, joined: Group)
    requires Grouped(text, groups) && groups != [] && edit.start <= edit.end <= |text|
    requires groups[|groups| - 1].members[0].start <= edit.start && FirstLine(text, edit) <= groups[|groups| - 1].last
    requires var group, last := groups[|groups| - 1], LastLine(text, edit);
             joined == Group(group.first, if group.last >= last then group.last else last, group.members + [edit])
    ensures Grouped(text, groups[..|groups| - 1] + [joined])
    ensures Members(groups[..|groups| - 1] + [joined]) == Members(groups) + [edit]
  {
    var init, group := groups[..|groups| - 1], groups[|groups| - 1];
    GroupTakes(text, group, edit);
    MembersSnoc(init, joined);
    assert (init + [joined])[..|init|] == init;
    assert Members(init) + (group.members + [edit]) == Members(groups) + [edit];
  }

  /** A group of its own for an edit below the last group. */
  lemma GroupOpens(text: seq<byte>, groups: seq<Group>, edit: TextEdit, single: Group)
    requires Grouped(text, groups) && edit.start <= edit.end <= |text|
    requires groups != [] ==> FirstLine(text, edit) > groups[|groups| - 1].last
    requires single == Group(FirstLine(text, edit), LastLine(text, edit), [edit])
    ensures Grouped(text, groups + [single]) && Members(groups + [single]) == Members(groups) + [edit]
  {
    SpanHoldsEdit(text, edit);
    MembersSnoc(groups, single);
    assert (groups + [single])[..|groups|] == groups;
  }

  /** The first edit of the last group comes before a later one. */
  lemma LastGroupBegins(text: seq<byte>, edits: seq<TextEdit>, groups: seq<Group>, k: nat)
    requires Allowed(text, edits) && k < |edits| && Grouped(text, groups) && groups != []
             && Members(groups) == edits[..k]
    ensures groups[|groups| - 1].members[0].start <= edits[k].start
  {
    var init, group := groups[..|groups| - 1], groups[|groups| - 1];
    assert group.members[0] == Members(groups)[|Members(init)|];
    assert edits[..k][|Members(init)|] == edits[|Members(init)|];
  }

  /** What one edit makes of the groups: the last group takes it, or it opens one. */
  function WithEdit(text: seq<byte>, groups: seq<Group>, edit: TextEdit): seq<Group>
  {
    var first, last := FirstLine(text, edit), LastLine(text, edit);
    if groups != [] && first <= groups[|groups| - 1].last then
      var group := groups[|groups| - 1];
      groups[..|groups| - 1] + [Group(group.first, if group.last >= last then group.last else last,
                                      group.members + [edit])]
    else groups + [Group(first, last, [edit])]
  }

  lemma EditGrouped(text: seq<byte>, edits: seq<TextEdit>, groups: seq<Group>, k: nat)
    requires Allowed(text, edits) && k < |edits| && Grouped(text, groups) && Members(groups) == edits[..k]
    ensures Grouped(text, WithEdit(text, groups, edits[k]))
            && Members(WithEdit(text, groups, edits[k])) == edits[..k + 1]
  {
    var edit := edits[k];
    assert edits[..k + 1] == edits[..k] + [edit];
    if groups != [] && FirstLine(text, edit) <= groups[|groups| - 1].last {
      LastGroupBegins(text, edits, groups, k);
      GroupJoins(text, groups, edit, WithEdit(text, groups, edit)[|groups| - 1]);
    } else {
      GroupOpens(text, groups, edit, Group(FirstLine(text, edit), LastLine(text, edit), [edit]));
    }
  }

  /** The first half of `changes`. */
  method GroupEdits(text: seq<byte>, edits: seq<TextEdit>) returns (groups: seq<Group>)
    requires Allowed(text, edits)
    ensures Grouped(text, groups) && Members(groups) == edits
  {
    groups := [];
    for k := 0 to |edits|
      invariant Grouped(text, groups) && Members(groups) == edits[..k]
    {
      EditGrouped(text, edits, groups, k);
      groups := WithEdit(text, groups, edits[k]);
    }
    assert edits[..|edits|] == edits;
  }

  // ----- changes

  datatype Change = Change(oldFrom: nat, removed: nat, added: seq<Piece>)

  /** The first old line after the changes. */
  function EndOf(changes: seq<Change>): nat
  {
    if changes == [] then 0 else changes[|changes| - 1].oldFrom + changes[|changes| - 1].removed
  }

  predicate ChangeFits(lines: seq<Piece>, from: nat, change: Change)
  {
    && from <= change.oldFrom && change.oldFrom + change.removed <= |lines|
    && (change.removed > 0 || change.added != [])
    && (change.removed > 0 && change.added != [] ==>
          && lines[change.oldFrom] != change.added[0]
          && lines[change.oldFrom + change.removed - 1] != change.added[|change.added| - 1])
  }

  /** The changes lie in order and apart inside the lines; each changes something, and nothing equal at its ends. */
  predicate ChangesFit(lines: seq<Piece>, changes: seq<Change>)
  {
    changes == [] ||
    var init := changes[..|changes| - 1];
    ChangesFit(lines, init) && ChangeFits(lines, EndOf(init), changes[|changes| - 1])
  }

  lemma EndsInside(lines: seq<Piece>, changes: seq<Change>)
    requires ChangesFit(lines, changes)
    ensures EndOf(changes) <= |lines|
  {
  }

  /** The lines up to the end of the last change, with every change carried out. */
  function Patched(lines: seq<Piece>, changes: seq<Change>): seq<Piece>
    requires ChangesFit(lines, changes)
  {
    if changes == [] then []
    else
      var init, last := changes[..|changes| - 1], changes[|changes| - 1];
      Patched(lines, init) + lines[EndOf(init)..last.oldFrom] + last.added
  }

  /** All lines, with every change carried out. */
  function NewPieces(lines: seq<Piece>, changes: seq<Change>): seq<Piece>
    requires ChangesFit(lines, changes)
  {
    EndsInside(lines, changes);
    Patched(lines, changes) + lines[EndOf(changes)..]
  }

  /** What one group becomes: lines `from` to `to` are replaced, possibly by themselves. */
  ghost predicate ChangeReplaces(lines: seq<Piece>, from: nat, to: nat, change: Option<Change>, replaced: seq<byte>)
    requires from <= to <= |lines|
  {
    match change
    case None => Concat(lines[from..to]) == replaced
    case Some(c) =>
      && ChangeFits(lines, from, c) && c.oldFrom + c.removed <= to
      && Concat(lines[from..c.oldFrom]) + Concat(c.added) + Concat(lines[c.oldFrom + c.removed..to]) == replaced
  }

  /** Old lines that keep their trimmed ends and take the new middle spell the new lines. */
  lemma TrimmedSpell(lines: seq<Piece>, from: nat, to: nat, new': seq<Piece>, p: nat, s: nat)
    requires from <= to <= |lines| && p + s <= to - from && p + s <= |new'|
    requires lines[from..to][..p] == new'[..p] && lines[from..to][to - from - s..] == new'[|new'| - s..]
    ensures Concat(lines[from..from + p]) + Concat(new'[p..|new'| - s]) + Concat(lines[to - s..to]) == Concat(new')
  {
    var middle, end := new'[p..|new'| - s], new'[|new'| - s..];
    Slices.Within(lines, from, to, 0, p);
    Slices.Within(lines, from, to, to - from - s, to - from);
    Parts(new', p, s);
    ConcatJoin(new'[..p], middle + end);
    ConcatJoin(middle, end);
    Slices.Associates(Concat(new'[..p]), Concat(middle), Concat(end));
  }

  function TrimmedChange(lines: seq<Piece>, from: nat, to: nat, new': seq<Piece>, p: nat, s: nat): Option<Change>
    requires from <= to <= |lines| && p + s <= to - from && p + s <= |new'|
  {
    var removed, added := to - from - p - s, new'[p..|new'| - s];
    if removed > 0 || added != [] then Some(Change(from + p, removed, added)) else None
  }

  lemma NothingTrimmedAway(lines: seq<Piece>, from: nat, to: nat, mid: nat)
    requires from <= mid <= to <= |lines|
    ensures Concat(lines[from..to]) == Concat(lines[from..mid]) + Concat(lines[mid..to])
  {
    ConcatJoin(lines[from..mid], lines[mid..to]);
    Slices.Halves(lines, from, mid, to);
  }

  lemma TrimmedChangeReplaces(lines: seq<Piece>, from: nat, to: nat, new': seq<Piece>, p: nat, s: nat,
                              change: Option<Change>, spelled: seq<byte>)
    requires from <= to <= |lines| && p + s <= to - from && p + s <= |new'|
    requires change == TrimmedChange(lines, from, to, new', p, s)
    requires Concat(lines[from..from + p]) + Concat(new'[p..|new'| - s]) + Concat(lines[to - s..to]) == spelled
    requires p + s < to - from && p + s < |new'| ==>
               lines[from + p] != new'[p] && lines[to - s - 1] != new'[|new'| - s - 1]
    ensures ChangeReplaces(lines, from, to, change, spelled)
  {
    if change.None? {
      NothingTrimmedAway(lines, from, to, from + p);
    }
  }

  /** Between the trimmed ends the old and new lines differ at both ends. */
  lemma TrimmedDiffers(lines: seq<Piece>, from: nat, to: nat, new': seq<Piece>, p: nat, s: nat)
    requires from <= to <= |lines| && Trimmed(lines[from..to], new', p, s)
    ensures p + s <= to - from && p + s <= |new'|
    ensures p + s < to - from && p + s < |new'| ==>
              lines[from + p] != new'[p] && lines[to - s - 1] != new'[|new'| - s - 1]
  {
    if p + s < to - from {
      assert lines[from..to][p] == lines[from + p];
      assert lines[from..to][to - from - s - 1] == lines[to - s - 1];
    }
  }

  lemma TrimmedLinesReplace(lines: seq<Piece>, from: nat, to: nat, new': seq<Piece>, p: nat, s: nat,
                            change: Option<Change>)
    requires from <= to <= |lines| && Trimmed(lines[from..to], new', p, s)
    requires change == TrimmedChange(lines, from, to, new', p, s)
    ensures ChangeReplaces(lines, from, to, change, Concat(new'))
  {
    TrimmedSpell(lines, from, to, new', p, s);
    TrimmedDiffers(lines, from, to, new', p, s);
    TrimmedChangeReplaces(lines, from, to, new', p, s, change, Concat(new'));
  }

  /** Trimming equal ends from the old and new lines of a group. */
  method Trim(lines: seq<Piece>, from: nat, to: nat, new': seq<Piece>) returns (change: Option<Change>)
    requires from <= to <= |lines|
    ensures ChangeReplaces(lines, from, to, change, Concat(new'))
  {
    var prefix, suffix := TrimEnds(lines[from..to], new');
    change := TrimmedChange(lines, from, to, new', prefix, suffix);
    TrimmedLinesReplace(lines, from, to, new', prefix, suffix, change);
  }

  /** The text that replaces the lines of a group. */
  method ReplaceSegment(text: seq<byte>, from: nat, to: nat, members: seq<TextEdit>) returns (replaced: seq<byte>)
    requires to <= |text| && Splices(text[..to], from, members)
    ensures replaced == SplicedFrom(text[..to], from, members)
  {
    var segment := text[..to];
    replaced := [];
    var cursor := from;
    for k := 0 to |members|
      invariant Splices(segment, cursor, members[k..])
      invariant replaced + SplicedFrom(segment, cursor, members[k..]) == SplicedFrom(segment, from, members)
    {
      SplicesInside(segment, members[k].end, members[k..][1..]);
      assert members[k..][1..] == members[k + 1..];
      assert segment[cursor..members[k].start] == text[cursor..members[k].start];
      replaced := replaced + text[cursor..members[k].start] + members[k].newText;
      cursor := members[k].end;
    }
    SplicesInside(segment, cursor, []);
    assert segment[cursor..] == text[cursor..to];
    replaced := replaced + text[cursor..to];
  }

  /** The edits of a group are in order inside its segment. */
  lemma GroupSplices(text: seq<byte>, edits: seq<TextEdit>, before: seq<TextEdit>, group: Group)
    requires Allowed(text, edits) && before + group.members <= edits
    requires Within(text, group.first, group.last, group.members)
    ensures LineBegin(text, group.first) <= LineBegin(text, group.last + 1) <= |text|
    ensures Splices(text[..LineBegin(text, group.last + 1)], LineBegin(text, group.first), group.members)
  {
    StartsOrdered(text, group.first, group.last + 1);
    var members := group.members;
    forall i | 0 <= i < |members| ensures members[i] == edits[|before| + i] {
      assert (before + members)[|before| + i] == members[i];
    }
    SplicesFits(text[..LineBegin(text, group.last + 1)], LineBegin(text, group.first), members);
  }

  /** `changes`, for one group. */
  method ChangeOf(text: seq<byte>, lines: seq<Piece>, group: Group) returns (change: Option<Change>)
    requires lines == SplitInclusive(text) && group.first <= group.last < |LineStarts(text)|
    requires LineBegin(text, group.last + 1) <= |text|
    requires Splices(text[..LineBegin(text, group.last + 1)], LineBegin(text, group.first), group.members)
    ensures group.first <= Min(group.last + 1, |lines|)
    ensures ChangeReplaces(lines, group.first, Min(group.last + 1, |lines|), change,
                           SplicedFrom(text[..LineBegin(text, group.last + 1)], LineBegin(text, group.first),
                                       group.members))
  {
    StartsAndPieces(text);
    var segmentStart := LineStarts(text)[group.first];
    var segmentEnd := if group.last + 1 < |LineStarts(text)| then LineStarts(text)[group.last + 1] else |text|;
    var replaced := ReplaceSegment(text, segmentStart, segmentEnd, group.members);
    SplitSpells(replaced);
    change := Trim(lines, group.first, Min(group.last + 1, |lines|), SplitInclusive(replaced));
  }

  function WithChange(changes: seq<Change>, change: Option<Change>): seq<Change>
  {
    if change.Some? then changes + [change.value] else changes
  }

  /** The pieces up to line `to`, with the changes carried out. */
  function PatchedTo(lines: seq<Piece>, changes: seq<Change>, to: nat): seq<Piece>
    requires ChangesFit(lines, changes) && EndOf(changes) <= to <= |lines|
  {
    Patched(lines, changes) + lines[EndOf(changes)..to]
  }

  lemma ChangeFitsLater(lines: seq<Piece>, from: nat, from': nat, change: Change)
    requires ChangeFits(lines, from, change) && from' <= from
    ensures ChangeFits(lines, from', change)
  {
  }

  lemma PatchedSnoc(lines: seq<Piece>, changes: seq<Change>, change: Change)
    requires ChangesFit(lines, changes) && ChangeFits(lines, EndOf(changes), change)
    ensures ChangesFit(lines, changes + [change]) && EndOf(changes + [change]) == change.oldFrom + change.removed
    ensures Patched(lines, changes + [change]) == PatchedTo(lines, changes, change.oldFrom) + change.added
  {
    assert (changes + [change])[..|changes|] == changes;
  }

  /** Copying further lines. */
  lemma PatchedFurther(lines: seq<Piece>, changes: seq<Change>, to: nat, further: nat)
    requires ChangesFit(lines, changes) && EndOf(changes) <= to <= further <= |lines|
    ensures Concat(PatchedTo(lines, changes, further)) ==
            Concat(PatchedTo(lines, changes, to)) + Concat(lines[to..further])
  {
    Slices.Halves(lines, EndOf(changes), to, further);
    Slices.Associates(Patched(lines, changes), lines[EndOf(changes)..to], lines[to..further]);
    ConcatJoin(PatchedTo(lines, changes, to), lines[to..further]);
  }

  /** The lines up to `to`, with the changes carried out, spell the bytes. */
  ghost predicate Spells(lines: seq<Piece>, changes: seq<Change>, to: nat, spelled: seq<byte>)
  {
    ChangesFit(lines, changes) && EndOf(changes) <= to <= |lines| && Concat(PatchedTo(lines, changes, to)) == spelled
  }

  lemma PatchedWith(lines: seq<Piece>, changes: seq<Change>, c: Change, from: nat, before: seq<byte>)
    requires Spells(lines, changes, from, before) && ChangeFits(lines, from, c)
    ensures Spells(lines, changes + [c], c.oldFrom + c.removed,
                   before + Concat(lines[from..c.oldFrom]) + Concat(c.added))
  {
    ChangeFitsLater(lines, from, EndOf(changes), c);
    PatchedSnoc(lines, changes, c);
    PatchedFurther(lines, changes, from, c.oldFrom);
    ConcatJoin(PatchedTo(lines, changes, c.oldFrom), c.added);
    assert PatchedTo(lines, changes + [c], c.oldFrom + c.removed) == Patched(lines, changes + [c]);
  }

  lemma SpellsFurther(lines: seq<Piece>, changes: seq<Change>, to: nat, further: nat, spelled: seq<byte>)
    requires Spells(lines, changes, to, spelled) && to <= further <= |lines|
    ensures Spells(lines, changes, further, spelled + Concat(lines[to..further]))
  {
    PatchedFurther(lines, changes, to, further);
  }

  lemma AssociateFour(a: seq<byte>, b: seq<byte>, c: seq<byte>, d: seq<byte>)
    ensures a + b + c + d == a + (b + c + d)
  {
  }

  /** Carrying out one more change. */
  lemma TakesOne(lines: seq<Piece>, changes: seq<Change>, c: Change, from: nat, to: nat, before: seq<byte>)
    requires Spells(lines, changes, from, before) && ChangeFits(lines, from, c)
             && c.oldFrom + c.removed <= to <= |lines|
    ensures Spells(lines, changes + [c], to,
                   before + (Concat(lines[from..c.oldFrom]) + Concat(c.added) +
                             Concat(lines[c.oldFrom + c.removed..to])))
  {
    var x, a, rest := Concat(lines[from..c.oldFrom]), Concat(c.added), Concat(lines[c.oldFrom + c.removed..to]);
    PatchedWith(lines, changes, c, from, before);
    SpellsFurther(lines, changes + [c], c.oldFrom + c.removed, to, before + x + a);
    AssociateFour(before, x, a, rest);
  }

  /** Taking one more group's change. */
  lemma TakesChange(lines: seq<Piece>, changes: seq<Change>, cut: nat, from: nat, to: nat, change: Option<Change>,
                    replaced: seq<byte>, before: seq<byte>)
    requires Spells(lines, changes, cut, before) && cut <= from <= to <= |lines|
    requires ChangeReplaces(lines, from, to, change, replaced)
    ensures Spells(lines, WithChange(changes, change), to, before + Concat(lines[cut..from]) + replaced)
  {
    SpellsFurther(lines, changes, cut, from, before);
    match change
    case None =>
      SpellsFurther(lines, changes, from, to, before + Concat(lines[cut..from]));
    case Some(c) =>
      TakesOne(lines, changes, c, from, to, before + Concat(lines[cut..from]));
  }

  /** Where the groups so far end, in lines. */
  function CutAfter(groups: seq<Group>): nat
  {
    if groups == [] then 0 else groups[|groups| - 1].last + 1
  }

  /** The pieces so far are the splice so far. */
  ghost predicate Follows(text: seq<byte>, groups: seq<Group>, changes: seq<Change>)
  {
    FollowsTo(text, CutAfter(groups), Members(groups), changes)
  }

  /** The pieces up to line `cut` are the splice of the edits up to there. */
  ghost predicate FollowsTo(text: seq<byte>, cut: nat, edits: seq<TextEdit>, changes: seq<Change>)
  {
    && LineBegin(text, cut) <= |text| && Splices(text[..LineBegin(text, cut)], 0, edits)
    && Spells(SplitInclusive(text), changes, Min(cut, |SplitInclusive(text)|),
              SplicedFrom(text[..LineBegin(text, cut)], 0, edits))
  }

  lemma SpellsNext(lines: seq<Piece>, changes: seq<Change>, cut: nat, spelled: seq<byte>, from: nat, to: nat,
                   change: Option<Change>, replaced: seq<byte>, more: seq<byte>)
    requires Spells(lines, changes, cut, spelled) && cut <= from <= to <= |lines|
    requires ChangeReplaces(lines, from, to, change, replaced) && more == spelled + Concat(lines[cut..from]) + replaced
    ensures Spells(lines, WithChange(changes, change), to, more)
  {
    TakesChange(lines, changes, cut, from, to, change, replaced, spelled);
  }

  /** The splice up to `a`, the text from there to `f`, and the splice from `f` to `e` make the splice up to `e`. */
  lemma SplicedFurther(text: seq<byte>, before: seq<TextEdit>, a: nat, f: nat, e: nat, members: seq<TextEdit>)
    requires a <= f <= e <= |text| && Splices(text[..a], 0, before) && Splices(text[..e], f, members)
    ensures Splices(text[..e], 0, before + members)
    ensures SplicedFrom(text[..e], 0, before + members) ==
            SplicedFrom(text[..a], 0, before) + text[a..f] + SplicedFrom(text[..e], f, members)
  {
    var end := text[..e];
    assert end[..a] == text[..a];
    Slices.OfPrefix(text, e, a, f);
    LaterStart(end, a, f, members);
    SplicedInParts(end, 0, before, a, members);
    Slices.Associates(SplicedFrom(text[..a], 0, before), text[a..f], SplicedFrom(end, f, members));
  }

  lemma CutsInOrder(text: seq<byte>, groups: seq<Group>, group: Group)
    requires Grouped(text, groups + [group])
    ensures CutAfter(groups) <= group.first
  {
    assert (groups + [group])[|groups|] == group;
    if groups != [] {
      assert (groups + [group])[|groups| - 1] == groups[|groups| - 1];
    }
  }

  lemma BetweenGroups(text: seq<byte>, cut: nat, first: nat)
    requires cut <= first <= |SplitInclusive(text)|
    ensures LineBegin(text, cut) <= LineBegin(text, first) <= |text|
    ensures Concat(SplitInclusive(text)[cut..first]) == text[LineBegin(text, cut)..LineBegin(text, first)]
  {
    PiecesBetween(text, cut, first);
  }

  lemma SegmentFollows(text: seq<byte>, lines: seq<Piece>, cut: nat, before: seq<TextEdit>, changes: seq<Change>,
                       group: Group, change: Option<Change>, end: seq<byte>, replaced: seq<byte>, a: nat, f: nat,
                       spelled: seq<byte>)
    requires lines == SplitInclusive(text) && cut <= group.first <= Min(group.last + 1, |lines|)
    requires a == LineBegin(text, cut) && f == LineBegin(text, group.first) && f <= |end| <= |text|
             && end == text[..|end|]
    requires a <= |text| && Splices(text[..a], 0, before) && spelled == SplicedFrom(text[..a], 0, before)
    requires Spells(lines, changes, cut, spelled)
    requires Splices(end, f, group.members) && replaced == SplicedFrom(end, f, group.members)
    requires ChangeReplaces(lines, group.first, Min(group.last + 1, |lines|), change, replaced)
    ensures Splices(end, 0, before + group.members)
    ensures Spells(lines, WithChange(changes, change), Min(group.last + 1, |lines|),
                   SplicedFrom(end, 0, before + group.members))
  {
    BetweenGroups(text, cut, group.first);
    SplicedFurther(text, before, a, f, |end|, group.members);
    SpellsNext(lines, changes, cut, spelled, group.first, Min(group.last + 1, |lines|), change, replaced,
               SplicedFrom(end, 0, before + group.members));
  }

  /** One more group, whose segment ends in `end` and becomes `replaced`. */
  lemma GroupFollows(text: seq<byte>, cut: nat, before: seq<TextEdit>, changes: seq<Change>, group: Group,
                     change: Option<Change>, end: seq<byte>, replaced: seq<byte>)
    requires FollowsTo(text, cut, before, changes) && cut <= group.first
    requires LineBegin(text, group.first) <= LineBegin(text, group.last + 1) <= |text|
             && end == text[..LineBegin(text, group.last + 1)]
    requires Splices(end, LineBegin(text, group.first), group.members)
             && replaced == SplicedFrom(end, LineBegin(text, group.first), group.members)
    requires group.first <= Min(group.last + 1, |SplitInclusive(text)|)
    requires ChangeReplaces(SplitInclusive(text), group.first, Min(group.last + 1, |SplitInclusive(text)|), change,
                            replaced)
    ensures FollowsTo(text, group.last + 1, before + group.members, WithChange(changes, change))
  {
    SegmentFollows(text, SplitInclusive(text), cut, before, changes, group, change, end, replaced,
                   LineBegin(text, cut), LineBegin(text, group.first),
                     SplicedFrom(text[..LineBegin(text, cut)], 0, before));
  }

  lemma RestOfPieces(text: seq<byte>, cut: nat)
    ensures LineBegin(text, cut) <= |text|
    ensures Concat(SplitInclusive(text)[Min(cut, |SplitInclusive(text)|)..|SplitInclusive(text)|]) ==
            text[LineBegin(text, cut)..]
  {
    var all := Max(cut, |SplitInclusive(text)|);
    AllPieces(text, all);
    PiecesBetween(text, cut, all);
  }

  lemma RestOfSplice(text: seq<byte>, mid: nat, edits: seq<TextEdit>)
    requires mid <= |text| && Splices(text[..mid], 0, edits)
    ensures Splices(text, 0, edits) && Spliced(text, edits) == SplicedFrom(text[..mid], 0, edits) + text[mid..]
  {
    SplicedInParts(text, 0, edits, mid, []);
    assert edits + [] == edits;
  }

  lemma FollowsToTheEnd(text: seq<byte>, groups: seq<Group>, changes: seq<Change>)
    requires Follows(text, groups, changes)
    ensures Splices(text, 0, Members(groups)) && ChangesFit(SplitInclusive(text), changes)
    ensures Concat(NewPieces(SplitInclusive(text), changes)) == Spliced(text, Members(groups))
  {
    var lines, cut := SplitInclusive(text), CutAfter(groups);
    RestOfPieces(text, cut);
    PatchedFurther(lines, changes, Min(cut, |lines|), |lines|);
    RestOfSplice(text, LineBegin(text, cut), Members(groups));
    assert PatchedTo(lines, changes, |lines|) == NewPieces(lines, changes);
  }

  function Max(a: nat, b: nat): nat { if a >= b then a else b }

  lemma {:induction false} GroupedPrefix(text: seq<byte>, groups: seq<Group>, k: nat)
    requires Grouped(text, groups) && k <= |groups|
    ensures Grouped(text, groups[..k]) && Members(groups[..k]) <= Members(groups)
    decreases |groups|
  {
    if k == |groups| {
      assert groups[..k] == groups;
    } else {
      GroupedPrefix(text, groups[..|groups| - 1], k);
      assert groups[..|groups| - 1][..k] == groups[..k];
    }
  }

  lemma NextGroup(text: seq<byte>, groups: seq<Group>, k: nat)
    requires Grouped(text, groups) && k < |groups|
    ensures groups[..k + 1] == groups[..k] + [groups[k]] && Grouped(text, groups[..k] + [groups[k]])
    ensures Members(groups[..k]) + groups[k].members <= Members(groups)
    ensures Members(groups[..k + 1]) == Members(groups[..k]) + groups[k].members
            && CutAfter(groups[..k + 1]) == groups[k].last + 1
    ensures Within(text, groups[k].first, groups[k].last, groups[k].members)
  {
    GroupedPrefix(text, groups, k + 1);
    assert groups[..k + 1] == groups[..k] + [groups[k]];
    MembersSnoc(groups[..k], groups[k]);
  }

  /** `changes`, for the group after those already done. */
  method ChangeOfNext(text: seq<byte>, lines: seq<Piece>, ghost edits: seq<TextEdit>, groups: seq<Group>, k: nat,
                      ghost changes: seq<Change>)
    returns (change: Option<Change>)
    requires lines == SplitInclusive(text) && Allowed(text, edits) && Grouped(text, groups) && Members(groups) == edits
    requires k < |groups| && Follows(text, groups[..k], changes)
    ensures ChangesFit(lines, WithChange(changes, change))
            && Follows(text, groups[..k + 1], WithChange(changes, change))
  {
    var group := groups[k];
    NextGroup(text, groups, k);
    GroupSplices(text, edits, Members(groups[..k]), group);
    change := ChangeOf(text, lines, group);
    NextFollows(text, groups, k, changes, change, text[..LineBegin(text, group.last + 1)]);
  }

  lemma NextFollows(text: seq<byte>, groups: seq<Group>, k: nat, changes: seq<Change>, change: Option<Change>,
                    end: seq<byte>)
    requires Grouped(text, groups) && k < |groups| && Follows(text, groups[..k], changes)
    requires var group := groups[k];
             && LineBegin(text, group.first) <= LineBegin(text, group.last + 1) <= |text|
             && end == text[..LineBegin(text, group.last + 1)]
             && Splices(end, LineBegin(text, group.first), group.members)
             && group.first <= Min(group.last + 1, |SplitInclusive(text)|)
             && ChangeReplaces(SplitInclusive(text), group.first, Min(group.last + 1, |SplitInclusive(text)|), change,
                               SplicedFrom(end, LineBegin(text, group.first), group.members))
    ensures Follows(text, groups[..k + 1], WithChange(changes, change))
  {
    var group := groups[k];
    NextGroup(text, groups, k);
    CutsInOrder(text, groups[..k], group);
    GroupFollows(text, CutAfter(groups[..k]), Members(groups[..k]), changes, group, change, end,
                 SplicedFrom(end, LineBegin(text, group.first), group.members));
  }

  lemma FollowsAtFirst(text: seq<byte>)
    ensures Follows(text, [], [])
  {
    FirstStart(text);
    assert Concat(PatchedTo(SplitInclusive(text), [], 0)) == [];
    assert text[..0] == [];
  }

  /**
   `changes`: replacing each change's removed lines by its added pieces and joining everything gives exactly the
   splice of the edits.
   */
  method Changes(text: seq<byte>, edits: seq<TextEdit>) returns (changes: seq<Change>)
    requires Allowed(text, edits)
    ensures Splices(text, 0, edits) && ChangesFit(SplitInclusive(text), changes)
    ensures Concat(NewPieces(SplitInclusive(text), changes)) == Spliced(text, edits)
  {
    var lines := SplitInclusive(text);
    var groups := GroupEdits(text, edits);
    changes := [];
    FollowsAtFirst(text);
    assert groups[..0] == [];
    for k := 0 to |groups|
      invariant Follows(text, groups[..k], changes)
    {
      var change := ChangeOfNext(text, lines, edits, groups, k, changes);
      changes := WithChange(changes, change);
    }
    assert groups[..|groups|] == groups;
    FollowsToTheEnd(text, groups, changes);
  }

  /**
   The pieces need not be the lines of the new text: they are exactly when each but the last ends in a newline,
   and otherwise an edit has joined two lines that the diff still shows apart.
   */
  lemma PiecesAreLinesWhen(text: seq<byte>, edits: seq<TextEdit>, changes: seq<Change>)
    requires ChangesFit(SplitInclusive(text), changes) && Splices(text, 0, edits)
    requires Concat(NewPieces(SplitInclusive(text), changes)) == Spliced(text, edits)
    ensures NewPieces(SplitInclusive(text), changes) == SplitInclusive(Spliced(text, edits)) <==>
            AreLines(NewPieces(SplitInclusive(text), changes))
  {
    SplitSpells(Spliced(text, edits));
    if AreLines(NewPieces(SplitInclusive(text), changes)) {
      LinesAreUnique(NewPieces(SplitInclusive(text), changes));
    }
  }
}
