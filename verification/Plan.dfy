/**
 Edit plans (crates/atlas-edit/src/plan.rs): byte edits of files, creations, renames and deletions, the
 checks a plan passes before anything is touched, and the splice that carries out the edits of one file.
 */
module Plan {
  import opened Wrappers
  import opened Utf8
  import Slices

  datatype FileTarget = FileTarget(repo: string, path: string)

  /** BLAKE3, taken to be injective: a hash stands for exactly one content. */
  datatype ContentHash = Digest(content: seq<byte>)

  datatype TextEdit = TextEdit(start: nat, end: nat, newText: seq<byte>)

  datatype FileEdits = FileEdits(file: FileTarget, expected: ContentHash, edits: seq<TextEdit>)

  datatype ResourceOp =
    | Create(file: FileTarget, content: seq<byte>)
    | Rename(from: FileTarget, to: FileTarget, expected: ContentHash)
    | Delete(file: FileTarget, expected: ContentHash)
  {
    function Paths(): seq<FileTarget>
    {
      if Rename? then [from, to] else [file]
    }

    predicate Claims(path: FileTarget)
    {
      if Rename? then path == from || path == to else path == file
    }
  }

  datatype EditPlan = EditPlan(files: seq<FileEdits>, resources: seq<ResourceOp>)

  datatype PlanViolation =
    | Empty
    | DuplicateFile(file: FileTarget)
    | NoEdits(file: FileTarget)
    | Inverted(file: FileTarget, start: nat, end: nat)
    | Unsorted(file: FileTarget, index: nat)
    | Overlap(file: FileTarget, first: (nat, nat), second: (nat, nat))
    | OutOfBounds(file: FileTarget, start: nat, end: nat, len: nat)
    | NotCharBoundary(file: FileTarget, offset: nat)
    | TouchesBom(file: FileTarget)
    | ResourceConflict(path: FileTarget, reason: string)

  /** At least one edit, none ends before it starts, and each ends before any later one starts. */
  predicate WellShaped(edits: seq<TextEdit>)
  {
    && edits != []
    && (forall i :: 0 <= i < |edits| ==> edits[i].start <= edits[i].end)
    && (forall i, j :: 0 <= i < j < |edits| ==> edits[i].end <= edits[j].start)
  }

  /** `FileEdits::validate_shape`. */
  method ValidateShape(file: FileEdits) returns (r: Option<PlanViolation>)
    ensures r.None? <==> WellShaped(file.edits)
  {
    var edits := file.edits;
    if edits == [] {
      return Some(NoEdits(file.file));
    }
    for index := 0 to |edits|
      invariant forall i :: 0 <= i < index ==> edits[i].start <= edits[i].end
      invariant forall i, j :: 0 <= i < j < index ==> edits[i].end <= edits[j].start
    {
      var edit := edits[index];
      if edit.start > edit.end {
        return Some(Inverted(file.file, edit.start, edit.end));
      }
      if index > 0 {
        var previous := edits[index - 1];
        if previous.start > edit.start || (previous.start == edit.start && previous.end > edit.end) {
          return Some(Unsorted(file.file, index));
        }
        if edit.start < previous.end {
          return Some(Overlap(file.file, (previous.start, previous.end), (edit.start, edit.end)));
        }
      }
    }
    return None;
  }

  const UTF8_BOM: seq<byte> := [0xEF, 0xBB, 0xBF]

  function BomLen(content: seq<byte>): nat
  {
    if UTF8_BOM <= content then |UTF8_BOM| else 0
  }

  /** The edits lie inside the content, after its byte order mark, and begin and end between characters. */
  predicate Fits(content: seq<byte>, edits: seq<TextEdit>)
  {
    && WellShaped(edits)
    && forall i :: 0 <= i < |edits| ==>
         && BomLen(content) <= edits[i].start && edits[i].end <= |content|
         && IsCharBoundary(content, edits[i].start) && IsCharBoundary(content, edits[i].end)
  }

  /** `FileEdits::check_against`. */
  method CheckAgainst(file: FileEdits, content: seq<byte>) returns (r: Option<PlanViolation>)
    ensures r.None? <==> Fits(content, file.edits)
  {
    r := ValidateShape(file);
    if r.Some? {
      return;
    }
    for index := 0 to |file.edits|
      invariant forall i :: 0 <= i < index ==>
        && BomLen(content) <= file.edits[i].start && file.edits[i].end <= |content|
        && IsCharBoundary(content, file.edits[i].start) && IsCharBoundary(content, file.edits[i].end)
    {
      var edit := file.edits[index];
      if edit.end > |content| {
        return Some(OutOfBounds(file.file, edit.start, edit.end, |content|));
      }
      if edit.start < BomLen(content) {
        return Some(TouchesBom(file.file));
      }
      if !IsCharBoundary(content, edit.start) {
        return Some(NotCharBoundary(file.file, edit.start));
      }
      if !IsCharBoundary(content, edit.end) {
        return Some(NotCharBoundary(file.file, edit.end));
      }
    }
  }

  /** The edits from `cursor` on: in order, disjoint, inside the content. */
  predicate Splices(content: seq<byte>, cursor: nat, edits: seq<TextEdit>)
    decreases |edits|
  {
    if edits == [] then cursor <= |content|
    else cursor <= edits[0].start <= edits[0].end && Splices(content, edits[0].end, edits[1..])
  }

  lemma {:induction false} SplicesFits(content: seq<byte>, cursor: nat, edits: seq<TextEdit>)
    requires cursor <= |content|
    requires forall i :: 0 <= i < |edits| ==> cursor <= edits[i].start <= edits[i].end <= |content|
    requires forall i, j :: 0 <= i < j < |edits| ==> edits[i].end <= edits[j].start
    ensures Splices(content, cursor, edits)
    decreases |edits|
  {
    if edits != [] {
      SplicesFits(content, edits[0].end, edits[1..]);
    }
  }

  lemma {:induction false} SplicesInside(content: seq<byte>, cursor: nat, edits: seq<TextEdit>)
    requires Splices(content, cursor, edits)
    ensures cursor <= |content|
    decreases |edits|
  {
    if edits != [] {
      SplicesInside(content, edits[0].end, edits[1..]);
    }
  }

  /** The content from `cursor` on with the edits carried out left to right. */
  function SplicedFrom(content: seq<byte>, cursor: nat, edits: seq<TextEdit>): seq<byte>
    requires Splices(content, cursor, edits)
    decreases |edits|
  {
    SplicesInside(content, cursor, edits);
    if edits == [] then content[cursor..]
    else
      SplicesInside(content, edits[0].end, edits[1..]);
      content[cursor..edits[0].start] + edits[0].newText + SplicedFrom(content, edits[0].end, edits[1..])
  }

  function Spliced(content: seq<byte>, edits: seq<TextEdit>): seq<byte>
    requires Splices(content, 0, edits)
  {
    SplicedFrom(content, 0, edits)
  }

  /** `splice`: one pass over the edits, copying what lies between them. */
  method Splice(content: seq<byte>, edits: seq<TextEdit>) returns (output: seq<byte>)
    requires Splices(content, 0, edits)
    ensures output == Spliced(content, edits)
  {
    output := [];
    var cursor: nat := 0;
    for k := 0 to |edits|
      invariant Splices(content, cursor, edits[k..])
      invariant output + SplicedFrom(content, cursor, edits[k..]) == Spliced(content, edits)
    {
      SplicesInside(content, edits[k].end, edits[k..][1..]);
      assert edits[k..][1..] == edits[k + 1..];
      output := output + content[cursor..edits[k].start] + edits[k].newText;
      cursor := edits[k].end;
    }
    SplicesInside(content, cursor, []);
    output := output + content[cursor..];
  }

  /** The reference: carry out one replacement at a time, the last one first, so no offset moves. */
  function OneByOne(content: seq<byte>, edits: seq<TextEdit>): seq<byte>
  {
    if edits == [] then content
    else
      var later := OneByOne(content, edits[1..]);
      if edits[0].start <= edits[0].end <= |later| then
        later[..edits[0].start] + edits[0].newText + later[edits[0].end..]
      else later
  }

  /** The single pass is the independent replacements, and nothing before the first edit moves. */
  lemma {:induction false} SplicedIsOneByOne(content: seq<byte>, cursor: nat, edits: seq<TextEdit>)
    requires Splices(content, cursor, edits)
    ensures cursor <= |content| && OneByOne(content, edits) == content[..cursor] + SplicedFrom(content, cursor, edits)
    decreases |edits|
  {
    SplicesInside(content, cursor, edits);
    if edits != [] {
      var e := edits[0];
      SplicedIsOneByOne(content, e.end, edits[1..]);
      SplicesInside(content, e.end, edits[1..]);
      Slices.JoinCuts(content[..e.end], SplicedFrom(content, e.end, edits[1..]), e.start);
      assert content[..e.end][..e.start] == content[..cursor] + content[cursor..e.start];
      Slices.Associates(content[..cursor], content[cursor..e.start], e.newText);
      Slices.Associates(content[..cursor], content[cursor..e.start] + e.newText,
                        SplicedFrom(content, e.end, edits[1..]));
    }
  }

  /** The pieces a splice of valid text copies are valid text, and so is its result: it cannot panic. */
  lemma {:induction false} SplicedIsUtf8(content: seq<byte>, cursor: nat, edits: seq<TextEdit>)
    requires Splices(content, cursor, edits) && IsUtf8(content)
    requires cursor <= |content| && IsCharBoundary(content, cursor)
    requires forall i :: 0 <= i < |edits| ==> IsUtf8(edits[i].newText) && edits[i].start <= edits[i].end <= |content|
    requires forall i :: 0 <= i < |edits| ==>
               IsCharBoundary(content, edits[i].start) && IsCharBoundary(content, edits[i].end)
    ensures IsUtf8(SplicedFrom(content, cursor, edits))
    decreases |edits|
  {
    CutIsUtf8(content, cursor);
    if edits != [] {
      var e := edits[0];
      CutIsUtf8(content, e.start);
      assert IsCharBoundary(content[..e.start], cursor);
      CutIsUtf8(content[..e.start], cursor);
      assert content[..e.start][cursor..] == content[cursor..e.start];
      SplicedIsUtf8(content, e.end, edits[1..]);
      ConcatIsUtf8(content[cursor..e.start], e.newText);
      ConcatIsUtf8(content[cursor..e.start] + e.newText, SplicedFrom(content, e.end, edits[1..]));
    }
  }

  /** `FileEdits::apply_to`. */
  method ApplyTo(file: FileEdits, content: seq<byte>) returns (r: Result<seq<byte>, PlanViolation>)
    ensures r.Ok? <==> Fits(content, file.edits)
    ensures r.Ok? ==> Splices(content, 0, file.edits) && r.value == Spliced(content, file.edits)
    ensures r.Ok? && IsUtf8(content) && (forall i :: 0 <= i < |file.edits| ==> IsUtf8(file.edits[i].newText)) ==>
              IsUtf8(r.value)
  {
    var violation := CheckAgainst(file, content);
    if violation.Some? {
      return Err(violation.value);
    }
    SplicesFits(content, 0, file.edits);
    var output := Splice(content, file.edits);
    if IsUtf8(content) && forall i :: 0 <= i < |file.edits| ==> IsUtf8(file.edits[i].newText) {
      SplicedIsUtf8(content, 0, file.edits);
    }
    return Ok(output);
  }

  ghost predicate EditsFile(plan: EditPlan, target: FileTarget)
  {
    exists i :: 0 <= i < |plan.files| && plan.files[i].file == target
  }

  /** The hash a plan's edits of `from` expect, if any, is the one its rename of `from` expects. */
  ghost predicate AgreesWithEdits(plan: EditPlan, op: ResourceOp)
  {
    match op
    case Create(file, _) => !EditsFile(plan, file)
    case Delete(file, _) => !EditsFile(plan, file)
    case Rename(from, to, expected) =>
      && !EditsFile(plan, to)
      && forall i :: 0 <= i < |plan.files| && plan.files[i].file == from ==> plan.files[i].expected == expected
  }

  ghost predicate ClaimsApart(ops: seq<ResourceOp>)
  {
    && (forall i :: 0 <= i < |ops| && ops[i].Rename? ==> ops[i].from != ops[i].to)
    && (forall i, j, path :: 0 <= i < j < |ops| && ops[i].Claims(path) ==> !ops[j].Claims(path))
  }

  /** What a plan must be: no file edited twice, no path claimed by two operations, no contradiction. */
  ghost predicate ValidPlan(plan: EditPlan)
  {
    && (plan.files != [] || plan.resources != [])
    && (forall i :: 0 <= i < |plan.files| ==> WellShaped(plan.files[i].edits))
    && (forall i, j :: 0 <= i < j < |plan.files| ==> plan.files[i].file != plan.files[j].file)
    && ClaimsApart(plan.resources)
    && (forall i :: 0 <= i < |plan.resources| ==> AgreesWithEdits(plan, plan.resources[i]))
  }

  /** `EditPlan::validate`: accepts exactly the valid plans. */
  method Validate(plan: EditPlan) returns (r: Option<PlanViolation>)
    ensures r.None? <==> ValidPlan(plan)
  {
    if plan.files == [] && plan.resources == [] {
      return Some(Empty);
    }
    var edited;
    r, edited := ValidateFiles(plan);
    if r.None? {
      r := ValidateResources(plan, edited);
    }
  }

  method ValidateFiles(plan: EditPlan) returns (r: Option<PlanViolation>, edited: map<FileTarget, ContentHash>)
    ensures r.None? <==>
            && (forall i :: 0 <= i < |plan.files| ==> WellShaped(plan.files[i].edits))
            && (forall i, j :: 0 <= i < j < |plan.files| ==> plan.files[i].file != plan.files[j].file)
    ensures r.None? ==> Edited(plan, edited)
  {
    edited := map[];
    for i := 0 to |plan.files|
      invariant forall k :: 0 <= k < i ==> WellShaped(plan.files[k].edits)
      invariant forall k, l :: 0 <= k < l < i ==> plan.files[k].file != plan.files[l].file
      invariant forall k :: 0 <= k < i ==>
                  plan.files[k].file in edited && edited[plan.files[k].file] == plan.files[k].expected
      invariant forall path :: path in edited ==> exists k :: 0 <= k < i && plan.files[k].file == path
    {
      var violation := ValidateShape(plan.files[i]);
      if violation.Some? {
        return violation, edited;
      }
      if plan.files[i].file in edited {
        return Some(DuplicateFile(plan.files[i].file)), edited;
      }
      edited := edited[plan.files[i].file := plan.files[i].expected];
    }
    return None, edited;
  }

  /** The map holds the expected hash of every edited file and nothing else. */
  ghost predicate Edited(plan: EditPlan, edited: map<FileTarget, ContentHash>)
  {
    && (forall path :: path in edited ==> EditsFile(plan, path))
    && (forall k :: 0 <= k < |plan.files| ==>
        plan.files[k].file in edited && edited[plan.files[k].file] == plan.files[k].expected)
  }

  method ValidateResources(plan: EditPlan, edited: map<FileTarget, ContentHash>) returns (r: Option<PlanViolation>)
    requires Edited(plan, edited)
    ensures r.None? <==>
              ClaimsApart(plan.resources) && forall i :: 0 <= i < |plan.resources| ==>
                AgreesWithEdits(plan, plan.resources[i])
  {
    var ops := plan.resources;
    var claimed: set<FileTarget> := {};
    for i := 0 to |ops|
      invariant ClaimsApart(ops[..i])
      invariant forall k :: 0 <= k < i ==> AgreesWithEdits(plan, ops[k])
      invariant forall path :: path in claimed <==> exists k :: 0 <= k < i && ops[k].Claims(path)
    {
      var op := ops[i];
      if op.Rename? && op.from == op.to {
        return Some(ResourceConflict(op.from, "renames a file onto itself"));
      }
      var paths := op.Paths();
      for p := 0 to |paths|
        invariant forall path :: path in claimed <==>
                    path in paths[..p] || exists k :: 0 <= k < i && ops[k].Claims(path)
        invariant forall k, path :: 0 <= k < i && path in paths[..p] ==> !ops[k].Claims(path)
      {
        if paths[p] in claimed {
          assert paths[p] !in paths[..p];
          assert op.Claims(paths[p]);
          return Some(ResourceConflict(paths[p], "appears in more than one resource operation"));
        }
        assert forall k :: 0 <= k < i ==> !ops[k].Claims(paths[p]);
        assert paths[..p + 1] == paths[..p] + [paths[p]];
        claimed := claimed + {paths[p]};
      }
      assert paths[..|paths|] == paths;
      assert forall path :: op.Claims(path) <==> path in paths;
      assert ClaimsApart(ops[..i + 1]);
      r := ValidateOp(plan, edited, op);
      if r.Some? {
        return;
      }
    }
    assert ops[..|ops|] == ops;
    return None;
  }

  method ValidateOp(plan: EditPlan, edited: map<FileTarget, ContentHash>, op: ResourceOp)
    returns (r: Option<PlanViolation>)
    requires Edited(plan, edited)
    ensures r.None? <==> AgreesWithEdits(plan, op)
  {
    match op {
      case Create(file, _) =>
        if file in edited {
          return Some(ResourceConflict(file, "a created file cannot also be edited"));
        }
      case Delete(file, _) =>
        if file in edited {
          return Some(ResourceConflict(file, "a deleted file cannot also be edited"));
        }
      case Rename(from, to, expected) =>
        if to in edited {
          return Some(ResourceConflict(to, "a rename destination cannot also be edited"));
        }
        if from in edited && edited[from] != expected {
          return Some(ResourceConflict(from, "the rename and the content edits expect different contents"));
        }
    }
    return None;
  }
}
