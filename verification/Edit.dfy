/**
 Applying a plan (crates/atlas-edit/src/apply.rs): resolve its paths, check it against the disk, prepare its
 steps and commit them. `FinalAt` says, path by path and without mentioning steps, what the plan asks for.
 */
module Edit {
  import opened Wrappers
  import opened Utf8
  import opened Plan
  import opened Disk
  import opened Apply
  import opened Transaction
  import Slices

  // ----- what a plan asks for

  function FindEdits(files: seq<FileEdits>, target: FileTarget): Option<FileEdits>
  {
    if files == [] then None
    else if files[|files| - 1].file == target then Some(files[|files| - 1])
    else FindEdits(files[..|files| - 1], target)
  }

  function FindOp(ops: seq<ResourceOp>, target: FileTarget): Option<ResourceOp>
  {
    if ops == [] then None
    else if ops[|ops| - 1].Claims(target) then Some(ops[|ops| - 1])
    else FindOp(ops[..|ops| - 1], target)
  }

  /** A path once its text edits are in: the same file, permissions included, with the edited bytes. */
  function EditedAt(edits: seq<FileEdits>, before: Files, target: FileTarget): Option<File>
  {
    var found := FindEdits(edits, target);
    if found.Some? && target in before && Splices(before[target].bytes, 0, found.value.edits) then
      Some(before[target].(bytes := Spliced(before[target].bytes, found.value.edits)))
    else At(before, target)
  }

  /** A path once the whole plan is in. */
  function FinalAt(edits: seq<FileEdits>, ops: seq<ResourceOp>, before: Files, target: FileTarget): Option<File>
  {
    match FindOp(ops, target)
    case None => EditedAt(edits, before, target)
    case Some(Create(_, content)) => Some(File(content, NEW_FILE))
    case Some(Delete(_, _)) => None
    case Some(Rename(from, _, _)) => if target == from then None else EditedAt(edits, before, from)
  }

  /** The changes a plan reports: one for each file whose bytes differ, then one for each operation. */
  function EditChanges(edits: seq<FileEdits>, before: Files): seq<AppliedChange>
  {
    if edits == [] then []
    else
      var last := edits[|edits| - 1];
      var earlier := EditChanges(edits[..|edits| - 1], before);
      if last.file in before && Splices(before[last.file].bytes, 0, last.edits)
        && Spliced(before[last.file].bytes, last.edits) != before[last.file].bytes then
        earlier + [Modified(last.file, last.expected, Digest(Spliced(before[last.file].bytes, last.edits)),
                            |last.edits|)]
      else earlier
  }

  function OpChanges(ops: seq<ResourceOp>): seq<AppliedChange>
  {
    seq(|ops|, i requires 0 <= i < |ops| =>
      match ops[i]
      case Create(file, content) => Created(file, Digest(content))
      case Rename(from, to, _) => Renamed(from, to)
      case Delete(file, expected) => Deleted(file, expected))
  }

  // ----- when a plan can be carried out

  /** The disk holds what the plan expects of an edited file, and the edits fit it. */
  predicate EditMatches(edit: FileEdits, files: Files)
  {
    && edit.file in files && Digest(files[edit.file].bytes) == edit.expected
    && IsUtf8(files[edit.file].bytes) && Fits(files[edit.file].bytes, edit.edits)
  }

  predicate OpMatches(op: ResourceOp, files: Files)
  {
    match op
    case Create(file, _) => file !in files
    case Rename(from, to, expected) => to !in files && from in files && Digest(files[from].bytes) == expected
    case Delete(file, expected) => file in files && Digest(files[file].bytes) == expected
  }

  ghost predicate Matches(plan: EditPlan, files: Files)
  {
    && (forall i :: 0 <= i < |plan.files| ==> EditMatches(plan.files[i], files))
    && (forall i :: 0 <= i < |plan.resources| ==> OpMatches(plan.resources[i], files))
  }

  predicate WritableAt(target: FileTarget, files: Files)
  {
    target in files ==> !files[target].permissions.readonly
  }

  /** The file an operation takes away is not read-only. */
  predicate OpWritable(op: ResourceOp, files: Files)
  {
    match op
    case Create(_, _) => true
    case Rename(from, _, _) => WritableAt(from, files)
    case Delete(file, _) => WritableAt(file, files)
  }

  ghost predicate Writable(plan: EditPlan, files: Files)
  {
    && (forall i :: 0 <= i < |plan.files| ==> WritableAt(plan.files[i].file, files))
    && (forall i :: 0 <= i < |plan.resources| ==> OpWritable(plan.resources[i], files))
  }

  // ----- facts about the specification

  lemma {:induction false} FindEditsFinds(edits: seq<FileEdits>, target: FileTarget)
    ensures FindEdits(edits, target).Some? <==> exists i :: 0 <= i < |edits| && edits[i].file == target
    ensures FindEdits(edits, target).Some? ==>
              FindEdits(edits, target).value in edits && FindEdits(edits, target).value.file == target
  {
    if edits != [] {
      FindEditsFinds(edits[..|edits| - 1], target);
    }
  }

  lemma {:induction false} FindOpFinds(ops: seq<ResourceOp>, target: FileTarget)
    ensures FindOp(ops, target).Some? <==> exists i :: 0 <= i < |ops| && ops[i].Claims(target)
    ensures FindOp(ops, target).Some? ==> FindOp(ops, target).value in ops && FindOp(ops, target).value.Claims(target)
  {
    if ops != [] {
      FindOpFinds(ops[..|ops| - 1], target);
    }
  }

  lemma EditedAtSnoc(edits: seq<FileEdits>, last: FileEdits, before: Files, target: FileTarget)
    ensures EditedAt(edits + [last], before, target) ==
            if target != last.file then EditedAt(edits, before, target)
            else if target in before && Splices(before[target].bytes, 0, last.edits) then
              Some(before[target].(bytes := Spliced(before[target].bytes, last.edits)))
            else At(before, target)
  {
    assert (edits + [last])[..|edits|] == edits;
  }

  lemma FinalAtSnoc(edits: seq<FileEdits>, ops: seq<ResourceOp>, last: ResourceOp, before: Files, target: FileTarget)
    ensures last.Claims(target) ==> FindOp(ops + [last], target) == Some(last)
    ensures !last.Claims(target) ==> FinalAt(edits, ops + [last], before, target) == FinalAt(edits, ops, before, target)
  {
    assert (ops + [last])[..|ops|] == ops;
  }

  lemma RunSnoc(steps: seq<Step>, last: Step, files: Files)
    ensures RunAll(steps + [last], files) == StepAfter(last, RunAll(steps, files))
    ensures Runnable(steps + [last], files) <==> Runnable(steps, files) && StepEnabled(last, RunAll(steps, files))
    ensures Changes(steps + [last]) == Changes(steps) + [last.Change()]
  {
    assert (steps + [last])[..|steps|] == steps;
  }

  // ----- the content steps

  /** The steps so far carry out the edits so far, and nothing else. */
  ghost predicate CarriesOut(steps: seq<Step>, edits: seq<FileEdits>, ops: seq<ResourceOp>, files: Files)
  {
    && Runnable(steps, files)
    && (forall target :: At(RunAll(steps, files), target) == FinalAt(edits, ops, files, target))
    && Changes(steps) == EditChanges(edits, files) + OpChanges(ops)
  }

  /** An edit that leaves the bytes alone needs no step. */
  lemma EditSkipped(steps: seq<Step>, edits: seq<FileEdits>, edit: FileEdits, files: Files)
    requires CarriesOut(steps, edits, [], files) && EditMatches(edit, files)
             && Splices(files[edit.file].bytes, 0, edit.edits)
    requires forall i :: 0 <= i < |edits| ==> edits[i].file != edit.file
    requires Spliced(files[edit.file].bytes, edit.edits) == files[edit.file].bytes
    ensures CarriesOut(steps, edits + [edit], [], files)
  {
    FindEditsFinds(edits, edit.file);
    forall target ensures At(RunAll(steps, files), target) == FinalAt(edits + [edit], [], files, target) {
      EditedAtSnoc(edits, edit, files, target);
      assert At(RunAll(steps, files), target) == FinalAt(edits, [], files, target);
    }
    assert (edits + [edit])[..|edits|] == edits;
  }

  /** The step that carries out the edits of one file. */
  ghost predicate ContentStepFor(edit: FileEdits, step: Step, files: Files)
  {
    && edit.file in files && Splices(files[edit.file].bytes, 0, edit.edits)
    && Spliced(files[edit.file].bytes, edit.edits) != files[edit.file].bytes
    && step.Content?
    && step == Content(edit.file, edit.expected, Digest(Spliced(files[edit.file].bytes, edit.edits)), |edit.edits|,
                       files[edit.file].bytes, files[edit.file].permissions, step.temp)
  }

  lemma EditStepped(steps: seq<Step>, edits: seq<FileEdits>, edit: FileEdits, step: Step, files: Files)
    requires CarriesOut(steps, edits, [], files) && EditMatches(edit, files) && ContentStepFor(edit, step, files)
    requires forall i :: 0 <= i < |edits| ==> edits[i].file != edit.file
    ensures CarriesOut(steps + [step], edits + [edit], [], files)
  {
    FindEditsFinds(edits, edit.file);
    assert At(RunAll(steps, files), edit.file) == FinalAt(edits, [], files, edit.file) == Some(files[edit.file]);
    RunSnoc(steps, step, files);
    forall target ensures At(RunAll(steps + [step], files), target) == FinalAt(edits + [edit], [], files, target) {
      EditedAtSnoc(edits, edit, files, target);
      assert At(RunAll(steps, files), target) == FinalAt(edits, [], files, target);
    }
    assert (edits + [edit])[..|edits|] == edits;
  }

  // ----- the checks that may refuse a plan

  predicate Refusal(error: EditError) { !error.RolledBack? && !error.PartiallyApplied? }

  /** `ensure_writable` and then `read_existing`. A file that cannot be inspected is taken as writable. */
  method CheckOne(disk: Disk, target: FileTarget) returns (r: Result<seq<byte>, EditError>)
    modifies disk`clock
    ensures old(disk.clock) < disk.clock
    ensures r.Ok? ==> target in disk.files && r.value == disk.files[target].bytes
    ensures r.Err? ==> Refusal(r.error)
    ensures disk.Quiet(old(disk.clock), disk.clock) ==>
              (r.Ok? <==> target in disk.files && WritableAt(target, disk.files))
    ensures disk.Quiet(old(disk.clock), disk.clock) && r.Err? ==>
              r.error == if target in disk.files then ReadOnly(target) else Missing(target)
  {
    var stat := disk.Stat(target);
    if stat.Ok? && stat.value.readonly {
      return Err(ReadOnly(target));
    }
    r := ReadExisting(disk, target);
  }

  /** `ensure_absent`. */
  method EnsureAbsent(disk: Disk, target: FileTarget) returns (r: Result<(), EditError>)
    modifies disk`clock
    ensures old(disk.clock) < disk.clock
    ensures r.Ok? ==> target !in disk.files
    ensures r.Err? ==> Refusal(r.error)
    ensures disk.Quiet(old(disk.clock), disk.clock) ==>
              r == if target in disk.files then Err(EditError.AlreadyExists(target)) else Ok(())
  {
    var stat := disk.Stat(target);
    match stat {
      case Ok(_) => return Err(EditError.AlreadyExists(target));
      case Err(error) => return if error == NotFound then Ok(()) else Err(Failed("stat", target, error));
    }
  }

  predicate HashMatches(edit: FileEdits, files: Files)
  {
    edit.file in files && Digest(files[edit.file].bytes) == edit.expected
  }

  /** `Transaction::prepare`, its loop over the edited files: their original bytes, and which are stale. */
  method CheckFiles(disk: Disk, edits: seq<FileEdits>) returns (r: Result<(seq<seq<byte>>, seq<FileTarget>), EditError>)
    modifies disk`clock
    ensures old(disk.clock) <= disk.clock
    ensures r.Ok? ==> |r.value.0| == |edits| && forall i :: 0 <= i < |edits| ==>
              edits[i].file in disk.files && r.value.0[i] == disk.files[edits[i].file].bytes
    ensures r.Ok? ==> (r.value.1 == [] <==> forall i :: 0 <= i < |edits| ==> HashMatches(edits[i], disk.files))
    ensures r.Err? ==> Refusal(r.error)
    ensures disk.Quiet(old(disk.clock), disk.clock) ==>
              (r.Ok? <==>
               forall i :: 0 <= i < |edits| ==> edits[i].file in disk.files && WritableAt(edits[i].file, disk.files))
  {
    var originals: seq<seq<byte>> := [];
    var stale: seq<FileTarget> := [];
    for i := 0 to |edits|
      invariant old(disk.clock) <= disk.clock && |originals| == i
      invariant forall k :: 0 <= k < i ==>
                  edits[k].file in disk.files && originals[k] == disk.files[edits[k].file].bytes
      invariant stale == [] <==> forall k :: 0 <= k < i ==> HashMatches(edits[k], disk.files)
      invariant disk.Quiet(old(disk.clock), disk.clock) ==> forall k :: 0 <= k < i ==>
                  WritableAt(edits[k].file, disk.files)
    {
      var original := CheckOne(disk, edits[i].file);
      if original.Err? {
        return Err(original.error);
      }
      originals := originals + [original.value];
      if Digest(original.value) != edits[i].expected {
        stale := stale + [edits[i].file];
      }
    }
    return Ok((originals, stale));
  }

  /** What stands in the way of an operation, and in which order it is looked for; `None` where nothing does. */
  function Obstacle(op: ResourceOp, edits: seq<FileEdits>, files: Files): Option<EditError>
  {
    match op
    case Create(file, _) => if file in files then Some(EditError.AlreadyExists(file)) else None
    case Rename(from, to, _) =>
      if to in files then Some(EditError.AlreadyExists(to))
      else if from in files && files[from].permissions.readonly then Some(ReadOnly(from))
      else if from !in files && FindEdits(edits, from).None? then Some(Missing(from))
      else None
    case Delete(file, _) =>
      if file !in files then Some(Missing(file))
      else if files[file].permissions.readonly then Some(ReadOnly(file))
      else None
  }

  /**
   The file whose content an operation relies on, and the content; the checks of its edits stand for a renamed one.
   */
  function Relies(op: ResourceOp, edits: seq<FileEdits>): Option<(FileTarget, ContentHash)>
  {
    match op
    case Create(_, _) => None
    case Rename(from, _, expected) => if FindEdits(edits, from).Some? then None else Some((from, expected))
    case Delete(file, expected) => Some((file, expected))
  }

  /** One operation of the second loop: nothing when it may go ahead, or the file that is stale. */
  method CheckOp(disk: Disk, edits: seq<FileEdits>, op: ResourceOp) returns (r: Result<Option<FileTarget>, EditError>)
    requires forall i :: 0 <= i < |edits| ==> edits[i].file in disk.files
    requires op.Rename? ==> forall i :: 0 <= i < |edits| && edits[i].file == op.from ==>
               edits[i].expected == op.expected
    modifies disk`clock
    ensures old(disk.clock) <= disk.clock
    ensures r == Ok(None) && (forall i :: 0 <= i < |edits| ==> HashMatches(edits[i], disk.files)) ==>
              OpMatches(op, disk.files)
    ensures r.Ok? && r.value.Some? ==> !OpMatches(op, disk.files)
    ensures r.Err? ==> Refusal(r.error)
    ensures disk.Quiet(old(disk.clock), disk.clock) && OpMatches(op, disk.files) ==>
              (r.Ok? <==> OpWritable(op, disk.files))
    ensures r.Ok? && Relies(op, edits).None? ==> r.value.None?
    ensures r.Ok? && Relies(op, edits).Some? ==>
              && Relies(op, edits).value.0 in disk.files
              && r.value == if Digest(disk.files[Relies(op, edits).value.0].bytes) ==
                Relies(op, edits).value.1 then None
                            else Some(Relies(op, edits).value.0)
    ensures disk.Quiet(old(disk.clock), disk.clock) ==>
              if Obstacle(op, edits, disk.files).Some? then r == Err(Obstacle(op, edits, disk.files).value) else r.Ok?
  {
    match op {
      case Create(file, _) =>
        var absent := EnsureAbsent(disk, file);
        return if absent.Ok? then Ok(None) else Err(absent.error);
      case Rename(from, to, expected) =>
        var absent := EnsureAbsent(disk, to);
        if absent.Err? {
          return Err(absent.error);
        }
        var stat := disk.Stat(from);
        if stat.Ok? && stat.value.readonly {
          return Err(ReadOnly(from));
        }
        var edited := FindEdits(edits, from);
        FindEditsFinds(edits, from);
        if edited.Some? {
          return Ok(None);
        }
        var original := ReadExisting(disk, from);
        if original.Err? {
          return Err(original.error);
        }
        return Ok(if Digest(original.value) != expected then Some(from) else None);
      case Delete(file, expected) =>
        var original := CheckOne(disk, file);
        if original.Err? {
          return Err(original.error);
        }
        return Ok(if Digest(original.value) != expected then Some(file) else None);
    }
  }

  method CheckOps(disk: Disk, plan: EditPlan) returns (r: Result<seq<FileTarget>, EditError>)
    requires ValidPlan(plan) && forall i :: 0 <= i < |plan.files| ==> plan.files[i].file in disk.files
    modifies disk`clock
    ensures old(disk.clock) <= disk.clock
    ensures r == Ok([]) && (forall i :: 0 <= i < |plan.files| ==> HashMatches(plan.files[i], disk.files)) ==>
              forall i :: 0 <= i < |plan.resources| ==> OpMatches(plan.resources[i], disk.files)
    ensures r.Err? ==> Refusal(r.error)
    ensures disk.Quiet(old(disk.clock), disk.clock)
            && (forall i :: 0 <= i < |plan.resources| ==> OpMatches(plan.resources[i], disk.files)) ==>
              (r == Ok([]) <==> forall i :: 0 <= i < |plan.resources| ==> OpWritable(plan.resources[i], disk.files))
  {
    var stale: seq<FileTarget> := [];
    for i := 0 to |plan.resources|
      invariant old(disk.clock) <= disk.clock
      invariant stale == [] && (forall k :: 0 <= k < |plan.files| ==> HashMatches(plan.files[k], disk.files)) ==>
                  forall k :: 0 <= k < i ==> OpMatches(plan.resources[k], disk.files)
      invariant (forall k :: 0 <= k < |plan.resources| ==> OpMatches(plan.resources[k], disk.files)) ==> stale == []
      invariant disk.Quiet(old(disk.clock), disk.clock)
                && (forall k :: 0 <= k < |plan.resources| ==> OpMatches(plan.resources[k], disk.files)) ==>
                  forall k :: 0 <= k < i ==> OpWritable(plan.resources[k], disk.files)
    {
      assert AgreesWithEdits(plan, plan.resources[i]);
      var checked := CheckOp(disk, plan.files, plan.resources[i]);
      if checked.Err? {
        return Err(checked.error);
      }
      if checked.value.Some? {
        stale := stale + [checked.value.value];
      }
    }
    return Ok(stale);
  }

  // ----- preparing the steps

  /** `committed_hash`: what each file will hold when the operations run. */
  ghost predicate CommittedHashes(committed: map<FileTarget, ContentHash>, edits: seq<FileEdits>, files: Files)
  {
    forall target :: target in files ==>
      EditedAt(edits, files, target).Some? &&
      Digest(EditedAt(edits, files, target).value.bytes) ==
        if target in committed then committed[target] else Digest(files[target].bytes)
  }

  lemma CommittedSnoc(committed: map<FileTarget, ContentHash>, edits: seq<FileEdits>, edit: FileEdits, files: Files)
    requires CommittedHashes(committed, edits, files) && edit.file in files
             && Splices(files[edit.file].bytes, 0, edit.edits)
    requires forall i :: 0 <= i < |edits| ==> edits[i].file != edit.file
    ensures var after := Spliced(files[edit.file].bytes, edit.edits);
            if after == files[edit.file].bytes then CommittedHashes(committed, edits + [edit], files)
            else CommittedHashes(committed[edit.file := Digest(after)], edits + [edit], files)
  {
    FindEditsFinds(edits, edit.file);
    assert EditedAt(edits, files, edit.file) == Some(files[edit.file]);
    forall target | target in files ensures EditedAt(edits + [edit], files, target).Some? {
      EditedAtSnoc(edits, edit, files, target);
    }
    var after := Spliced(files[edit.file].bytes, edit.edits);
    var committed' := if after == files[edit.file].bytes then committed else committed[edit.file := Digest(after)];
    forall target | target in files
      ensures Digest(EditedAt(edits + [edit], files, target).value.bytes) ==
              if target in committed' then committed'[target] else Digest(files[target].bytes)
    {
      EditedAtSnoc(edits, edit, files, target);
    }
  }

  lemma StagedSnoc(steps: seq<Step>, step: Step, temps: map<nat, File>, temps': map<nat, File>)
    requires AllStaged(steps, temps) && Staged(step, temps')
    requires forall id :: id in temps ==> id in temps' && temps'[id] == temps[id]
    requires (step.Content? || step.CreateStep?) ==> step.temp !in temps
    ensures AllStaged(steps + [step], temps')
  {
  }

  /** `prepare_content`: nothing when the edits leave the bytes alone. */
  method PrepareContent(disk: Disk, edit: FileEdits, original: seq<byte>) returns (r: Result<Option<Step>, EditError>)
    requires disk.Valid() && HashMatches(edit, disk.files) && original == disk.files[edit.file].bytes
    modifies disk`temps, disk`nextTemp, disk`clock
    ensures disk.Valid() && old(disk.clock) <= disk.clock
    ensures forall id :: id in old(disk.temps) ==> id in disk.temps && disk.temps[id] == old(disk.temps[id])
    ensures r.Ok? ==> EditMatches(edit, disk.files) && Splices(original, 0, edit.edits)
    ensures r == Ok(None) ==> Spliced(original, edit.edits) == original
    ensures r.Ok? && r.value.Some? ==>
              ContentStepFor(edit, r.value.value, disk.files) && Staged(r.value.value, disk.temps)
                && r.value.value.temp !in old(disk.temps)
    ensures r.Err? ==> Refusal(r.error)
    ensures disk.Quiet(old(disk.clock), disk.clock) && EditMatches(edit, disk.files) ==> r.Ok?
  {
    if !IsUtf8(original) {
      return Err(NotText(edit.file));
    }
    var updated := ApplyTo(edit, original);
    if updated.Err? {
      return Err(InvalidPlan(updated.error));
    }
    if updated.value == original {
      return Ok(None);
    }
    var permissions := disk.Stat(edit.file);
    if permissions.Err? {
      return Err(Failed("stat", edit.file, permissions.error));
    }
    var temp := disk.WriteTemp(updated.value, permissions.value);
    if temp.Err? {
      return Err(Failed("write temporary file", edit.file, temp.error));
    }
    return Ok(Some(Content(edit.file, edit.expected, Digest(updated.value), |edit.edits|, original, permissions.value,
                           temp.value)));
  }

  /** What has been prepared for the edits so far. */
  ghost predicate PreparedFor(steps: seq<Step>, committed: map<FileTarget, ContentHash>, edits: seq<FileEdits>,
                              files: Files, temps: map<nat, File>)
  {
    && CarriesOut(steps, edits, [], files) && CommittedHashes(committed, edits, files)
    && AllStaged(steps, temps) && forall k :: 0 <= k < |steps| ==> steps[k].Content?
  }

  ghost predicate Kept(temps: map<nat, File>, temps': map<nat, File>)
  {
    forall id :: id in temps ==> id in temps' && temps'[id] == temps[id]
  }

  lemma StillStaged(steps: seq<Step>, temps: map<nat, File>, temps': map<nat, File>)
    requires AllStaged(steps, temps) && Kept(temps, temps')
    ensures AllStaged(steps, temps')
  {
  }

  /** The edit leaves its file alone. */
  lemma PreparedWithout(steps: seq<Step>, committed: map<FileTarget, ContentHash>, edits: seq<FileEdits>,
                        edit: FileEdits, files: Files, temps: map<nat, File>, temps': map<nat, File>)
    requires PreparedFor(steps, committed, edits, files, temps) && Kept(temps, temps')
    requires EditMatches(edit, files) && forall i :: 0 <= i < |edits| ==> edits[i].file != edit.file
    requires edit.file in files && Splices(files[edit.file].bytes, 0, edit.edits)
             && Spliced(files[edit.file].bytes, edit.edits) == files[edit.file].bytes
    ensures PreparedFor(steps, committed, edits + [edit], files, temps')
  {
    CommittedSnoc(committed, edits, edit, files);
    EditSkipped(steps, edits, edit, files);
    StillStaged(steps, temps, temps');
  }

  /** The edit has a step. */
  lemma PreparedWith(steps: seq<Step>, committed: map<FileTarget, ContentHash>, edits: seq<FileEdits>, edit: FileEdits,
                     step: Step, files: Files, temps: map<nat, File>, temps': map<nat, File>)
    requires PreparedFor(steps, committed, edits, files, temps) && Kept(temps, temps')
    requires EditMatches(edit, files) && forall i :: 0 <= i < |edits| ==> edits[i].file != edit.file
    requires ContentStepFor(edit, step, files) && Staged(step, temps') && step.temp !in temps
    ensures PreparedFor(steps + [step], committed[edit.file := step.after], edits + [edit], files, temps')
  {
    CommittedSnoc(committed, edits, edit, files);
    EditStepped(steps, edits, edit, step, files);
    StagedSnoc(steps, step, temps, temps');
  }

  /** The turn of the loop of `prepare` for one file. */
  method PrepareNext(disk: Disk, ghost edits: seq<FileEdits>, edit: FileEdits, original: seq<byte>, steps: seq<Step>,
                     committed: map<FileTarget, ContentHash>)
                       returns (r: Result<(seq<Step>, map<FileTarget, ContentHash>), EditError>)
    requires disk.Valid() && HashMatches(edit, disk.files) && original == disk.files[edit.file].bytes
    requires forall i :: 0 <= i < |edits| ==> edits[i].file != edit.file
    requires PreparedFor(steps, committed, edits, disk.files, disk.temps)
    modifies disk`temps, disk`nextTemp, disk`clock
    ensures disk.Valid() && old(disk.clock) <= disk.clock
    ensures r.Ok? ==>
              EditMatches(edit, disk.files) && PreparedFor(r.value.0, r.value.1, edits + [edit], disk.files, disk.temps)
    ensures r.Err? ==> Refusal(r.error)
    ensures disk.Quiet(old(disk.clock), disk.clock) && EditMatches(edit, disk.files) ==> r.Ok?
  {
    ghost var temps := disk.temps;
    var prepared := PrepareContent(disk, edit, original);
    if prepared.Err? {
      return Err(prepared.error);
    }
    match prepared.value {
      case None =>
        PreparedWithout(steps, committed, edits, edit, disk.files, temps, disk.temps);
        r := Ok((steps, committed));
      case Some(step) =>
        PreparedWith(steps, committed, edits, edit, step, disk.files, temps, disk.temps);
        r := Ok((steps + [step], committed[edit.file := step.after]));
    }
  }

  ghost predicate AllMatch(edits: seq<FileEdits>, files: Files)
  {
    forall i :: 0 <= i < |edits| ==> EditMatches(edits[i], files)
  }

  lemma OneMoreMatches(edits: seq<FileEdits>, i: nat, files: Files)
    requires i < |edits| && AllMatch(edits[..i], files) && EditMatches(edits[i], files)
    ensures edits[..i + 1] == edits[..i] + [edits[i]] && AllMatch(edits[..i + 1], files)
  {
  }

  method PrepareContents(disk: Disk, edits: seq<FileEdits>, originals: seq<seq<byte>>)
    returns (r: Result<(seq<Step>, map<FileTarget, ContentHash>), EditError>)
    requires disk.Valid() && |originals| == |edits|
    requires forall i :: 0 <= i < |edits| ==>
               HashMatches(edits[i], disk.files) && originals[i] == disk.files[edits[i].file].bytes
    requires forall i, j :: 0 <= i < j < |edits| ==> edits[i].file != edits[j].file
    modifies disk`temps, disk`nextTemp, disk`clock
    ensures disk.Valid() && old(disk.clock) <= disk.clock
    ensures r.Ok? ==>
              && AllMatch(edits, disk.files)
              && PreparedFor(r.value.0, r.value.1, edits, disk.files, disk.temps)
    ensures r.Err? ==> Refusal(r.error)
    ensures disk.Quiet(old(disk.clock), disk.clock) ==>
              AllMatch(edits, disk.files) ==> r.Ok?
  {
    var steps: seq<Step> := [];
    var committed: map<FileTarget, ContentHash> := map[];
    for i := 0 to |edits|
      invariant disk.Valid() && old(disk.clock) <= disk.clock
      invariant AllMatch(edits[..i], disk.files)
      invariant PreparedFor(steps, committed, edits[..i], disk.files, disk.temps)
    {
      var next := PrepareNext(disk, edits[..i], edits[i], originals[i], steps, committed);
      if next.Err? {
        return Err(next.error);
      }
      OneMoreMatches(edits, i, disk.files);
      steps, committed := next.value.0, next.value.1;
    }
    assert edits[..|edits|] == edits;
    return Ok((steps, committed));
  }

  /** The step that carries out an operation once the edits are in. */
  ghost predicate StepFor(op: ResourceOp, step: Step, edits: seq<FileEdits>, files: Files)
  {
    match op
    case Create(file, content) => step.CreateStep? && step.target == file && step.after == Digest(content)
    case Rename(from, to, _) =>
      && step.RenameStep? && step.from == from && step.to == to
      && EditedAt(edits, files, from).Some? && step.expected == Digest(EditedAt(edits, files, from).value.bytes)
    case Delete(file, expected) => step == DeleteStep(file, expected)
  }

  lemma Unclaimed(plan: EditPlan, i: nat, files: Files, target: FileTarget)
    requires ValidPlan(plan) && i < |plan.resources| && plan.resources[i].Claims(target)
    ensures FinalAt(plan.files, plan.resources[..i], files, target) == EditedAt(plan.files, files, target)
    ensures !(plan.resources[i].Rename? && plan.resources[i].from == target) ==>
              EditedAt(plan.files, files, target) == At(files, target)
  {
    FindOpFinds(plan.resources[..i], target);
    FindEditsFinds(plan.files, target);
    assert AgreesWithEdits(plan, plan.resources[i]);
  }

  /** The step of the next operation can run after the earlier ones. */
  lemma OpEnabled(steps: seq<Step>, plan: EditPlan, i: nat, step: Step, files: Files)
    requires ValidPlan(plan) && Matches(plan, files) && i < |plan.resources|
    requires CarriesOut(steps, plan.files, plan.resources[..i], files)
             && StepFor(plan.resources[i], step, plan.files, files)
    ensures StepEnabled(step, RunAll(steps, files))
    ensures forall target :: plan.resources[i].Claims(target) ==>
              At(RunAll(steps, files), target) == EditedAt(plan.files, files, target)
  {
    var op, ops := plan.resources[i], plan.resources[..i];
    var now := RunAll(steps, files);
    assert OpMatches(op, files);
    forall target | op.Claims(target) ensures At(now, target) == EditedAt(plan.files, files, target) {
      Unclaimed(plan, i, files, target);
      assert At(now, target) == FinalAt(plan.files, ops, files, target);
    }
    if op.Rename? {
      Unclaimed(plan, i, files, op.to);
      assert op.Claims(op.to) && op.Claims(op.from);
    } else {
      Unclaimed(plan, i, files, op.file);
      assert op.Claims(op.file);
    }
  }

  lemma OpStepped(steps: seq<Step>, plan: EditPlan, i: nat, step: Step, files: Files)
    requires ValidPlan(plan) && Matches(plan, files) && i < |plan.resources|
    requires CarriesOut(steps, plan.files, plan.resources[..i], files)
             && StepFor(plan.resources[i], step, plan.files, files)
    ensures CarriesOut(steps + [step], plan.files, plan.resources[..i + 1], files)
  {
    var op, ops := plan.resources[i], plan.resources[..i];
    assert plan.resources[..i + 1] == ops + [op];
    OpEnabled(steps, plan, i, step, files);
    if op.Rename? {
      assert op.Claims(op.from);
    }
    OpCarriedOut(steps, plan.files, ops, op, step, files, RunAll(steps, files));
  }

  /** One enabled step more carries out one operation more. */
  lemma OpCarriedOut(steps: seq<Step>, edits: seq<FileEdits>, ops: seq<ResourceOp>, op: ResourceOp, step: Step,
                     files: Files, now: Files)
    requires CarriesOut(steps, edits, ops, files) && StepFor(op, step, edits, files)
    requires now == RunAll(steps, files) && StepEnabled(step, now)
    requires op.Rename? ==> At(now, op.from) == EditedAt(edits, files, op.from)
    ensures CarriesOut(steps + [step], edits, ops + [op], files)
  {
    RunSnoc(steps, step, files);
    OpChangesSnoc(edits, ops, op, step, files);
    Slices.Associates(EditChanges(edits, files), OpChanges(ops), [step.Change()]);
    forall target ensures At(StepAfter(step, now), target) == FinalAt(edits, ops + [op], files, target) {
      assert At(now, target) == FinalAt(edits, ops, files, target);
      if op.Rename? {
        RenamedAtFinal(edits, ops, op, step, files, now, target);
      } else {
        ChangedAtFinal(edits, ops, op, step, files, now, target);
      }
    }
  }

  /** A rename takes the edited file to its new path, and leaves every other path as it was. */
  lemma RenamedAtFinal(edits: seq<FileEdits>, ops: seq<ResourceOp>, op: ResourceOp, step: Step, files: Files,
                       now: Files, target: FileTarget)
    requires op.Rename? && StepFor(op, step, edits, files) && StepEnabled(step, now)
    requires At(now, target) == FinalAt(edits, ops, files, target)
    requires At(now, op.from) == EditedAt(edits, files, op.from)
    ensures At(StepAfter(step, now), target) == FinalAt(edits, ops + [op], files, target)
  {
    FinalAtSnoc(edits, ops, op, files, target);
  }

  /** A creation or deletion changes its own path. */
  lemma ChangedAtFinal(edits: seq<FileEdits>, ops: seq<ResourceOp>, op: ResourceOp, step: Step, files: Files,
                       now: Files, target: FileTarget)
    requires !op.Rename? && StepFor(op, step, edits, files) && StepEnabled(step, now)
    requires At(now, target) == FinalAt(edits, ops, files, target)
    ensures At(StepAfter(step, now), target) == FinalAt(edits, ops + [op], files, target)
  {
    FinalAtSnoc(edits, ops, op, files, target);
  }

  lemma OpChangesSnoc(edits: seq<FileEdits>, ops: seq<ResourceOp>, op: ResourceOp, step: Step, files: Files)
    requires StepFor(op, step, edits, files)
    ensures OpChanges(ops + [op]) == OpChanges(ops) + [step.Change()]
  {
  }

  /** The step of one operation; a creation writes its temporary file. */
  method PrepareResource(disk: Disk, plan: EditPlan, op: ResourceOp, committed: map<FileTarget, ContentHash>)
    returns (r: Result<Step, EditError>)
    requires disk.Valid() && CommittedHashes(committed, plan.files, disk.files) && OpMatches(op, disk.files)
    modifies disk`temps, disk`nextTemp, disk`clock
    ensures disk.Valid() && old(disk.clock) <= disk.clock && Kept(old(disk.temps), disk.temps)
    ensures r.Ok? ==>
              && StepFor(op, r.value, plan.files, disk.files) && Staged(r.value, disk.temps)
              && (r.value.CreateStep? ==> r.value.temp !in old(disk.temps)) && !r.value.Content?
    ensures r.Err? ==> Refusal(r.error)
    ensures disk.Quiet(old(disk.clock), disk.clock) ==> r.Ok?
  {
    match op {
      case Create(file, content) =>
        var temp := disk.WriteTemp(content, NEW_FILE);
        if temp.Err? {
          return Err(Failed("write temporary file", file, temp.error));
        }
        r := Ok(CreateStep(file, Digest(content), temp.value));
      case Rename(from, to, expected) =>
        r := Ok(RenameStep(from, to, if from in committed then committed[from] else expected));
      case Delete(file, expected) =>
        r := Ok(DeleteStep(file, expected));
    }
  }

  /** The steps after the operations so far. */
  ghost predicate Resourced(steps: seq<Step>, plan: EditPlan, n: nat, i: nat, files: Files, temps: map<nat, File>)
    requires i <= |plan.resources|
  {
    && |steps| == n + i && CarriesOut(steps, plan.files, plan.resources[..i], files) && AllStaged(steps, temps)
    && (forall k :: 0 <= k < n ==> steps[k].Content?)
    && (forall k :: 0 <= k < i ==> StepFor(plan.resources[k], steps[n + k], plan.files, files))
  }

  lemma ResourcedNext(steps: seq<Step>, plan: EditPlan, n: nat, i: nat, step: Step, files: Files, temps: map<nat, File>,
                      temps': map<nat, File>)
    requires ValidPlan(plan) && Matches(plan, files) && i < |plan.resources|
             && Resourced(steps, plan, n, i, files, temps) && Kept(temps, temps')
    requires StepFor(plan.resources[i], step, plan.files, files) && Staged(step, temps')
    requires !step.Content? && (step.CreateStep? ==> step.temp !in temps)
    ensures Resourced(steps + [step], plan, n, i + 1, files, temps')
  {
    OpStepped(steps, plan, i, step, files);
    StagedSnoc(steps, step, temps, temps');
  }

  method PrepareResources(disk: Disk, plan: EditPlan, contents: seq<Step>, committed: map<FileTarget, ContentHash>)
    returns (r: Result<seq<Step>, EditError>)
    requires disk.Valid() && ValidPlan(plan) && Matches(plan, disk.files)
    requires PreparedFor(contents, committed, plan.files, disk.files, disk.temps)
    modifies disk`temps, disk`nextTemp, disk`clock
    ensures disk.Valid() && old(disk.clock) <= disk.clock
    ensures r.Ok? ==>
              CarriesOut(r.value, plan.files, plan.resources, disk.files) && AllStaged(r.value, disk.temps)
                && Separate(r.value)
    ensures r.Err? ==> Refusal(r.error)
    ensures disk.Quiet(old(disk.clock), disk.clock) ==> r.Ok?
  {
    var steps := contents;
    var n := |contents|;
    assert plan.resources[..0] == [];
    for i := 0 to |plan.resources|
      invariant disk.Valid() && old(disk.clock) <= disk.clock
      invariant Resourced(steps, plan, n, i, disk.files, disk.temps)
    {
      ghost var temps := disk.temps;
      assert OpMatches(plan.resources[i], disk.files);
      var step := PrepareResource(disk, plan, plan.resources[i], committed);
      if step.Err? {
        return Err(step.error);
      }
      ResourcedNext(steps, plan, n, i, step.value, disk.files, temps, disk.temps);
      steps := steps + [step.value];
    }
    assert plan.resources[..|plan.resources|] == plan.resources;
    StepsSeparate(plan, steps, n, disk.files);
    return Ok(steps);
  }

  lemma StepsSeparate(plan: EditPlan, steps: seq<Step>, n: nat, files: Files)
    requires ValidPlan(plan) && |steps| == n + |plan.resources|
    requires forall k :: 0 <= k < n ==> steps[k].Content?
    requires forall k :: 0 <= k < |plan.resources| ==> StepFor(plan.resources[k], steps[n + k], plan.files, files)
    ensures Separate(steps)
  {
    forall i, j | 0 <= i < j < |steps| && steps[i].RenameStep? ensures !steps[j].Touches(steps[i].to) {
      assert n <= i;
      assert StepFor(plan.resources[i - n], steps[n + (i - n)], plan.files, files);
      assert StepFor(plan.resources[j - n], steps[n + (j - n)], plan.files, files);
      assert plan.resources[i - n].Claims(steps[i].to);
    }
  }

  /** `Transaction::prepare`: nothing tracked is touched, and the steps carry out the plan. */
  method Prepare(disk: Disk, plan: EditPlan) returns (r: Result<seq<Step>, EditError>)
    requires disk.Valid() && ValidPlan(plan)
    modifies disk`temps, disk`nextTemp, disk`clock
    ensures disk.Valid() && old(disk.clock) <= disk.clock
    ensures r.Ok? ==>
              && Matches(plan, disk.files) && CarriesOut(r.value, plan.files, plan.resources, disk.files)
              && AllStaged(r.value, disk.temps) && Separate(r.value)
    ensures r.Err? ==> Refusal(r.error)
    ensures disk.Quiet(old(disk.clock), disk.clock) ==>
              (r.Ok? <==> Matches(plan, disk.files) && Writable(plan, disk.files))
  {
    var files := CheckFiles(disk, plan.files);
    if files.Err? {
      return Err(files.error);
    }
    var stale := CheckOps(disk, plan);
    if stale.Err? {
      return Err(stale.error);
    }
    if files.value.1 != [] || stale.value != [] {
      return Err(Stale(files.value.1 + stale.value));
    }
    var contents := PrepareContents(disk, plan.files, files.value.0);
    if contents.Err? {
      return Err(contents.error);
    }
    r := PrepareResources(disk, plan, contents.value.0, contents.value.1);
  }

  // ----- the whole operation

  /** The editable scope: where a target really is, or nothing when it may not be edited. */
  datatype Scope = Scope(resolve: FileTarget -> Option<FileTarget>)

  ghost predicate InScope(plan: EditPlan, scope: Scope)
  {
    && (forall i :: 0 <= i < |plan.files| ==> scope.resolve(plan.files[i].file).Some?)
    && (forall i, path :: 0 <= i < |plan.resources| && plan.resources[i].Claims(path) ==> scope.resolve(path).Some?)
  }

  function Resolved(target: FileTarget, scope: Scope): FileTarget
  {
    var found := scope.resolve(target);
    if found.Some? then found.value else target
  }

  function ResolvedOp(op: ResourceOp, scope: Scope): ResourceOp
  {
    match op
    case Create(file, content) => Create(Resolved(file, scope), content)
    case Rename(from, to, expected) => Rename(Resolved(from, scope), Resolved(to, scope), expected)
    case Delete(file, expected) => Delete(Resolved(file, scope), expected)
  }

  function ResolvedEdits(edits: FileEdits, scope: Scope): FileEdits
  {
    edits.(file := Resolved(edits.file, scope))
  }

  /** The plan with every path replaced by where it really is. */
  function Canonical(plan: EditPlan, scope: Scope): EditPlan
  {
    var files := seq(|plan.files|, i requires 0 <= i < |plan.files| => ResolvedEdits(plan.files[i], scope));
    var ops := seq(|plan.resources|, i requires 0 <= i < |plan.resources| => ResolvedOp(plan.resources[i], scope));
    EditPlan(files, ops)
  }

  /** `canonical_plan`: two spellings of one file are one file, so the plan is checked again. */
  method CanonicalPlan(plan: EditPlan, scope: Scope) returns (r: Result<EditPlan, EditError>)
    ensures r.Ok? <==> InScope(plan, scope) && ValidPlan(Canonical(plan, scope))
    ensures r.Ok? ==> r.value == Canonical(plan, scope)
    ensures r.Err? ==> Refusal(r.error)
  {
    var refused: seq<FileTarget> := [];
    for i := 0 to |plan.files|
      invariant refused == [] <==> forall k :: 0 <= k < i ==> scope.resolve(plan.files[k].file).Some?
    {
      if scope.resolve(plan.files[i].file).None? {
        refused := refused + [plan.files[i].file];
      }
    }
    ghost var filesInScope := refused == [];
    for i := 0 to |plan.resources|
      invariant refused == [] <==>
                  filesInScope && forall k, path :: 0 <= k < i && plan.resources[k].Claims(path) ==>
                    scope.resolve(path).Some?
    {
      var paths := plan.resources[i].Paths();
      assert plan.resources[i].Claims(paths[0]) && (|paths| > 1 ==> plan.resources[i].Claims(paths[1]));
      assert forall path :: plan.resources[i].Claims(path) ==> path == paths[0] || (|paths| > 1 && path == paths[1]);
      if scope.resolve(paths[0]).None? {
        refused := refused + [paths[0]];
      }
      if |paths| > 1 && scope.resolve(paths[1]).None? {
        refused := refused + [paths[1]];
      }
    }
    if refused != [] {
      return Err(OutOfScope(refused));
    }
    var canonical := Canonical(plan, scope);
    var violation := Validate(canonical);
    return if violation.Some? then Err(InvalidPlan(violation.value)) else Ok(canonical);
  }

  /** What a plan needs to be carried out. */
  ghost predicate Applicable(plan: EditPlan, scope: Scope, files: Files)
  {
    var canonical := Canonical(plan, scope);
    ValidPlan(plan) && InScope(plan, scope) && ValidPlan(canonical) && Matches(canonical, files)
      && Writable(canonical, files)
  }

  /**
   `apply`. All or nothing: a success leaves exactly what the plan asks for at every path and reports it; any
   error but `PartiallyApplied` leaves every file as it was; and `PartiallyApplied` names every file that
   differs, and takes at least two refused operations. When no operation is refused, `apply` succeeds on
   exactly the plans that can be carried out.
   */
  method ApplyPlan(disk: Disk, plan: EditPlan, scope: Scope) returns (r: Result<seq<AppliedChange>, EditError>)
    requires disk.Valid()
    modifies disk
    ensures disk.Valid()
    ensures r.Ok? ==> var canonical := Canonical(plan, scope);
              && (forall target ::
                    At(disk.files, target) == FinalAt(canonical.files, canonical.resources, old(disk.files), target))
              && r.value == EditChanges(canonical.files, old(disk.files)) + OpChanges(canonical.resources)
    ensures r.Err? && !r.error.PartiallyApplied? ==> disk.files == old(disk.files)
    ensures r.Err? && r.error.PartiallyApplied? ==>
              && SameExcept(r.error.applied, disk.files, old(disk.files))
              && TwoFailures(disk, old(disk.clock), disk.clock)
    ensures r.Ok? ==>
              ValidPlan(plan) && InScope(plan, scope) && ValidPlan(Canonical(plan, scope))
                && Matches(Canonical(plan, scope), old(disk.files))
    ensures disk.Quiet(old(disk.clock), disk.clock) ==> (r.Ok? <==> Applicable(plan, scope, old(disk.files)))
  {
    var violation := Validate(plan);
    if violation.Some? {
      return Err(InvalidPlan(violation.value));
    }
    var canonical := CanonicalPlan(plan, scope);
    if canonical.Err? {
      return Err(canonical.error);
    }
    var steps := Prepare(disk, canonical.value);
    if steps.Err? {
      return Err(steps.error);
    }
    ghost var middle := disk.clock;
    r := Commit(disk, steps.value);
    if r.Err? && r.error.PartiallyApplied? {
      ghost var cut :| middle <= cut <= disk.clock && !disk.Quiet(middle, cut) && !disk.Quiet(cut, disk.clock);
      assert !disk.Quiet(old(disk.clock), cut);
    }
  }
}
