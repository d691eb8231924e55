/**
 The edit transaction (crates/atlas-edit/src/apply.rs): prepare every step, commit the steps one by one
 while keeping an undo journal, and on a failure walk the journal backwards.

 The specification is the relation each step and each undo entry keeps between the files before and after
 (`StepAfter`, `UndoOutcome`) and, for a whole plan, what every path must hold in the end (`FinalAt`).
 */
module Apply {
  import opened Wrappers
  import opened Utf8
  import opened Plan
  import opened Disk

  const NEW_FILE := Permissions(false, 0x1A4)  // 0o644

  /** How an undo entry names the files it is about in an error. */
  datatype Label = One(file: FileTarget) | Pair(from: FileTarget, to: FileTarget)
  {
    predicate Names(target: FileTarget)
    {
      if One? then target == file else target == from || target == to
    }
  }

  datatype EditError =
    | InvalidPlan(violation: PlanViolation)
    | OutOfScope(refused: seq<FileTarget>)
    | Stale(paths: seq<FileTarget>)
    | AlreadyExists(path: FileTarget)
    | ReadOnly(path: FileTarget)
    | Missing(path: FileTarget)
    | NotText(path: FileTarget)
    | Failed(operation: string, path: FileTarget, source: IoError)
    | LeftAlone(path: FileTarget)
    | RolledBack(cause: EditError)
    | PartiallyApplied(cause: EditError, applied: seq<Label>, failed: seq<(Label, EditError)>)

  datatype AppliedChange =
    | Modified(file: FileTarget, before: ContentHash, after: ContentHash, edits: nat)
    | Created(file: FileTarget, after: ContentHash)
    | Renamed(from: FileTarget, to: FileTarget)
    | Deleted(file: FileTarget, before: ContentHash)

  datatype Step =
    | Content(target: FileTarget, before: ContentHash, after: ContentHash, edits: nat, original: seq<byte>,
              permissions: Permissions, temp: nat)
    | CreateStep(target: FileTarget, after: ContentHash, temp: nat)
    | RenameStep(from: FileTarget, to: FileTarget, expected: ContentHash)
    | DeleteStep(target: FileTarget, expected: ContentHash)
  {
    predicate Touches(path: FileTarget)
    {
      if RenameStep? then path == from || path == to else path == target
    }

    function Change(): AppliedChange
    {
      match this
      case Content(target, before, after, edits, _, _, _) => Modified(target, before, after, edits)
      case CreateStep(target, after, _) => Created(target, after)
      case RenameStep(from, to, _) => Renamed(from, to)
      case DeleteStep(target, expected) => Deleted(target, expected)
    }
  }

  datatype Undo =
    | Restore(target: FileTarget, original: seq<byte>, permissions: Permissions, written: ContentHash)
    | RemoveCreated(target: FileTarget, written: ContentHash)
    | Unrename(from: FileTarget, to: FileTarget)
    | Recreate(target: FileTarget, original: seq<byte>, permissions: Permissions)
  {
    function Label(): Label
    {
      if Unrename? then Pair(from, to) else One(target)
    }
  }

  function At(files: Files, target: FileTarget): Option<File>
  {
    if target in files then Some(files[target]) else None
  }

  // ----- what one step does

  /** The check a step makes just before it acts. */
  predicate StepChecked(step: Step, files: Files)
  {
    match step
    case Content(target, before, _, _, _, _, _) => target in files && Digest(files[target].bytes) == before
    case CreateStep(target, _, _) => target !in files
    case RenameStep(from, to, expected) => from in files && Digest(files[from].bytes) == expected && to !in files
    case DeleteStep(target, expected) => target in files && Digest(files[target].bytes) == expected
  }

  /** The files after a step that succeeded. */
  function StepAfter(step: Step, files: Files): Files
  {
    match step
    case Content(target, _, after, _, _, permissions, _) => files[target := File(after.content, permissions)]
    case CreateStep(target, after, _) => files[target := File(after.content, NEW_FILE)]
    case RenameStep(from, to, _) => if from in files then (files - {from})[to := files[from]] else files
    case DeleteStep(target, _) => files - {target}
  }

  /** The temporary file a step moves into place holds what the step is to write. */
  predicate Staged(step: Step, temps: map<nat, File>)
  {
    match step
    case Content(_, _, after, _, _, permissions, temp) =>
      temp in temps && temps[temp] == File(after.content, permissions)
    case CreateStep(_, after, temp) => temp in temps && temps[temp] == File(after.content, NEW_FILE)
    case _ => true
  }

  predicate UsesTemp(step: Step, id: nat)
  {
    (step.Content? || step.CreateStep?) && step.temp == id
  }

  /** A move that failed half way: the new name exists beside the old one, and the journal knows it. */
  predicate HalfMoved(step: Step, before: Files, after: Files, entry: Undo)
  {
    match step
    case CreateStep(target, content, _) =>
      target !in before && after == before[target := File(content.content, NEW_FILE)]
        && entry == RemoveCreated(target, content)
    case RenameStep(from, to, expected) =>
      && from in before && Digest(before[from].bytes) == expected && to !in before
      && after == before[to := before[from]] && entry == RemoveCreated(to, expected)
    case _ => false
  }

  /** Everything running a step may do, whoever else has written since it was prepared. */
  ghost predicate StepOutcome(step: Step, before: Files, after: Files, ok: bool)
  {
    if ok then StepChecked(step, before) && after == StepAfter(step, before)
    else after == before || exists entry :: HalfMoved(step, before, after, entry)
  }

  function UndoOf(step: Step, files: Files): Undo
    requires StepChecked(step, files)
  {
    match step
    case Content(target, _, after, _, original, permissions, _) => Restore(target, original, permissions, after)
    case CreateStep(target, after, _) => RemoveCreated(target, after)
    case RenameStep(from, to, _) => Unrename(from, to)
    case DeleteStep(target, _) => Recreate(target, files[target].bytes, files[target].permissions)
  }

  function CreateError(target: FileTarget, error: IoError): EditError
  {
    if error == IoError.AlreadyExists then EditError.AlreadyExists(target) else Failed("create", target, error)
  }

  method ReadExisting(disk: Disk, target: FileTarget) returns (r: Result<seq<byte>, EditError>)
    modifies disk`clock
    ensures old(disk.clock) < disk.clock
    ensures r.Ok? ==> target in disk.files && r.value == disk.files[target].bytes
    ensures r.Err? ==> r.error.Failed? || (r.error == Missing(target) && target !in disk.files)
    ensures disk.Quiet(old(disk.clock), disk.clock) ==>
              if target in disk.files then r.Ok? else r == Err(Missing(target))
  {
    var read := disk.Read(target);
    match read {
      case Ok(bytes) => return Ok(bytes);
      case Err(error) => return Err(if error == NotFound then Missing(target) else Failed("read", target, error));
    }
  }

  method VerifyUnchanged(disk: Disk, target: FileTarget, expected: ContentHash) returns (r: Result<(), EditError>)
    modifies disk`clock
    ensures old(disk.clock) < disk.clock
    ensures r.Ok? ==> target in disk.files && Digest(disk.files[target].bytes) == expected
    ensures disk.Quiet(old(disk.clock), disk.clock) ==>
              target in disk.files && Digest(disk.files[target].bytes) == expected ==> r.Ok?
  {
    var current := ReadExisting(disk, target);
    match current {
      case Err(error) => return Err(error);
      case Ok(bytes) => return if Digest(bytes) == expected then Ok(()) else Err(Stale([target]));
    }
  }

  /** `Step::run`: the change it reports and the undo entries it pushes. */
  method RunStep(disk: Disk, step: Step, journal: seq<Undo>)
    returns (r: Result<AppliedChange, EditError>, journal': seq<Undo>)
    requires disk.Valid() && Staged(step, disk.temps)
    modifies disk`files, disk`temps, disk`clock
    ensures disk.Valid() && old(disk.clock) < disk.clock
    ensures forall id :: id in old(disk.temps) && !UsesTemp(step, id) ==>
              id in disk.temps && disk.temps[id] == old(disk.temps[id])
    ensures StepOutcome(step, old(disk.files), disk.files, r.Ok?)
    ensures r.Ok? ==>
              && StepChecked(step, old(disk.files)) && disk.files == StepAfter(step, old(disk.files))
              && journal' == journal + [UndoOf(step, old(disk.files))] && r.value == step.Change()
    ensures r.Err? ==>
              || (disk.files == old(disk.files) && journal' == journal)
              || (exists entry :: journal' == journal + [entry] && HalfMoved(step, old(disk.files), disk.files, entry))
    ensures disk.Quiet(old(disk.clock), disk.clock) && StepChecked(step, old(disk.files)) ==> r.Ok?
  {
    journal' := journal;
    match step {
      case Content(target, before, after, edits, original, permissions, temp) =>
        var checked := VerifyUnchanged(disk, target, before);
        if checked.Err? {
          return Err(checked.error), journal;
        }
        var replaced := disk.Replace(Temp(temp), target);
        if replaced.Err? {
          return Err(Failed("replace", target, replaced.error)), journal;
        }
        journal' := journal + [Restore(target, original, permissions, after)];
        r := Ok(Modified(target, before, after, edits));
      case CreateStep(target, after, temp) =>
        var moved := disk.MoveNoClobber(Temp(temp), target);
        if moved.Err? {
          if moved.error.destinationLeft {
            assert HalfMoved(step, old(disk.files), disk.files, RemoveCreated(target, after));
            journal' := journal + [RemoveCreated(target, after)];
          }
          return Err(CreateError(target, moved.error.error)), journal';
        }
        journal' := journal + [RemoveCreated(target, after)];
        r := Ok(Created(target, after));
      case RenameStep(from, to, expected) =>
        var checked := VerifyUnchanged(disk, from, expected);
        if checked.Err? {
          return Err(checked.error), journal;
        }
        var moved := disk.MoveNoClobber(Named(from), to);
        if moved.Err? {
          if moved.error.destinationLeft {
            assert HalfMoved(step, old(disk.files), disk.files, RemoveCreated(to, expected));
            journal' := journal + [RemoveCreated(to, expected)];
          }
          return Err(CreateError(to, moved.error.error)), journal';
        }
        journal' := journal + [Unrename(from, to)];
        r := Ok(Renamed(from, to));
      case DeleteStep(target, expected) =>
        var read := ReadExisting(disk, target);
        if read.Err? {
          return Err(read.error), journal;
        }
        if Digest(read.value) != expected {
          return Err(Stale([target])), journal;
        }
        var stat := disk.Stat(target);
        if stat.Err? {
          return Err(Failed("stat", target, stat.error)), journal;
        }
        var removed := disk.Remove(Named(target));
        if removed.Err? {
          return Err(Failed("delete", target, removed.error)), journal;
        }
        journal' := journal + [Recreate(target, read.value, stat.value)];
        r := Ok(Deleted(target, expected));
    }
  }

  // ----- what one undo entry does

  /** `undo` takes the files from `after` back to `before`. */
  predicate Undoes(undo: Undo, before: Files, after: Files)
  {
    match undo
    case Restore(target, original, permissions, written) =>
      && target in before && before[target] == File(original, permissions)
      && after.Keys == before.Keys && after == before[target := File(written.content, after[target].permissions)]
    case RemoveCreated(target, written) =>
      target !in before && target in after && after == before[target := after[target]]
        && Digest(after[target].bytes) == written
    case Unrename(from, to) => from in before && to !in before && after == (before - {from})[to := before[from]]
    case Recreate(target, original, permissions) =>
      target in before && before[target] == File(original, permissions) && after == before - {target}
  }

  /** Everything running an undo entry may do, whoever else has written in between. */
  predicate UndoOutcome(undo: Undo, before: Files, after: Files, ok: bool)
  {
    match undo
    case Restore(target, original, permissions, written) =>
      if ok then target in before && Digest(before[target].bytes) == written
        && after == before[target := File(original, permissions)]
      else after == before
    case RemoveCreated(target, written) =>
      if ok then target in before && Digest(before[target].bytes) == written && after == before - {target}
      else after == before
    case Unrename(from, to) =>
      if ok then to in before && from !in before && after == (before - {to})[from := before[to]]
      else after == before || (to in before && from !in before && after == before[from := before[to]])
    case Recreate(target, original, permissions) =>
      if ok then target !in before && after == before[target := File(original, permissions)]
      else after == before || (target !in before && after == before[target := File(original, permissions)])
  }

  /** `ensure_still_written`. */
  method EnsureStillWritten(disk: Disk, target: FileTarget, written: ContentHash) returns (r: Result<(), EditError>)
    modifies disk`clock
    ensures old(disk.clock) < disk.clock
    ensures r.Ok? ==> target in disk.files && Digest(disk.files[target].bytes) == written
    ensures disk.Quiet(old(disk.clock), disk.clock) ==>
              target in disk.files && Digest(disk.files[target].bytes) == written ==> r.Ok?
  {
    var read := disk.Read(target);
    match read {
      case Err(error) => return Err(if error == NotFound then LeftAlone(target) else Failed("read", target, error));
      case Ok(bytes) => return if Digest(bytes) == written then Ok(()) else Err(LeftAlone(target));
    }
  }

  /** `Undo::run`. */
  method RunUndo(disk: Disk, undo: Undo) returns (r: Result<(), EditError>)
    requires disk.Valid()
    modifies disk
    ensures disk.Valid() && old(disk.clock) < disk.clock
    ensures UndoOutcome(undo, old(disk.files), disk.files, r.Ok?)
    ensures disk.Quiet(old(disk.clock), disk.clock) && (exists before :: Undoes(undo, before, old(disk.files))) ==>
              r.Ok?
  {
    match undo {
      case Restore(target, original, permissions, written) =>
        var temp := disk.WriteTemp(original, permissions);
        if temp.Err? {
          return Err(Failed("write temporary file", target, temp.error));
        }
        var checked := EnsureStillWritten(disk, target, written);
        if checked.Err? {
          return checked;
        }
        var replaced := disk.Replace(Temp(temp.value), target);
        return if replaced.Ok? then Ok(()) else Err(Failed("restore", target, replaced.error));
      case RemoveCreated(target, written) =>
        var checked := EnsureStillWritten(disk, target, written);
        if checked.Err? {
          return checked;
        }
        var removed := disk.Remove(Named(target));
        return if removed.Ok? then Ok(()) else Err(Failed("remove created file", target, removed.error));
      case Unrename(from, to) =>
        var moved := disk.MoveNoClobber(Named(to), from);
        return if moved.Ok? then Ok(()) else Err(Failed("restore renamed file", from, moved.error.error));
      case Recreate(target, original, permissions) =>
        var temp := disk.WriteTemp(original, permissions);
        if temp.Err? {
          return Err(Failed("write temporary file", target, temp.error));
        }
        var moved := disk.MoveNoClobber(Temp(temp.value), target);
        return if moved.Ok? then Ok(()) else Err(Failed("recreate deleted file", target, moved.error.error));
    }
  }
}
