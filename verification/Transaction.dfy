/**
 Committing a prepared transaction and rolling it back (crates/atlas-edit/src/apply.rs): the steps run in
 order, each leaving an undo entry; a failed step makes the entries run in reverse. With nobody else
 writing, either every step happened, or nothing did, or the error names every file that still differs.
 */
module Transaction {
  import opened Wrappers
  import opened Plan
  import opened Disk
  import opened Apply

  // ----- running a list of steps

  function RunAll(steps: seq<Step>, files: Files): Files
  {
    if steps == [] then files
    else StepAfter(steps[|steps| - 1], RunAll(steps[..|steps| - 1], files))
  }

  /** A content step is about the file as it was read, permissions included. */
  predicate StepEnabled(step: Step, files: Files)
  {
    && StepChecked(step, files)
    && (step.Content? ==>
        step.before == Digest(step.original) && files[step.target] == File(step.original, step.permissions))
  }

  predicate Runnable(steps: seq<Step>, files: Files)
  {
    steps == [] || (Runnable(steps[..|steps| - 1], files)
                    && StepEnabled(steps[|steps| - 1], RunAll(steps[..|steps| - 1], files)))
  }

  predicate AllStaged(steps: seq<Step>, temps: map<nat, File>)
  {
    && (forall i :: 0 <= i < |steps| ==> Staged(steps[i], temps))
    && (forall i, j :: 0 <= i < j < |steps| && (steps[i].Content? || steps[i].CreateStep?) ==>
        !UsesTemp(steps[j], steps[i].temp))
  }

  /** No step comes back to a path that an earlier rename gave to a file. */
  predicate Separate(steps: seq<Step>)
  {
    forall i, j :: 0 <= i < j < |steps| && steps[i].RenameStep? ==> !steps[j].Touches(steps[i].to)
  }

  function Changes(steps: seq<Step>): seq<AppliedChange>
  {
    seq(|steps|, i requires 0 <= i < |steps| => steps[i].Change())
  }

  lemma {:induction false} RunnablePrefix(steps: seq<Step>, files: Files, k: nat)
    requires Runnable(steps, files) && k <= |steps|
    ensures Runnable(steps[..k], files)
    ensures k < |steps| ==> StepEnabled(steps[k], RunAll(steps[..k], files))
    ensures k < |steps| ==> RunAll(steps[..k + 1], files) == StepAfter(steps[k], RunAll(steps[..k], files))
    decreases |steps| - k
  {
    if k == |steps| {
      assert steps[..k] == steps;
    } else {
      RunnablePrefix(steps, files, k + 1);
      assert steps[..k + 1][..k] == steps[..k];
    }
  }

  // ----- the undo journal

  /** The entries undo, one by one and backwards, the way from `states[0]` to the last state. */
  ghost predicate Journal(journal: seq<Undo>, states: seq<Files>)
  {
    && |states| == |journal| + 1
    && (forall i :: 0 <= i < |journal| ==> Undoes(journal[i], states[i], states[i + 1]))
    && (forall i, j :: 0 <= i < j < |journal| && journal[i].Unrename? ==> !journal[j].Label().Names(journal[i].to))
  }

  ghost predicate Named(labels: seq<Label>, target: FileTarget)
  {
    exists i :: 0 <= i < |labels| && labels[i].Names(target)
  }

  /** Outside the files the labels name, the two are the same. */
  ghost predicate SameExcept(labels: seq<Label>, a: Files, b: Files)
  {
    forall target :: Named(labels, target) || At(a, target) == At(b, target)
  }

  lemma StepUndone(step: Step, before: Files)
    requires StepEnabled(step, before)
    ensures Undoes(UndoOf(step, before), before, StepAfter(step, before))
    ensures forall path :: UndoOf(step, before).Label().Names(path) <==> step.Touches(path)
  {
  }

  lemma HalfMoveUndone(step: Step, before: Files, after: Files, entry: Undo)
    requires HalfMoved(step, before, after, entry)
    ensures Undoes(entry, before, after)
    ensures forall path :: entry.Label().Names(path) ==> step.Touches(path)
  {
  }

  /** One entry of the walk back: what it could not undo it names, everything else is as before its step. */
  lemma UndoStep(undo: Undo, before: Files, after: Files, labels: seq<Label>, now: Files, next: Files, ok: bool)
    requires Undoes(undo, before, after) && SameExcept(labels, now, after) && UndoOutcome(undo, now, next, ok)
    requires undo.Unrename? ==> !Named(labels, undo.to)
    ensures SameExcept(if ok then labels else labels + [undo.Label()], next, before)
  {
    var labels' := if ok then labels else labels + [undo.Label()];
    forall target ensures Named(labels', target) || At(next, target) == At(before, target) {
      if !ok && undo.Label().Names(target) {
        assert labels'[|labels|].Names(target);
      } else if Named(labels, target) {
        var i :| 0 <= i < |labels| && labels[i].Names(target);
        assert labels'[i].Names(target);
      } else {
        assert At(now, target) == At(after, target);
      }
    }
  }

  /** With nothing left to name, an entry finds exactly the files its step left behind. */
  lemma SameWhenUnnamed(a: Files, b: Files)
    requires SameExcept([], a, b)
    ensures a == b
  {
    assert forall target :: !Named([], target);
    assert forall target :: At(a, target) == At(b, target);
    assert forall target :: target in a <==> At(a, target).Some?;
    assert forall target :: target in b <==> At(b, target).Some?;
    assert a.Keys == b.Keys;
  }

  ghost predicate IsLabelFrom(journal: seq<Undo>, from: nat, name: Label)
  {
    exists j :: from <= j < |journal| && name == journal[j].Label()
  }

  /** `rollback`. */
  method Rollback(disk: Disk, journal: seq<Undo>, cause: EditError, ghost states: seq<Files>) returns (error: EditError)
    requires disk.Valid() && Journal(journal, states) && disk.files == states[|journal|]
    modifies disk
    ensures disk.Valid() && old(disk.clock) <= disk.clock
    ensures error == RolledBack(cause) || (error.PartiallyApplied? && error.cause == cause && error.applied != [])
    ensures error.RolledBack? ==> disk.files == states[0]
    ensures error.PartiallyApplied? ==>
              SameExcept(error.applied, disk.files, states[0]) && |error.failed| == |error.applied|
    ensures disk.Quiet(old(disk.clock), disk.clock) ==> error.RolledBack?
  {
    var applied: seq<Label> := [];
    var failed: seq<(Label, EditError)> := [];
    var left := |journal|;
    while left > 0
      invariant 0 <= left <= |journal| && disk.Valid() && old(disk.clock) <= disk.clock
      invariant SameExcept(applied, disk.files, states[left])
      invariant |failed| == |applied|
      invariant forall k :: 0 <= k < |applied| ==> IsLabelFrom(journal, left, applied[k])
      invariant disk.Quiet(old(disk.clock), disk.clock) ==> applied == []
      modifies disk
    {
      left := left - 1;
      var undo := journal[left];
      ghost var now := disk.files;
      if undo.Unrename? {
        assert forall k :: 0 <= k < |applied| && IsLabelFrom(journal, left + 1, applied[k]) ==>
                 !applied[k].Names(undo.to);
      }
      if applied == [] {
        SameWhenUnnamed(now, states[left + 1]);
        assert Undoes(undo, states[left], now);
      }
      var outcome := RunUndo(disk, undo);
      UndoStep(undo, states[left], states[left + 1], applied, now, disk.files, outcome.Ok?);
      if outcome.Err? {
        applied := applied + [undo.Label()];
        failed := failed + [(undo.Label(), outcome.error)];
      }
    }
    if failed == [] {
      SameWhenUnnamed(disk.files, states[0]);
      error := RolledBack(cause);
    } else {
      error := PartiallyApplied(cause, applied, failed);
    }
  }

  /** Two separate times at which the operating system refused an operation. */
  ghost predicate TwoFailures(disk: Disk, from: nat, until: nat)
    reads disk
  {
    exists middle :: from <= middle <= until && !disk.Quiet(from, middle) && !disk.Quiet(middle, until)
  }

  /** After `k` steps: the journal undoes exactly the way from the original files to the present ones. */
  ghost predicate Committed(steps: seq<Step>, k: nat, journal: seq<Undo>, states: seq<Files>)
  {
    && k <= |steps| && |journal| == k && Journal(journal, states)
    && states[k] == RunAll(steps[..k], states[0])
    && (forall i :: 0 <= i < k && journal[i].Unrename? ==> steps[i].RenameStep? && journal[i].to == steps[i].to)
  }

  lemma JournalExtends(steps: seq<Step>, k: nat, journal: seq<Undo>, states: seq<Files>, entry: Undo, after: Files)
    requires Committed(steps, k, journal, states) && k < |steps| && Separate(steps)
    requires Undoes(entry, states[k], after) && forall path :: entry.Label().Names(path) ==> steps[k].Touches(path)
    ensures Journal(journal + [entry], states + [after])
  {
    var journal', states' := journal + [entry], states + [after];
    forall i, j | 0 <= i < j < |journal'| && journal'[i].Unrename? ensures !journal'[j].Label().Names(journal'[i].to) {
      if j == k {
        assert journal'[i] == journal[i] && !steps[k].Touches(steps[i].to);
      }
    }
  }

  lemma StepCommits(steps: seq<Step>, k: nat, journal: seq<Undo>, states: seq<Files>)
    requires Committed(steps, k, journal, states) && k < |steps| && Separate(steps) && Runnable(steps, states[0])
    ensures StepEnabled(steps[k], states[k])
    ensures Committed(steps, k + 1, journal + [UndoOf(steps[k], states[k])], states + [StepAfter(steps[k], states[k])])
  {
    RunnablePrefix(steps, states[0], k);
    StepUndone(steps[k], states[k]);
    JournalExtends(steps, k, journal, states, UndoOf(steps[k], states[k]), StepAfter(steps[k], states[k]));
  }

  lemma HalfMoveJournal(steps: seq<Step>, k: nat, journal: seq<Undo>, states: seq<Files>, after: Files,
                        journal': seq<Undo>)
    returns (states': seq<Files>)
    requires Committed(steps, k, journal, states) && k < |steps| && Separate(steps)
    requires || (after == states[k] && journal' == journal)
             || (exists entry :: journal' == journal + [entry] && HalfMoved(steps[k], states[k], after, entry))
    ensures Journal(journal', states') && states'[0] == states[0] && states'[|journal'|] == after
  {
    if after == states[k] && journal' == journal {
      states' := states;
    } else {
      var entry :| journal' == journal + [entry] && HalfMoved(steps[k], states[k], after, entry);
      HalfMoveUndone(steps[k], states[k], after, entry);
      JournalExtends(steps, k, journal, states, entry, after);
      states' := states + [after];
    }
  }

  /** The steps from `k` on still have what they are to move into place. */
  ghost predicate StagedFrom(steps: seq<Step>, k: nat, temps: map<nat, File>)
  {
    forall i :: k <= i < |steps| ==> Staged(steps[i], temps)
  }

  /**
   `Transaction::commit`. Either every step happened and is reported, or the error is `RolledBack` and the
   files are untouched, or it is `PartiallyApplied` and names every file that differs. One refused operation
   is never enough for the last.
   */
  method Commit(disk: Disk, steps: seq<Step>) returns (r: Result<seq<AppliedChange>, EditError>)
    requires disk.Valid() && AllStaged(steps, disk.temps) && Separate(steps) && Runnable(steps, disk.files)
    modifies disk
    ensures disk.Valid() && old(disk.clock) <= disk.clock
    ensures r.Ok? ==> disk.files == RunAll(steps, old(disk.files)) && r.value == Changes(steps)
    ensures r.Err? ==> r.error.RolledBack? || r.error.PartiallyApplied?
    ensures r.Err? && r.error.RolledBack? ==> disk.files == old(disk.files)
    ensures r.Err? && r.error.PartiallyApplied? ==> SameExcept(r.error.applied, disk.files, old(disk.files))
    ensures r.Err? && r.error.PartiallyApplied? ==> TwoFailures(disk, old(disk.clock), disk.clock)
    ensures disk.Quiet(old(disk.clock), disk.clock) ==> r.Ok?
  {
    var journal: seq<Undo> := [];
    var changes: seq<AppliedChange> := [];
    ghost var states := [disk.files];
    for k := 0 to |steps|
      invariant disk.Valid() && old(disk.clock) <= disk.clock
      invariant StagedFrom(steps, k, disk.temps)
      invariant Committed(steps, k, journal, states) && states[0] == old(disk.files) && disk.files == states[k]
      invariant changes == Changes(steps[..k])
      modifies disk
    {
      StepCommits(steps, k, journal, states);
      var outcome, journal' := RunStep(disk, steps[k], journal);
      match outcome {
        case Ok(change) =>
          changes := changes + [change];
          assert Changes(steps[..k + 1]) == Changes(steps[..k]) + [steps[k].Change()];
        case Err(cause) =>
          states := HalfMoveJournal(steps, k, journal, states, disk.files, journal');
          ghost var middle := disk.clock;
          var error := Rollback(disk, journal', cause, states);
          assert !disk.Quiet(old(disk.clock), middle);
          return Err(error);
      }
      states := states + [disk.files];
      journal := journal';
    }
    assert steps[..|steps|] == steps;
    return Ok(changes);
  }
}
