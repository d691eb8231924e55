/**
 Other writers beside the transaction (crates/atlas-edit/src/apply.rs). Steps and undo entries are taken as
 atomic; between any two of them somebody else may change any file in any way. What the transaction itself
 takes out of the file system is only content it was told to replace or had written itself.
 */
module Interference {
  import opened Wrappers
  import opened Utf8
  import opened Plan
  import opened Disk
  import opened Apply

  datatype Event =
    | Ran(step: Step, ok: bool)
    | Undid(undo: Undo, ok: bool)
    | Foreign

  /** What an event may do to the files. */
  ghost predicate Happens(event: Event, before: Files, after: Files)
  {
    match event
    case Ran(step, ok) => StepOutcome(step, before, after, ok)
    case Undid(undo, ok) => UndoOutcome(undo, before, after, ok)
    case Foreign => true
  }

  /** The content an event checks for before it overwrites or removes the file that holds it. */
  predicate Replaces(event: Event, target: FileTarget, bytes: seq<byte>)
  {
    match event
    case Ran(Content(path, before, _, _, _, _, _), _) => target == path && Digest(bytes) == before
    case Ran(DeleteStep(path, expected), _) => target == path && Digest(bytes) == expected
    case Undid(Restore(path, _, _, written), _) => target == path && Digest(bytes) == written
    case Undid(RemoveCreated(path, written), _) => target == path && Digest(bytes) == written
    case _ => false
  }

  predicate Succeeds(event: Event)
  {
    !event.Foreign? && event.ok
  }

  /** The file an event that succeeds leaves at the path whose content it checks. */
  function Written(event: Event): Option<File>
  {
    match event
    case Ran(Content(_, _, after, _, _, permissions, _), _) => Some(File(after.content, permissions))
    case Undid(Restore(_, original, permissions, _), _) => Some(File(original, permissions))
    case _ => None
  }

  /** The event puts something else in the place of this very file. */
  predicate Overwrites(event: Event, target: FileTarget, file: File)
  {
    Succeeds(event) && Replaces(event, target, file.bytes) && Written(event) != Some(file)
  }

  /** Where an event that succeeds moves the file at `target`. */
  function MovedTo(event: Event, target: FileTarget): FileTarget
  {
    match event
    case Ran(RenameStep(from, to, _), true) => if target == from then to else target
    case Undid(Unrename(from, to), true) => if target == to then from else target
    case _ => target
  }

  predicate Survives(event: Event, before: Files, after: Files, target: FileTarget)
    requires target in before
  {
    MovedTo(event, target) in after && after[MovedTo(event, target)] == before[target]
  }

  /**
   The transaction leaves a file in place or moves it whole exactly when it does not hold the content the event
   checks for, or the event fails, or what the event writes is that very file.
   */
  lemma EventKeepsFile(event: Event, before: Files, after: Files, target: FileTarget)
    requires !event.Foreign? && Happens(event, before, after) && target in before
    ensures Survives(event, before, after, target) <==> !Overwrites(event, target, before[target])
  {
    if event.Ran? && !event.ok && after != before {
      var entry :| HalfMoved(event.step, before, after, entry);
    }
  }

  // ----- contents over a run

  /** A run: the files between events, and the events. */
  ghost predicate Run(states: seq<Files>, events: seq<Event>)
  {
    |states| == |events| + 1 && forall i :: 0 <= i < |events| ==> Happens(events[i], states[i], states[i + 1])
  }

  predicate Held(files: Files, bytes: seq<byte>)
  {
    exists target :: target in files && files[target].bytes == bytes
  }

  /** The only file with this content is the one an event replaces, and by other content. */
  predicate TakesAway(event: Event, before: Files, bytes: seq<byte>)
  {
    && Succeeds(event) && Held(before, bytes) && (Written(event).Some? ==> Written(event).value.bytes != bytes)
    && forall target :: target in before && before[target].bytes == bytes ==> Replaces(event, target, bytes)
  }

  /** Somebody else removed the last copy of the content at this event. */
  predicate LostToOthers(states: seq<Files>, events: seq<Event>, i: nat, bytes: seq<byte>)
    requires i < |events| && |states| == |events| + 1
  {
    events[i].Foreign? && Held(states[i], bytes) && !Held(states[i + 1], bytes)
  }

  /** One event of the transaction loses a content exactly when it takes away its only holder. */
  lemma EventLosesContent(event: Event, before: Files, after: Files, bytes: seq<byte>)
    requires !event.Foreign? && Happens(event, before, after) && Held(before, bytes)
    ensures !Held(after, bytes) <==> TakesAway(event, before, bytes)
  {
    if TakesAway(event, before, bytes) {
      AllTaken(event, before, after, bytes);
    } else if Succeeds(event) && Written(event).Some? && Written(event).value.bytes == bytes {
      WrittenIsHeld(event, before, after, bytes);
    } else {
      var target :| target in before && before[target].bytes == bytes
        && (Succeeds(event) ==> !Replaces(event, target, bytes));
      EventKeepsFile(event, before, after, target);
    }
  }

  lemma AllTaken(event: Event, before: Files, after: Files, bytes: seq<byte>)
    requires !event.Foreign? && Happens(event, before, after) && Held(before, bytes) && TakesAway(event, before, bytes)
    ensures !Held(after, bytes)
  {
    var held :| held in before && before[held].bytes == bytes;
    assert Replaces(event, held, bytes);
    forall target | target in after ensures after[target].bytes != bytes {
      assert target in before ==> after[target] == before[target] || Written(event) == Some(after[target]);
    }
  }

  lemma WrittenIsHeld(event: Event, before: Files, after: Files, bytes: seq<byte>)
    requires Happens(event, before, after) && Succeeds(event) && Written(event).Some?
             && Written(event).value.bytes == bytes
    ensures Held(after, bytes)
  {
    var target := if event.Ran? then event.step.target else event.undo.target;
    assert target in after && after[target].bytes == bytes;
  }

  ghost predicate Stays(states: seq<Files>, from: nat, bytes: seq<byte>)
  {
    forall i :: from <= i < |states| ==> Held(states[i], bytes)
  }

  ghost predicate LostAt(states: seq<Files>, events: seq<Event>, i: nat, bytes: seq<byte>)
    requires i < |events| && |states| == |events| + 1
  {
    LostToOthers(states, events, i, bytes) || TakesAway(events[i], states[i], bytes)
  }

  /**
   Over every interleaving of steps, undo entries and other writers, a content stays in the file system exactly
   when nobody else removes its last copy and no event that succeeds takes its only holder for what it checks.
   */
  lemma {:induction false} NothingForeignIsLost(states: seq<Files>, events: seq<Event>, from: nat, bytes: seq<byte>)
    requires Run(states, events) && from <= |events| && Held(states[from], bytes)
    ensures Stays(states, from, bytes) <==> forall i :: from <= i < |events| ==> !LostAt(states, events, i, bytes)
    decreases |events| - from
  {
    if from < |events| {
      assert Happens(events[from], states[from], states[from + 1]);
      if !events[from].Foreign? {
        EventLosesContent(events[from], states[from], states[from + 1], bytes);
      }
      assert LostAt(states, events, from, bytes) <==> !Held(states[from + 1], bytes);
      if Held(states[from + 1], bytes) {
        NothingForeignIsLost(states, events, from + 1, bytes);
        assert Stays(states, from, bytes) <==> Stays(states, from + 1, bytes);
      }
    }
  }

  // ----- the events of one transaction

  /** How far one transaction has come: steps committed and their journal, or the journal still to walk back. */
  datatype Phase = Committing(k: nat, journal: seq<Undo>) | RollingBack(journal: seq<Undo>)

  /** The order of `commit` and `rollback`: the next step, or after a failed one the last entry not yet undone. */
  ghost predicate Follows(steps: seq<Step>, phase: Phase, event: Event, before: Files, after: Files, phase': Phase)
  {
    match event
    case Foreign => phase' == phase
    case Ran(step, ok) =>
      && phase.Committing? && phase.k < |steps| && step == steps[phase.k]
      && if ok then StepChecked(step, before)
      && phase' == Committing(phase.k + 1, phase.journal + [UndoOf(step, before)])
         else JournalsFailure(step, before, after, phase.journal, phase')
    case Undid(undo, ok) =>
      && phase.RollingBack? && phase.journal != [] && undo == phase.journal[|phase.journal| - 1]
      && phase' == RollingBack(phase.journal[..|phase.journal| - 1])
  }

  /** A failed step turns the transaction back, with one entry more when the step left half a move behind. */
  ghost predicate JournalsFailure(step: Step, before: Files, after: Files, journal: seq<Undo>, phase': Phase)
  {
    || (after == before && phase' == RollingBack(journal))
    || exists entry :: HalfMoved(step, before, after, entry) && phase' == RollingBack(journal + [entry])
  }

  ghost predicate TransactionRun(steps: seq<Step>, phases: seq<Phase>, states: seq<Files>, events: seq<Event>)
  {
    && Run(states, events) && |phases| == |states| && phases[0] == Committing(0, [])
    && forall i :: 0 <= i < |events| ==> Follows(steps, phases[i], events[i], states[i], states[i + 1], phases[i + 1])
  }

  /** The contents a step checks for, and those its undo entry will check for. */
  predicate StepMentions(step: Step, bytes: seq<byte>)
  {
    match step
    case Content(_, before, after, _, _, _, _) => Digest(bytes) == before || Digest(bytes) == after
    case CreateStep(_, after, _) => Digest(bytes) == after
    case RenameStep(_, _, expected) => Digest(bytes) == expected
    case DeleteStep(_, expected) => Digest(bytes) == expected
  }

  predicate UndoMentions(undo: Undo, bytes: seq<byte>)
  {
    (undo.Restore? || undo.RemoveCreated?) && Digest(bytes) == undo.written
  }

  /** The transaction may still check for the content: a step to come mentions it, or an entry of the journal. */
  predicate Concerned(steps: seq<Step>, phase: Phase, bytes: seq<byte>)
  {
    || (phase.Committing? && exists j :: phase.k <= j < |steps| && StepMentions(steps[j], bytes))
    || exists j :: 0 <= j < |phase.journal| && UndoMentions(phase.journal[j], bytes)
  }

  lemma StaysUnconcerned(steps: seq<Step>, phase: Phase, event: Event, before: Files, after: Files, phase': Phase,
                         bytes: seq<byte>)
    requires Happens(event, before, after) && Follows(steps, phase, event, before, after, phase')
    requires !Concerned(steps, phase, bytes)
    ensures !Concerned(steps, phase', bytes)
    ensures forall target :: !Replaces(event, target, bytes)
  {
    if event.Ran? {
      assert !StepMentions(steps[phase.k], bytes);
    }
    forall j | 0 <= j < |phase'.journal| ensures !UndoMentions(phase'.journal[j], bytes) {
      if j < |phase.journal| {
        assert phase'.journal[j] == phase.journal[j];
      }
    }
  }

  /**
   One transaction among other writers: from the moment on that no step to come and no journal entry mentions a
   content, the transaction never takes it away; only other writers can.
   */
  lemma {:induction false} OthersWorkIsSafe(steps: seq<Step>, phases: seq<Phase>, states: seq<Files>,
                                            events: seq<Event>, from: nat, bytes: seq<byte>)
    requires TransactionRun(steps, phases, states, events) && from <= |events| && Held(states[from], bytes)
    requires !Concerned(steps, phases[from], bytes)
    ensures Stays(states, from, bytes) <==> forall i :: from <= i < |events| ==> !LostToOthers(states, events, i, bytes)
    decreases |events| - from
  {
    if from < |events| {
      assert Follows(steps, phases[from], events[from], states[from], states[from + 1], phases[from + 1]);
      StaysUnconcerned(steps, phases[from], events[from], states[from], states[from + 1], phases[from + 1], bytes);
      if !events[from].Foreign? {
        EventLosesContent(events[from], states[from], states[from + 1], bytes);
      }
      if Held(states[from + 1], bytes) {
        OthersWorkIsSafe(steps, phases, states, events, from + 1, bytes);
        assert Stays(states, from, bytes) <==> Stays(states, from + 1, bytes);
      } else {
        assert LostToOthers(states, events, from, bytes);
      }
    }
  }

  /**
   The limit: what is compared is content. Another writer who puts back the very bytes the edit wrote, on a
   file with other permissions, has that file replaced by the rollback.
   */
  lemma SameBytesAreRolledBack(target: FileTarget, original: seq<byte>, written: seq<byte>, mine: Permissions,
                               theirs: Permissions)
    requires original != written && mine != theirs
    ensures var undo := Restore(target, original, mine, Digest(written));
            var before: Files := map[target := File(written, theirs)];
            var after: Files := map[target := File(original, mine)];
            UndoOutcome(undo, before, after, true) && !Held(after, written)
  {
    var before: Files := map[target := File(written, theirs)];
    var after: Files := map[target := File(original, mine)];
    assert after == before[target := File(original, mine)];
    assert forall path :: path in after ==> path == target;
  }
}
