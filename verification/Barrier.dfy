/**
 The cross-process freshness barrier (crates/atlas-engine/src/engine.rs, lock.rs). Several engines keep an
 in-memory copy of one persisted index. An engine may read the store at any time, but it indexes only under
 the index lock, and it may have planned its scans before it had the lock. `System` is every engine at once;
 any engine may take its next step, fail, or die.

 `execute` is taken as: allocate a run and mark the store dirty, write any number of batches, then record the
 run as the new generation, and clear the mark if its resolution converged. `load_state` is taken as: read the
 store as it is. A store in which no run has finished makes it ask for a full re-resolve; otherwise whether it asks
 for one of its own accord is left open (`loadedForce`).
 */
module Barrier {
  import opened Wrappers

  type EngineId = nat

  /** `version` counts the batches runs have written: between equal versions only file stamps can differ. */
  datatype Store = Store(generation: nat, dirty: bool, version: nat, nextRun: nat)

  /** One finished run: the generation its engine had in memory, and the generation it recorded. */
  datatype Commit = Commit(engine: EngineId, base: nat, run: nat)

  /** Scans are planned against one in-memory state, known by its stamp; `seen` is the generation persisted then. */
  datatype Scans = Scans(basis: nat, seen: nat)

  datatype Op = Refresh | Index | WriteThenRefresh

  datatype View = View(generation: nat, inProgress: bool)

  datatype Pc =
    | Dead
    | Idle
    | Viewed(op: Op, view: View)
    | Recovering(op: Op)
    | Reloading(op: Op)
    | Ready(op: Op, inProgress: bool)
    | Waiting(op: Op, scans: Option<Scans>, waited: bool)
    | Holding(op: Op, scans: Option<Scans>, waited: bool)
    | Resynced(op: Op, scans: Option<Scans>, waited: bool, reloaded: bool)
    | Running(run: nat, applied: Scans)
  {
    predicate HasLock()
    {
      Recovering? || Holding? || Resynced? || Running?
    }
  }

  /** `synced` is `StateHealth::Synced`; `force` is `pending.force_full_resolve`; `stamp` names the in-memory state. */
  datatype Engine = Engine(generation: nat, version: nat, synced: bool, force: bool, stamp: nat, pc: Pc)

  datatype System = System(store: Store, lock: Option<EngineId>, engines: map<EngineId, Engine>, stamps: nat,
                           log: seq<Commit>)
  {
    function At(e: EngineId): Engine
    {
      if e in engines then engines[e] else Engine(0, 0, false, false, 0, Dead)
    }

    function With(e: EngineId, engine: Engine): System
    {
      this.(engines := engines[e := engine])
    }
  }

  /** `reload`: the in-memory state becomes what the store holds now, with a new stamp. */
  function Reloaded(engine: Engine, store: Store, stamp: nat, force: bool): Engine
  {
    Engine(store.generation, store.version, true, force, stamp, engine.pc)
  }

  /** What `sync_holding_lock` decides. */
  datatype Recovery = NoReload | Reload | ReloadCrashed

  function SyncHoldingLock(engine: Engine, store: Store): Recovery
  {
    if store.dirty && !engine.force then ReloadCrashed
    else if engine.synced && store.generation == engine.generation then NoReload
    else Reload
  }

  function AfterSync(engine: Engine, store: Store, stamp: nat, loadedForce: bool): Engine
  {
    match SyncHoldingLock(engine, store)
    case NoReload => engine
    case Reload => Reloaded(engine, store, stamp, loadedForce)
    case ReloadCrashed => Reloaded(engine, store, stamp, true)
  }

  // ----- the steps

  datatype Step =
    | Open(e: EngineId, loadedForce: bool)
    | Begin(e: EngineId, op: Op)
    | Sync(e: EngineId)
    | Load(e: EngineId, loadedForce: bool)
    | Plan(e: EngineId)
    | TryLock(e: EngineId)
    | Resync(e: EngineId, loadedForce: bool)
    | Run(e: EngineId)
    | Leave(e: EngineId)
    | Persist(e: EngineId)
    | Finish(e: EngineId, converged: bool)
    | Fail(e: EngineId)
    | Die(e: EngineId)

  /** What `load_state` may ask for: without the record that a finished run leaves, always the full re-resolve. */
  predicate MayLoad(store: Store, loadedForce: bool)
  {
    store.generation == 0 ==> loadedForce
  }

  predicate Enabled(s: System, step: Step)
  {
    var pc := s.At(step.e).pc;
    match step
    case Open(_, loadedForce) => pc.Dead? && MayLoad(s.store, loadedForce)
    case Begin(_, _) => pc.Idle?
    case Sync(_) => pc.Viewed?
    case Load(_, loadedForce) => (pc.Recovering? || pc.Reloading?) && MayLoad(s.store, loadedForce)
    case Plan(_) => pc.Ready?
    case TryLock(_) => pc.Waiting?
    case Resync(_, loadedForce) => pc.Holding? && MayLoad(s.store, loadedForce)
    case Run(_) => pc.Resynced?
    case Leave(_) =>
      || (pc.Ready? && pc.op == Refresh && !pc.inProgress)
      || (pc.Resynced? && pc.op != Index && !Reuses(pc))
    case Persist(_) => pc.Running?
    case Finish(_, _) => pc.Running?
    case Fail(_) => !pc.Dead? && !pc.Idle?
    case Die(_) => !pc.Dead?
  }

  /** `sync`: reads happened in `Begin`; a crashed run is recovered under the lock if nobody else has it. */
  function Synced(s: System, e: EngineId): System
    requires s.At(e).pc.Viewed?
  {
    var engine := s.At(e);
    var op, view := engine.pc.op, engine.pc.view;
    if view.inProgress && !engine.force then
      if s.lock.None? then s.With(e, engine.(pc := Recovering(op))).(lock := Some(e))
      else s.With(e, engine.(pc := Ready(op, true)))
    else if !engine.synced || view.generation != engine.generation then s.With(e, engine.(pc := Reloading(op)))
    else s.With(e, engine.(pc := Ready(op, false)))
  }

  function Loaded(s: System, e: EngineId, loadedForce: bool): System
    requires s.At(e).pc.Recovering? || s.At(e).pc.Reloading?
  {
    var engine := s.At(e);
    var crashed := engine.pc.Recovering?;
    var loaded := Reloaded(engine, s.store, s.stamps, crashed || loadedForce);
    var lock := if crashed then None else s.lock;
    s.With(e, loaded.(pc := Ready(engine.pc.op, false))).(stamps := s.stamps + 1, lock := lock)
  }

  /** Scans made before the lock are used only if nobody was waited for and nothing had to be reloaded. */
  predicate Reuses(pc: Pc)
    requires pc.Resynced?
  {
    pc.op == Refresh && !pc.waited && pc.scans.Some? && !pc.reloaded
  }

  /** `run` from the point where the lock is held and the state is in step: scan again unless the plan is reused. */
  function Started(s: System, e: EngineId): System
    requires s.At(e).pc.Resynced?
  {
    var engine := s.At(e);
    // `write_then_refresh` marks the written files for a re-hash before it plans, which is a new state.
    var stamp := if engine.pc.op == WriteThenRefresh then s.stamps else engine.stamp;
    var scans := if Reuses(engine.pc) then engine.pc.scans.value else Scans(stamp, s.store.generation);
    s.With(e, engine.(stamp := stamp, pc := Running(s.store.nextRun, scans)))
     .(store := s.store.(dirty := true, nextRun := s.store.nextRun + 1), stamps := s.stamps + 1)
  }

  /** The end of `execute`: a run that did not converge leaves the mark and asks for a full re-resolve next time. */
  function Finished(s: System, e: EngineId, converged: bool): System
    requires s.At(e).pc.Running?
  {
    var engine := s.At(e);
    var version := s.store.version + 1;
    s.With(e, Engine(engine.pc.run, version, true, !converged, s.stamps, Idle))
     .(store := s.store.(generation := engine.pc.run, dirty := !converged, version := version),
       lock := None, stamps := s.stamps + 1, log := s.log + [Commit(e, engine.generation, engine.pc.run)])
  }

  /** Giving up the lock if this engine has it. */
  function Unlocked(s: System, e: EngineId): Option<EngineId>
  {
    if s.At(e).pc.HasLock() then None else s.lock
  }

  function Apply(s: System, step: Step): System
    requires Enabled(s, step)
  {
    var e := step.e;
    var engine := s.At(e);
    match step
    case Open(_, loadedForce) =>
      var recovered := s.store.dirty && s.lock.None?;
      s.With(e, Reloaded(engine, s.store, s.stamps, recovered || loadedForce).(pc := Idle)).(stamps := s.stamps + 1)
    case Begin(_, op) =>
      if op == WriteThenRefresh then s.With(e, engine.(pc := Waiting(op, None, false)))
      else s.With(e, engine.(pc := Viewed(op, View(s.store.generation, s.store.dirty))))
    case Sync(_) => Synced(s, e)
    case Load(_, loadedForce) => Loaded(s, e, loadedForce)
    case Plan(_) =>
      var ahead := engine.pc.op == Refresh && !engine.pc.inProgress;
      var scans := if ahead then Some(Scans(engine.stamp, s.store.generation)) else None;
      s.With(e, engine.(pc := Waiting(engine.pc.op, scans, false)))
    case TryLock(_) =>
      if s.lock.None? then
        var holding := Holding(engine.pc.op, engine.pc.scans, engine.pc.waited);
        s.With(e, engine.(pc := holding)).(lock := Some(e))
      else s.With(e, engine.(pc := engine.pc.(waited := true)))
    case Resync(_, loadedForce) =>
      var reloaded := SyncHoldingLock(engine, s.store) != NoReload;
      var resynced := Resynced(engine.pc.op, engine.pc.scans, engine.pc.waited, reloaded);
      var synced := AfterSync(engine, s.store, s.stamps, loadedForce);
      s.With(e, synced.(pc := resynced)).(stamps := s.stamps + 1)
    case Run(_) => Started(s, e)
    case Leave(_) =>
      // Settling a clean plan restamps files in memory.
      s.With(e, engine.(stamp := s.stamps, pc := Idle)).(stamps := s.stamps + 1, lock := Unlocked(s, e))
    case Persist(_) =>
      s.With(e, engine.(version := s.store.version + 1)).(store := s.store.(version := s.store.version + 1))
    case Finish(_, converged) => Finished(s, e, converged)
    case Fail(_) => s.With(e, engine.(synced := false, pc := Idle)).(lock := Unlocked(s, e))
    case Die(_) => s.With(e, Engine(0, 0, false, false, 0, Dead)).(lock := Unlocked(s, e))
  }

  const Initial := System(Store(0, false, 0, 1), None, map[], 1, [])

  ghost predicate Behavior(states: seq<System>, steps: seq<Step>)
  {
    && |states| == |steps| + 1 && states[0] == Initial
    && forall i :: 0 <= i < |steps| ==> Enabled(states[i], steps[i]) && states[i + 1] == Apply(states[i], steps[i])
  }

  // ----- the invariant

  /** What an engine in a locked section may rely on. */
  predicate InStep(engine: Engine, store: Store)
  {
    && engine.synced && engine.generation == store.generation
    && (engine.version == store.version || (store.dirty && engine.force))
  }

  /** Scans planned ahead of the lock, while they may still be used. */
  function PlannedAhead(pc: Pc): Option<Scans>
  {
    match pc
    case Waiting(_, scans, _) => scans
    case Holding(_, scans, _) => scans
    case Resynced(_, scans, _, reloaded) => if reloaded then None else scans
    case _ => None
  }

  /** What holds of one engine, whoever else has stepped. */
  predicate EngineOk(engine: Engine, store: Store, stamps: nat, holder: bool)
  {
    && (engine.pc.HasLock() <==> holder)
    && engine.generation <= store.generation && engine.stamp < stamps
    // A clean store whose generation an engine knows is a store whose contents the engine has loaded.
    && (engine.synced && engine.generation == store.generation && !store.dirty ==> engine.version == store.version)
    && (PlannedAhead(engine.pc).Some? ==>
        PlannedAhead(engine.pc).value.basis == engine.stamp
          && engine.generation <= PlannedAhead(engine.pc).value.seen <= store.generation)
    && (engine.pc.Resynced? ==> InStep(engine, store))
    && (engine.pc.Running? ==>
          && store.dirty && engine.generation == store.generation < engine.pc.run < store.nextRun
          && engine.pc.applied.basis == engine.stamp && engine.pc.applied.seen == store.generation)
  }

  /** Every commit is built on the commit before it. */
  ghost predicate Chain(s: System)
  {
    && (forall i :: 0 < i < |s.log| ==> s.log[i].base == s.log[i - 1].run)
    && (forall i :: 0 <= i < |s.log| ==> s.log[i].base < s.log[i].run)
    && (s.log != [] ==> s.log[0].base == 0)
    && s.store.generation == (if s.log == [] then 0 else s.log[|s.log| - 1].run)
  }

  predicate HoldsLock(s: System, e: EngineId)
  {
    s.lock == Some(e)
  }

  ghost predicate Invariant(s: System)
  {
    && Chain(s) && s.store.generation < s.store.nextRun && 0 < s.stamps
    && forall e :: EngineOk(s.At(e), s.store, s.stamps, HoldsLock(s, e))
  }

  /** How a step may change what other engines see. */
  predicate SeenByOthers(before: Store, after: Store, actorHolds: bool)
  {
    || after == before
    || (actorHolds && after == before.(dirty := true, nextRun := before.nextRun + 1))
    || (actorHolds && before.dirty && after == before.(version := before.version + 1))
    || (actorHolds && after == before.(generation := after.generation, dirty := after.dirty, version := after.version)
        && before.generation < after.generation < before.nextRun)
  }

  lemma OthersKept(engine: Engine, before: Store, after: Store, stamps: nat, stamps': nat, holder: bool,
                   actorHolds: bool)
    requires EngineOk(engine, before, stamps, holder) && stamps <= stamps' && SeenByOthers(before, after, actorHolds)
    requires actorHolds ==> !holder
    ensures EngineOk(engine, after, stamps', holder)
  {
  }

  lemma StepKeeps(s: System, step: Step)
    requires Invariant(s) && Enabled(s, step)
    ensures Invariant(Apply(s, step))
  {
    var t, actor := Apply(s, step), step.e;
    assert EngineOk(s.At(actor), s.store, s.stamps, HoldsLock(s, actor));
    ActorKept(s, step);
    forall e ensures EngineOk(t.At(e), t.store, t.stamps, HoldsLock(t, e)) {
      if e != actor {
        assert t.At(e) == s.At(e) && EngineOk(s.At(e), s.store, s.stamps, HoldsLock(s, e));
        OthersKept(s.At(e), s.store, t.store, s.stamps, t.stamps, HoldsLock(s, e), HoldsLock(s, actor));
      }
    }
  }

  /** The step itself: its engine, the lock, the store and the log. */
  ghost predicate Kept(s: System, t: System, e: EngineId)
  {
    && EngineOk(t.At(e), t.store, t.stamps, HoldsLock(t, e))
    && (forall d :: d != e ==> (HoldsLock(t, d) <==> HoldsLock(s, d)))
    && SeenByOthers(s.store, t.store, HoldsLock(s, e))
    && Chain(t) && t.store.generation < t.store.nextRun && s.stamps <= t.stamps
  }

  ghost predicate Starting(s: System, e: EngineId)
  {
    && Chain(s) && s.store.generation < s.store.nextRun && 0 < s.stamps
    && EngineOk(s.At(e), s.store, s.stamps, HoldsLock(s, e))
  }

  lemma ActorKept(s: System, step: Step)
    requires Starting(s, step.e) && Enabled(s, step)
    ensures Kept(s, Apply(s, step), step.e)
  {
    match step {
      case Finish(_, _) => FinishKept(s, step);
      case Run(_) => RunKept(s, step);
      case Sync(_) => SyncKept(s, step);
      case Load(_, _) => SyncKept(s, step);
      case Resync(_, _) => ResyncKept(s, step);
      case Open(_, _) => OpenKept(s, step);
      case Begin(_, _) => EntryKept(s, step);
      case Plan(_) => EntryKept(s, step);
      case TryLock(_) => TryLockKept(s, step);
      case _ => ExitKept(s, step);
    }
  }

  lemma FinishKept(s: System, step: Step)
    requires Starting(s, step.e) && Enabled(s, step) && step.Finish?
    ensures Kept(s, Apply(s, step), step.e)
  {
    var t := Apply(s, step);
    assert t.log == s.log + [Commit(step.e, s.store.generation, s.At(step.e).pc.run)];
  }

  lemma RunKept(s: System, step: Step)
    requires Starting(s, step.e) && Enabled(s, step) && step.Run?
    ensures Kept(s, Apply(s, step), step.e)
  {
    assert Apply(s, step).log == s.log;
  }

  lemma SyncKept(s: System, step: Step)
    requires Starting(s, step.e) && Enabled(s, step) && (step.Sync? || step.Load?)
    ensures Kept(s, Apply(s, step), step.e)
  {
    assert Apply(s, step).log == s.log && Apply(s, step).store == s.store;
  }

  lemma ResyncKept(s: System, step: Step)
    requires Starting(s, step.e) && Enabled(s, step) && step.Resync?
    ensures Kept(s, Apply(s, step), step.e)
  {
    assert Apply(s, step).log == s.log && Apply(s, step).store == s.store;
  }

  lemma OpenKept(s: System, step: Step)
    requires Starting(s, step.e) && Enabled(s, step) && step.Open?
    ensures Kept(s, Apply(s, step), step.e)
  {
    assert Apply(s, step).log == s.log && Apply(s, step).store == s.store;
  }

  lemma TryLockKept(s: System, step: Step)
    requires Starting(s, step.e) && Enabled(s, step) && step.TryLock?
    ensures Kept(s, Apply(s, step), step.e)
  {
    assert Apply(s, step).log == s.log && Apply(s, step).store == s.store;
  }

  lemma EntryKept(s: System, step: Step)
    requires Starting(s, step.e) && Enabled(s, step) && (step.Begin? || step.Plan?)
    ensures Kept(s, Apply(s, step), step.e)
  {
    assert Apply(s, step).log == s.log && Apply(s, step).store == s.store;
  }

  lemma ExitKept(s: System, step: Step)
    requires Starting(s, step.e) && Enabled(s, step) && (step.Leave? || step.Persist? || step.Fail? || step.Die?)
    ensures Kept(s, Apply(s, step), step.e)
  {
    assert Apply(s, step).log == s.log;
  }

  lemma {:induction false} BehaviorKeeps(states: seq<System>, steps: seq<Step>, i: nat)
    requires Behavior(states, steps) && i <= |steps|
    ensures Invariant(states[i])
  {
    if i > 0 {
      BehaviorKeeps(states, steps, i - 1);
      StepKeeps(states[i - 1], steps[i - 1]);
    }
  }

  // ----- what that means

  /** The engines that have the index lock: at most one, so at most one index run at a time. */
  lemma OneRunAtATime(states: seq<System>, steps: seq<Step>, i: nat, d: EngineId, e: EngineId)
    requires Behavior(states, steps) && i <= |steps|
    ensures states[i].At(d).pc.HasLock() && states[i].At(e).pc.HasLock() ==> d == e
  {
    BehaviorKeeps(states, steps, i);
    assert EngineOk(states[i].At(d), states[i].store, states[i].stamps, HoldsLock(states[i], d));
    assert EngineOk(states[i].At(e), states[i].store, states[i].stamps, HoldsLock(states[i], e));
  }

  /**
   No run on a stale base. Over every interleaving of engines, failures and deaths, when `run` starts its
   engine has the lock, knows the persisted generation, holds the persisted contents in memory or is about to
   re-resolve everything, and applies scans made against that very state, since when nobody has committed.
   */
  lemma RunsInStep(states: seq<System>, steps: seq<Step>, i: nat)
    requires Behavior(states, steps) && i < |steps| && steps[i].Run?
    ensures var s, e, t := states[i], steps[i].e, states[i + 1];
            && s.lock == Some(e) && InStep(s.At(e), s.store)
            && t.At(e).pc.Running? && t.At(e).pc.applied.basis == t.At(e).stamp
            && t.At(e).pc.applied.seen == s.store.generation
  {
    BehaviorKeeps(states, steps, i);
    BehaviorKeeps(states, steps, i + 1);
    var s, e, t := states[i], steps[i].e, states[i + 1];
    assert EngineOk(s.At(e), s.store, s.stamps, HoldsLock(s, e));
    assert EngineOk(t.At(e), t.store, t.stamps, HoldsLock(t, e));
  }

  /** While a run is under way the generation it is based on stays the persisted one. */
  lemma BaseStaysPersisted(states: seq<System>, steps: seq<Step>, i: nat, e: EngineId)
    requires Behavior(states, steps) && i <= |steps| && states[i].At(e).pc.Running?
    ensures states[i].lock == Some(e) && states[i].At(e).generation == states[i].store.generation
            && states[i].store.dirty
  {
    BehaviorKeeps(states, steps, i);
    assert EngineOk(states[i].At(e), states[i].store, states[i].stamps, HoldsLock(states[i], e));
  }

  /** No lost update: every commit is based on the commit just before it, and generations only grow. */
  lemma CommitsFormOneChain(states: seq<System>, steps: seq<Step>, i: nat, k: nat)
    requires Behavior(states, steps) && i <= |steps| && k < |states[i].log|
    ensures states[i].log[k].base == (if k == 0 then 0 else states[i].log[k - 1].run)
    ensures states[i].log[k].base < states[i].log[k].run
    ensures k == |states[i].log| - 1 ==> states[i].log[k].run == states[i].store.generation
  {
    BehaviorKeeps(states, steps, i);
  }

  // ----- recovery from an interrupted run

  /** A run on a store that an interrupted run left behind should re-resolve everything. */
  predicate RecoveryKept(engine: Engine, store: Store)
  {
    store.dirty ==> engine.force
  }

  /** While an engine has the lock, what others do changes neither it nor the store nor the lock. */
  lemma OthersLeaveHolder(s: System, step: Step, e: EngineId)
    requires Invariant(s) && Enabled(s, step) && s.At(e).pc.HasLock() && step.e != e
    ensures Apply(s, step).At(e) == s.At(e) && Apply(s, step).store == s.store
            && Apply(s, step).lock == s.lock == Some(e)
  {
    assert EngineOk(s.At(e), s.store, s.stamps, HoldsLock(s, e));
    assert EngineOk(s.At(step.e), s.store, s.stamps, HoldsLock(s, step.e));
  }

  lemma OnlyResyncResyncs(s: System, step: Step)
    requires Enabled(s, step) && Apply(s, step).At(step.e).pc.Resynced?
    ensures step.Resync? && Apply(s, step).store == s.store
  {
  }

  /** The step before an engine is in step: its `sync_holding_lock`, or one that changes nothing it sees. */
  lemma StepBack(s: System, step: Step, t: System, e: EngineId)
    requires Invariant(s) && Enabled(s, step) && t == Apply(s, step) && t.At(e).pc.Resynced?
    ensures t.store == s.store && if step.e == e then step.Resync? else s.At(e) == t.At(e)
  {
    if step.e == e {
      OnlyResyncResyncs(s, step);
    } else {
      assert t.At(e) == s.At(e);
      OthersLeaveHolder(s, step, e);
    }
  }

  /**
   An engine that is in step with the store under the lock has been so, undisturbed, since its `sync_holding_lock`.
   */
  lemma {:induction false} ResyncedSince(states: seq<System>, steps: seq<Step>, i: nat, e: EngineId) returns (k: nat)
    requires Behavior(states, steps) && i <= |steps| && states[i].At(e).pc.Resynced?
    ensures k < i && steps[k].Resync? && steps[k].e == e && forall j :: k < j < i ==> steps[j].e != e
    ensures states[i].At(e) == states[k + 1].At(e) && states[i].store == states[k].store
  {
    assert i > 0;
    BehaviorKeeps(states, steps, i - 1);
    StepBack(states[i - 1], steps[i - 1], states[i], e);
    if steps[i - 1].e == e {
      k := i - 1;
    } else {
      k := ResyncedSince(states, steps, i - 1, e);
    }
  }

  /**
   When `sync_holding_lock` forgets a recovery: the engine had already asked for the full re-resolve after an
   interrupted run, has to reload for another reason, and what it loads does not ask for one by itself.
   */
  predicate Forgets(engine: Engine, store: Store, loadedForce: bool)
  {
    store.dirty && engine.force && !(engine.synced && store.generation == engine.generation) && !loadedForce
  }

  /**
   Over every behaviour: a run starts on a store that an interrupted run left behind, without re-resolving
   everything, exactly when the `sync_holding_lock` before it forgot the recovery.
   */
  lemma RecoveryKeptExactlyWhen(states: seq<System>, steps: seq<Step>, i: nat, e: EngineId) returns (k: nat)
    requires Behavior(states, steps) && i < |steps| && steps[i] == Run(e)
    ensures k < i && steps[k].Resync? && steps[k].e == e && forall j :: k < j < i ==> steps[j].e != e
    ensures RecoveryKept(states[i].At(e), states[i].store) <==>
              !Forgets(states[k].At(e), states[k].store, steps[k].loadedForce)
  {
    assert Enabled(states[i], steps[i]);
    k := ResyncedSince(states, steps, i, e);
    assert Enabled(states[k], steps[k]) && states[k + 1] == Apply(states[k], steps[k]);
  }

  // ----- the same in `sync`

  /** The last step of a living engine. */
  lemma {:induction false} LastStepOf(states: seq<System>, steps: seq<Step>, i: nat, e: EngineId) returns (k: nat)
    requires Behavior(states, steps) && i <= |steps| && !states[i].At(e).pc.Dead?
    ensures k < i && steps[k].e == e && forall j :: k < j < i ==> steps[j].e != e
    ensures states[i].At(e) == states[k + 1].At(e)
  {
    assert i > 0;
    if steps[i - 1].e == e {
      k := i - 1;
    } else {
      OnlyItself(states[i - 1], steps[i - 1], states[i], e);
      k := LastStepOf(states, steps, i - 1, e);
    }
  }

  lemma OnlyItself(s: System, step: Step, t: System, e: EngineId)
    requires Enabled(s, step) && t == Apply(s, step) && step.e != e
    ensures t.At(e) == s.At(e)
  {
  }

  /** Only `sync`, and the load it may call for, make an engine ready. */
  lemma BecomesReady(s: System, step: Step)
    requires Enabled(s, step)
    ensures Apply(s, step).At(step.e).pc.Ready? ==> step.Sync? || step.Load?
    ensures Apply(s, step).At(step.e).pc.Recovering? || Apply(s, step).At(step.e).pc.Reloading? ==> step.Sync?
  {
  }

  /**
   When `sync` forgets a recovery: it saw an interrupted run for which the engine had already asked, has to reload
   for another reason, and what it loads does not ask by itself.
   */
  predicate SyncForgets(engine: Engine, loadedForce: bool)
    requires engine.pc.Viewed?
  {
    var view := engine.pc.view;
    view.inProgress && engine.force && (!engine.synced || view.generation != engine.generation) && !loadedForce
  }

  /** What one `sync` makes of an interrupted run, whether it loads or not. */
  lemma SyncThenLoad(engine: Engine, s: System, e: EngineId)
    requires s.At(e) == engine && engine.pc.Viewed?
    ensures var after := Synced(s, e).At(e);
            && after.force == engine.force
            && (after.pc.Recovering? <==> engine.pc.view.inProgress && !engine.force && s.lock.None?)
            && (after.pc.Reloading? <==> !(engine.pc.view.inProgress && !engine.force)
                                         && (!engine.synced || engine.pc.view.generation != engine.generation))
            && (after.pc.Ready? && !after.pc.inProgress ==> !(engine.pc.view.inProgress && !engine.force))
  {
  }

  /**
   Over every behaviour: an engine comes out of `sync` on a store that it saw interrupted, free to settle without any
   run and without a request to re-resolve everything, exactly when that `sync` forgot the request.
   */
  lemma SyncForgetsExactlyWhen(states: seq<System>, steps: seq<Step>, i: nat, e: EngineId)
    returns (sync: nat, last: nat)
    requires Behavior(states, steps) && i <= |steps| && states[i].At(e).pc.Ready? && !states[i].At(e).pc.inProgress
    ensures sync <= last < i && steps[sync] == Sync(e) && states[sync].At(e).pc.Viewed?
    ensures last == sync || (steps[last].Load? && steps[last].e == e)
    ensures forall j :: sync < j < i && j != last ==> steps[j].e != e
    ensures states[sync].At(e).pc.view.inProgress && !states[i].At(e).force <==>
              sync < last && SyncForgets(states[sync].At(e), steps[last].loadedForce)
  {
    last := LastStepOf(states, steps, i, e);
    assert Enabled(states[last], steps[last]) && states[last + 1] == Apply(states[last], steps[last]);
    BecomesReady(states[last], steps[last]);
    sync := last;
    if steps[last].Load? {
      sync := LastStepOf(states, steps, last, e);
      assert Enabled(states[sync], steps[sync]) && states[sync + 1] == Apply(states[sync], steps[sync]);
      BecomesReady(states[sync], steps[sync]);
    }
    SyncThenLoad(states[sync].At(e), states[sync], e);
  }

  // ----- it can happen

  lemma Take(states: seq<System>, steps: seq<Step>, step: Step) returns (states': seq<System>, steps': seq<Step>)
    requires Behavior(states, steps) && Enabled(states[|steps|], step)
    ensures Behavior(states', steps') && steps' == steps + [step] && |states'| == |states| + 1
    ensures states'[..|states|] == states && states'[|steps'|] == Apply(states[|steps|], step)
  {
    states', steps' := states + [Apply(states[|steps|], step)], steps + [step];
  }

  /** An engine may index: nobody has the lock, and what it has in memory is in step with the store. */
  ghost predicate MayIndex(s: System, e: EngineId, loadedForce: bool)
  {
    && s.lock == None && s.At(e).pc == Ready(Index, false) && MayLoad(s.store, loadedForce)
    && s.At(e).synced && s.At(e).generation == s.store.generation && (s.store.dirty ==> s.At(e).force)
  }

  /** A run of the engine is under way, on what was there before. */
  ghost predicate Indexing(s: System, before: System, e: EngineId)
  {
    && s.lock == Some(e) && s.store == before.store.(dirty := true, nextRun := before.store.nextRun + 1)
    && s.At(e).pc.Running? && s.At(e).pc.run == before.store.nextRun && s.At(e).force == before.At(e).force
  }

  /** The engine takes the lock and starts to index. */
  lemma StartsIndexing(states: seq<System>, steps: seq<Step>, e: EngineId, loadedForce: bool)
    returns (states': seq<System>, steps': seq<Step>)
    requires Behavior(states, steps) && MayIndex(states[|steps|], e, loadedForce)
    ensures Behavior(states', steps') && Indexing(states'[|steps'|], states[|steps|], e)
  {
    states', steps' := Take(states, steps, Plan(e));
    states', steps' := Take(states', steps', TryLock(e));
    states', steps' := Take(states', steps', Resync(e, loadedForce));
    states', steps' := Take(states', steps', Run(e));
  }

  /** The engine takes the lock, starts to index, and fails. */
  lemma FailsWhileIndexing(states: seq<System>, steps: seq<Step>, e: EngineId)
    returns (states': seq<System>, steps': seq<Step>)
    requires Behavior(states, steps) && MayIndex(states[|steps|], e, false)
    ensures Behavior(states', steps') && states'[|steps'|].lock == None && states'[|steps'|].store.dirty
    ensures states'[|steps'|].store.generation == states[|steps|].store.generation
    ensures states'[|steps'|].At(e).pc.Idle? && !states'[|steps'|].At(e).synced
    ensures states'[|steps'|].At(e).force == states[|steps|].At(e).force
  {
    states', steps' := StartsIndexing(states, steps, e, false);
    states', steps' := Take(states', steps', Fail(e));
  }

  /** An engine has failed twice while indexing, the second time after recovering from the first. */
  ghost predicate FailedTwice(s: System, e: EngineId)
  {
    && s.lock == None && s.store.dirty && s.store.generation > 0
    && s.At(e).pc.Idle? && !s.At(e).synced && s.At(e).force
  }

  /** A first run commits: nothing is interrupted, and the engine knows it. */
  ghost predicate IndexedOnce(s: System, e: EngineId)
  {
    && s.lock == None && !s.store.dirty && s.store.generation > 0
    && s.At(e).pc.Idle? && s.At(e).synced && s.At(e).generation == s.store.generation && !s.At(e).force
  }

  lemma IndexesOnce(e: EngineId) returns (states: seq<System>, steps: seq<Step>)
    ensures Behavior(states, steps) && IndexedOnce(states[|steps|], e)
  {
    states, steps := [Initial], [];
    states, steps := Take(states, steps, Open(e, true));
    states, steps := Take(states, steps, Begin(e, Index));
    states, steps := Take(states, steps, Sync(e));
    states, steps := StartsIndexing(states, steps, e, true);
    states, steps := Take(states, steps, Finish(e, true));
  }

  lemma FailsTwice(e: EngineId) returns (states: seq<System>, steps: seq<Step>)
    ensures Behavior(states, steps) && FailedTwice(states[|steps|], e)
  {
    states, steps := IndexesOnce(e);
    states, steps := Take(states, steps, Begin(e, Index));
    states, steps := Take(states, steps, Sync(e));
    states, steps := FailsWhileIndexing(states, steps, e);
    states, steps := Take(states, steps, Begin(e, Index));
    states, steps := Take(states, steps, Sync(e));
    states, steps := Take(states, steps, Load(e, false));
    states, steps := FailsWhileIndexing(states, steps, e);
  }

  /**
   After a run that commits, the next run fails, the one after it recovers and fails too, and a write then refreshes
   the index on the interrupted store without a full re-resolve.
   */
  lemma RecoveryCanBeForgotten(e: EngineId) returns (states: seq<System>, steps: seq<Step>)
    ensures Behavior(states, steps) && steps != [] && steps[|steps| - 1] == Run(e)
    ensures states[|steps| - 1].store.dirty && !states[|steps| - 1].At(e).force
  {
    states, steps := FailsTwice(e);
    states, steps := Take(states, steps, Begin(e, WriteThenRefresh));
    states, steps := Take(states, steps, TryLock(e));
    states, steps := Take(states, steps, Resync(e, false));
    var before := states;
    states, steps := Take(states, steps, Run(e));
    assert states[..|before|] == before;
  }

  /** Or the engine refreshes, finds every file as it was, and leaves the interrupted store without any run. */
  lemma SyncCanForget(e: EngineId) returns (states: seq<System>, steps: seq<Step>)
    ensures Behavior(states, steps) && steps != [] && steps[|steps| - 1] == Leave(e)
    ensures states[|steps|].store.dirty && states[|steps|].lock == None
    ensures states[|steps|].At(e).pc.Idle? && !states[|steps|].At(e).force
  {
    states, steps := FailsTwice(e);
    states, steps := Take(states, steps, Begin(e, Refresh));
    states, steps := Take(states, steps, Sync(e));
    states, steps := Take(states, steps, Load(e, false));
    states, steps := Take(states, steps, Leave(e));
  }
}
