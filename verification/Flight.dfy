/**
 SingleFlight (crates/atlas-engine/src/flight.rs): concurrent callers share one flight at a time, and a
 caller only shares a flight that was launched after it arrived. `SingleFlight` below is the mutex-protected
 state with its critical sections; `State` is the whole system of callers, in which any caller may take the
 next critical section, wake spuriously, or panic while it flies.
 */
module Flight {
  import opened Wrappers

  /** A value as the model tracks it: what `fly` returned, and how many flights had been launched by then. */
  datatype Landed<T> = Landed(ticket: nat, value: T)

  datatype Flights<T> = Flights(launched: nat, landed: Option<Landed<T>>)
  {
    function LandedTicket(): nat
    {
      if landed.Some? then landed.value.ticket else 0
    }

    predicate InFlight()
    {
      launched > LandedTicket()
    }
  }

  /** What the loop of `board` decides each time it holds the mutex. */
  datatype Decision<T> = Share(value: T) | Wait | Pilot(ticket: nat)

  function Decide<T>(flights: Flights<T>, needed: nat): Decision<T>
  {
    if flights.landed.Some? && flights.landed.value.ticket >= needed then Share(flights.landed.value.value)
    else if flights.InFlight() then Wait
    else Pilot(flights.launched + 1)
  }

  function AfterDeciding<T>(flights: Flights<T>, needed: nat): Flights<T>
  {
    if Decide(flights, needed).Pilot? then flights.(launched := flights.launched + 1) else flights
  }

  function AfterLanding<T>(flights: Flights<T>, ticket: nat, value: T): Flights<T>
  {
    flights.(landed := Some(Landed(ticket, value)))
  }

  function AfterPanic<T>(flights: Flights<T>): Flights<T>
  {
    flights.(launched := flights.LandedTicket())
  }

  class SingleFlight<T> {
    var launched: nat
    var landed: Option<Landed<T>>

    constructor ()
      ensures Now() == Flights(0, None)
    {
      launched, landed := 0, None;
    }

    function Now(): Flights<T>
      reads this
    {
      Flights(launched, landed)
    }

    /** The first lines of `board`, under the mutex. */
    method Arrive() returns (needed: nat, decision: Decision<T>)
      modifies this
      ensures needed == old(launched) + 1
      ensures decision == Decide(old(Now()), needed) && Now() == AfterDeciding(old(Now()), needed)
    {
      needed := launched + 1;
      decision := Check(needed);
    }

    /** One turn of the loop of `board`, under the mutex. */
    method Check(needed: nat) returns (decision: Decision<T>)
      modifies this
      ensures decision == Decide(old(Now()), needed) && Now() == AfterDeciding(old(Now()), needed)
    {
      if landed.Some? && landed.value.ticket >= needed {
        return Share(landed.value.value);
      }
      if Now().InFlight() {
        return Wait;
      }
      launched := launched + 1;
      return Pilot(launched);
    }

    /** `Pilot::land`, under the mutex. */
    method Land(ticket: nat, value: T)
      modifies this
      ensures Now() == AfterLanding(old(Now()), ticket, value)
    {
      landed := Some(Landed(ticket, value));
    }

    /** `Pilot::drop` of a pilot that never landed, under the mutex. */
    method Drop()
      modifies this
      ensures Now() == AfterPanic(old(Now()))
    {
      launched := Now().LandedTicket();
    }
  }

  // ----- the system

  type CallerId = nat

  /** What a flight brings back, as far as freshness goes: its place in the order of all launches. */
  datatype Report = Report(launch: nat)

  /** Where a caller is, with what the proofs remember of its arrival: launches and landings so far. */
  datatype Caller =
    | Away
    | Asleep(needed: nat, launches: nat, landings: nat)
    | Awake(needed: nat, launches: nat, landings: nat)
    | Flying(ticket: nat, launch: nat, launches: nat)
    | Notifying(outcome: Option<Report>, launches: nat)
    | Done(report: Report, launches: nat)
    | Crashed
  {
    /** In the loop of `board`, between its arrival and its exit. */
    predicate Boarding() { Asleep? || Awake? }
  }

  /** `launches` and `landings` count every flight ever launched and landed; tickets are reused, they are not. */
  datatype State = State(flights: Flights<Report>, callers: map<CallerId, Caller>, launches: nat, landings: nat)
  {
    function At(c: CallerId): Caller
    {
      if c in callers then callers[c] else Away
    }
  }

  datatype Step = Arrives(c: CallerId) | Checks(c: CallerId) | Lands(c: CallerId) | Panics(c: CallerId)
    | Notifies(c: CallerId) | Wakes(c: CallerId)

  /** The state after a caller that needs a ticket has had its turn under the mutex. */
  function Turn(s: State, c: CallerId, needed: nat, launches: nat, landings: nat): State
  {
    match Decide(s.flights, needed)
    case Share(report) => s.(callers := s.callers[c := Done(report, launches)])
    case Wait => s.(callers := s.callers[c := Asleep(needed, launches, landings)])
    case Pilot(ticket) =>
      State(AfterDeciding(s.flights, needed), s.callers[c := Flying(ticket, s.launches + 1, launches)], s.launches + 1,
            s.landings)
  }

  /** `notify_all`: everybody asleep wakes, and the notifier is finished. */
  function Notified(s: State, c: CallerId): State
    requires s.At(c).Notifying?
  {
    var outcome, launches := s.At(c).outcome, s.At(c).launches;
    var woken := map d | d in s.callers ::
      if s.callers[d].Asleep? then Awake(s.callers[d].needed, s.callers[d].launches, s.callers[d].landings)
        else s.callers[d];
    s.(callers := woken[c := if outcome.Some? then Done(outcome.value, launches) else Crashed])
  }

  predicate Enabled(s: State, step: Step)
  {
    match step
    case Arrives(c) => s.At(c).Away? || s.At(c).Done? || s.At(c).Crashed?
    case Checks(c) => s.At(c).Awake?
    case Lands(c) => s.At(c).Flying?
    case Panics(c) => s.At(c).Flying?
    case Notifies(c) => s.At(c).Notifying?
    case Wakes(c) => s.At(c).Asleep?
  }

  function Apply(s: State, step: Step): State
    requires Enabled(s, step)
  {
    match step
    case Arrives(c) => Turn(s, c, s.flights.launched + 1, s.launches, s.landings)
    case Checks(c) => Turn(s, c, s.At(c).needed, s.At(c).launches, s.At(c).landings)
    case Lands(c) =>
      var report := Report(s.At(c).launch);
      State(AfterLanding(s.flights, s.At(c).ticket, report), s.callers[c := Notifying(Some(report), s.At(c).launches)],
            s.launches, s.landings + 1)
    case Panics(c) =>
      State(AfterPanic(s.flights), s.callers[c := Notifying(None, s.At(c).launches)], s.launches, s.landings)
    case Notifies(c) => Notified(s, c)
    case Wakes(c) => s.(callers := s.callers[c := Awake(s.At(c).needed, s.At(c).launches, s.At(c).landings)])
  }

  const Initial := State(Flights(0, None), map[], 0, 0)

  /** The states a schedule of steps goes through. */
  ghost predicate Run(states: seq<State>, steps: seq<Step>)
  {
    && |states| == |steps| + 1 && states[0] == Initial
    && forall i :: 0 <= i < |steps| ==> Enabled(states[i], steps[i]) && states[i + 1] == Apply(states[i], steps[i])
  }

  // ----- what every reachable state keeps

  /** Tickets: at most one beyond the last landing, which counts the landings; one pilot when there is one. */
  ghost predicate Tickets(s: State)
  {
    && s.flights.LandedTicket() == s.landings
    && s.landings <= s.flights.launched <= s.landings + 1
    && (s.flights.landed.Some? ==> s.flights.landed.value.value.launch <= s.launches)
    && (forall c :: s.At(c).Flying? ==>
        s.At(c).ticket == s.flights.launched && s.flights.InFlight() && s.At(c).launch <= s.launches)
    && (forall c, d :: s.At(c).Flying? && s.At(d).Flying? ==> c == d)
    && (s.flights.InFlight() ==> exists c :: s.At(c).Flying?)
  }

  /** A landing, or a flight in the air, with the ticket a caller needs was launched after the caller arrived. */
  ghost predicate FreshFor(s: State, needed: nat, launches: nat)
  {
    && (s.flights.landed.Some? && s.flights.landed.value.ticket >= needed ==>
        s.flights.landed.value.value.launch > launches)
    && (forall c :: s.At(c).Flying? && s.At(c).ticket >= needed ==> s.At(c).launch > launches)
  }

  ghost predicate Fresh(s: State)
  {
    forall c ::
      && (s.At(c).Boarding() ==> FreshFor(s, s.At(c).needed, s.At(c).launches) && s.At(c).launches <= s.launches)
      && (s.At(c).Flying? ==> s.At(c).launch > s.At(c).launches)
      && (s.At(c).Notifying? && s.At(c).outcome.Some? ==> s.At(c).launches < s.At(c).outcome.value.launch <= s.launches)
      && (s.At(c).Done? ==> s.At(c).launches < s.At(c).report.launch <= s.launches)
  }

  /** Nobody sleeps for good: somebody flies, or somebody is about to wake everybody. */
  ghost predicate Watched(s: State)
  {
    (exists c :: s.At(c).Asleep?) ==> (exists d :: s.At(d).Flying? || s.At(d).Notifying?)
  }

  /** The ticket a boarding caller needs is at most two landings away from its arrival. */
  ghost predicate Near(s: State)
  {
    forall c :: s.At(c).Boarding() ==> s.At(c).landings <= s.landings && s.At(c).needed <= s.At(c).landings + 2
  }

  ghost predicate Invariant(s: State)
  {
    Tickets(s) && Fresh(s) && Watched(s) && Near(s)
  }

  /** What a caller brings to its turn of the loop. */
  ghost predicate MayTurn(s: State, c: CallerId, needed: nat, launches: nat, landings: nat)
  {
    && Invariant(s) && !s.At(c).Flying? && !s.At(c).Notifying?
    && FreshFor(s, needed, launches) && launches <= s.launches && landings <= s.landings && needed <= landings + 2
  }

  lemma WaitKeeps(s: State, c: CallerId, needed: nat, launches: nat, landings: nat)
    requires MayTurn(s, c, needed, launches, landings) && Decide(s.flights, needed).Wait?
    ensures Invariant(Turn(s, c, needed, launches, landings))
  {
    var t := Turn(s, c, needed, launches, landings);
    assert forall d :: d != c ==> t.At(d) == s.At(d);
    var pilot :| s.At(pilot).Flying?;
    assert t.At(pilot).Flying?;
  }

  lemma PilotKeeps(s: State, c: CallerId, needed: nat, launches: nat, landings: nat)
    requires MayTurn(s, c, needed, launches, landings) && Decide(s.flights, needed).Pilot?
    ensures Invariant(Turn(s, c, needed, launches, landings))
  {
    var t := Turn(s, c, needed, launches, landings);
    assert forall d :: d != c ==> t.At(d) == s.At(d);
    assert t.At(c).Flying?;
  }

  lemma ShareKeeps(s: State, c: CallerId, needed: nat, launches: nat, landings: nat)
    requires MayTurn(s, c, needed, launches, landings) && !Decide(s.flights, needed).Wait?
             && !Decide(s.flights, needed).Pilot?
    ensures Invariant(Turn(s, c, needed, launches, landings))
  {
    var t := Turn(s, c, needed, launches, landings);
    assert forall d :: d != c ==> t.At(d) == s.At(d);
    if s.flights.InFlight() {
      var pilot :| s.At(pilot).Flying?;
      assert t.At(pilot).Flying?;
    }
    if d :| t.At(d).Asleep? {
      assert s.At(d).Asleep?;
      var e :| s.At(e).Flying? || s.At(e).Notifying?;
      assert t.At(e) == s.At(e);
    }
  }

  lemma TurnKeeps(s: State, c: CallerId, needed: nat, launches: nat, landings: nat)
    requires MayTurn(s, c, needed, launches, landings)
    ensures Invariant(Turn(s, c, needed, launches, landings))
  {
    if Decide(s.flights, needed).Wait? {
      WaitKeeps(s, c, needed, launches, landings);
    } else if Decide(s.flights, needed).Pilot? {
      PilotKeeps(s, c, needed, launches, landings);
    } else {
      ShareKeeps(s, c, needed, launches, landings);
    }
  }

  lemma LandKeeps(s: State, c: CallerId)
    requires Invariant(s) && s.At(c).Flying?
    ensures Invariant(Apply(s, Lands(c)))
  {
    var t := Apply(s, Lands(c));
    assert forall d :: d != c ==> t.At(d) == s.At(d);
    assert t.At(c).Notifying?;
  }

  lemma PanicKeeps(s: State, c: CallerId)
    requires Invariant(s) && s.At(c).Flying?
    ensures Invariant(Apply(s, Panics(c)))
  {
    var t := Apply(s, Panics(c));
    assert forall d :: d != c ==> t.At(d) == s.At(d);
    assert t.At(c).Notifying?;
  }

  lemma WakeKeeps(s: State, c: CallerId)
    requires Invariant(s) && s.At(c).Asleep?
    ensures Invariant(Apply(s, Wakes(c)))
  {
    var t := Apply(s, Wakes(c));
    assert forall d :: d != c ==> t.At(d) == s.At(d);
    var e :| s.At(e).Flying? || s.At(e).Notifying?;
    assert t.At(e) == s.At(e);
  }

  lemma NotifyKeeps(s: State, c: CallerId)
    requires Invariant(s) && s.At(c).Notifying?
    ensures Invariant(Notified(s, c))
  {
    var t := Notified(s, c);
    forall d ensures d != c ==>
      t.At(d) == if s.At(d).Asleep? then Awake(s.At(d).needed, s.At(d).launches, s.At(d).landings) else s.At(d) {
    }
    if s.flights.InFlight() {
      var pilot :| s.At(pilot).Flying?;
      assert t.At(pilot) == s.At(pilot);
    }
    assert forall d :: !t.At(d).Asleep?;
  }

  lemma StepKeeps(s: State, step: Step)
    requires Invariant(s) && Enabled(s, step)
    ensures Invariant(Apply(s, step))
  {
    match step {
      case Arrives(c) => TurnKeeps(s, c, s.flights.launched + 1, s.launches, s.landings);
      case Checks(c) => TurnKeeps(s, c, s.At(c).needed, s.At(c).launches, s.At(c).landings);
      case Lands(c) => LandKeeps(s, c);
      case Panics(c) => PanicKeeps(s, c);
      case Notifies(c) => NotifyKeeps(s, c);
      case Wakes(c) => WakeKeeps(s, c);
    }
  }

  lemma {:induction false} RunKeeps(states: seq<State>, steps: seq<Step>, i: nat)
    requires Run(states, steps) && i <= |steps|
    ensures Invariant(states[i])
  {
    if i > 0 {
      RunKeeps(states, steps, i - 1);
      StepKeeps(states[i - 1], steps[i - 1]);
    }
  }

  // ----- what that means for callers

  /** At every moment at most one flight is in the air, and tickets run at most one ahead of the landings. */
  lemma OneFlightInTheAir(states: seq<State>, steps: seq<Step>, i: nat, c: CallerId, d: CallerId)
    requires Run(states, steps) && i <= |steps|
    ensures states[i].flights.LandedTicket() <= states[i].flights.launched <= states[i].flights.LandedTicket() + 1
    ensures states[i].At(c).Flying? && states[i].At(d).Flying? ==> c == d
    ensures states[i].At(c).Flying? ==>
              states[i].flights.InFlight() && states[i].At(c).ticket == states[i].flights.launched
  {
    RunKeeps(states, steps, i);
  }

  /** The call of `board` by `c` that step `i` begins is still the latest one in state `j`. */
  ghost predicate SameCall(steps: seq<Step>, c: CallerId, i: nat, j: nat)
  {
    i < j <= |steps| && steps[i] == Arrives(c) && forall k :: i < k < j ==> steps[k] != Arrives(c)
  }

  /** What a caller carries along is the ticket it was given on arrival and the counts of that moment. */
  predicate Remembers(caller: Caller, arrival: State)
  {
    match caller
    case Asleep(needed, launches, landings) =>
      needed == arrival.flights.launched + 1 && launches == arrival.launches && landings == arrival.landings
    case Awake(needed, launches, landings) =>
      needed == arrival.flights.launched + 1 && launches == arrival.launches && landings == arrival.landings
    case Flying(_, _, launches) => launches == arrival.launches
    case Notifying(_, launches) => launches == arrival.launches
    case Done(_, launches) => launches == arrival.launches
    case Away => false
    case Crashed => true
  }

  lemma StepRemembers(s: State, step: Step, c: CallerId, arrival: State)
    requires Enabled(s, step) && step != Arrives(c) && Remembers(s.At(c), arrival)
    ensures Remembers(Apply(s, step).At(c), arrival)
    ensures s.launches <= Apply(s, step).launches && s.landings <= Apply(s, step).landings
  {
    if step.c != c && !step.Notifies? {
      assert Apply(s, step).At(c) == s.At(c);
    }
  }

  lemma {:induction false} RemembersArrival(states: seq<State>, steps: seq<Step>, c: CallerId, i: nat, j: nat)
    requires Run(states, steps) && SameCall(steps, c, i, j)
    ensures states[i].launches <= states[j].launches && states[i].landings <= states[j].landings
    ensures Remembers(states[j].At(c), states[i])
    decreases j
  {
    if j > i + 1 {
      RemembersArrival(states, steps, c, i, j - 1);
      StepRemembers(states[j - 1], steps[j - 1], c, states[i]);
    }
  }

  /** The flight that was launched as number `n` took off at step `k`. */
  predicate TakesOff(states: seq<State>, k: nat, n: nat)
    requires k + 1 < |states|
  {
    states[k].launches < n == states[k + 1].launches
  }

  lemma {:induction false} LaunchedBetween(states: seq<State>, steps: seq<Step>, i: nat, j: nat, n: nat)
    returns (k: nat)
    requires Run(states, steps) && i <= j <= |steps| && states[i].launches < n <= states[j].launches
    ensures i <= k < j && TakesOff(states, k, n)
    decreases j
  {
    if states[j - 1].launches < n {
      k := j - 1;
    } else {
      k := LaunchedBetween(states, steps, i, j - 1, n);
    }
  }

  /**
   Freshness: over every interleaving of arrivals, landings, panics, notifications and spurious wake-ups, the
   value a call of `board` returns was brought back by a flight that took off after the call began, even
   though a panic hands the same ticket out again.
   */
  lemma ReturnsAFlightLaunchedAfterArrival(states: seq<State>, steps: seq<Step>, c: CallerId, i: nat, j: nat)
    returns (k: nat)
    requires Run(states, steps) && SameCall(steps, c, i, j) && states[j].At(c).Done?
    ensures i <= k < j && TakesOff(states, k, states[j].At(c).report.launch)
  {
    RunKeeps(states, steps, j);
    RemembersArrival(states, steps, c, i, j);
    k := LaunchedBetween(states, steps, i, j, states[j].At(c).report.launch);
  }

  /** Nobody is forgotten: while a caller sleeps, a flight is in the air or a wake-up is on its way. */
  lemma SleepersAreWatched(states: seq<State>, steps: seq<Step>, i: nat, c: CallerId) returns (d: CallerId)
    requires Run(states, steps) && i <= |steps| && states[i].At(c).Asleep?
    ensures states[i].At(d).Flying? || states[i].At(d).Notifying?
  {
    RunKeeps(states, steps, i);
    d :| states[i].At(d).Flying? || states[i].At(d).Notifying?;
  }

  /** Two landings after its arrival a caller may leave with a shared value, whatever panicked in between. */
  lemma TwoLandingsSuffice(states: seq<State>, steps: seq<Step>, c: CallerId, i: nat, j: nat)
    requires Run(states, steps) && SameCall(steps, c, i, j) && states[j].At(c).Boarding()
    requires states[j].landings >= states[i].landings + 2
    ensures Decide(states[j].flights, states[j].At(c).needed).Share?
  {
    RunKeeps(states, steps, j);
    RemembersArrival(states, steps, c, i, j);
  }

  /** One landing is not enough: a caller that arrives mid-flight does not take that flight's value. */
  lemma OneLandingMayNotSuffice(first: CallerId, late: CallerId) returns (states: seq<State>, steps: seq<Step>)
    requires first != late
    ensures Run(states, steps) && SameCall(steps, late, 1, 3) && |steps| == 3
    ensures states[3].landings == states[1].landings + 1
    ensures states[3].At(late).Asleep? && !Decide(states[3].flights, states[3].At(late).needed).Share?
  {
    steps := [Arrives(first), Arrives(late), Lands(first)];
    var s1 := Apply(Initial, Arrives(first));
    var s2 := Apply(s1, Arrives(late));
    var s3 := Apply(s2, Lands(first));
    states := [Initial, s1, s2, s3];
  }
}
