/** The native run loop over the control session. */
module ExperimentRuns {
  import opened Wrappers
  import opened ControlTransaction
  import opened ControlSession

  const SAMPLES_PER_INTERVAL: nat := 20
  const OBSERVATION_PERIOD_NANOSECONDS: nat := 500000

  /** The sample indices 0 .. n-1, in order. */
  function Indices(n: nat): seq<nat> {
    seq(n, i requires 0 <= i < n => i)
  }

  predicate AllReached(stations: Vector, terminal: real) {
    forall i :: 0 <= i < |stations| ==> terminal <= stations[i]
  }

  datatype Failure =
    | InitializationFailed | BackendFailed | GateTripped | AdvanceFailed | ObservationFailed
    | SafetyDurationElapsed | EventFailed | EventRefused | SynchronizationFailed | ConfirmRefused
    | TerminalNotCommitted | AlreadyTerminal

  datatype Summary = Summary(observations: nat, events: nat, synchronizations: nat, duration: real)

  datatype RunResult = Succeeded(summary: Summary, memory: Memory) | Stopped(failure: Failure)

  // ----- the native loop

  /** What the vehicle and its backend do: every part may fail at any ordinal or sample. */
  datatype Plant = Plant(
    backendConstructs: bool,
    attempts: nat -> Attempt,
    advances: nat -> bool,
    writes: nat -> bool,
    stations: nat -> Option<Vector>,
    synchronizes: nat -> bool)

  datatype Definition = Definition(maximumEvents: nat, terminalStation: Option<real>)

  predicate Reached(d: Definition, p: Plant, ordinal: nat) {
    d.terminalStation.Some? && p.stations(ordinal).Some? && AllReached(p.stations(ordinal).value, d.terminalStation.value)
  }

  /** The observations of events 0 .. n-1, as far as they were made. */
  ghost function Observed(p: Plant, n: nat): seq<Observation>
    requires forall k :: 0 <= k < n ==> p.attempts(k).observed.Some?
  {
    seq(n, k requires 0 <= k < n => p.attempts(k).observed.value)
  }

  /** Sample times the advancer accepts: strictly increasing from the accepted time to the stop. */
  ghost predicate AdmissibleTimes(times: seq<real>, from: real, stop: real) {
    && |times| == SAMPLES_PER_INTERVAL + 1 && times[0] == from && times[SAMPLES_PER_INTERVAL] == stop
    && forall i :: 0 < i < |times| ==> times[i - 1] < times[i]
  }

  /** The dense output times of one control interval: its ends bitwise, the rest on the nanosecond grid. */
  method FillSampleTimes(ordinal: nat, accepted: real, stop: real) returns (times: seq<real>)
    requires 1 <= ordinal && accepted == (ordinal - 1) as real * PERIOD && stop == ordinal as real * PERIOD
    ensures AdmissibleTimes(times, accepted, stop)
    ensures forall i :: 0 <= i < |times| ==>
              times[i] == (((ordinal - 1) * SAMPLES_PER_INTERVAL + i) * OBSERVATION_PERIOD_NANOSECONDS) as real
                          * 0.000000001
  {
    var buffer := new real[SAMPLES_PER_INTERVAL + 1];
    buffer[0] := accepted;
    var local := 1;
    while local <= SAMPLES_PER_INTERVAL
      invariant 1 <= local <= SAMPLES_PER_INTERVAL + 1 && buffer[0] == accepted
      invariant forall i :: 0 < i < local ==>
        buffer[i] == (((ordinal - 1) * SAMPLES_PER_INTERVAL + i) * OBSERVATION_PERIOD_NANOSECONDS) as real * 0.000000001
    {
      var sampleIndex := (ordinal - 1) * SAMPLES_PER_INTERVAL + local;
      buffer[local] := (sampleIndex * OBSERVATION_PERIOD_NANOSECONDS) as real * 0.000000001;
      local := local + 1;
    }
    buffer[SAMPLES_PER_INTERVAL] := stop;
    times := buffer[..];
  }

  /** Advances the accepted state to `stop`; a failure leaves it. */
  method AdvanceToWithDenseSamples(context: Context, stop: real, times: seq<real>, succeeds: bool) returns (ok: bool)
    requires AdmissibleTimes(times, context.time, stop)
    modifies context`time
    ensures ok == succeeds && context.time == if ok then stop else old(context.time)
  {
    ok := succeeds;
    if ok {
      context.time := stop;
    }
  }

  /** A successful run of n control intervals, from what the plant did. */
  ghost predicate RunIs(d: Definition, e: Equipment, p: Plant, start: Memory, s: Summary, m: Memory, visited: seq<nat>) {
    var n := s.events - 1;
    && 1 <= n <= d.maximumEvents
    && visited == Indices(SAMPLES_PER_INTERVAL * n + 1)
    && s.observations == SAMPLES_PER_INTERVAL * (s.events - 1) + 1
    && s.synchronizations == s.events - 2
    && s.duration == n as real * PERIOD
    && (forall k :: 1 <= k < n ==> !Reached(d, p, k))
    && (Reached(d, p, n) || (n == d.maximumEvents && d.terminalStation.None?))
    && (forall k :: 0 <= k <= n ==> p.attempts(k).observed.Some?)
    && Fold(e, start, Observed(p, n + 1)) == Some(m)
  }

  /** The loop's state between intervals: ready to advance to event `ordinal`. */
  ghost predicate Between(e: Equipment, p: Plant, start: Memory, s: State, ordinal: nat) {
    && s.phase == ReadyToAdvance && s.next == ordinal && 1 <= ordinal && s.time == (ordinal - 1) as real * PERIOD
    && (forall k :: 0 <= k < ordinal ==> p.attempts(k).observed.Some?)
    && Fold(e, start, Observed(p, ordinal)) == Some(Memory(s.controller, s.conditioner, s.held))
  }

  /** The state at boundary `ordinal` once its event has committed. */
  ghost predicate Extended(e: Equipment, p: Plant, start: Memory, s: State, ordinal: nat) {
    && s.next == ordinal + 1 && s.time == ordinal as real * PERIOD
    && (forall k :: 0 <= k < ordinal + 1 ==> p.attempts(k).observed.Some?)
    && Fold(e, start, Observed(p, ordinal + 1)) == Some(Memory(s.controller, s.conditioner, s.held))
  }

  lemma EventExtends(e: Equipment, p: Plant, start: Memory, s: State, ordinal: nat, kind: EventKind)
    requires Between(e, p, start, s.(time := (ordinal - 1) as real * PERIOD), ordinal) && !kind.Initialization?
    requires s.time == ordinal as real * PERIOD
    ensures var (s', o) := Step(e, s, Event(kind, p.attempts(ordinal)));
            if o.Committed? then
              o.time == ordinal as real * PERIOD && s'.phase == PhaseAfter(kind) && Extended(e, p, start, s', ordinal)
            else o.Failed? && EventFails(e, p, start, ordinal)
  {
    hide Transact;
    var o := Step(e, s, Event(kind, p.attempts(ordinal))).1;
    if o.Committed? {
      assert Observed(p, ordinal + 1)[..ordinal] == Observed(p, ordinal);
    }
  }

  lemma ConfirmContinues(e: Equipment, p: Plant, start: Memory, s: State, ordinal: nat)
    requires Extended(e, p, start, s, ordinal) && s.phase.SynchronizationRequired?
    ensures Step(e, s, Confirm) == (s.(phase := ReadyToAdvance), Done)
    ensures Between(e, p, start, s.(phase := ReadyToAdvance), ordinal + 1)
  {
    hide Transact, Fold, Observed;
  }

  /** Between intervals the gate is open, the clock on the grid and the due ordinal the loop's own. */
  lemma BetweenFacts(e: Equipment, p: Plant, start: Memory, s: State, ordinal: nat)
    requires Between(e, p, start, s, ordinal)
    ensures s.phase == ReadyToAdvance && s.next == ordinal && 1 <= ordinal && s.time == (ordinal - 1) as real * PERIOD
  {
  }

  lemma RunCompletes(d: Definition, e: Equipment, p: Plant, start: Memory, s: State, ordinal: nat, summary: Summary,
                     visited: seq<nat>)
    requires Extended(e, p, start, s, ordinal) && 1 <= ordinal <= d.maximumEvents
    requires Sampled(visited, ordinal + 1) && NoneReachedBefore(d, p, ordinal)
    requires summary == Summary(|visited|, ordinal + 1, ordinal - 1, ordinal as real * PERIOD)
    requires Reached(d, p, ordinal) || (ordinal == d.maximumEvents && d.terminalStation.None?)
    ensures RunIs(d, e, p, start, summary, Memory(s.controller, s.conditioner, s.held), visited)
  {
    hide Transact, Fold, Observed, Reached;
  }

  lemma FirstEvent(e: Equipment, p: Plant, s: State)
    requires s.phase.InitializationRequired? && s.time == 0.0 && Step(e, s, Event(Initialization, p.attempts(0))).1.Committed?
    ensures Between(e, p, Memory(s.controller, s.conditioner, s.held),
                    Step(e, Step(e, s, Event(Initialization, p.attempts(0))).0, Confirm).0, 1)
  {
    hide Transact;
    assert Observed(p, 1)[..0] == [];
    assert Fold(e, Memory(s.controller, s.conditioner, s.held), []) == Some(Memory(s.controller, s.conditioner, s.held));
  }

  /** Everything up to the interval before event `ordinal` is sampled once, in order. */
  ghost predicate Sampled(visited: seq<nat>, ordinal: nat) {
    1 <= ordinal && visited == Indices(SAMPLES_PER_INTERVAL * (ordinal - 1) + 1)
  }

  ghost predicate NoneReachedBefore(d: Definition, p: Plant, ordinal: nat) {
    forall k :: 1 <= k < ordinal ==> !Reached(d, p, k)
  }

  lemma StillNoneReached(d: Definition, p: Plant, ordinal: nat)
    requires NoneReachedBefore(d, p, ordinal) && !Reached(d, p, ordinal)
    ensures NoneReachedBefore(d, p, ordinal + 1)
  {
    hide Reached;
  }

  /** The twenty observations of one control interval, in order, until one cannot be written. */
  method ObserveInterval(p: Plant, ordinal: nat, before: seq<nat>, count: nat)
    returns (visited: seq<nat>, observations: nat, ok: bool)
    requires Sampled(before, ordinal) && count == |before|
    ensures ok ==> Sampled(visited, ordinal + 1) && observations == |visited|
    ensures !ok ==> exists i :: SAMPLES_PER_INTERVAL * (ordinal - 1) < i <= SAMPLES_PER_INTERVAL * ordinal && !p.writes(i)
  {
    visited, observations := before, count;
    var local := 1;
    while local <= SAMPLES_PER_INTERVAL
      invariant 1 <= local <= SAMPLES_PER_INTERVAL + 1
      invariant visited == Indices(SAMPLES_PER_INTERVAL * (ordinal - 1) + local) && observations == |visited|
    {
      var sampleIndex := (ordinal - 1) * SAMPLES_PER_INTERVAL + local;
      if !p.writes(sampleIndex) {
        return visited, observations, false;
      }
      visited, observations, local := visited + [sampleIndex], observations + 1, local + 1;
    }
    ok := true;
  }

  /** The event at boundary `k` fails, on the memory its predecessors left. */
  ghost predicate EventFails(e: Equipment, p: Plant, start: Memory, k: nat) {
    && (forall j :: 0 <= j < k ==> p.attempts(j).observed.Some?)
    && Fold(e, start, Observed(p, k)).Some?
    && var m := Fold(e, start, Observed(p, k)).value;
       !p.attempts(k).torquesAccepted || p.attempts(k).observed.None?
       || Transact(e, p.attempts(k).observed.value, m.controller, m.conditioner).None?
  }

  /** What must have failed for a run to stop: no failure is the loop's own. */
  ghost predicate CauseOf(d: Definition, e: Equipment, p: Plant, start: Memory, f: Failure) {
    match f
    case InitializationFailed => EventFails(e, p, start, 0)
    case BackendFailed => !p.backendConstructs
    case AdvanceFailed => exists k :: 1 <= k <= d.maximumEvents && !p.advances(k)
    case ObservationFailed =>
      || (exists i :: 0 <= i <= SAMPLES_PER_INTERVAL * d.maximumEvents && !p.writes(i))
      || (exists k :: 1 <= k <= d.maximumEvents && p.stations(k).None?)
    case EventFailed => exists k :: 1 <= k <= d.maximumEvents && EventFails(e, p, start, k)
    case SynchronizationFailed => exists k :: 1 <= k < d.maximumEvents && !p.synchronizes(k)
    case SafetyDurationElapsed =>
      d.terminalStation.Some? && forall k :: 1 <= k <= d.maximumEvents ==> !Reached(d, p, k)
    case TerminalNotCommitted => d.maximumEvents == 0
    case _ => false
  }

  lemma AdvanceCauses(d: Definition, e: Equipment, p: Plant, start: Memory, k: nat)
    requires 1 <= k <= d.maximumEvents && !p.advances(k)
    ensures CauseOf(d, e, p, start, AdvanceFailed)
  {
  }

  lemma WriteCauses(d: Definition, e: Equipment, p: Plant, start: Memory, k: nat)
    requires 1 <= k <= d.maximumEvents
    requires (exists i :: SAMPLES_PER_INTERVAL * (k - 1) < i <= SAMPLES_PER_INTERVAL * k && !p.writes(i)) || p.stations(k).None?
    ensures CauseOf(d, e, p, start, ObservationFailed)
  {
    if p.stations(k).Some? {
      var i :| SAMPLES_PER_INTERVAL * (k - 1) < i <= SAMPLES_PER_INTERVAL * k && !p.writes(i);
      assert 0 <= i <= SAMPLES_PER_INTERVAL * d.maximumEvents;
    }
  }

  lemma EventCauses(d: Definition, e: Equipment, p: Plant, start: Memory, k: nat)
    requires 1 <= k <= d.maximumEvents && EventFails(e, p, start, k)
    ensures CauseOf(d, e, p, start, EventFailed)
  {
    hide EventFails;
  }

  lemma SynchronizationCauses(d: Definition, e: Equipment, p: Plant, start: Memory, k: nat)
    requires 1 <= k < d.maximumEvents && !p.synchronizes(k)
    ensures CauseOf(d, e, p, start, SynchronizationFailed)
  {
  }

  lemma ElapsedCauses(d: Definition, e: Equipment, p: Plant, start: Memory)
    requires d.terminalStation.Some? && NoneReachedBefore(d, p, d.maximumEvents) && !Reached(d, p, d.maximumEvents)
    ensures CauseOf(d, e, p, start, SafetyDurationElapsed)
  {
    hide Reached;
  }

  lemma EarlyCauses(d: Definition, e: Equipment, p: Plant, start: Memory, s: State)
    requires start == Memory(s.controller, s.conditioner, s.held) && s.phase.InitializationRequired? && s.time == 0.0
    ensures Step(e, s, Event(Initialization, p.attempts(0))).1.Committed? || CauseOf(d, e, p, start, InitializationFailed)
    ensures !p.backendConstructs ==> CauseOf(d, e, p, start, BackendFailed)
    ensures !p.writes(0) ==> CauseOf(d, e, p, start, ObservationFailed)
    ensures d.maximumEvents == 0 ==> CauseOf(d, e, p, start, TerminalNotCommitted)
  {
    hide Transact;
    assert Observed(p, 0) == [];
    assert Fold(e, start, []) == Some(start);
  }

  /** How one control interval ended: with a failure, at its committed event, or at the terminal event. */
  datatype Interval = Broken(failure: Failure) | Boundary | AtTerminal(time: real)

  /** What holds when the event of boundary `ordinal` has committed. */
  ghost predicate IntervalIs(d: Definition, e: Equipment, p: Plant, start: Memory, s: State, ordinal: nat, i: Interval,
                             visited: seq<nat>) {
    match i
    case Broken(f) => CauseOf(d, e, p, start, f)
    case Boundary =>
      && Extended(e, p, start, s, ordinal) && s.phase.SynchronizationRequired? && Sampled(visited, ordinal + 1)
      && NoneReachedBefore(d, p, ordinal + 1) && ordinal < d.maximumEvents
    case AtTerminal(time) =>
      && Extended(e, p, start, s, ordinal) && time == ordinal as real * PERIOD && Sampled(visited, ordinal + 1)
      && (Reached(d, p, ordinal) || (ordinal == d.maximumEvents && d.terminalStation.None?))
  }

  /** One interval: the gate, twenty dense samples, the terminal test and the scheduled event. */
  method RunInterval(d: Definition, e: Equipment, p: Plant, ghost start: Memory, session: IrwGuidanceControlEventSession,
                     context: Context, ordinal: nat, before: seq<nat>, count: nat)
    returns (i: Interval, visited: seq<nat>, observations: nat)
    requires session.equipment == e && Between(e, p, start, session.With(context), ordinal) && ordinal <= d.maximumEvents
    requires Sampled(before, ordinal) && NoneReachedBefore(d, p, ordinal) && count == |before|
    modifies session, context
    ensures IntervalIs(d, e, p, start, session.With(context), ordinal, i, visited)
    ensures !i.Broken? ==> observations == |visited|
  {
    hide CauseOf, EventFails, Step, Fold, Observed, Reached, AdmissibleTimes, AllReached, Indices, Between, Extended,
         Transact, Sampled, NoneReachedBefore;
    visited, observations := before, count;
    BetweenFacts(e, p, start, session.With(context), ordinal);
    var ready := session.RequireReadyToAdvance();
    if !ready {
      return Broken(GateTripped), visited, observations;
    }
    var stop := session.nextPeriodicEventOrdinal as real * PERIOD;
    var times := FillSampleTimes(ordinal, context.time, stop);
    var advanced := AdvanceToWithDenseSamples(context, stop, times, p.advances(ordinal));
    if !advanced {
      AdvanceCauses(d, e, p, start, ordinal);
      return Broken(AdvanceFailed), visited, observations;
    }
    var written;
    visited, observations, written := ObserveInterval(p, ordinal, visited, observations);
    var stations := p.stations(ordinal);
    if !written || stations.None? {
      WriteCauses(d, e, p, start, ordinal);
      return Broken(ObservationFailed), visited, observations;
    }
    var reached := d.terminalStation.Some? && AllReached(stations.value, d.terminalStation.value);
    ReachedIs(d, p, ordinal);
    var elapsed := ordinal == d.maximumEvents;
    if elapsed && d.terminalStation.Some? && !reached {
      ElapsedCauses(d, e, p, start);
      return Broken(SafetyDurationElapsed), visited, observations;
    }
    var terminal := reached || elapsed;
    if !terminal {
      StillNoneReached(d, p, ordinal);
    }
    EventExtends(e, p, start, session.With(context), ordinal, if terminal then Terminal else Periodic);
    var outcome := session.ApplyScheduledUpdate(if terminal then Terminal else Periodic, context, p.attempts(ordinal));
    if !outcome.Committed? {
      EventCauses(d, e, p, start, ordinal);
      return Broken(if outcome.Failed? then EventFailed else EventRefused), visited, observations;
    }
    i := if terminal then AtTerminal(outcome.time) else Boundary;
  }

  /** Initialization, then control intervals of twenty samples until the terminal event. */
  method RunIrwGuidanceExperiment(d: Definition, e: Equipment, p: Plant, start: Memory)
    returns (r: RunResult, visited: seq<nat>)
    ensures r.Succeeded? ==> RunIs(d, e, p, start, r.summary, r.memory, visited)
    ensures r.Stopped? ==> CauseOf(d, e, p, start, r.failure)
  {
    hide CauseOf, EventFails, Step, Fold, Observed, Reached, Between, Extended, RunIs, Transact, Sampled, NoneReachedBefore;
    FirstIndices(d, p);
    visited := [];
    var context := new Context(0.0, start.torques);
    var session := new IrwGuidanceControlEventSession(e, start.controller, start.conditioner);
    ghost var initial := session.With(context);
    EarlyCauses(d, e, p, start, initial);
    var initialized := session.ApplyInitializationUpdate(context, p.attempts(0));
    var events, observations, synchronizations := 1, 0, 0;
    if !initialized.Committed? {
      return Stopped(InitializationFailed), visited;
    }
    if !p.backendConstructs {
      return Stopped(BackendFailed), visited;
    }
    FirstEvent(e, p, initial);
    ConfirmReady(e, session.With(context));
    var confirmed := session.ConfirmBackendSynchronized(context);
    if !p.writes(0) {
      return Stopped(ObservationFailed), visited;
    }
    visited, observations := [0], 1;

    var ordinal := 1;
    while ordinal <= d.maximumEvents
      invariant 1 <= ordinal <= d.maximumEvents + 1
      invariant Between(e, p, start, session.With(context), ordinal)
      invariant Sampled(visited, ordinal) && NoneReachedBefore(d, p, ordinal)
      invariant observations == |visited| && events == ordinal && synchronizations == ordinal - 1
      invariant session.equipment == e && fresh(session) && fresh(context)
      invariant ordinal == d.maximumEvents + 1 ==> d.maximumEvents == 0
    {
      var interval;
      interval, visited, observations := RunInterval(d, e, p, start, session, context, ordinal, visited, observations);
      if interval.Broken? {
        return Stopped(interval.failure), visited;
      }
      events := events + 1;
      if interval.AtTerminal? {
        RunCompletes(d, e, p, start, session.With(context), ordinal,
                     Summary(observations, events, synchronizations, interval.time), visited);
        var m := Memory(session.controllerState, session.conditionerMemory, context.held);
        return Succeeded(Summary(observations, events, synchronizations, interval.time), m), visited;
      }
      if !p.synchronizes(ordinal) {
        SynchronizationCauses(d, e, p, start, ordinal);
        return Stopped(SynchronizationFailed), visited;
      }
      ConfirmContinues(e, p, start, session.With(context), ordinal);
      confirmed := session.ConfirmBackendSynchronized(context);
      if !confirmed {
        return Stopped(ConfirmRefused), visited;
      }
      synchronizations := synchronizations + 1;
      ordinal := ordinal + 1;
    }
    r := Stopped(TerminalNotCommitted);
  }

  lemma FirstIndices(d: Definition, p: Plant)
    ensures Sampled([0], 1) && NoneReachedBefore(d, p, 1)
  {
  }

  lemma ConfirmReady(e: Equipment, s: State)
    ensures Step(e, s, Confirm) == if s.phase.SynchronizationRequired? then (s.(phase := ReadyToAdvance), Done)
                                   else (s, Refused)
  {
  }

  lemma ReachedIs(d: Definition, p: Plant, ordinal: nat)
    ensures p.stations(ordinal).Some? ==>
              (Reached(d, p, ordinal) <==>
               d.terminalStation.Some? && AllReached(p.stations(ordinal).value, d.terminalStation.value))
  {
  }
}
