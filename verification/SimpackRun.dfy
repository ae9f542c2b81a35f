/** The SIMPACK run loop: one-millisecond samples, a transaction every tenth, and no session object. */
module SimpackRun {
  import opened Wrappers
  import opened TorqueAllocation
  import opened ControlTransaction
  import opened ExperimentRuns

  const SAMPLES_PER_CONTROL: nat := 10

  /** The external instance: outputs before and after the initial inputs, then at every sample; any may fail. */
  datatype Instance = Instance(
    first: Option<Observation>,
    settled: Option<Observation>,
    sampled: nat -> Option<Observation>,
    advances: nat -> bool,
    writes: nat -> bool)

  /** The observation that event `k` acts on. */
  ghost function EventObservation(x: Instance, k: nat): Option<Observation> {
    if k == 0 then x.first else x.sampled(SAMPLES_PER_CONTROL * k)
  }

  ghost function EventObservations(x: Instance, n: nat): (r: seq<Observation>)
    requires forall k :: 0 <= k < n ==> EventObservation(x, k).Some?
  {
    seq(n, k requires 0 <= k < n => EventObservation(x, k).value)
  }

  /** The memory after events 0 .. n-1, when all were observed and computed. */
  ghost predicate Remembers(e: Equipment, x: Instance, start: Memory, m: Memory, n: nat) {
    && (forall k :: 0 <= k < n ==> EventObservation(x, k).Some?)
    && Fold(e, start, EventObservations(x, n)) == Some(m)
  }

  lemma RemembersNext(e: Equipment, x: Instance, start: Memory, m: Memory, n: nat)
    requires Remembers(e, x, start, m, n) && EventObservation(x, n).Some?
    ensures var t := Transact(e, EventObservation(x, n).value, m.controller, m.conditioner);
            t.Some? ==> Remembers(e, x, start, t.value, n + 1)
  {
    hide Transact;
    var more := EventObservations(x, n + 1);
    assert more[..n] == EventObservations(x, n);
  }

  lemma RemembersNothing(e: Equipment, x: Instance, start: Memory)
    ensures Remembers(e, x, start, start, 0)
  {
    assert EventObservations(x, 0) == [];
  }

  ghost predicate ReachedAt(x: Instance, terminal: real, k: nat) {
    x.sampled(SAMPLES_PER_CONTROL * k).Some? && AllReached(x.sampled(SAMPLES_PER_CONTROL * k).value.stations, terminal)
  }

  /** The torques of event `k`. */
  ghost predicate TorquesOf(e: Equipment, x: Instance, start: Memory, k: nat, torques: Channels) {
    exists m :: Remembers(e, x, start, m, k + 1) && m.torques == torques
  }

  /** The inputs set before sample `s` are the torques of the latest event before it; before the start, of the initial one. */
  ghost predicate Driven(x: Instance, e: Equipment, start: Memory, inputs: seq<Channels>) {
    forall s: nat :: s < |inputs| ==> TorquesOf(e, x, start, if s == 0 then 0 else (s - 1) / SAMPLES_PER_CONTROL, inputs[s])
  }

  /** A successful run of n control periods. */
  ghost predicate SimpackRunIs(x: Instance, e: Equipment, start: Memory, terminal: real, maximumSamples: nat,
                               s: Summary, m: Memory, visited: seq<nat>, inputs: seq<Channels>) {
    var n := s.events - 1;
    && 1 <= n && SAMPLES_PER_CONTROL * n <= maximumSamples
    && visited == Indices(SAMPLES_PER_CONTROL * n + 1)
    && s.observations == SAMPLES_PER_CONTROL * (s.events - 1) + 1
    && s.duration == (SAMPLES_PER_CONTROL * n) as real * 0.001
    && ReachedAt(x, terminal, n) && (forall k :: 1 <= k < n ==> !ReachedAt(x, terminal, k))
    && Remembers(e, x, start, m, s.events)
    && |inputs| == |visited| && Driven(x, e, start, inputs)
  }

  /** Between samples: everything sampled once, and the memory of every event so far. */
  ghost predicate Progress(x: Instance, e: Equipment, start: Memory, terminal: real, m: Memory, sample: nat,
                           visited: seq<nat>, observations: nat, events: nat) {
    && 1 <= sample && visited == Indices(sample) && observations == |visited|
    && events == (sample - 1) / SAMPLES_PER_CONTROL + 1
    && Remembers(e, x, start, m, events)
    && forall k :: 1 <= k < events ==> !ReachedAt(x, terminal, k)
  }

  lemma OffControl(x: Instance, e: Equipment, start: Memory, terminal: real, m: Memory, sample: nat,
                   visited: seq<nat>, observations: nat, events: nat)
    requires Progress(x, e, start, terminal, m, sample, visited, observations, events)
    requires sample % SAMPLES_PER_CONTROL != 0
    ensures Progress(x, e, start, terminal, m, sample + 1, visited + [sample], observations + 1, events)
  {
    hide Remembers, ReachedAt;
  }

  lemma OnControl(x: Instance, e: Equipment, start: Memory, terminal: real, m: Memory, sample: nat,
                  visited: seq<nat>, observations: nat, events: nat)
    requires Progress(x, e, start, terminal, m, sample, visited, observations, events)
    requires sample % SAMPLES_PER_CONTROL == 0 && x.sampled(sample).Some?
    ensures SAMPLES_PER_CONTROL * events == sample
    ensures var t := Transact(e, x.sampled(sample).value, m.controller, m.conditioner);
            t.Some? ==>
              && Remembers(e, x, start, t.value, events + 1)
              && (!ReachedAt(x, terminal, events) ==>
                    Progress(x, e, start, terminal, t.value, sample + 1, visited + [sample], observations + 1, events + 1))
  {
    assert SAMPLES_PER_CONTROL * events == sample;
    hide Remembers, ReachedAt, Transact;
    RemembersNext(e, x, start, m, events);
  }

  /** The transaction of period `k` fails, on the memory its predecessors left. */
  ghost predicate TransactionFails(x: Instance, e: Equipment, start: Memory, k: nat) {
    && x.sampled(SAMPLES_PER_CONTROL * k).Some?
    && exists m :: Remembers(e, x, start, m, k)
         && Transact(e, x.sampled(SAMPLES_PER_CONTROL * k).value, m.controller, m.conditioner).None?
  }

  ghost predicate NoneReached(x: Instance, terminal: real, maximumSamples: nat) {
    forall k :: 1 <= k && SAMPLES_PER_CONTROL * k <= maximumSamples ==> !ReachedAt(x, terminal, k)
  }

  /** What must have happened for a run to stop. */
  ghost predicate CauseOf(x: Instance, e: Equipment, start: Memory, terminal: real, maximumSamples: nat, f: Failure) {
    match f
    case InitializationFailed => x.first.Some? && Transact(e, x.first.value, start.controller, start.conditioner).None?
    case AlreadyTerminal => x.settled.Some? && AllReached(x.settled.value.stations, terminal)
    case AdvanceFailed => exists i :: 1 <= i <= maximumSamples && !x.advances(i)
    case ObservationFailed =>
      || x.first.None? || x.settled.None?
      || (exists i :: 0 <= i <= maximumSamples && !x.writes(i))
      || (exists i :: 1 <= i <= maximumSamples && x.sampled(i).None?)
    case EventFailed =>
      exists k :: 1 <= k && SAMPLES_PER_CONTROL * k <= maximumSamples && TransactionFails(x, e, start, k)
    case SafetyDurationElapsed => NoneReached(x, terminal, maximumSamples)
    case _ => false
  }

  lemma SampleCauses(x: Instance, e: Equipment, start: Memory, terminal: real, maximumSamples: nat, i: nat)
    requires 1 <= i <= maximumSamples
    ensures !x.advances(i) ==> CauseOf(x, e, start, terminal, maximumSamples, AdvanceFailed)
    ensures !x.writes(i) || x.sampled(i).None? ==> CauseOf(x, e, start, terminal, maximumSamples, ObservationFailed)
  {
  }

  lemma EarlyCauses(x: Instance, e: Equipment, start: Memory, terminal: real, maximumSamples: nat)
    ensures x.first.None? || x.settled.None? || !x.writes(0) ==> CauseOf(x, e, start, terminal, maximumSamples, ObservationFailed)
    ensures x.first.Some? && Transact(e, x.first.value, start.controller, start.conditioner).None? ==>
              CauseOf(x, e, start, terminal, maximumSamples, InitializationFailed)
    ensures x.settled.Some? && AllReached(x.settled.value.stations, terminal) ==>
              CauseOf(x, e, start, terminal, maximumSamples, AlreadyTerminal)
    ensures NoneReached(x, terminal, maximumSamples) ==> CauseOf(x, e, start, terminal, maximumSamples, SafetyDurationElapsed)
  {
  }

  lemma EventCauses(x: Instance, e: Equipment, start: Memory, terminal: real, maximumSamples: nat, m: Memory, k: nat)
    requires 1 <= k && SAMPLES_PER_CONTROL * k <= maximumSamples && x.sampled(SAMPLES_PER_CONTROL * k).Some?
    requires Remembers(e, x, start, m, k)
    requires Transact(e, x.sampled(SAMPLES_PER_CONTROL * k).value, m.controller, m.conditioner).None?
    ensures CauseOf(x, e, start, terminal, maximumSamples, EventFailed)
  {
    hide Remembers, Transact;
    assert TransactionFails(x, e, start, k);
  }

  lemma ProgressRemembers(x: Instance, e: Equipment, start: Memory, terminal: real, m: Memory, sample: nat,
                          visited: seq<nat>, observations: nat, events: nat)
    requires Progress(x, e, start, terminal, m, sample, visited, observations, events)
    ensures 1 <= events == (sample - 1) / SAMPLES_PER_CONTROL + 1 && Remembers(e, x, start, m, events)
  {
    hide Remembers, ReachedAt;
  }

  /** The run: initial transaction and inputs, then samples until every axle is past the terminal station. */
  method RunSimpackRealtime(x: Instance, e: Equipment, start: Memory, terminal: real, maximumSamples: nat)
    returns (r: RunResult, visited: seq<nat>, inputs: seq<Channels>)
    ensures r.Succeeded? ==> SimpackRunIs(x, e, start, terminal, maximumSamples, r.summary, r.memory, visited, inputs)
    ensures r.Stopped? ==> CauseOf(x, e, start, terminal, maximumSamples, r.failure)
  {
    hide Remembers, ReachedAt, Transact, Progress, AllReached, CauseOf, NoneReached, Driven;
    EarlyCauses(x, e, start, terminal, maximumSamples);
    visited, inputs := [], [];
    var observation := x.first;
    if observation.None? {
      return Stopped(ObservationFailed), visited, inputs;
    }
    var transaction := ComputeTransaction(e, observation.value, start.controller, start.conditioner);
    if transaction.None? {
      return Stopped(InitializationFailed), visited, inputs;
    }
    RemembersNothing(e, x, start);
    RemembersNext(e, x, start, start, 0);
    var held := transaction.value.torques;
    inputs := [held];
    FirstDriven(x, e, start, transaction.value);
    observation := x.settled;
    if observation.None? || !x.writes(0) {
      return Stopped(ObservationFailed), visited, inputs;
    }
    visited := [0];
    var observations, events, duration := 1, 1, 0.0;
    var controller, conditioner := transaction.value.controller, transaction.value.conditioner;
    if AllReached(observation.value.stations, terminal) {
      return Stopped(AlreadyTerminal), visited, inputs;
    }
    FirstProgress(x, e, start, terminal, transaction.value);
    var sample := 1;
    while sample <= maximumSamples
      invariant 1 <= sample <= maximumSamples + 1
      invariant Progress(x, e, start, terminal, Memory(controller, conditioner, held), sample, visited, observations, events)
      invariant |inputs| == sample && Driven(x, e, start, inputs)
    {
      ProgressRemembers(x, e, start, terminal, Memory(controller, conditioner, held), sample, visited, observations, events);
      MoreDriven(x, e, start, inputs, Memory(controller, conditioner, held), events);
      inputs := inputs + [held];
      SampleCauses(x, e, start, terminal, maximumSamples, sample);
      if !x.advances(sample) {
        return Stopped(AdvanceFailed), visited, inputs;
      }
      observation := x.sampled(sample);
      if observation.None? || !x.writes(sample) {
        return Stopped(ObservationFailed), visited, inputs;
      }
      ghost var seen, count := visited, observations;
      visited, observations := visited + [sample], observations + 1;
      duration := sample as real * 0.001;
      if sample % SAMPLES_PER_CONTROL != 0 {
        OffControl(x, e, start, terminal, Memory(controller, conditioner, held), sample, seen, count, events);
        sample := sample + 1;
        continue;
      }
      var complete := AllReached(observation.value.stations, terminal);
      transaction := ComputeTransaction(e, observation.value, controller, conditioner);
      OnControl(x, e, start, terminal, Memory(controller, conditioner, held), sample, seen, count, events);
      if transaction.None? {
        EventCauses(x, e, start, terminal, maximumSamples, Memory(controller, conditioner, held), events);
        return Stopped(EventFailed), visited, inputs;
      }
      ReachedIs(x, terminal, events);
      held := transaction.value.torques;
      controller, conditioner := transaction.value.controller, transaction.value.conditioner;
      if complete {
        RunCompletes(x, e, start, terminal, maximumSamples, transaction.value, sample, seen, count, events, inputs);
        return Succeeded(Summary(observations, events + 1, 0, duration), transaction.value), visited, inputs;
      }
      events := events + 1;
      sample := sample + 1;
    }
    NeverReached(x, e, start, terminal, Memory(controller, conditioner, held), maximumSamples, visited, observations,
                 events);
    r := Stopped(SafetyDurationElapsed);
  }

  lemma FirstDriven(x: Instance, e: Equipment, start: Memory, m: Memory)
    requires Remembers(e, x, start, m, 1)
    ensures Driven(x, e, start, [m.torques])
  {
    hide Remembers;
  }

  /** Between events the latest event's torques are set again. */
  lemma MoreDriven(x: Instance, e: Equipment, start: Memory, inputs: seq<Channels>, m: Memory, events: nat)
    requires Driven(x, e, start, inputs) && inputs != [] && events == (|inputs| - 1) / SAMPLES_PER_CONTROL + 1
    requires Remembers(e, x, start, m, events)
    ensures Driven(x, e, start, inputs + [m.torques])
  {
    hide Remembers;
    assert TorquesOf(e, x, start, (|inputs| - 1) / SAMPLES_PER_CONTROL, m.torques);
    hide TorquesOf;
  }

  lemma FirstProgress(x: Instance, e: Equipment, start: Memory, terminal: real, m: Memory)
    requires Remembers(e, x, start, m, 1)
    ensures Progress(x, e, start, terminal, m, 1, [0], 1, 1)
  {
  }

  lemma ReachedIs(x: Instance, terminal: real, k: nat)
    requires x.sampled(SAMPLES_PER_CONTROL * k).Some?
    ensures ReachedAt(x, terminal, k) <==> AllReached(x.sampled(SAMPLES_PER_CONTROL * k).value.stations, terminal)
  {
  }

  lemma RunCompletes(x: Instance, e: Equipment, start: Memory, terminal: real, maximumSamples: nat, m: Memory,
                     sample: nat, visited: seq<nat>, observations: nat, events: nat, inputs: seq<Channels>)
    requires |inputs| == sample + 1 && Driven(x, e, start, inputs)
    requires exists before :: Progress(x, e, start, terminal, before, sample, visited, observations, events)
    requires sample == SAMPLES_PER_CONTROL * events <= maximumSamples && ReachedAt(x, terminal, events)
    requires Remembers(e, x, start, m, events + 1)
    ensures SimpackRunIs(x, e, start, terminal, maximumSamples,
                         Summary(observations + 1, events + 1, 0, sample as real * 0.001), m, visited + [sample], inputs)
  {
    hide Remembers, ReachedAt, Driven;
  }

  lemma NeverReached(x: Instance, e: Equipment, start: Memory, terminal: real, m: Memory, maximumSamples: nat,
                     visited: seq<nat>, observations: nat, events: nat)
    requires Progress(x, e, start, terminal, m, maximumSamples + 1, visited, observations, events)
    ensures NoneReached(x, terminal, maximumSamples)
  {
    hide Remembers, ReachedAt;
  }

  /** Both loops leave the same memory wherever their events acted on the same observations. */
  lemma LoopsAgree(d: Definition, p: Plant, x: Instance, e: Equipment, start: Memory, terminal: real, maximumSamples: nat,
                   native: Summary, m: Memory, visited: seq<nat>, simpack: Summary, m': Memory, visited': seq<nat>,
                   inputs: seq<Channels>)
    requires RunIs(d, e, p, start, native, m, visited)
    requires SimpackRunIs(x, e, start, terminal, maximumSamples, simpack, m', visited', inputs)
    requires native.events == simpack.events
    requires forall k :: 0 <= k < native.events ==> p.attempts(k).observed == EventObservation(x, k)
    ensures m == m'
  {
    hide Driven;
    assert Observed(p, native.events) == EventObservations(x, native.events);
  }
}
