/** The five-phase control-event session: atomic commits, retries and the advance gate. */
module ControlSession {
  import opened Wrappers
  import opened TorqueAllocation
  import opened ControlTransaction

  const PERIOD: real := 0.01

  datatype Phase =
    | InitializationRequired | PeriodicEventRequired | SynchronizationRequired | ReadyToAdvance
    | TerminalEventCommitted

  datatype EventKind = Initialization | Periodic | Terminal

  /** The session's memories, beside the accepted context's time and held torques. */
  datatype State = State(
    phase: Phase, controller: Vector, conditioner: Channels, next: nat, time: real, held: Channels)

  /** What the outside does to one attempt: the observation may fail, and so may setting the torques. */
  datatype Attempt = Attempt(observed: Option<Observation>, torquesAccepted: bool)

  /** A client's calls. Advancing asks the gate first, and then may leave any accepted time. */
  datatype Call = Event(kind: EventKind, attempt: Attempt) | Confirm | Advance(to: real)

  datatype Outcome =
    | Committed(kind: EventKind, ordinal: nat, time: real, observation: Observation)
    | Refused      // the phase or the time does not admit the call
    | Failed       // observation, calculation or torque set failed
    | Done

  function Candidate(e: Equipment, s: State, a: Attempt): Option<Memory> {
    if a.observed.None? then None
    else Transact(e, a.observed.value, s.controller, s.conditioner)
  }

  function DueTime(s: State): real { s.next as real * PERIOD }

  predicate Admits(s: State, kind: EventKind) {
    if kind.Initialization? then s.phase.InitializationRequired? && s.time == 0.0
    else (s.phase.PeriodicEventRequired? || s.phase.ReadyToAdvance?) && s.time == DueTime(s)
  }

  function PhaseAfter(kind: EventKind): Phase {
    if kind.Terminal? then TerminalEventCommitted else SynchronizationRequired
  }

  /** One call. Only a complete candidate with accepted torques changes any memory. */
  function Step(e: Equipment, s: State, c: Call): (State, Outcome) {
    match c
    case Confirm =>
      if s.phase.SynchronizationRequired? then (s.(phase := ReadyToAdvance), Done) else (s, Refused)
    case Advance(to) =>
      if s.phase.ReadyToAdvance? then (s.(time := to), Done) else (s, Refused)
    case Event(kind, attempt) =>
      if !Admits(s, kind) then (s, Refused)
      else
        var due := if kind.Initialization? then s else s.(phase := PeriodicEventRequired);
        var candidate := Candidate(e, s, attempt);
        if candidate.None? || !attempt.torquesAccepted then (due, Failed)
        else
          var m := candidate.value;
          var ordinal := if kind.Initialization? then 0 else s.next;
          (State(PhaseAfter(kind), m.controller, m.conditioner, ordinal + 1, s.time, m.torques),
           Committed(kind, ordinal, s.time, attempt.observed.value))
  }

  function After(e: Equipment, s: State, calls: seq<Call>): State {
    if calls == [] then s else Step(e, After(e, s, calls[..|calls| - 1]), calls[|calls| - 1]).0
  }

  /** The committed events, oldest first. */
  function Commits(e: Equipment, s: State, calls: seq<Call>): seq<Outcome> {
    if calls == [] then []
    else
      var o := Step(e, After(e, s, calls[..|calls| - 1]), calls[|calls| - 1]).1;
      Commits(e, s, calls[..|calls| - 1]) + (if o.Committed? then [o] else [])
  }

  ghost predicate AllCommitted(commits: seq<Outcome>) {
    forall k :: 0 <= k < |commits| ==> commits[k].Committed?
  }

  function Observations(commits: seq<Outcome>): (r: seq<Observation>)
    requires forall k :: 0 <= k < |commits| ==> commits[k].Committed?
    ensures |r| == |commits|
  {
    if commits == [] then []
    else Observations(commits[..|commits| - 1]) + [commits[|commits| - 1].observation]
  }

  // ----- every history

  /** Ordinals count the commits, each on its own grid time; the first initializes and only the last may be terminal. */
  ghost predicate OnGrid(commits: seq<Outcome>) {
    && AllCommitted(commits)
    && forall k :: 0 <= k < |commits| ==>
         && commits[k].ordinal == k && commits[k].time == k as real * PERIOD
         && (commits[k].kind.Initialization? <==> k == 0)
         && (commits[k].kind.Terminal? ==> k == |commits| - 1)
  }

  ghost predicate SessionInv(e: Equipment, start: State, s: State, commits: seq<Outcome>) {
    && OnGrid(commits)
    && Fold(e, Memory(start.controller, start.conditioner, start.held), Observations(commits))
       == Some(Memory(s.controller, s.conditioner, s.held))
    && s.next == |commits|
    && (s.phase.InitializationRequired? <==> commits == [])
    && (s.phase.TerminalEventCommitted? <==> commits != [] && commits[|commits| - 1].kind.Terminal?)
  }

  lemma CommitKeeps(e: Equipment, start: State, s: State, commits: seq<Outcome>, s': State, o: Outcome)
    requires SessionInv(e, start, s, commits) && !s.phase.TerminalEventCommitted? && o.Committed?
    requires o.ordinal == |commits| && o.time == |commits| as real * PERIOD
    requires o.kind.Initialization? <==> commits == []
    requires Transact(e, o.observation, s.controller, s.conditioner) == Some(Memory(s'.controller, s'.conditioner, s'.held))
    requires s'.next == |commits| + 1 && s'.phase == PhaseAfter(o.kind)
    ensures SessionInv(e, start, s', commits + [o])
  {
    hide Transact;
    var longer := commits + [o];
    assert longer[..|longer| - 1] == commits;
    assert Observations(longer) == Observations(commits) + [o.observation];
    assert Observations(longer)[..|commits|] == Observations(commits);
  }

  lemma StepKeeps(e: Equipment, start: State, s: State, commits: seq<Outcome>, c: Call)
    requires SessionInv(e, start, s, commits)
    ensures var (s', o) := Step(e, s, c);
            SessionInv(e, start, s', commits + if o.Committed? then [o] else [])
  {
    hide Transact, Fold, OnGrid;
    var (s', o) := Step(e, s, c);
    if o.Committed? {
      CommitKeeps(e, start, s, commits, s', o);
    } else {
      assert commits + [] == commits;
    }
  }

  /**
   * Whatever fails or is retried, the memories and held torques are the fold of the transaction over exactly
   * the committed events, and event k commits once, at k periods.
   */
  lemma {:induction false} HistoryIsFold(e: Equipment, start: State, calls: seq<Call>)
    requires start.phase.InitializationRequired? && start.next == 0
    ensures AllCommitted(Commits(e, start, calls))
    ensures SessionInv(e, start, After(e, start, calls), Commits(e, start, calls))
  {
    if calls != [] {
      var init := calls[..|calls| - 1];
      HistoryIsFold(e, start, init);
      StepKeeps(e, start, After(e, start, init), Commits(e, start, init), calls[|calls| - 1]);
    }
  }

  /** A failed event changes no memory, torque, time or ordinal, and leaves its own boundary due. */
  lemma FailureChangesNothing(e: Equipment, s: State, c: Call)
    requires Step(e, s, c).1.Failed? || Step(e, s, c).1.Refused?
    ensures var s' := Step(e, s, c).0;
            && s' == s.(phase := s'.phase)
            && (Step(e, s, c).1.Refused? ==> s' == s)
            && (Step(e, s, c).1.Failed? ==>
                  && c.Event?
                  && s'.phase == (if c.kind.Initialization? then InitializationRequired else PeriodicEventRequired)
                  && Admits(s', c.kind))
  {
  }

  /** Until the due event commits, no call advances or confirms; only its commit moves on. */
  lemma {:induction false} DueEventBlocks(e: Equipment, s: State, calls: seq<Call>)
    requires s.phase.InitializationRequired? || s.phase.PeriodicEventRequired?
    requires Commits(e, s, calls) == []
    ensures After(e, s, calls) == s
    ensures forall i :: 0 <= i < |calls| && !calls[i].Event? ==> Step(e, After(e, s, calls[..i]), calls[i]).1.Refused?
  {
    if calls != [] {
      var init := calls[..|calls| - 1];
      assert Commits(e, s, init) == [];
      DueEventBlocks(e, s, init);
      forall i | 0 <= i < |calls| && !calls[i].Event?
        ensures Step(e, After(e, s, calls[..i]), calls[i]).1.Refused?
      {
        if i < |calls| - 1 {
          assert init[..i] == calls[..i];
        }
      }
    }
  }

  /** After the terminal event nothing commits, confirms or advances. */
  lemma {:induction false} TerminalIsFinal(e: Equipment, s: State, calls: seq<Call>)
    requires s.phase.TerminalEventCommitted?
    ensures After(e, s, calls) == s && Commits(e, s, calls) == []
  {
    if calls != [] {
      TerminalIsFinal(e, s, calls[..|calls| - 1]);
    }
  }

  function OutcomeAt(e: Equipment, s: State, calls: seq<Call>, k: nat): Outcome
    requires k < |calls|
  {
    Step(e, After(e, s, calls[..k]), calls[k]).1
  }

  /** Call `k` confirmed a synchronization, and no event was committed or failed since. */
  ghost predicate ConfirmedLast(e: Equipment, s: State, calls: seq<Call>, k: nat) {
    && k < |calls| && calls[k].Confirm? && OutcomeAt(e, s, calls, k).Done?
    && forall j :: k < j < |calls| ==> !OutcomeAt(e, s, calls, j).Committed? && !OutcomeAt(e, s, calls, j).Failed?
  }

  lemma OutcomesBefore(e: Equipment, s: State, calls: seq<Call>)
    requires calls != []
    ensures forall j :: 0 <= j < |calls| - 1 ==> OutcomeAt(e, s, calls[..|calls| - 1], j) == OutcomeAt(e, s, calls, j)
  {
    hide Step, After;
    forall j | 0 <= j < |calls| - 1 ensures OutcomeAt(e, s, calls[..|calls| - 1], j) == OutcomeAt(e, s, calls, j) {
      assert calls[..|calls| - 1][..j] == calls[..j];
    }
  }

  /** In every history of a session the gate is open exactly when its last effective call was a confirmation. */
  lemma {:induction false} GateIsExact(e: Equipment, s: State, calls: seq<Call>, to: real)
    requires s.phase.InitializationRequired?
    ensures Step(e, After(e, s, calls), Advance(to)).1.Done? <==> exists k: nat :: ConfirmedLast(e, s, calls, k)
  {
    hide Transact;
    if calls != [] {
      var init, last := calls[..|calls| - 1], |calls| - 1;
      GateIsExact(e, s, init, to);
      ConfirmedStep(e, s, calls);
      GateMoves(e, After(e, s, init), calls[last], to);
      hide Step, ConfirmedLast;
    }
  }

  lemma ConfirmedStep(e: Equipment, s: State, calls: seq<Call>)
    requires calls != []
    ensures var init, last := calls[..|calls| - 1], |calls| - 1;
            var o := OutcomeAt(e, s, calls, last);
            (exists k: nat :: ConfirmedLast(e, s, calls, k)) <==>
            (calls[last].Confirm? && o.Done?)
            || (!o.Committed? && !o.Failed? && exists k: nat :: ConfirmedLast(e, s, init, k))
  {
    hide OutcomeAt, Step, After;
    OutcomesBefore(e, s, calls);
    var init, last := calls[..|calls| - 1], |calls| - 1;
    var o := OutcomeAt(e, s, calls, last);
    forall k: nat | k < last
      ensures ConfirmedLast(e, s, calls, k) <==> ConfirmedLast(e, s, init, k) && !o.Committed? && !o.Failed?
    {
      if ConfirmedLast(e, s, calls, k) {
        forall j | k < j < last ensures !OutcomeAt(e, s, init, j).Committed? && !OutcomeAt(e, s, init, j).Failed? {
          assert OutcomeAt(e, s, init, j) == OutcomeAt(e, s, calls, j);
        }
        assert OutcomeAt(e, s, init, k) == OutcomeAt(e, s, calls, k);
      }
    }
    assert ConfirmedLast(e, s, calls, last) <==> calls[last].Confirm? && o.Done?;
  }

  /** One call: the gate opens by a confirmation, closes by an event, and else stays. */
  lemma GateMoves(e: Equipment, s: State, c: Call, to: real)
    ensures var (s', o) := Step(e, s, c);
            Step(e, s', Advance(to)).1.Done? <==>
            (c.Confirm? && o.Done?) || (Step(e, s, Advance(to)).1.Done? && !o.Committed? && !o.Failed?)
  {
    hide Transact;
  }

  /** An event commits exactly when its phase and time admit it, the observation arrives, the transaction succeeds and the torques are taken. */
  lemma CommitsIff(e: Equipment, s: State, kind: EventKind, attempt: Attempt)
    ensures Step(e, s, Event(kind, attempt)).1.Committed? <==>
            && (if kind.Initialization? then s.phase == InitializationRequired && s.time == 0.0
                else s.phase in {PeriodicEventRequired, ReadyToAdvance} && s.time == s.next as real * PERIOD)
            && attempt.observed.Some? && attempt.torquesAccepted
            && Transact(e, attempt.observed.value, s.controller, s.conditioner).Some?
  {
    hide Transact;
  }

  /** A failed event commits when it is tried again and nothing fails. */
  lemma RetryCommits(e: Equipment, s: State, kind: EventKind, failed: Attempt, again: Attempt)
    requires Step(e, s, Event(kind, failed)).1.Failed?
    requires again.observed.Some? && again.torquesAccepted
    requires Transact(e, again.observed.value, s.controller, s.conditioner).Some?
    ensures Step(e, Step(e, s, Event(kind, failed)).0, Event(kind, again)).1.Committed?
  {
    hide Transact;
  }

  // ----- a session that never fails

  /** The calls that commit the observations in turn: each event, its confirmation and the advance to the next. */
  function Plan(observations: seq<Observation>, last: EventKind): seq<Call> {
    if observations == [] then []
    else
      var n := |observations| - 1;
      var attempt := Attempt(Some(observations[n]), true);
      if n == 0 then [Event(Initialization, attempt)]
      else Plan(observations[..n], Periodic) + [Confirm, Advance(n as real * PERIOD), Event(last, attempt)]
  }

  lemma {:induction false} AfterMore(e: Equipment, s: State, calls: seq<Call>, more: seq<Call>)
    ensures After(e, s, calls + more) == After(e, After(e, s, calls), more)
    ensures Commits(e, s, calls + more) == Commits(e, s, calls) + Commits(e, After(e, s, calls), more)
  {
    hide Step;
    if more == [] {
      assert calls + more == calls;
    } else {
      var n := |more| - 1;
      assert (calls + more)[..|calls + more| - 1] == calls + more[..n];
      AfterMore(e, s, calls, more[..n]);
    }
  }

  /** The committed observations, and where the session then stands. */
  ghost predicate Stands(e: Equipment, s: State, t: State, commits: seq<Outcome>, observations: seq<Observation>, last: EventKind) {
    && AllCommitted(commits) && Observations(commits) == observations
    && Fold(e, Memory(s.controller, s.conditioner, s.held), observations) == Some(Memory(t.controller, t.conditioner, t.held))
    && t.next == |observations| && t.phase == (if |observations| == 1 then SynchronizationRequired else PhaseAfter(last))
  }

  lemma PlannedEvent(e: Equipment, s: State, t: State, commits: seq<Outcome>, observations: seq<Observation>, last: EventKind)
    requires |observations| > 1 && !last.Initialization?
    requires var n := |observations| - 1; Stands(e, s, t, commits, observations[..n], Periodic)
    requires Fold(e, Memory(s.controller, s.conditioner, s.held), observations).Some?
    ensures var n := |observations| - 1;
            var calls := [Confirm, Advance(n as real * PERIOD), Event(last, Attempt(Some(observations[n]), true))];
            Stands(e, s, After(e, t, calls), commits + Commits(e, t, calls), observations, last)
  {
    hide Transact, Fold;
    var n := |observations| - 1;
    var o := observations[n];
    var commit := Event(last, Attempt(Some(o), true));
    FoldMore(e, Memory(s.controller, s.conditioner, s.held), observations);
    ThreeCalls(e, t, Confirm, Advance(n as real * PERIOD), commit);
    var ready := t.(phase := ReadyToAdvance, time := n as real * PERIOD);
    var committed := Step(e, ready, commit).1;
    assert committed.Committed? && committed.observation == o;
    hide Step;
    assert (commits + [committed])[..|commits|] == commits;
    assert Observations(commits + [committed]) == Observations(commits) + [o];
    assert observations == observations[..n] + [o];
  }

  lemma ThreeCalls(e: Equipment, t: State, a: Call, b: Call, c: Call)
    ensures var s1 := Step(e, t, a).0;
            var s2 := Step(e, s1, b).0;
            var (s3, o) := Step(e, s2, c);
            && After(e, t, [a, b, c]) == s3
            && (!Step(e, t, a).1.Committed? && !Step(e, s1, b).1.Committed? && o.Committed? ==> Commits(e, t, [a, b, c]) == [o])
  {
    hide Step;
    assert [a, b, c][..2] == [a, b] && [a, b][..1] == [a] && [a][..0] == [];
    assert After(e, t, [a]) == Step(e, t, a).0;
    assert After(e, t, [a, b]) == Step(e, After(e, t, [a]), b).0;
    if !Step(e, t, a).1.Committed? {
      assert Commits(e, t, [a]) == [];
    }
  }

  lemma FoldMore(e: Equipment, start: Memory, observations: seq<Observation>)
    requires observations != [] && Fold(e, start, observations).Some?
    ensures var before := Fold(e, start, observations[..|observations| - 1]);
            && before.Some?
            && Fold(e, start, observations)
               == Transact(e, observations[|observations| - 1], before.value.controller, before.value.conditioner)
  {
    hide Transact;
  }

  lemma FirstEvent(e: Equipment, s: State, o: Observation)
    requires s.phase.InitializationRequired? && s.next == 0 && s.time == 0.0
    requires Fold(e, Memory(s.controller, s.conditioner, s.held), [o]).Some?
    ensures var calls := [Event(Initialization, Attempt(Some(o), true))];
            forall last :: Stands(e, s, After(e, s, calls), Commits(e, s, calls), [o], last)
  {
    var call, start := Event(Initialization, Attempt(Some(o), true)), Memory(s.controller, s.conditioner, s.held);
    assert [o][..0] == [] && [call][..0] == [];
    FoldMore(e, start, [o]);
    FoldNothing(e, start);
    hide Fold, Transact;
    var (t, outcome) := Step(e, s, call);
    OneObservation(outcome);
    hide Step;
    assert Commits(e, s, [call]) == [outcome] && After(e, s, [call]) == t;
  }

  lemma FoldNothing(e: Equipment, start: Memory)
    ensures Fold(e, start, []) == Some(start)
  {
  }

  lemma OneObservation(outcome: Outcome)
    requires outcome.Committed?
    ensures AllCommitted([outcome]) && Observations([outcome]) == [outcome.observation]
  {
    assert [outcome][..0] == [];
  }

  /** Whatever the observations, if their transactions succeed in turn a session commits exactly them and ends with their fold. */
  lemma {:induction false} SessionCompletes(e: Equipment, start: State, observations: seq<Observation>, last: EventKind)
    requires start.phase.InitializationRequired? && start.next == 0 && start.time == 0.0
    requires observations != [] && !last.Initialization?
    requires Fold(e, Memory(start.controller, start.conditioner, start.held), observations).Some?
    ensures var calls := Plan(observations, last);
            Stands(e, start, After(e, start, calls), Commits(e, start, calls), observations, last)
  {
    hide Transact;
    var n := |observations| - 1;
    if n == 0 {
      FirstEvent(e, start, observations[0]);
      assert observations == [observations[0]];
    } else {
      hide Step, Stands, Fold, After, Commits;
      var attempt := Attempt(Some(observations[n]), true);
      var before, more := Plan(observations[..n], Periodic), [Confirm, Advance(n as real * PERIOD), Event(last, attempt)];
      FoldMore(e, Memory(start.controller, start.conditioner, start.held), observations);
      SessionCompletes(e, start, observations[..n], Periodic);
      PlannedEvent(e, start, After(e, start, before), Commits(e, start, before), observations, last);
      AfterMore(e, start, before, more);
    }
  }

  // ----- the session object

  /** The accepted context, which the session's client owns. */
  class Context {
    var time: real
    var held: Channels

    constructor (time: real, held: Channels)
      ensures this.time == time && this.held == held
    {
      this.time, this.held := time, held;
    }

    /** Sets the held torques; a refused set changes nothing. */
    method SetHeldTorques(torques: Channels, accepted: bool) returns (ok: bool)
      modifies `held
      ensures ok == accepted && held == if accepted then torques else old(held)
    {
      ok := accepted;
      if accepted {
        held := torques;
      }
    }
  }

  class IrwGuidanceControlEventSession {
    const equipment: Equipment
    var phase: Phase
    var controllerState: Vector
    var conditionerMemory: Channels
    var nextPeriodicEventOrdinal: nat

    constructor (equipment: Equipment, controller: Vector, conditioner: Channels)
      ensures this.equipment == equipment && phase == InitializationRequired
      ensures controllerState == controller && conditionerMemory == conditioner && nextPeriodicEventOrdinal == 0
    {
      this.equipment, phase := equipment, InitializationRequired;
      controllerState, conditionerMemory, nextPeriodicEventOrdinal := controller, conditioner, 0;
    }

    /** The session together with a context, as a state of the call machine. */
    ghost function With(context: Context): State
      reads this, context
    {
      State(phase, controllerState, conditionerMemory, nextPeriodicEventOrdinal, context.time, context.held)
    }

    method ComputeCandidate(observed: Option<Observation>) returns (candidate: Option<Memory>)
      ensures candidate == if observed.None? then None
                           else Transact(equipment, observed.value, controllerState, conditionerMemory)
    {
      if observed.None? {
        return None;
      }
      candidate := ComputeTransaction(equipment, observed.value, controllerState, conditionerMemory);
    }

    method ApplyInitializationUpdate(context: Context, attempt: Attempt) returns (outcome: Outcome)
      modifies this, context`held
      ensures (With(context), outcome) == Step(equipment, old(With(context)), Event(Initialization, attempt))
    {
      if phase != InitializationRequired || context.time != 0.0 {
        return Refused;
      }
      var candidate := ComputeCandidate(attempt.observed);
      if candidate.None? {
        return Failed;
      }
      var ok := context.SetHeldTorques(candidate.value.torques, attempt.torquesAccepted);
      if !ok {
        return Failed;
      }
      controllerState := candidate.value.controller;
      conditionerMemory := candidate.value.conditioner;
      nextPeriodicEventOrdinal := 1;
      phase := SynchronizationRequired;
      outcome := Committed(Initialization, 0, 0.0, attempt.observed.value);
    }

    method ApplyScheduledUpdate(kind: EventKind, context: Context, attempt: Attempt) returns (outcome: Outcome)
      requires !kind.Initialization?
      modifies this, context`held
      ensures (With(context), outcome) == Step(equipment, old(With(context)), Event(kind, attempt))
    {
      if phase.InitializationRequired? || phase.SynchronizationRequired? || phase.TerminalEventCommitted? {
        return Refused;
      }
      var expectedTime := nextPeriodicEventOrdinal as real * PERIOD;
      if context.time != expectedTime {
        return Refused;
      }
      phase := PeriodicEventRequired;
      var candidate := ComputeCandidate(attempt.observed);
      if candidate.None? {
        return Failed;
      }
      var ok := context.SetHeldTorques(candidate.value.torques, attempt.torquesAccepted);
      if !ok {
        return Failed;
      }
      controllerState := candidate.value.controller;
      conditionerMemory := candidate.value.conditioner;
      var ordinal := nextPeriodicEventOrdinal;
      nextPeriodicEventOrdinal := nextPeriodicEventOrdinal + 1;
      phase := if kind.Terminal? then TerminalEventCommitted else SynchronizationRequired;
      outcome := Committed(kind, ordinal, expectedTime, attempt.observed.value);
    }

    method ConfirmBackendSynchronized(ghost context: Context) returns (ok: bool)
      modifies `phase
      ensures (With(context), if ok then Done else Refused) == Step(equipment, old(With(context)), Confirm)
    {
      ok := phase.SynchronizationRequired?;
      if ok {
        phase := ReadyToAdvance;
      }
    }

    method RequireReadyToAdvance() returns (ok: bool)
      ensures ok <==> phase.ReadyToAdvance?
    {
      ok := phase.ReadyToAdvance?;
    }
  }
}
