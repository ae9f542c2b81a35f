/** The run that drives a backend and its ledger, against the backend's true lifetime work. */
module IntegrationRun {
  import opened Wrappers
  import opened WorkLedger

  /** Work of any size, counter by counter. */
  type Work = s: seq<nat> | |s| == COUNTERS witness [0, 0, 0, 0, 0, 0, 0, 0]

  /** The counters since the last (re)initialization, beside everything ever done. */
  datatype Backend = Backend(epoch: Counters, lifetime: Work, workers: int)

  function Plus(a: Work, b: Counters): (r: Work)
    ensures forall i :: 0 <= i < COUNTERS ==> r[i] == a[i] + b[i]
  {
    seq(COUNTERS, i requires 0 <= i < COUNTERS => a[i] + b[i])
  }

  /** The backend's own counters do not wrap inside an epoch. */
  predicate Fits(epoch: Counters, work: Counters) {
    forall i :: 0 <= i < COUNTERS ==> epoch[i] + work[i] < U64_LIMIT
  }

  function Within(epoch: Counters, work: Counters): (r: Counters)
    ensures forall i :: 0 <= i < COUNTERS && epoch[i] + work[i] < U64_LIMIT ==> r[i] == epoch[i] + work[i]
  {
    seq(COUNTERS, i requires 0 <= i < COUNTERS => (epoch[i] + work[i]) % U64_LIMIT)
  }

  /** More work inside the epoch. */
  function Worked(b: Backend, work: Counters): Backend {
    b.(epoch := Within(b.epoch, work), lifetime := Plus(b.lifetime, work))
  }

  /** A successful reinitialization: counters restart, with whatever it did itself. */
  function Reinitialized(b: Backend, initial: Counters): Backend {
    b.(epoch := initial, lifetime := Plus(b.lifetime, initial))
  }

  function Snapshot(b: Backend): Statistics {
    Statistics(b.epoch, b.workers)
  }

  datatype Run = Run(backend: Backend, ledger: Ledger)

  /** The calls on a constructed run; work done before a failure is still done. */
  datatype Call =
    | Advance(work: Counters, succeeds: bool)
    | Synchronize(work: Counters, initial: Counters, succeeds: bool)

  /** `RecordFailure`: one more capture, or a note that there is none. */
  function RecordFailure(r: Run): Run {
    if Refusal(r.ledger, Snapshot(r.backend), false).None? then Capture(r)
    else r.(ledger := MarkUnavailable(r.ledger))
  }

  function Capture(r: Run): Run {
    r.(ledger := Updated(r.ledger, Snapshot(r.backend), false))
  }

  predicate Captures(r: Run) {
    Refusal(r.ledger, Snapshot(r.backend), false).None?
  }

  /** One call, and whether it returned rather than threw. */
  function Step(r: Run, c: Call): (Run, bool) {
    match c
    case Advance(work, succeeds) =>
      var worked := r.(backend := Worked(r.backend, work));
      if succeeds && Captures(worked) then (Capture(worked), true) else (RecordFailure(worked), false)
    case Synchronize(work, initial, succeeds) =>
      if !Captures(r) then (RecordFailure(r), false)
      else
        var captured := Capture(r);
        if !succeeds then (RecordFailure(captured.(backend := Worked(r.backend, work))), false)
        else
          var restarted := captured.(backend := Reinitialized(r.backend, initial));
          if EpochRefused(restarted) then (RecordFailure(restarted), false)
          else (restarted.(ledger := Updated(restarted.ledger, Snapshot(restarted.backend), true)), true)
  }

  /** The guard of the branch that breaks the account: the reinitialized counters do not fit on top of the total. */
  predicate EpochRefused(r: Run) {
    Refusal(r.ledger, Snapshot(r.backend), true).Some?
  }

  /** Whether a call reaches that branch. */
  predicate LosesEpoch(r: Run, c: Call) {
    && c.Synchronize? && Captures(r) && c.succeeds
    && EpochRefused(Capture(r).(backend := Reinitialized(r.backend, c.initial)))
  }

  /** Construction: the backend's initial work opens the first epoch. */
  function Construct(initial: Counters, workers: int): (Run, bool) {
    var b := Backend(initial, Plus(ZERO, initial), workers);
    if Refusal(EMPTY_LEDGER, Snapshot(b), true).Some? then (RecordFailure(Run(b, EMPTY_LEDGER)), false)
    else (Run(b, Updated(EMPTY_LEDGER, Snapshot(b), true)), true)
  }

  function After(r: Run, calls: seq<Call>): Run {
    if calls == [] then r else Step(After(r, calls[..|calls| - 1]), calls[|calls| - 1]).0
  }

  // ----- the account

  /** Total plus what is not yet accounted is the true lifetime work. */
  ghost predicate Exact(r: Run) {
    forall i :: 0 <= i < COUNTERS ==>
      r.ledger.accounted[i] <= r.backend.epoch[i]
      && Sum(r.ledger.total, r.backend.epoch, r.ledger.accounted, i) == r.backend.lifetime[i]
  }

  /** Everything done is in the total. */
  ghost predicate Settled(r: Run) {
    forall i :: 0 <= i < COUNTERS ==> r.ledger.total[i] == r.backend.lifetime[i]
  }

  ghost predicate SameWorkers(r: Run) {
    0 <= r.backend.workers && r.ledger.available && r.ledger.workers == Some(r.backend.workers)
  }

  ghost predicate RunInv(r: Run) {
    Exact(r) && SumsFit(r.ledger) && SameWorkers(r)
  }

  /** The lifetime work is representable, and so is its sum of right-hand sides. */
  ghost predicate Representable(work: Work) {
    && (forall i :: 0 <= i < COUNTERS ==> work[i] < U64_LIMIT)
    && work[RIGHT_HAND_SIDE] + work[LINEAR_RIGHT_HAND_SIDE] < U64_LIMIT
  }

  /** On an exact account a capture succeeds iff the lifetime work is representable, and then settles it. */
  lemma CaptureSettles(r: Run)
    requires Exact(r) && SameWorkers(r)
    ensures Captures(r) <==> Representable(r.backend.lifetime)
    ensures Captures(r) ==> Settled(Capture(r)) && RunInv(Capture(r)) && Capture(r).ledger.accounted == r.backend.epoch
  {
    var bad := FirstBad(r.ledger.total, r.backend.epoch, r.ledger.accounted, COUNTERS);
    hide FirstBad;
  }

  /** A second capture adds nothing. */
  lemma RepeatedCaptureAddsNothing(r: Run)
    requires Captures(r) && SumsFit(r.ledger)
    ensures Captures(Capture(r)) && Capture(Capture(r)) == Capture(r)
  {
    var once := Capture(r);
    assert forall i :: 0 <= i < COUNTERS ==>
      Sum(once.ledger.total, r.backend.epoch, once.ledger.accounted, i) == once.ledger.total[i];
    assert Capture(once).ledger.total == once.ledger.total;
    hide FirstBad;
  }

  lemma RecordFailureKeeps(r: Run)
    requires RunInv(r)
    ensures RunInv(RecordFailure(r))
  {
    CaptureSettles(r);
  }

  lemma WorkedExact(r: Run, work: Counters)
    requires RunInv(r) && Fits(r.backend.epoch, work)
    ensures RunInv(r.(backend := Worked(r.backend, work)))
  {
  }

  /** The work of a call fits the backend's own counters. */
  predicate Feasible(r: Run, c: Call) {
    Fits(r.backend.epoch, c.work)
  }

  /** Beginning an epoch on a settled account keeps it settled. */
  lemma EpochSettles(r: Run, initial: Counters)
    requires Settled(r) && SumsFit(r.ledger) && SameWorkers(r)
    requires var restarted := r.(backend := Reinitialized(r.backend, initial)); !EpochRefused(restarted)
    ensures var restarted := r.(backend := Reinitialized(r.backend, initial));
            var begun := restarted.(ledger := Updated(restarted.ledger, Snapshot(restarted.backend), true));
            Settled(begun) && RunInv(begun)
  {
    hide FirstBad;
  }

  /** Every call that does not lose an epoch keeps the account exact; one that returns settles it. */
  lemma StepKeeps(r: Run, c: Call)
    requires RunInv(r) && Feasible(r, c) && !LosesEpoch(r, c)
    ensures RunInv(Step(r, c).0)
    ensures Step(r, c).1 ==> Settled(Step(r, c).0)
    ensures c.Advance? ==>
              (Step(r, c).1 <==> c.succeeds && Representable(Plus(r.backend.lifetime, c.work)))
  {
    hide Refusal, Updated, Settled, Representable;
    match c
    case Advance(work, succeeds) =>
      WorkedExact(r, work);
      CaptureSettles(r.(backend := Worked(r.backend, work)));
      RecordFailureKeeps(r.(backend := Worked(r.backend, work)));
    case Synchronize(work, initial, succeeds) =>
      CaptureSettles(r);
      RecordFailureKeeps(r);
      if Captures(r) {
        var captured := Capture(r);
        if !succeeds {
          WorkedExact(captured, work);
          RecordFailureKeeps(captured.(backend := Worked(r.backend, work)));
        } else {
          EpochSettles(captured, initial);
        }
      }
  }

  /** When a synchronization returns, on an exact account. */
  lemma SynchronizeReturnsIff(r: Run, work: Counters, initial: Counters, succeeds: bool)
    requires RunInv(r)
    ensures Step(r, Synchronize(work, initial, succeeds)).1 <==>
            && succeeds && Representable(r.backend.lifetime) && Representable(Plus(r.backend.lifetime, initial))
            && r.ledger.epochs + 1 < U64_LIMIT
  {
    hide Refusal, Updated, FirstBad;
    CaptureSettles(r);
    LosesEpochIff(r, work, initial);
    if Captures(r) {
      EpochFits(r, initial);
    }
  }

  lemma EpochFits(r: Run, initial: Counters)
    requires Captures(r)
    ensures Step(r, Synchronize(ZERO, initial, true)).1 <==> !LosesEpoch(r, Synchronize(ZERO, initial, true))
  {
  }

  /** The work of a call is done whether it returns or throws, as far as the call came. */
  lemma StepWork(r: Run, c: Call)
    ensures Step(r, c).0.backend ==
            match c {
              case Advance(work, _) => Worked(r.backend, work)
              case Synchronize(work, initial, succeeds) =>
                if !Captures(r) then r.backend
                else if succeeds then Reinitialized(r.backend, initial)
                else Worked(r.backend, work)
            }
  {
    hide Refusal, Updated;
  }

  // ----- whole histories

  ghost predicate FeasibleHistory(r: Run, calls: seq<Call>) {
    forall k :: 0 <= k < |calls| ==> Feasible(After(r, calls[..k]), calls[k])
  }

  lemma ConstructExact(initial: Counters, workers: int)
    ensures Construct(initial, workers).1 <==> 0 <= workers && Representable(initial)
    ensures Construct(initial, workers).0.backend == Backend(initial, Plus(ZERO, initial), workers)
    ensures Construct(initial, workers).1 ==>
              && RunInv(Construct(initial, workers).0) && Settled(Construct(initial, workers).0)
              && Construct(initial, workers).0.ledger.complete
  {
    hide FirstBad;
  }

  // ----- what a refused epoch costs, over whole histories

  /** The work that neither the total nor the open epoch's unaccounted rest contains. */
  function Missing(r: Run, i: nat): int
    requires i < COUNTERS
  {
    var (accounted: int, total: int) := (r.ledger.accounted[i], r.ledger.total[i]);
    r.backend.lifetime[i] - total - r.backend.epoch[i] + accounted
  }

  /** The work a call loses: the epoch it finished, where the next one is refused. */
  function Lost(r: Run, c: Call): Counters {
    if LosesEpoch(r, c) then r.backend.epoch else ZERO
  }

  /** What the calls of a history lost together. */
  function LostWork(r: Run, calls: seq<Call>): Work {
    if calls == [] then ZERO
    else
      var init := calls[..|calls| - 1];
      Plus(LostWork(r, init), Lost(After(r, init), calls[|init|]))
  }

  /** Every epoch a history lost had done no work at all. */
  ghost predicate LostEpochsEmpty(r: Run, calls: seq<Call>) {
    forall k :: 0 <= k < |calls| ==> Lost(After(r, calls[..k]), calls[k]) == ZERO
  }

  /** What the total lacks of the lifetime work. */
  function Shortfall(r: Run, i: nat): int
    requires i < COUNTERS
  {
    var total: int := r.ledger.total[i];
    r.backend.lifetime[i] - total
  }

  ghost predicate Steady(r: Run) {
    SumsFit(r.ledger) && SameWorkers(r)
  }

  lemma CaptureMissing(r: Run, i: nat)
    requires i < COUNTERS
    ensures Missing(Capture(r), i) == Missing(r, i) && Capture(r).backend == r.backend
    ensures Captures(r) ==> Capture(r).ledger.accounted == r.backend.epoch
    ensures !Captures(r) ==> Capture(r) == r
  {
    hide FirstBad;
  }

  lemma RecordFailureMissing(r: Run, i: nat)
    requires i < COUNTERS
    ensures Missing(RecordFailure(r), i) == Missing(r, i) && RecordFailure(r).backend == r.backend
    ensures RecordFailure(r).ledger.accounted == if Captures(r) then r.backend.epoch else r.ledger.accounted
  {
    CaptureMissing(r, i);
    hide Refusal, Updated;
  }

  /** Beginning an epoch from an accounted one misses nothing more; being refused misses the one before. */
  lemma BeginMissing(r: Run, initial: Counters, i: nat)
    requires i < COUNTERS && r.ledger.accounted == r.backend.epoch
    ensures var restarted := r.(backend := Reinitialized(r.backend, initial));
            var begun := restarted.(ledger := Updated(restarted.ledger, Snapshot(restarted.backend), true));
            && Missing(restarted, i) == Missing(r, i) + r.backend.epoch[i]
            && (!EpochRefused(restarted) ==>
                  Missing(begun, i) == Missing(r, i) && begun.ledger.accounted == begun.backend.epoch)
  {
    hide FirstBad;
  }

  /** One call, returning or throwing, from any state: exactly a lost epoch's work goes missing. */
  lemma StepMissing(r: Run, c: Call, i: nat)
    requires i < COUNTERS && Feasible(r, c)
    ensures Missing(Step(r, c).0, i) == Missing(r, i) + Lost(r, c)[i]
    ensures Step(r, c).1 ==> Missing(Step(r, c).0, i) == Shortfall(Step(r, c).0, i)
    ensures 0 <= Missing(r, i) && r.ledger.accounted[i] <= r.backend.epoch[i] + Missing(r, i) ==>
              Step(r, c).0.ledger.accounted[i] <= Step(r, c).0.backend.epoch[i] + Missing(Step(r, c).0, i)
  {
    hide Refusal, Updated, Capture, RecordFailure;
    match c
    case Advance(work, succeeds) =>
      var worked := r.(backend := Worked(r.backend, work));
      CaptureMissing(worked, i);
      RecordFailureMissing(worked, i);
    case Synchronize(work, initial, succeeds) =>
      CaptureMissing(r, i);
      RecordFailureMissing(r, i);
      if Captures(r) {
        var captured := Capture(r);
        RecordFailureMissing(captured.(backend := Worked(r.backend, work)), i);
        BeginMissing(captured, initial, i);
        RecordFailureMissing(captured.(backend := Reinitialized(r.backend, initial)), i);
      }
  }

  lemma StepSteady(r: Run, c: Call)
    requires Steady(r)
    ensures Steady(Step(r, c).0)
  {
    hide FirstBad, Plus, Within;
  }

  /** Over every history the work missing is exactly that of the lost epochs, and the total never exceeds the work done. */
  lemma {:induction false} HistoryExact(r: Run, calls: seq<Call>, i: nat)
    requires i < COUNTERS && Exact(r) && Steady(r) && FeasibleHistory(r, calls)
    ensures Missing(After(r, calls), i) == LostWork(r, calls)[i]
    ensures After(r, calls).ledger.accounted[i] <= After(r, calls).backend.epoch[i] + LostWork(r, calls)[i]
    ensures After(r, calls).ledger.total[i] <= After(r, calls).backend.lifetime[i]
    ensures Steady(After(r, calls))
  {
    hide Step, Lost, Feasible, Steady;
    if calls != [] {
      var init := calls[..|calls| - 1];
      forall k | 0 <= k < |init| ensures init[..k] == calls[..k] {}
      HistoryExact(r, init, i);
      assert Feasible(After(r, init), calls[|init|]);
      StepMissing(After(r, init), calls[|init|], i);
      StepSteady(After(r, init), calls[|init|]);
    }
  }

  /** The epochs a history began: its synchronizations that returned. */
  function Begun(r: Run, calls: seq<Call>): nat {
    if calls == [] then 0
    else
      var init := calls[..|calls| - 1];
      var c := calls[|init|];
      Begun(r, init) + if c.Synchronize? && Step(After(r, init), c).1 then 1 else 0
  }

  lemma StepEpochs(r: Run, c: Call)
    ensures Step(r, c).0.ledger.epochs == r.ledger.epochs + if c.Synchronize? && Step(r, c).1 then 1 else 0
    ensures r.ledger.available ==> Step(r, c).0.ledger.available
    ensures r.ledger.errors <= Step(r, c).0.ledger.errors
    ensures Step(r, c).0.ledger.complete <==> r.ledger.complete && Step(r, c).0.ledger.errors == r.ledger.errors
  {
    hide FirstBad;
  }

  /** Over every history the epoch count is the number of epochs begun, and statistics are complete exactly while no error was noted. */
  lemma {:induction false} EpochsCounted(r: Run, calls: seq<Call>)
    ensures After(r, calls).ledger.epochs == r.ledger.epochs + Begun(r, calls)
    ensures r.ledger.available ==> After(r, calls).ledger.available
    ensures r.ledger.errors <= After(r, calls).ledger.errors
    ensures After(r, calls).ledger.complete <==> r.ledger.complete && After(r, calls).ledger.errors == r.ledger.errors
  {
    hide Step;
    if calls != [] {
      var init := calls[..|calls| - 1];
      EpochsCounted(r, init);
      StepEpochs(After(r, init), calls[|init|]);
    }
  }

  lemma EmptyStep(r: Run, calls: seq<Call>)
    requires calls != []
    ensures var init := calls[..|calls| - 1];
            LostEpochsEmpty(r, calls) <==> LostEpochsEmpty(r, init) && Lost(After(r, init), calls[|init|]) == ZERO
  {
    hide Lost, After;
    var init := calls[..|calls| - 1];
    forall k | 0 <= k < |init| ensures init[..k] == calls[..k] && init[k] == calls[k] {}
  }

  lemma PlusIsZero(a: Work, b: Counters)
    ensures Plus(a, b) == ZERO <==> a == ZERO && b == ZERO
  {
    if Plus(a, b) == ZERO {
      forall i | 0 <= i < COUNTERS ensures a[i] == 0 && b[i] == 0 {
        assert Plus(a, b)[i] == 0;
      }
    }
  }

  lemma {:induction false} NothingLost(r: Run, calls: seq<Call>)
    ensures LostEpochsEmpty(r, calls) <==> LostWork(r, calls) == ZERO
  {
    hide Lost, After, Plus;
    if calls != [] {
      hide LostEpochsEmpty;
      var init := calls[..|calls| - 1];
      EmptyStep(r, calls);
      NothingLost(r, init);
      PlusIsZero(LostWork(r, init), Lost(After(r, init), calls[|init|]));
    }
  }

  /** Missing exactly this, and no more accounted than that allows: exact when this is nothing. */
  lemma ExactMissing(r: Run, lost: Work)
    requires forall i :: 0 <= i < COUNTERS ==> Missing(r, i) == lost[i] && r.ledger.accounted[i] <= r.backend.epoch[i] + lost[i]
    ensures Exact(r) <==> lost == ZERO
  {
    if Exact(r) {
      forall i | 0 <= i < COUNTERS ensures lost[i] == 0 {
        assert Missing(r, i) == lost[i];
      }
    }
  }

  /** Over every history the account is exact if and only if every lost epoch was empty. */
  lemma LostEpochIsExactIff(r: Run, calls: seq<Call>)
    requires Exact(r) && Steady(r) && FeasibleHistory(r, calls)
    ensures Exact(After(r, calls)) <==> LostEpochsEmpty(r, calls)
  {
    hide After, Exact, Missing, Steady, LostWork, LostEpochsEmpty, FeasibleHistory;
    NothingLost(r, calls);
    forall i | 0 <= i < COUNTERS
      ensures Missing(After(r, calls), i) == LostWork(r, calls)[i]
      ensures After(r, calls).ledger.accounted[i] <= After(r, calls).backend.epoch[i] + LostWork(r, calls)[i]
    {
      HistoryExact(r, calls, i);
    }
    ExactMissing(After(r, calls), LostWork(r, calls));
  }

  /** And after any call that returned, the total is the whole lifetime work if and only if every lost epoch was empty. */
  lemma ReturnedIsSettled(r: Run, calls: seq<Call>)
    requires Exact(r) && Steady(r) && FeasibleHistory(r, calls) && calls != []
    requires Step(After(r, calls[..|calls| - 1]), calls[|calls| - 1]).1
    ensures Settled(After(r, calls)) <==> LostEpochsEmpty(r, calls)
  {
    hide After, Exact, Missing, Shortfall, Settled, Steady, LostWork, LostEpochsEmpty, FeasibleHistory, Step;
    NothingLost(r, calls);
    forall i | 0 <= i < COUNTERS ensures Shortfall(After(r, calls), i) == LostWork(r, calls)[i] {
      HistoryExact(r, calls, i);
      ReturnedMissing(r, calls, i);
    }
    SettledShortfall(After(r, calls), LostWork(r, calls));
  }

  lemma SettledShortfall(r: Run, lost: Work)
    requires forall i :: 0 <= i < COUNTERS ==> Shortfall(r, i) == lost[i]
    ensures Settled(r) <==> lost == ZERO
  {
    if Settled(r) {
      forall i | 0 <= i < COUNTERS ensures lost[i] == 0 {
        assert Shortfall(r, i) == lost[i];
      }
    } else if lost == ZERO {
      forall i | 0 <= i < COUNTERS ensures r.ledger.total[i] == r.backend.lifetime[i] {
        assert Shortfall(r, i) == ZERO[i];
      }
    }
  }

  lemma ReturnedMissing(r: Run, calls: seq<Call>, i: nat)
    requires i < COUNTERS && FeasibleHistory(r, calls) && calls != []
    requires Step(After(r, calls[..|calls| - 1]), calls[|calls| - 1]).1
    ensures Missing(After(r, calls), i) == Shortfall(After(r, calls), i)
  {
    hide Step, Missing, Shortfall, Feasible;
    assert Feasible(After(r, calls[..|calls| - 1]), calls[|calls| - 1]);
    StepMissing(After(r, calls[..|calls| - 1]), calls[|calls| - 1], i);
  }

  /** When a new epoch is refused, in terms of the total the ledger shows after the capture and the new counters. */
  lemma EpochRefusedIff(r: Run, initial: Counters)
    requires SameWorkers(r)
    ensures var restarted := Capture(r).(backend := Reinitialized(r.backend, initial));
            EpochRefused(restarted) <==>
            !Representable(Plus(Capture(r).ledger.total, initial)) || r.ledger.epochs + 1 >= U64_LIMIT
  {
    var l := Capture(r).ledger;
    assert forall i :: 0 <= i < COUNTERS ==> Plus(l.total, initial)[i] == Sum(l.total, initial, ZERO, i);
    hide FirstBad;
  }

  /** On an exact account an epoch is lost exactly where the lifetime work is representable but not with the restart's. */
  lemma LosesEpochIff(r: Run, work: Counters, initial: Counters)
    requires Exact(r) && SameWorkers(r)
    ensures LosesEpoch(r, Synchronize(work, initial, true)) <==>
            && Representable(r.backend.lifetime)
            && (!Representable(Plus(r.backend.lifetime, initial)) || r.ledger.epochs + 1 >= U64_LIMIT)
  {
    CaptureSettles(r);
    EpochRefusedIff(r, initial);
    hide Refusal, Updated;
    if Captures(r) {
      assert Plus(Capture(r).ledger.total, initial) == Plus(r.backend.lifetime, initial);
    }
  }

  /** The new epoch's counters reach those of the lost one, and fit in their place. */
  ghost predicate Covers(r: Run, initial: Counters) {
    && (forall i :: 0 <= i < COUNTERS ==>
          r.backend.epoch[i] <= initial[i] && r.backend.lifetime[i] + initial[i] - r.backend.epoch[i] < U64_LIMIT)
    && r.backend.lifetime[RIGHT_HAND_SIDE] + initial[RIGHT_HAND_SIDE] - r.backend.epoch[RIGHT_HAND_SIDE]
       + r.backend.lifetime[LINEAR_RIGHT_HAND_SIDE] + initial[LINEAR_RIGHT_HAND_SIDE]
       - r.backend.epoch[LINEAR_RIGHT_HAND_SIDE] < U64_LIMIT
  }

  /** A loss goes unmarked exactly where the new epoch's counters pass for more work of the lost one. */
  lemma LossUnmarkedIff(r: Run, c: Call)
    requires RunInv(r) && r.ledger.complete && LosesEpoch(r, c)
    ensures var r' := Step(r, c).0;
            && r'.ledger.available && r'.backend.lifetime == Plus(r.backend.lifetime, c.initial)
            && (r'.ledger.complete <==> Covers(r, c.initial))
            && (r'.ledger.complete ==>
                  forall i :: 0 <= i < COUNTERS ==>
                    r'.ledger.total[i] == r.backend.lifetime[i] + c.initial[i] - r.backend.epoch[i])
  {
    hide FirstBad;
    CaptureSettles(r);
    var captured := Capture(r);
    var restarted := captured.(backend := Reinitialized(r.backend, c.initial));
    assert Captures(restarted) <==> Covers(r, c.initial) by {
      assert forall i :: 0 <= i < COUNTERS ==>
        Sum(captured.ledger.total, c.initial, captured.ledger.accounted, i)
        == (r.backend.lifetime[i] as int) + c.initial[i] - r.backend.epoch[i];
    }
  }

  // ----- a loss that goes unmarked, with restarts that cost one right-hand side as the core's do

  /** So many right-hand sides, and nothing else. */
  function RightHandSides(n: u64): Counters {
    ZERO[RIGHT_HAND_SIDE := n]
  }

  lemma RightHandSidesAdd(a: u64, b: u64)
    requires a + b < U64_LIMIT
    ensures Plus(RightHandSides(a), RightHandSides(b)) == RightHandSides(a + b)
    ensures Within(RightHandSides(a), RightHandSides(b)) == RightHandSides(a + b)
    ensures Representable(RightHandSides(a + b)) && Fits(RightHandSides(a), RightHandSides(b))
  {
  }

  /** Complete statistics of a run whose lifetime and open epoch come to these right-hand sides. */
  ghost predicate Counted(r: Run, lifetime: u64, epoch: u64) {
    && RunInv(r) && r.ledger.complete
    && r.backend.lifetime == RightHandSides(lifetime) && r.backend.epoch == RightHandSides(epoch)
  }

  lemma UpdatedFrames(l: Ledger, current: Statistics, beginEpoch: bool)
    ensures var u := Updated(l, current, beginEpoch);
            u.complete == l.complete && u.epochs <= l.epochs + 1
  {
    hide FirstBad;
  }

  lemma WorkCounted(r: Run, lifetime: u64, epoch: u64, n: u64)
    requires Counted(r, lifetime, epoch) && lifetime + n < U64_LIMIT && epoch + n < U64_LIMIT
    ensures var r' := Step(r, Advance(RightHandSides(n), true)).0;
            Counted(r', lifetime + n, epoch + n) && r'.ledger.epochs <= r.ledger.epochs + 1
  {
    RightHandSidesAdd(lifetime, n);
    RightHandSidesAdd(epoch, n);
    hide RightHandSides, Plus, Within, Updated, Refusal, Representable, Fits, RunInv, LosesEpoch;
    StepKeeps(r, Advance(RightHandSides(n), true));
    UpdatedFrames(r.ledger, Snapshot(Worked(r.backend, RightHandSides(n))), false);
  }

  /** A restart that costs `n` right-hand sides and loses no epoch. */
  lemma RestartCounted(r: Run, lifetime: u64, epoch: u64, n: u64)
    requires Counted(r, lifetime, epoch) && lifetime + n < U64_LIMIT && r.ledger.epochs + 1 < U64_LIMIT
    ensures Counted(Step(r, Synchronize(ZERO, RightHandSides(n), true)).0, lifetime + n, n)
  {
    var restart := Synchronize(ZERO, RightHandSides(n), true);
    RightHandSidesAdd(lifetime, n);
    RightHandSidesAdd(lifetime, 0);
    LosesEpochIff(r, ZERO, RightHandSides(n));
    hide RightHandSides, Plus, Updated, Refusal, Representable, RunInv, LosesEpoch;
    StepKeeps(r, restart);
  }

  lemma StartsCounted(n: u64)
    ensures var r := Construct(RightHandSides(n), 1).0; Counted(r, n, n) && r.ledger.epochs == 1
  {
    RightHandSidesAdd(0, n);
    ConstructExact(RightHandSides(n), 1);
  }

  /** A full counter, and a restart that costs what the last one did: lost and unmarked. */
  lemma LossUnmarked(r: Run, n: u64)
    requires 0 < n && Counted(r, U64_LIMIT - 1, n)
    ensures var restart := Synchronize(ZERO, RightHandSides(n), true);
            var r' := Step(r, restart).0;
            && LosesEpoch(r, restart) && r'.ledger.available && r'.ledger.complete
            && r'.ledger.total[RIGHT_HAND_SIDE] == U64_LIMIT - 1
            && r'.backend.lifetime[RIGHT_HAND_SIDE] == U64_LIMIT - 1 + n
  {
    RightHandSidesAdd(U64_LIMIT - 1, 0);
    hide Step, LosesEpoch, FirstBad;
    LosesEpochIff(r, ZERO, RightHandSides(n));
    LossUnmarkedIff(r, Synchronize(ZERO, RightHandSides(n), true));
  }

  lemma ThreeCalls(r: Run, calls: seq<Call>)
    requires |calls| == 3
    ensures After(r, calls[..2]) == Step(Step(r, calls[0]).0, calls[1]).0
    ensures After(r, calls) == Step(After(r, calls[..2]), calls[2]).0
  {
    hide Step;
    assert calls[..1][..0] == [];
    assert After(r, calls[..1]) == Step(r, calls[0]).0;
    assert calls[..2][..1] == calls[..1];
  }

  /** So much work that one more right-hand side fits, and two restarts of one each. */
  function UnmarkedHistory(): (calls: seq<Call>)
    ensures |calls| == 3
  {
    var restart := Synchronize(ZERO, RightHandSides(1), true);
    [Advance(RightHandSides(U64_LIMIT - 3), true), restart, restart]
  }

  /** Complete statistics that miss a whole epoch: its one right-hand side did not fit on top of the total. */
  lemma LostEpochCanLookComplete()
    ensures var r := Construct(RightHandSides(1), 1).0;
            var before := After(r, UnmarkedHistory()[..2]);
            var after := After(r, UnmarkedHistory());
            && LosesEpoch(before, UnmarkedHistory()[2]) && after.ledger.available && after.ledger.complete
            && after.ledger.total[RIGHT_HAND_SIDE] == U64_LIMIT - 1
            && after.backend.lifetime[RIGHT_HAND_SIDE] == U64_LIMIT
  {
    var r := Construct(RightHandSides(1), 1).0;
    var work, restart := UnmarkedHistory()[0], UnmarkedHistory()[1];
    assert UnmarkedHistory()[2] == restart;
    ThreeCalls(r, UnmarkedHistory());
    StartsCounted(1);
    hide Step, Construct, RightHandSides, Counted, After, LosesEpoch;
    WorkCounted(r, 1, 1, U64_LIMIT - 3);
    RestartCounted(Step(r, work).0, U64_LIMIT - 2, U64_LIMIT - 2, 1);
    LossUnmarked(Step(Step(r, work).0, restart).0, 1);
  }

  /** `ToJson` never overflows: every update keeps the two right-hand-side totals summable. */
  lemma SumsAlwaysFit(l: Ledger, current: Statistics, beginEpoch: bool)
    requires SumsFit(l)
    ensures SumsFit(Updated(l, current, beginEpoch))
    ensures CheckedAdd(Updated(l, current, beginEpoch).total[RIGHT_HAND_SIDE],
                       Updated(l, current, beginEpoch).total[LINEAR_RIGHT_HAND_SIDE]).Some?
  {
    hide FirstBad;
  }

  // ----- plain accumulation, once per interval

  /** Adds the epoch's counters with wrap-around, and adopts or checks the worker count. */
  function Accumulate(source: Statistics, destination: Statistics): Option<Statistics> {
    if destination.workers != 0 && destination.workers != source.workers then None
    else Some(Statistics(Within(destination.counters, source.counters), source.workers))
  }

  /** Accumulation raises exactly when another worker count was adopted before; else each sum wraps at 64 bits. */
  lemma AccumulateIs(source: Statistics, destination: Statistics)
    ensures Accumulate(source, destination).Some? <==> destination.workers in {0, source.workers}
    ensures Accumulate(source, destination).Some? ==>
              var sums := Accumulate(source, destination).value;
              && sums.workers == source.workers
              && forall i :: 0 <= i < COUNTERS ==> WrappedSum(sums.counters[i], destination.counters[i], source.counters[i])
  {
  }

  /** The sum, or what is left of it at 64 bits. */
  predicate WrappedSum(sum: u64, a: u64, b: u64) {
    sum as int == a as int + b as int || sum as int + U64_LIMIT == a as int + b as int
  }

  /** One control interval: the restart that precedes it (ignored for the first) and its advance. */
  datatype Interval = Interval(restart: Counters, work: Counters)

  /** The same intervals through the run and through plain accumulation; None once either throws. */
  function Both(r: Run, intervals: seq<Interval>): Option<(Run, Statistics)> {
    if intervals == [] then Some((r, Statistics(ZERO, 0)))
    else
      var before := Both(r, intervals[..|intervals| - 1]);
      if before.None? then None
      else
        var interval := intervals[|intervals| - 1];
        var (restarted, ok) := if |intervals| == 1 then (before.value.0, true)
                               else Step(before.value.0, Synchronize(ZERO, interval.restart, true));
        var (advanced, ok') := Step(restarted, Advance(interval.work, true));
        var sums := Accumulate(Snapshot(advanced.backend), before.value.1);
        if ok && ok' && sums.Some? && Fits(restarted.backend.epoch, interval.work) then Some((advanced, sums.value))
        else None
  }

  lemma {:induction false} BothKeep(r: Run, intervals: seq<Interval>)
    requires RunInv(r) && Settled(r) && Both(r, intervals).Some?
    ensures RunInv(Both(r, intervals).value.0) && Settled(Both(r, intervals).value.0)
  {
    hide Step;
    if intervals != [] {
      var init := intervals[..|intervals| - 1];
      BothKeep(r, init);
      var before := Both(r, init).value.0;
      var interval := intervals[|intervals| - 1];
      if |intervals| > 1 {
        SynchronizeKeeps(before, interval.restart);
      }
      var restarted := if |intervals| == 1 then before
                       else Step(before, Synchronize(ZERO, interval.restart, true)).0;
      StepKeeps(restarted, Advance(interval.work, true));
    }
  }

  /** A synchronization that returns adds exactly the restart's work, in a new epoch. */
  lemma SynchronizeKeeps(r: Run, restart: Counters)
    requires RunInv(r) && Step(r, Synchronize(ZERO, restart, true)).1
    ensures var s := Step(r, Synchronize(ZERO, restart, true)).0;
            RunInv(s) && Settled(s) && s.backend == Reinitialized(r.backend, restart)
  {
    hide Refusal, Updated, Settled;
    CaptureSettles(r);
    EpochSettles(Capture(r), restart);
  }

  lemma AdvanceAdds(r: Run, work: Counters)
    requires Step(r, Advance(work, true)).1
    ensures Step(r, Advance(work, true)).0.backend == Worked(r.backend, work)
  {
    hide Refusal, Updated;
  }

  /** Where both go through, the ledger's total and the plain sum are the same counters. */
  lemma {:induction false} PlainAccumulationAgrees(initial: Counters, workers: int, intervals: seq<Interval>)
    requires Construct(initial, workers).1 && intervals != []
    requires Both(Construct(initial, workers).0, intervals).Some?
    ensures var (run, sums) := Both(Construct(initial, workers).0, intervals).value;
            sums == Statistics(run.ledger.total, workers)
    ensures Both(Construct(initial, workers).0, intervals).value.0.backend.workers == workers
  {
    hide Step;
    var r := Construct(initial, workers).0;
    ConstructExact(initial, workers);
    hide Construct;
    var n := |intervals|;
    var init, interval := intervals[..n - 1], intervals[n - 1];
    BothKeep(r, intervals);
    BothKeep(r, init);
    var (before, sums) := Both(r, init).value;
    if n > 1 {
      PlainAccumulationAgrees(initial, workers, init);
      SynchronizeKeeps(before, interval.restart);
    }
    var restarted := if n == 1 then before else Step(before, Synchronize(ZERO, interval.restart, true)).0;
    AdvanceAdds(restarted, interval.work);
    var (run, sums') := Both(r, intervals).value;
    hide Both, RunInv;
    assert run.backend == Worked(restarted.backend, interval.work);
    assert sums' == Accumulate(Snapshot(run.backend), sums).value;
    forall i | 0 <= i < COUNTERS ensures sums'.counters[i] == run.ledger.total[i] {
      assert sums.counters[i] + restarted.backend.epoch[i] == restarted.backend.lifetime[i];
    }
  }
}
