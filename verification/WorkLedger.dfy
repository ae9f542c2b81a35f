/** Work accounting across backend epochs, with 64-bit counters and all-or-nothing updates. */
module WorkLedger {
  import opened Wrappers

  const U64_LIMIT: nat := 0x1_0000_0000_0000_0000

  type u64 = n: nat | n < U64_LIMIT

  /** The eight counters, in the order the code visits them. */
  const COUNTERS: nat := 8
  const RIGHT_HAND_SIDE: nat := 1
  const LINEAR_RIGHT_HAND_SIDE: nat := 2

  type Counters = s: seq<u64> | |s| == COUNTERS witness [0, 0, 0, 0, 0, 0, 0, 0]

  const ZERO: Counters := [0, 0, 0, 0, 0, 0, 0, 0]

  datatype Statistics = Statistics(counters: Counters, workers: int)

  datatype Error = NoEpoch | NegativeWorkers | WorkersChanged | CounterDecreased | CounterOverflow

  datatype Ledger = Ledger(
    total: Counters, accounted: Counters, workers: Option<int>, epochs: u64, available: bool, complete: bool,
    errors: nat)

  const EMPTY_LEDGER := Ledger(ZERO, ZERO, None, 0, false, true, 0)

  /** The first failing check of an update, or none. Sums are exact, so overflow is a comparison. */
  function Refusal(l: Ledger, current: Statistics, beginEpoch: bool): Option<Error> {
    if !beginEpoch && !l.available then Some(NoEpoch)
    else if current.workers < 0 then Some(NegativeWorkers)
    else if l.workers.Some? && l.workers.value != current.workers then Some(WorkersChanged)
    else
      var baseline := if beginEpoch then ZERO else l.accounted;
      var bad := FirstBad(l.total, current.counters, baseline, COUNTERS);
      if bad.Some? then bad
      else if Sum(l.total, current.counters, baseline, RIGHT_HAND_SIDE)
              + Sum(l.total, current.counters, baseline, LINEAR_RIGHT_HAND_SIDE) >= U64_LIMIT then Some(CounterOverflow)
      else if beginEpoch && l.epochs + 1 >= U64_LIMIT then Some(CounterOverflow)
      else None
  }

  /** What counter i comes to, unbounded. */
  function Sum(total: Counters, current: Counters, baseline: Counters, i: nat): int
    requires i < COUNTERS
  {
    var (t: int, c: int, b: int) := (total[i], current[i], baseline[i]);
    t + c - b
  }

  /** The error of the first of the counters below n that decreased or overflows. */
  function FirstBad(total: Counters, current: Counters, baseline: Counters, n: nat): (r: Option<Error>)
    requires n <= COUNTERS
    ensures r.None? <==> forall i :: 0 <= i < n ==>
                           baseline[i] <= current[i] && Sum(total, current, baseline, i) < U64_LIMIT
  {
    if n == 0 then None
    else
      var earlier := FirstBad(total, current, baseline, n - 1);
      if earlier.Some? then earlier
      else if current[n - 1] < baseline[n - 1] then Some(CounterDecreased)
      else if Sum(total, current, baseline, n - 1) >= U64_LIMIT then Some(CounterOverflow)
      else None
  }

  /** The first counter below n whose work decreased or does not fit. */
  ghost predicate FirstBadAt(l: Ledger, current: Counters, baseline: Counters, i: nat) {
    && i < COUNTERS && (current[i] < baseline[i] || l.total[i] as int + current[i] - baseline[i] >= U64_LIMIT)
    && forall j :: 0 <= j < i ==> baseline[j] <= current[j] && l.total[j] as int + current[j] - baseline[j] < U64_LIMIT
  }

  lemma {:induction false} FirstBadIs(l: Ledger, current: Counters, baseline: Counters, n: nat, i: nat)
    requires n <= COUNTERS && i < n && FirstBadAt(l, current, baseline, i)
    ensures FirstBad(l.total, current, baseline, n)
         == Some(if current[i] < baseline[i] then CounterDecreased else CounterOverflow)
  {
    if i < n - 1 {
      FirstBadIs(l, current, baseline, n - 1, i);
    }
  }

  /** An update goes through exactly with an epoch open or begun, the same nonnegative workers, growing counters, sums that fit and an epoch to count. */
  lemma RefusalIs(l: Ledger, current: Statistics, beginEpoch: bool)
    ensures var baseline := if beginEpoch then ZERO else l.accounted;
            Refusal(l, current, beginEpoch).None? <==>
              && (beginEpoch || l.available) && 0 <= current.workers
              && (l.workers == None || l.workers == Some(current.workers))
              && (forall i :: 0 <= i < COUNTERS ==>
                    baseline[i] <= current.counters[i] && l.total[i] as int + current.counters[i] - baseline[i] < U64_LIMIT)
              && l.total[RIGHT_HAND_SIDE] as int + current.counters[RIGHT_HAND_SIDE] - baseline[RIGHT_HAND_SIDE]
                 + l.total[LINEAR_RIGHT_HAND_SIDE] + current.counters[LINEAR_RIGHT_HAND_SIDE] - baseline[LINEAR_RIGHT_HAND_SIDE]
                 < U64_LIMIT
              && (beginEpoch ==> l.epochs + 1 < U64_LIMIT)
    ensures Refusal(l, current, beginEpoch) == Some(NoEpoch) <==> !beginEpoch && !l.available
    ensures beginEpoch || l.available ==>
              && (Refusal(l, current, beginEpoch) == Some(NegativeWorkers) <==> current.workers < 0)
              && (Refusal(l, current, beginEpoch) == Some(WorkersChanged) <==>
                    0 <= current.workers && l.workers.Some? && l.workers.value != current.workers)
  {
    hide FirstBad;
    var baseline := if beginEpoch then ZERO else l.accounted;
    BadIsCounter(l.total, current.counters, baseline, COUNTERS);
    assert forall i :: 0 <= i < COUNTERS ==>
      Sum(l.total, current.counters, baseline, i) == l.total[i] as int + current.counters[i] - baseline[i];
  }

  lemma {:induction false} BadIsCounter(total: Counters, current: Counters, baseline: Counters, n: nat)
    requires n <= COUNTERS
    ensures FirstBad(total, current, baseline, n) in {None, Some(CounterDecreased), Some(CounterOverflow)}
  {
    if n != 0 {
      BadIsCounter(total, current, baseline, n - 1);
    }
  }

  function Updated(l: Ledger, current: Statistics, beginEpoch: bool): Ledger {
    if Refusal(l, current, beginEpoch).Some? then l
    else
      var baseline := if beginEpoch then ZERO else l.accounted;
      l.(total := seq(COUNTERS, i requires 0 <= i < COUNTERS => Sum(l.total, current.counters, baseline, i)),
         accounted := current.counters, workers := Some(current.workers),
         epochs := if beginEpoch then l.epochs + 1 else l.epochs, available := true)
  }

  function MarkUnavailable(l: Ledger): Ledger {
    l.(complete := false, errors := l.errors + 1)
  }

  /** What every ledger keeps: its two right-hand-side totals can be summed. */
  ghost predicate SumsFit(l: Ledger) {
    l.total[RIGHT_HAND_SIDE] + l.total[LINEAR_RIGHT_HAND_SIDE] < U64_LIMIT
  }

  // ----- the ledger object

  /** Adds with the code's overflow check: None is its exception. */
  function CheckedAdd(total: u64, addition: u64): (r: Option<u64>)
    ensures r.Some? <==> total + addition < U64_LIMIT
    ensures r.Some? ==> r.value == total + addition
  {
    if addition > U64_LIMIT - 1 - total then None else Some(total + addition)
  }

  function CounterDelta(current: u64, accounted: u64): (r: Option<u64>)
    ensures r.Some? <==> accounted <= current
    ensures r.Some? ==> r.value == current - accounted
  {
    if current < accounted then None else Some(current - accounted)
  }

  class QualificationIntegrationWorkLedger {
    var total: Counters
    var accounted: Counters
    var workerIdentity: Option<int>
    var epochCount: u64
    var available: bool
    var complete: bool
    var errors: seq<string>

    ghost function Value(): Ledger
      reads this
    {
      Ledger(total, accounted, workerIdentity, epochCount, available, complete, |errors|)
    }

    constructor ()
      ensures Value() == EMPTY_LEDGER && SumsFit(Value())
    {
      total, accounted, workerIdentity, epochCount := ZERO, ZERO, None, 0;
      available, complete, errors := false, true, [];
    }

    method BeginEpoch(current: Statistics) returns (error: Option<Error>)
      modifies this
      ensures error == Refusal(old(Value()), current, true) && Value() == Updated(old(Value()), current, true)
    {
      error := Account(current, true);
    }

    method Capture(current: Statistics) returns (error: Option<Error>)
      modifies this
      ensures error == Refusal(old(Value()), current, false) && Value() == Updated(old(Value()), current, false)
    {
      error := Account(current, false);
    }

    /** Validates the complete update in local storage before changing any field. */
    method Account(current: Statistics, beginEpoch: bool) returns (error: Option<Error>)
      modifies this
      ensures error == Refusal(old(Value()), current, beginEpoch)
      ensures Value() == Updated(old(Value()), current, beginEpoch)
      ensures error.Some? ==> unchanged(this)
    {
      if !beginEpoch && !available {
        return Some(NoEpoch);
      }
      var workers := current.workers;
      if workers < 0 {
        return Some(NegativeWorkers);
      }
      if workerIdentity.Some? && workerIdentity.value != workers {
        return Some(WorkersChanged);
      }
      var next, bad := AddCounters(total, current.counters, if beginEpoch then ZERO else accounted);
      if bad.Some? {
        return bad;
      }
      if CheckedAdd(next[RIGHT_HAND_SIDE], next[LINEAR_RIGHT_HAND_SIDE]).None? {
        return Some(CounterOverflow);
      }
      var nextEpochs := if beginEpoch then CheckedAdd(epochCount, 1) else Some(epochCount);
      if nextEpochs.None? {
        return Some(CounterOverflow);
      }
      total := next;
      accounted := current.counters;
      workerIdentity := Some(workers);
      epochCount := nextEpochs.value;
      available := true;
      error := None;
    }

    /** The counters after the update, or the error of the first that cannot be updated. */
    static method AddCounters(total: Counters, current: Counters, baseline: Counters)
      returns (next: seq<u64>, error: Option<Error>)
      ensures error == FirstBad(total, current, baseline, COUNTERS)
      ensures error.None? ==>
                next == seq(COUNTERS, i requires 0 <= i < COUNTERS => Sum(total, current, baseline, i))
    {
      next := total;
      var field := 0;
      while field < COUNTERS
        invariant 0 <= field <= COUNTERS == |next|
        invariant FirstBad(total, current, baseline, field).None?
        invariant forall i :: 0 <= i < COUNTERS ==>
          next[i] == if i < field then Sum(total, current, baseline, i) else total[i]
      {
        var delta := CounterDelta(current[field], baseline[field]);
        if delta.None? {
          BadStays(total, current, baseline, field + 1, COUNTERS);
          return next, Some(CounterDecreased);
        }
        var sum := CheckedAdd(next[field], delta.value);
        if sum.None? {
          BadStays(total, current, baseline, field + 1, COUNTERS);
          return next, Some(CounterOverflow);
        }
        next, field := next[field := sum.value], field + 1;
      }
      error := None;
    }

    method MarkStatisticsUnavailable(detail: string)
      modifies `complete, `errors
      ensures Value() == MarkUnavailable(old(Value()))
    {
      complete := false;
      errors := errors + [detail];
    }

    /** The two right-hand-side totals as `ToJson` sums them: its overflow exception is never thrown. */
    method TotalRightHandSides() returns (sum: Option<u64>)
      ensures SumsFit(Value()) ==> sum.Some?
      ensures sum.Some? ==> sum.value as int == total[RIGHT_HAND_SIDE] as int + total[LINEAR_RIGHT_HAND_SIDE] as int
    {
      sum := CheckedAdd(total[RIGHT_HAND_SIDE], total[LINEAR_RIGHT_HAND_SIDE]);
    }
  }

  lemma {:induction false} BadStays(total: Counters, current: Counters, baseline: Counters, m: nat, n: nat)
    requires m <= n <= COUNTERS && FirstBad(total, current, baseline, m).Some?
    ensures FirstBad(total, current, baseline, n) == FirstBad(total, current, baseline, m)
    decreases n
  {
    if m < n {
      BadStays(total, current, baseline, m, n - 1);
    }
  }
}
