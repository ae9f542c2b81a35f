/** Longitudinal common-mode priority over the reals, with limits that may be infinite. */
module TorqueAllocation {

  const AXLES: nat := 4

  /** Eight wheel channels, left and right of each axle in turn. */
  type Channels = s: seq<real> | |s| == 8 witness [0.0, 0.0, 0.0, 0.0, 0.0, 0.0, 0.0, 0.0]

  /** A limit as the conditioner gives it; any value that is not finite counts as no limit. */
  datatype RawLimit = Finite(value: real) | NotFinite

  type RawLimits = s: seq<RawLimit> | |s| == 8
    witness [NotFinite, NotFinite, NotFinite, NotFinite, NotFinite, NotFinite, NotFinite, NotFinite]

  datatype Limit = Bounded(value: real) | Unbounded

  function Abs(x: real): real { if x < 0.0 then -x else x }

  function Min(a: real, b: real): real { if b < a then b else a }

  function Max(a: real, b: real): real { if a < b then b else a }

  function Clamp(x: real, low: real, high: real): real { if x < low then low else if high < x then high else x }

  function Sanitize(limit: RawLimit): Limit {
    if limit.NotFinite? then Unbounded else Bounded(Max(0.0, limit.value))
  }

  function SignOrOne(x: real): real { if x < 0.0 then -1.0 else 1.0 }

  function Saturated(common: real, limit: real): real { SignOrOne(common) * limit }

  // ----- what an allocation is

  predicate Within(torque: real, limit: Limit) {
    limit.Bounded? ==> Abs(torque) <= limit.value
  }

  predicate NonNegative(limit: Limit) {
    limit.Bounded? ==> 0.0 <= limit.value
  }

  /** The smaller of two limits that are not both infinite. */
  function SmallerLimit(left: Limit, right: Limit): real
    requires left.Bounded? || right.Bounded?
  {
    if left.Unbounded? then right.value
    else if right.Unbounded? then left.value
    else Min(left.value, right.value)
  }

  function Mean(left: real, right: real): real { 0.5 * (left + right) }

  /** Both wheels within their limits. */
  predicate Admissible(left: real, right: real, leftLimit: Limit, rightLimit: Limit) {
    Within(left, leftLimit) && Within(right, rightLimit)
  }

  /**
   * The outcome for one axle: admissible; when the common part fits the smaller limit, that part exactly
   * and the admissible differential nearest the requested one; otherwise the smaller limit, signed, on both wheels.
   */
  ghost predicate IsAllocation(rawLeft: real, rawRight: real, leftLimit: Limit, rightLimit: Limit,
                               left: real, right: real) {
    if leftLimit.Unbounded? && rightLimit.Unbounded? then left == rawLeft && right == rawRight
    else
      var smaller, common := SmallerLimit(leftLimit, rightLimit), Mean(rawLeft, rawRight);
      && Admissible(left, right, leftLimit, rightLimit)
      && if Abs(common) <= smaller then
           && left + right == rawLeft + rawRight
           && forall x, y :: Admissible(x, y, leftLimit, rightLimit) && x + y == rawLeft + rawRight ==>
                Abs((left - right) - (rawLeft - rawRight)) <= Abs((x - y) - (rawLeft - rawRight))
         else left == right && Abs(left) == smaller && (if common < 0.0 then left <= 0.0 else 0.0 <= left)
  }

  /** Limits as given: no limit, or a bound that a negative value closes to zero. */
  lemma SanitizedAdmits(torque: real, raw: RawLimit)
    ensures Within(torque, Sanitize(raw)) <==> raw.NotFinite? || torque == 0.0 || -raw.value <= torque <= raw.value
    ensures NonNegative(Sanitize(raw))
  {
  }

  /** The common torques both wheels admit are those up to the smaller limit. */
  lemma SmallerLimitIs(torque: real, left: Limit, right: Limit)
    requires left.Bounded? || right.Bounded?
    ensures Admissible(torque, torque, left, right) <==> Abs(torque) <= SmallerLimit(left, right)
  {
  }

  // ----- the computation for one axle

  function LowerBound(common: real, left: Limit, right: Limit): real
    requires left.Bounded? || right.Bounded?
  {
    if left.Unbounded? then common - right.value
    else if right.Unbounded? then -left.value - common
    else Max(-left.value - common, common - right.value)
  }

  function UpperBound(common: real, left: Limit, right: Limit): real
    requires left.Bounded? || right.Bounded?
  {
    if left.Unbounded? then common + right.value
    else if right.Unbounded? then left.value - common
    else Min(left.value - common, common + right.value)
  }

  function AllocateAxle(rawLeft: real, rawRight: real, left: Limit, right: Limit): (real, real) {
    var common, differential := Mean(rawLeft, rawRight), 0.5 * (rawLeft - rawRight);
    if left.Unbounded? && right.Unbounded? then (common + differential, common - differential)
    else
      var smaller := SmallerLimit(left, right);
      if Abs(common) > smaller then (Saturated(common, smaller), Saturated(common, smaller))
      else
        var low, high := LowerBound(common, left, right), UpperBound(common, left, right);
        var d := if low <= high then Clamp(differential, low, high) else 0.0;
        (common + d, common - d)
  }

  /** The empty-interval fallback is never taken: zero itself lies between the bounds. */
  lemma FallbackUnreachable(common: real, left: Limit, right: Limit)
    requires left.Bounded? || right.Bounded?
    requires Abs(common) <= SmallerLimit(left, right)
    ensures LowerBound(common, left, right) <= 0.0 <= UpperBound(common, left, right)
  {
  }

  /** The bounds are exactly where the common part plus and minus the differential stays admissible. */
  lemma BoundsAreAdmissible(common: real, d: real, left: Limit, right: Limit)
    requires (left.Bounded? || right.Bounded?) && Abs(common) <= SmallerLimit(left, right)
    ensures LowerBound(common, left, right) <= d <= UpperBound(common, left, right)
       <==> Admissible(common + d, common - d, left, right)
  {
  }

  lemma AllocateAxleIsAllocation(rawLeft: real, rawRight: real, left: Limit, right: Limit)
    requires NonNegative(left) && NonNegative(right)
    ensures var (l, r) := AllocateAxle(rawLeft, rawRight, left, right);
            IsAllocation(rawLeft, rawRight, left, right, l, r)
  {
    if left.Bounded? || right.Bounded? {
      if Abs(Mean(rawLeft, rawRight)) <= SmallerLimit(left, right) {
        FittingIsAllocation(rawLeft, rawRight, left, right);
      }
    }
  }

  lemma FittingIsAllocation(rawLeft: real, rawRight: real, left: Limit, right: Limit)
    requires (left.Bounded? || right.Bounded?) && Abs(Mean(rawLeft, rawRight)) <= SmallerLimit(left, right)
    ensures var (l, r) := AllocateAxle(rawLeft, rawRight, left, right);
            IsAllocation(rawLeft, rawRight, left, right, l, r)
  {
    var common := Mean(rawLeft, rawRight);
    var low, high := LowerBound(common, left, right), UpperBound(common, left, right);
    FallbackUnreachable(common, left, right);
    BoundsAreAdmissible(common, Clamp(0.5 * (rawLeft - rawRight), low, high), left, right);
    var (l, r) := AllocateAxle(rawLeft, rawRight, left, right);
    forall x, y | Admissible(x, y, left, right) && x + y == rawLeft + rawRight
      ensures Abs((l - r) - (rawLeft - rawRight)) <= Abs((x - y) - (rawLeft - rawRight))
    {
      BoundsAreAdmissible(common, 0.5 * (x - y), left, right);
      assert common + 0.5 * (x - y) == x && common - 0.5 * (x - y) == y;
    }
  }

  /** The requirements leave no choice. */
  lemma AllocationIsUnique(rawLeft: real, rawRight: real, left: Limit, right: Limit,
                           l: real, r: real, l': real, r': real)
    requires IsAllocation(rawLeft, rawRight, left, right, l, r) && IsAllocation(rawLeft, rawRight, left, right, l', r')
    ensures l == l' && r == r'
  {
    if left.Bounded? || right.Bounded? {
      if Abs(Mean(rawLeft, rawRight)) <= SmallerLimit(left, right) {
        // Two nearest differentials would have their midpoint nearer still.
        var x, y := Mean(l, l'), Mean(r, r');
        assert Admissible(x, y, left, right) && x + y == rawLeft + rawRight;
        assert Abs((l - r) - (rawLeft - rawRight)) <= Abs((x - y) - (rawLeft - rawRight));
        assert Abs((l' - r') - (rawLeft - rawRight)) <= Abs((x - y) - (rawLeft - rawRight));
      }
    }
  }

  /** Allocating again changes nothing. */
  lemma AllocationIsIdempotent(rawLeft: real, rawRight: real, left: Limit, right: Limit, l: real, r: real)
    requires NonNegative(left) && NonNegative(right) && IsAllocation(rawLeft, rawRight, left, right, l, r)
    ensures IsAllocation(l, r, left, right, l, r)
  {
    if left.Bounded? || right.Bounded? {
      assert Abs(Mean(l, r)) <= SmallerLimit(left, right);
    }
  }

  /** No admissible pair has a larger common part without exceeding the request. */
  ghost predicate LargestFeasible(rawLeft: real, rawRight: real, leftLimit: Limit, rightLimit: Limit, l: real, r: real) {
    forall x, y :: Admissible(x, y, leftLimit, rightLimit) && Abs(x + y) <= Abs(rawLeft + rawRight) ==> Abs(x + y) <= Abs(l + r)
  }

  /** When the common part does not fit, the outcome is the largest feasible one iff the two limits are equal. */
  lemma SaturationIsLargestIff(rawLeft: real, rawRight: real, left: Limit, right: Limit)
    requires NonNegative(left) && NonNegative(right) && (left.Bounded? || right.Bounded?)
    requires Abs(Mean(rawLeft, rawRight)) > SmallerLimit(left, right)
    ensures var (l, r) := AllocateAxle(rawLeft, rawRight, left, right);
            LargestFeasible(rawLeft, rawRight, left, right, l, r) <==> left == right
  {
    var (l, r) := AllocateAxle(rawLeft, rawRight, left, right);
    var smaller, sum := SmallerLimit(left, right), Abs(rawLeft + rawRight);
    assert Abs(l + r) == 2.0 * smaller < sum;
    if left != right {
      var larger := if left == Bounded(smaller) then right else left;
      var rest := if larger.Bounded? then Min(larger.value - smaller, sum - 2.0 * smaller) else sum - 2.0 * smaller;
      var (x, y) := if left == Bounded(smaller) then (smaller, smaller + rest) else (smaller + rest, smaller);
      assert Admissible(x, y, left, right) && Abs(l + r) < Abs(x + y) <= sum;
    }
  }

  // ----- all axles

  function AllocateAt(raw: Channels, limits: RawLimits, axle: nat): (real, real)
    requires axle < AXLES
  {
    AllocateAxle(raw[2 * axle], raw[2 * axle + 1], Sanitize(limits[2 * axle]), Sanitize(limits[2 * axle + 1]))
  }

  /** The channels of the first n axles, allocated. */
  function AllocatedAxles(raw: Channels, limits: RawLimits, n: nat): (r: seq<real>)
    requires n <= AXLES
    ensures |r| == 2 * n
  {
    if n == 0 then []
    else AllocatedAxles(raw, limits, n - 1) + [AllocateAt(raw, limits, n - 1).0, AllocateAt(raw, limits, n - 1).1]
  }

  function Allocated(raw: Channels, limits: RawLimits): Channels {
    AllocatedAxles(raw, limits, AXLES)
  }

  lemma {:induction false} AllocatedAt(raw: Channels, limits: RawLimits, n: nat, axle: nat)
    requires axle < n <= AXLES
    ensures var r := AllocatedAxles(raw, limits, n);
            (r[2 * axle], r[2 * axle + 1]) == AllocateAt(raw, limits, axle)
    decreases n
  {
    hide AllocateAt;
    if axle < n - 1 {
      AllocatedAt(raw, limits, n - 1, axle);
    }
  }

  /** Every axle has its allocation. */
  lemma AllocatedIsAllocation(raw: Channels, limits: RawLimits, axle: nat)
    requires axle < AXLES
    ensures IsAllocation(raw[2 * axle], raw[2 * axle + 1], Sanitize(limits[2 * axle]), Sanitize(limits[2 * axle + 1]),
                         Allocated(raw, limits)[2 * axle], Allocated(raw, limits)[2 * axle + 1])
  {
    hide IsAllocation, AllocateAxle;
    AllocatedAt(raw, limits, AXLES, axle);
    AllocateAxleIsAllocation(raw[2 * axle], raw[2 * axle + 1], Sanitize(limits[2 * axle]),
                             Sanitize(limits[2 * axle + 1]));
  }

  /** Only one vector gives every axle its allocation. */
  lemma AllocatedIsUnique(raw: Channels, limits: RawLimits, final: Channels)
    requires forall axle :: 0 <= axle < AXLES ==> AxleAllocated(raw, limits, final, axle)
    ensures final == Allocated(raw, limits)
  {
    forall axle | 0 <= axle < AXLES
      ensures final[2 * axle] == Allocated(raw, limits)[2 * axle] && final[2 * axle + 1] == Allocated(raw, limits)[2 * axle + 1]
    {
      AllocatedIsAllocation(raw, limits, axle);
      assert AxleAllocated(raw, limits, final, axle);
      AllocationIsUnique(raw[2 * axle], raw[2 * axle + 1], Sanitize(limits[2 * axle]), Sanitize(limits[2 * axle + 1]),
                         final[2 * axle], final[2 * axle + 1],
                         Allocated(raw, limits)[2 * axle], Allocated(raw, limits)[2 * axle + 1]);
    }
    hide IsAllocation, Allocated, AxleAllocated;
    var whole := Allocated(raw, limits);
    forall c | 0 <= c < 8 ensures final[c] == whole[c] {
      assert c == 2 * (c / 2) || c == 2 * (c / 2) + 1;
    }
  }

  ghost predicate AxleAllocated(raw: Channels, limits: RawLimits, final: Channels, axle: nat)
    requires axle < AXLES
  {
    IsAllocation(raw[2 * axle], raw[2 * axle + 1], Sanitize(limits[2 * axle]), Sanitize(limits[2 * axle + 1]),
                 final[2 * axle], final[2 * axle + 1])
  }

  /** Allocating the vehicle's torques again changes nothing. */
  lemma AllocatedTwice(raw: Channels, limits: RawLimits)
    ensures Allocated(Allocated(raw, limits), limits) == Allocated(raw, limits)
  {
    var once := Allocated(raw, limits);
    hide IsAllocation, Allocated;
    forall axle | 0 <= axle < AXLES ensures AxleAllocated(once, limits, once, axle) {
      AllocatedIsAllocation(raw, limits, axle);
      AllocationIsIdempotent(raw[2 * axle], raw[2 * axle + 1], Sanitize(limits[2 * axle]), Sanitize(limits[2 * axle + 1]),
                             once[2 * axle], once[2 * axle + 1]);
    }
    AllocatedIsUnique(once, limits, once);
  }

  /** The loop over axles, on a copy of the requests. */
  method ApplyLongitudinalCommonModePriority(raw: Channels, limits: RawLimits) returns (prioritized: Channels)
    ensures prioritized == Allocated(raw, limits)
  {
    hide AllocateAt;
    var requests: seq<real> := raw;
    for axle := 0 to AXLES
      invariant |requests| == 8
      invariant requests[..2 * axle] == AllocatedAxles(raw, limits, axle)
    {
      var left, right := 2 * axle, 2 * axle + 1;
      var l, r := PrioritizeAxle(raw[left], raw[right], Sanitize(limits[left]), Sanitize(limits[right]));
      AllocateAtIs(raw, limits, axle);
      requests := requests[left := l][right := r];
      assert requests[..2 * (axle + 1)] == requests[..2 * axle] + [l, r];
    }
    assert requests[..8] == requests;
    prioritized := requests;
  }

  lemma AllocateAtIs(raw: Channels, limits: RawLimits, axle: nat)
    requires axle < AXLES
    ensures AllocateAt(raw, limits, axle) ==
            AllocateAxle(raw[2 * axle], raw[2 * axle + 1], Sanitize(limits[2 * axle]), Sanitize(limits[2 * axle + 1]))
  {
  }

  /** The body of the loop: common part and differential of one axle, adjusted in place. */
  method PrioritizeAxle(rawLeft: real, rawRight: real, left: Limit, right: Limit) returns (l: real, r: real)
    ensures (l, r) == AllocateAxle(rawLeft, rawRight, left, right)
  {
    hide Saturated, Mean, Clamp, LowerBound, UpperBound, SmallerLimit;
    var common, differential := Mean(rawLeft, rawRight), 0.5 * (rawLeft - rawRight);
    if !(left.Unbounded? && right.Unbounded?) {
      var smaller := SmallerLimit(left, right);
      if Abs(common) > smaller {
        common, differential := Saturated(common, smaller), 0.0;
      } else {
        var low, high := LowerBound(common, left, right), UpperBound(common, left, right);
        differential := if low <= high then Clamp(differential, low, high) else 0.0;
      }
    }
    l, r := common + differential, common - differential;
  }

  // ----- the common-mode probe

  const PROBE_THRESHOLD := 0.000000001

  /** The channels of the first n axles, each pair replaced by its mean unless that is negligible. */
  function ProbedAxles(raw: Channels, n: nat): (r: seq<real>)
    requires n <= AXLES
    ensures |r| == 2 * n
  {
    if n == 0 then []
    else
      var left, right := raw[2 * n - 2], raw[2 * n - 1];
      ProbedAxles(raw, n - 1)
      + (if Abs(Mean(left, right)) > PROBE_THRESHOLD then [Mean(left, right), Mean(left, right)] else [left, right])
  }

  function Probe(raw: Channels): Channels {
    ProbedAxles(raw, AXLES)
  }

  /** The probe keeps each axle's sum, and leaves a differential only where the mean is negligible. */
  lemma {:induction false} ProbeKeepsSums(raw: Channels, n: nat, axle: nat)
    requires axle < n <= AXLES
    ensures var p := ProbedAxles(raw, n);
            var (left, right) := (raw[2 * axle], raw[2 * axle + 1]);
            && p[2 * axle] + p[2 * axle + 1] == left + right
            && if Abs(Mean(left, right)) > PROBE_THRESHOLD then p[2 * axle] == p[2 * axle + 1]
               else (p[2 * axle], p[2 * axle + 1]) == (left, right)
    decreases n
  {
    if axle < n - 1 {
      ProbeKeepsSums(raw, n - 1, axle);
    }
  }

  method MakeCommonModeProbeRequest(raw: Channels) returns (probe: Channels)
    ensures probe == Probe(raw)
  {
    var requests: seq<real> := raw;
    for axle := 0 to AXLES
      invariant |requests| == 8 && requests[2 * axle..] == raw[2 * axle..]
      invariant requests[..2 * axle] == ProbedAxles(raw, axle)
    {
      var left, right := 2 * axle, 2 * axle + 1;
      assert requests[2 * axle..][0] == raw[left] && requests[2 * axle..][1] == raw[right];
      var common := Mean(raw[left], raw[right]);
      if Abs(common) > PROBE_THRESHOLD {
        requests := requests[left := common][right := common];
      }
      assert requests[..2 * (axle + 1)] == requests[..2 * axle] + [requests[left], requests[right]];
    }
    assert requests[..8] == requests;
    probe := requests;
  }
}
