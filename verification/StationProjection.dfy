/** Projection of a series on increasing stations to a target grid by one forward pass. */
module StationProjection {
  import opened Wrappers

  datatype Projection = Projected(values: seq<real>) | Rejected(reason: Rejection)

  datatype Rejection = DifferentSizes | TooFewSamples | EmptyTarget | SourceNotIncreasing | TargetNotIncreasing | NotCovered

  predicate Increasing(s: seq<real>) { forall i, j :: 0 <= i < j < |s| ==> s[i] < s[j] }

  /** The first check that fails, in the order of the code. */
  function FirstFailure(stations: seq<real>, values: seq<real>, targets: seq<real>): Option<Rejection> {
    if |stations| != |values| then Some(DifferentSizes)
    else if |stations| < 2 then Some(TooFewSamples)
    else if targets == [] then Some(EmptyTarget)
    else if !Increasing(stations) then Some(SourceNotIncreasing)
    else if !Increasing(targets) then Some(TargetNotIncreasing)
    else if targets[0] < stations[0] || targets[|targets| - 1] > stations[|stations| - 1] then Some(NotCovered)
    else None
  }

  predicate Series(stations: seq<real>, values: seq<real>) {
    |stations| == |values| >= 2 && Increasing(stations)
  }

  predicate Covered(stations: seq<real>, targets: seq<real>) {
    |stations| >= 2 && targets != [] && Increasing(targets)
    && stations[0] <= targets[0] && targets[|targets| - 1] <= stations[|stations| - 1]
  }

  /** The target lies between sample k - 1 and sample k. */
  predicate IsBracket(stations: seq<real>, t: real, k: nat) {
    0 < k < |stations| && stations[k - 1] <= t <= stations[k]
  }

  /** The straight line through samples k - 1 and k. */
  function Line(stations: seq<real>, values: seq<real>, k: nat, t: real): real
    requires Series(stations, values) && 0 < k < |stations|
  {
    values[k - 1] + (t - stations[k - 1]) / (stations[k] - stations[k - 1]) * (values[k] - values[k - 1])
  }

  /** A bracket found by bisection, each target on its own. */
  function Bisect(stations: seq<real>, t: real, low: nat, high: nat): (k: nat)
    requires low < high < |stations| && stations[low] <= t <= stations[high]
    ensures IsBracket(stations, t, k)
    decreases high - low
  {
    if high == low + 1 then high
    else
      var middle := (low + high) / 2;
      if stations[middle] < t then Bisect(stations, t, middle, high) else Bisect(stations, t, low, middle)
  }

  function ValueAt(stations: seq<real>, values: seq<real>, t: real): real
    requires Series(stations, values) && stations[0] <= t <= stations[|stations| - 1]
  {
    Line(stations, values, Bisect(stations, t, 0, |stations| - 1), t)
  }

  // ----- one line

  lemma Fraction(a: real, b: real, t: real)
    requires a < b && a <= t <= b
    ensures 0.0 <= (t - a) / (b - a) <= 1.0
    ensures t == a ==> (t - a) / (b - a) == 0.0
    ensures t == b ==> (t - a) / (b - a) == 1.0
  {
    var f := Divided(t - a, b - a);
    if f < 0.0 { NegativeProduct(f, b - a); }
    if f > 1.0 { NegativeProduct(1.0 - f, b - a); }
  }

  lemma Divided(x: real, d: real) returns (f: real)
    requires d > 0.0
    ensures f == x / d && f * d == x && (x == 0.0 ==> f == 0.0) && (x == d ==> f == 1.0)
  {
    f := x / d;
    assert f * d == x;
    if x == d {
      SameProduct(f, 1.0, d);
    } else if x == 0.0 {
      SameProduct(f, 0.0, d);
    }
  }

  lemma SameProduct(f: real, g: real, d: real)
    requires d > 0.0 && f * d == g * d
    ensures f == g
  {
    if f < g {
      NegativeProduct(f - g, d);
    } else if f > g {
      NegativeProduct(g - f, d);
    }
  }

  lemma NegativeProduct(f: real, d: real)
    requires f < 0.0 && d > 0.0
    ensures f * d < 0.0
  {
  }

  lemma Blend(f: real, p: real, q: real)
    requires 0.0 <= f <= 1.0
    ensures p <= q ==> p <= p + f * (q - p) <= q
    ensures q <= p ==> q <= p + f * (q - p) <= p
  {
    var d := q - p;
    var m := f * d;
    assert m == f * (q - p);
    if p <= q {
      Scaled(f, d);
    } else {
      Scaled(f, -d);
      assert f * -d == -m;
    }
  }

  lemma Scaled(f: real, d: real)
    requires 0.0 <= f <= 1.0 && d >= 0.0
    ensures 0.0 <= f * d <= d
  {
    assert d - f * d == (1.0 - f) * d;
  }

  /** A line keeps between its two sample values and meets them at its ends. */
  lemma LineBetween(stations: seq<real>, values: seq<real>, k: nat, t: real)
    requires Series(stations, values) && IsBracket(stations, t, k)
    ensures values[k - 1] <= values[k] ==> values[k - 1] <= Line(stations, values, k, t) <= values[k]
    ensures values[k] <= values[k - 1] ==> values[k] <= Line(stations, values, k, t) <= values[k - 1]
    ensures t == stations[k - 1] ==> Line(stations, values, k, t) == values[k - 1]
    ensures t == stations[k] ==> Line(stations, values, k, t) == values[k]
  {
    assert stations[k - 1] < stations[k];
    Fraction(stations[k - 1], stations[k], t);
    Blend((t - stations[k - 1]) / (stations[k] - stations[k - 1]), values[k - 1], values[k]);
  }

  /** Whichever bracket is found, the value is the same. */
  lemma BracketsAgree(stations: seq<real>, values: seq<real>, j: nat, k: nat, t: real)
    requires Series(stations, values) && IsBracket(stations, t, j) && IsBracket(stations, t, k)
    ensures Line(stations, values, j, t) == Line(stations, values, k, t)
  {
    if j != k {
      LineBetween(stations, values, j, t);
      LineBetween(stations, values, k, t);
      if j < k {
        assert stations[j] <= stations[k - 1];
        assert j == k - 1;
      } else {
        assert stations[k] <= stations[j - 1];
        assert k == j - 1;
      }
    }
  }

  // ----- the pass

  lemma IncreasingMore(s: seq<real>, x: real)
    requires Increasing(s) && (s == [] || s[|s| - 1] < x)
    ensures Increasing(s + [x])
  {
    forall i | 0 <= i < |s| ensures s[i] < x {
      assert i < |s| - 1 ==> s[i] < s[|s| - 1];
    }
  }

  method CheckIncreasing(s: seq<real>) returns (ok: bool)
    ensures ok == Increasing(s)
  {
    for i := 0 to |s|
      invariant Increasing(s[..i])
    {
      if i > 0 && !(s[i] > s[i - 1]) {
        return false;
      }
      IncreasingMore(s[..i], s[i]);
      assert s[..i + 1] == s[..i] + [s[i]];
    }
    assert s[..|s|] == s;
    ok := true;
  }

  /** One index moves forward through all targets: at most |stations| - 2 steps together. */
  method Pass(stations: seq<real>, values: seq<real>, targets: seq<real>) returns (result: seq<real>, ghost steps: nat)
    requires Series(stations, values) && Covered(stations, targets)
    ensures |result| == |targets| && steps + 2 <= |stations|
    ensures forall i, k :: 0 <= i < |targets| && IsBracket(stations, targets[i], k) ==>
                             result[i] == Line(stations, values, k, targets[i])
  {
    hide Line;
    result := [];
    steps := 0;
    var upper := 1;
    for i := 0 to |targets|
      invariant |result| == i && 1 <= upper < |stations| && steps == upper - 1
      invariant upper == 1 || (i > 0 && stations[upper - 1] < targets[i - 1])
      invariant forall j, k :: 0 <= j < i && IsBracket(stations, targets[j], k) ==>
                                 result[j] == Line(stations, values, k, targets[j])
    {
      var target := targets[i];
      assert stations[0] <= targets[0] <= target <= targets[|targets| - 1];
      while stations[upper] < target
        invariant 1 <= upper < |stations| && stations[upper - 1] <= target && steps == upper - 1
        invariant upper == 1 || stations[upper - 1] < target
        decreases |stations| - upper
      {
        upper := upper + 1;
        steps := steps + 1;
      }
      assert IsBracket(stations, target, upper);
      LineBetween(stations, values, upper, target);
      forall k | IsBracket(stations, target, k)
        ensures Line(stations, values, k, target) == Line(stations, values, upper, target)
      {
        BracketsAgree(stations, values, k, upper, target);
      }
      if target == stations[upper] {
        result := result + [values[upper]];
        continue;
      }
      var lower := upper - 1;
      if target == stations[lower] {
        result := result + [values[lower]];
        continue;
      }
      var interpolated := Interpolate(stations, values, upper, target);
      result := result + [interpolated];
    }
  }

  method Interpolate(stations: seq<real>, values: seq<real>, upper: nat, target: real) returns (value: real)
    requires Series(stations, values) && 0 < upper < |stations|
    ensures value == Line(stations, values, upper, target)
  {
    var lower := upper - 1;
    var fraction := (target - stations[lower]) / (stations[upper] - stations[lower]);
    value := values[lower] + fraction * (values[upper] - values[lower]);
  }

  // ----- what the projected values are

  /** The values a successful projection gives, by an independent search for each target. */
  predicate IsProjection(stations: seq<real>, values: seq<real>, targets: seq<real>, out: seq<real>) {
    && Series(stations, values) && Covered(stations, targets) && |out| == |targets|
    && forall i :: 0 <= i < |targets| ==>
                     stations[0] <= targets[i] <= stations[|stations| - 1] && out[i] == ValueAt(stations, values, targets[i])
  }

  lemma InRange(stations: seq<real>, targets: seq<real>, i: nat)
    requires Covered(stations, targets) && i < |targets|
    ensures stations[0] <= targets[i] <= stations[|stations| - 1]
  {
    assert targets[0] <= targets[i] <= targets[|targets| - 1];
  }

  /** The pass gives what bisection for each target gives, with at most |stations| - 2 steps of its index. */
  method ProjectMonotoneSeriesToStationGrid(stations: seq<real>, values: seq<real>, targets: seq<real>)
    returns (r: Projection, ghost steps: nat)
    ensures FirstFailure(stations, values, targets) == if r.Rejected? then Some(r.reason) else None
    ensures r.Projected? ==> IsProjection(stations, values, targets, r.values)
    ensures steps == 0 || steps + 2 <= |stations|
  {
    hide Line;
    steps := 0;
    if |stations| != |values| {
      return Rejected(DifferentSizes), steps;
    }
    if |stations| < 2 {
      return Rejected(TooFewSamples), steps;
    }
    if targets == [] {
      return Rejected(EmptyTarget), steps;
    }
    var ok := CheckIncreasing(stations);
    if !ok {
      return Rejected(SourceNotIncreasing), steps;
    }
    ok := CheckIncreasing(targets);
    if !ok {
      return Rejected(TargetNotIncreasing), steps;
    }
    if targets[0] < stations[0] || targets[|targets| - 1] > stations[|stations| - 1] {
      return Rejected(NotCovered), steps;
    }
    var out: seq<real> := [];
    out, steps := Pass(stations, values, targets);
    forall i | 0 <= i < |targets|
      ensures stations[0] <= targets[i] <= stations[|stations| - 1] && out[i] == ValueAt(stations, values, targets[i])
    {
      InRange(stations, targets, i);
      var k := Bisect(stations, targets[i], 0, |stations| - 1);
      assert IsBracket(stations, targets[i], k);
    }
    r := Projected(out);
  }

  /** The series is accepted exactly when it is one and every target lies between its ends; else the first thing wrong is named. */
  lemma FirstFailureIs(stations: seq<real>, values: seq<real>, targets: seq<real>)
    ensures var r := FirstFailure(stations, values, targets);
            var sized := |stations| == |values| && |stations| >= 2 && |targets| >= 1;
            && (r.None? <==>
                  && sized && Increasing(stations) && Increasing(targets)
                  && forall t :: t in targets ==> stations[0] <= t <= stations[|stations| - 1])
            && (r == Some(NotCovered) <==>
                  && sized && Increasing(stations) && Increasing(targets)
                  && exists t :: t in targets && !(stations[0] <= t <= stations[|stations| - 1]))
            && (r == Some(TargetNotIncreasing) <==>
                  sized && Increasing(stations) && exists i, j :: 0 <= i < j < |targets| && targets[j] <= targets[i])
            && (r == Some(SourceNotIncreasing) <==>
                  sized && exists i, j :: 0 <= i < j < |stations| && stations[j] <= stations[i])
            && (r == Some(EmptyTarget) <==> |stations| == |values| && |stations| >= 2 && |targets| == 0)
            && (r == Some(TooFewSamples) <==> |stations| == |values| && |stations| < 2)
            && (r == Some(DifferentSizes) <==> |stations| != |values|)
  {
    if targets != [] && |stations| >= 2 {
      assert targets[0] in targets && targets[|targets| - 1] in targets;
      if Increasing(targets) {
        forall t | t in targets ensures targets[0] <= t <= targets[|targets| - 1] {
          var i :| 0 <= i < |targets| && targets[i] == t;
        }
      }
    }
  }

  /** At a source station the source value comes back. */
  lemma ReproducesSamples(stations: seq<real>, values: seq<real>, targets: seq<real>, out: seq<real>, i: nat, j: nat)
    requires IsProjection(stations, values, targets, out) && i < |targets| && j < |stations| && targets[i] == stations[j]
    ensures out[i] == values[j]
  {
    hide Line;
    var k := if j == 0 then 1 else j;
    assert stations[k - 1] < stations[k];
    LineBetween(stations, values, k, targets[i]);
    BracketsAgree(stations, values, k, Bisect(stations, targets[i], 0, |stations| - 1), targets[i]);
  }

  predicate Keeps(stations: seq<real>, grid: seq<real>) {
    forall j :: 0 <= j < |stations| ==> stations[j] in grid
  }

  /** Projecting to a grid that keeps every source station, and back, restores the series. */
  lemma RefineAndReturn(stations: seq<real>, values: seq<real>, grid: seq<real>, fine: seq<real>, back: seq<real>)
    requires IsProjection(stations, values, grid, fine) && IsProjection(grid, fine, stations, back) && Keeps(stations, grid)
    ensures back == values
  {
    hide IsProjection, Keeps;
    ProjectionSizes(stations, values, grid, fine);
    ProjectionSizes(grid, fine, stations, back);
    forall j | 0 <= j < |stations| ensures back[j] == values[j] {
      var i := KeptAt(stations, grid, j);
      ReproducesSamples(stations, values, grid, fine, i, j);
      ReproducesSamples(grid, fine, stations, back, j, i);
    }
  }

  lemma KeptAt(stations: seq<real>, grid: seq<real>, j: nat) returns (i: nat)
    requires Keeps(stations, grid) && j < |stations|
    ensures i < |grid| && grid[i] == stations[j]
  {
    assert stations[j] in grid;
    i :| i < |grid| && grid[i] == stations[j];
  }

  lemma ProjectionSizes(stations: seq<real>, values: seq<real>, targets: seq<real>, out: seq<real>)
    requires IsProjection(stations, values, targets, out)
    ensures |values| == |stations| && |out| == |targets|
  {
  }

  /** A value lies between the two samples that bracket its target. */
  lemma WithinBracket(stations: seq<real>, values: seq<real>, targets: seq<real>, out: seq<real>, i: nat, k: nat)
    requires IsProjection(stations, values, targets, out) && i < |targets| && IsBracket(stations, targets[i], k)
    ensures values[k - 1] <= out[i] <= values[k] || values[k] <= out[i] <= values[k - 1]
  {
    hide Line;
    LineBetween(stations, values, k, targets[i]);
    BracketsAgree(stations, values, k, Bisect(stations, targets[i], 0, |stations| - 1), targets[i]);
  }

  predicate Rising(s: seq<real>) { forall i, j :: 0 <= i <= j < |s| ==> s[i] <= s[j] }

  predicate Falling(s: seq<real>) { forall i, j :: 0 <= i <= j < |s| ==> s[j] <= s[i] }

  lemma FractionRises(a: real, b: real, t: real, u: real)
    requires a < b && t <= u
    ensures (t - a) / (b - a) <= (u - a) / (b - a)
  {
    var f, g := (t - a) / (b - a), (u - a) / (b - a);
    assert (f - g) * (b - a) == t - u;
    if f > g { PositiveProduct(f - g, b - a); }
  }

  lemma PositiveProduct(f: real, d: real)
    requires f > 0.0 && d > 0.0
    ensures f * d > 0.0
  {
  }

  lemma LineMoves(stations: seq<real>, values: seq<real>, k: nat, t: real, u: real)
    requires Series(stations, values) && 0 < k < |stations| && t <= u
    ensures values[k - 1] <= values[k] ==> Line(stations, values, k, t) <= Line(stations, values, k, u)
    ensures values[k] <= values[k - 1] ==> Line(stations, values, k, u) <= Line(stations, values, k, t)
  {
    assert stations[k - 1] < stations[k];
    FractionRises(stations[k - 1], stations[k], t, u);
    var f, g := (t - stations[k - 1]) / (stations[k] - stations[k - 1]), (u - stations[k - 1]) / (stations[k] - stations[k - 1]);
    var d := values[k] - values[k - 1];
    if d >= 0.0 { Product(g - f, d); } else { Product(g - f, -d); }
    assert g * d - f * d == (g - f) * d && (g - f) * d == -((g - f) * -d);
  }

  lemma Product(f: real, d: real)
    requires f >= 0.0 && d >= 0.0
    ensures f * d >= 0.0
  {
  }

  lemma BracketsOrdered(stations: seq<real>, t: real, a: nat, u: real, b: nat)
    requires Increasing(stations) && IsBracket(stations, t, a) && IsBracket(stations, u, b) && t < u
    ensures a <= b
  {
  }

  /** Rising samples project to rising values, and falling ones to falling. */
  lemma KeepsMonotonicity(stations: seq<real>, values: seq<real>, targets: seq<real>, out: seq<real>)
    requires IsProjection(stations, values, targets, out)
    ensures Rising(values) ==> Rising(out)
    ensures Falling(values) ==> Falling(out)
  {
    hide Line;
    forall i, j | 0 <= i < j < |targets|
      ensures Rising(values) ==> out[i] <= out[j]
      ensures Falling(values) ==> out[j] <= out[i]
    {
      var t, u := targets[i], targets[j];
      var a, b := Bisect(stations, t, 0, |stations| - 1), Bisect(stations, u, 0, |stations| - 1);
      LineBetween(stations, values, a, t);
      LineBetween(stations, values, b, u);
      if a == b {
        LineMoves(stations, values, a, t, u);
      } else {
        BracketsOrdered(stations, t, a, u, b);
        assert Rising(values) ==> values[a] <= values[b - 1];
        assert Falling(values) ==> values[b - 1] <= values[a];
        assert Rising(values) ==> values[a - 1] <= values[a] && values[b - 1] <= values[b];
        assert Falling(values) ==> values[a] <= values[a - 1] && values[b] <= values[b - 1];
      }
    }
  }

  predicate Straight(stations: seq<real>, values: seq<real>, slope: real, offset: real) {
    |stations| == |values| && forall j :: 0 <= j < |stations| ==> values[j] == Affine(stations[j], slope, offset)
  }

  function Affine(x: real, slope: real, offset: real): real { slope * x + offset }

  /** A series on a straight line projects onto that line. */
  lemma StraightStaysStraight(stations: seq<real>, values: seq<real>, targets: seq<real>, out: seq<real>, slope: real, offset: real)
    requires IsProjection(stations, values, targets, out) && Straight(stations, values, slope, offset)
    ensures Straight(targets, out, slope, offset)
  {
    hide Line, Affine;
    forall i | 0 <= i < |targets| ensures out[i] == Affine(targets[i], slope, offset) {
      StraightLine(stations, values, Bisect(stations, targets[i], 0, |stations| - 1), targets[i], slope, offset);
    }
  }

  lemma StraightLine(stations: seq<real>, values: seq<real>, k: nat, t: real, slope: real, offset: real)
    requires Series(stations, values) && 0 < k < |stations|
    requires Straight(stations, values, slope, offset)
    ensures Line(stations, values, k, t) == Affine(t, slope, offset)
  {
    assert stations[k - 1] < stations[k];
    assert values[k - 1] == Affine(stations[k - 1], slope, offset) && values[k] == Affine(stations[k], slope, offset);
    hide Straight;
    OnLine(stations[k - 1], stations[k], t, slope, offset);
  }

  lemma OnLine(a: real, b: real, t: real, slope: real, offset: real)
    requires a < b
    ensures (slope * a + offset) + (t - a) / (b - a) * ((slope * b + offset) - (slope * a + offset)) == slope * t + offset
  {
    var f := (t - a) / (b - a);
    assert f * (b - a) == t - a;
    assert (slope * b + offset) - (slope * a + offset) == slope * (b - a);
    assert f * (slope * (b - a)) == slope * (f * (b - a));
    assert slope * (t - a) == slope * t - slope * a;
  }
}
