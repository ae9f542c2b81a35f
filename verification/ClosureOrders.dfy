/** The same walk with entries taken from the worklist in any order. */
module ClosureOrders {
  import opened SourceClosure
  import opened ClosureWalk

  /** The walk with entry `i` moved to where it is taken next. */
  function Lifted(s: Walk, i: nat): Walk
    requires i < |s.pending|
  {
    s.(pending := s.pending[..i] + s.pending[i + 1..] + [s.pending[i]])
  }

  datatype Stage = Walking(walk: Walk) | Unread(path: Path)

  /** One iteration on entry `i`. */
  function VisitAt(w: World, s: Walk, i: nat): Stage
    requires i < |s.pending|
  {
    if Raises(w, Lifted(s, i)) then Unread(s.pending[i].path) else Walking(Visit(w, Lifted(s, i)))
  }

  /** The walk directed by a list of choices: each picks any entry of what is then pending. */
  function Directed(w: World, roots: seq<Path>, choices: seq<nat>): Stage {
    if choices == [] then Walking(Begin(roots))
    else
      match Directed(w, roots, choices[..|choices| - 1])
      case Unread(path) => Unread(path)
      case Walking(s) => if s.pending == [] then Walking(s) else VisitAt(w, s, choices[|choices| - 1] % |s.pending|)
  }

  ghost predicate SameEntries(a: Walk, b: Walk) {
    a == b.(pending := a.pending) && forall item :: item in a.pending <==> item in b.pending
  }

  lemma LiftedSame(s: Walk, i: nat)
    requires i < |s.pending|
    ensures SameEntries(Lifted(s, i), s)
  {
    assert s.pending == s.pending[..i] + [s.pending[i]] + s.pending[i + 1..];
  }

  /** The invariant sees the worklist only as a set. */
  lemma InvOfEntries(w: World, roots: seq<Path>, a: Walk, b: Walk)
    requires WalkInv(w, roots, a) && SameEntries(a, b)
    ensures WalkInv(w, roots, b)
  {
    hide GenuineItem, IncludeEdge, UnitEdge, Judge, Expected, LeadsTo, EndsInInclude, Readable;
    forall path, byInclude | Covered(a, path, byInclude) ensures Covered(b, path, byInclude) {
    }
  }

  /** A visit of any entry keeps the invariant, or meets an operand that cannot be read. */
  lemma VisitAtKeepsInv(w: World, roots: seq<Path>, s: Walk, i: nat)
    requires WalkInv(w, roots, s) && i < |s.pending|
    ensures match VisitAt(w, s, i)
            case Walking(after) => WalkInv(w, roots, after)
            case Unread(path) => Blocks(w, roots, path)
  {
    hide WalkInv, Visit, Raises;
    LiftedSame(s, i);
    InvOfEntries(w, roots, s, Lifted(s, i));
    if Raises(w, Lifted(s, i)) {
      ItemReachable(w, roots, Lifted(s, i));
    } else {
      VisitKeepsInv(w, roots, Lifted(s, i));
    }
  }

  /** Whatever is chosen, every step is sound, and a finished walk is the exact closure. */
  lemma {:induction false} AnyOrderIsExact(w: World, roots: seq<Path>, choices: seq<nat>)
    ensures match Directed(w, roots, choices)
            case Walking(s) =>
              && WalkInv(w, roots, s)
              && (s.pending == [] ==> IsClosure(w, roots, Closure(s.reached, s.byInclude, s.violations, s.missing)))
            case Unread(path) => Blocks(w, roots, path)
  {
    hide WalkInv, VisitAt, IsClosure, Blocks;
    if choices == [] {
      BeginInv(w, roots);
    } else {
      AnyOrderIsExact(w, roots, choices[..|choices| - 1]);
      var before := Directed(w, roots, choices[..|choices| - 1]);
      if before.Walking? && before.walk.pending != [] {
        VisitAtKeepsInv(w, roots, before.walk, choices[|choices| - 1] % |before.walk.pending|);
      }
    }
    var after := Directed(w, roots, choices);
    if after.Walking? && after.walk.pending == [] {
      EndIsExact(w, roots, after.walk);
    }
  }

  /** What a walk found, chains aside. */
  ghost predicate SameFindings(a: Walk, b: Walk) {
    && a.reached.Keys == b.reached.Keys && a.byInclude == b.byInclude
    && (forall p :: p in a.missing <==> p in b.missing)
    && (forall v :: v in a.violations ==> Found(v, b)) && forall v :: v in b.violations ==> Found(v, a)
  }

  ghost predicate Found(v: Violation, s: Walk) {
    exists u :: u in s.violations && (u.kind, u.path, u.detail) == (v.kind, v.path, v.detail)
  }

  ghost predicate Finished(w: World, roots: seq<Path>, choices: seq<nat>) {
    Directed(w, roots, choices).Walking? && Directed(w, roots, choices).walk.pending == []
  }

  /** Two finished walks reach the same paths in the same way and report the same; where one finishes none is unreadable. */
  lemma OrdersAgree(w: World, roots: seq<Path>, a: seq<nat>, b: seq<nat>)
    requires Finished(w, roots, a)
    ensures Directed(w, roots, b).Walking?
    ensures Finished(w, roots, b) ==> SameFindings(Directed(w, roots, a).walk, Directed(w, roots, b).walk)
  {
    hide Directed, WalkInv, Blocks, Reachable, ByInclude, LeadsTo, EndsInInclude, Judge, Expected;
    AnyOrderIsExact(w, roots, a);
    AnyOrderIsExact(w, roots, b);
    if Finished(w, roots, b) {
      var x, y := Directed(w, roots, a).walk, Directed(w, roots, b).walk;
      FindingsIn(w, roots, x, y);
      FindingsIn(w, roots, y, x);
    }
  }

  lemma FindingsIn(w: World, roots: seq<Path>, a: Walk, b: Walk)
    requires ExactReport(w, roots, a.violations) && ExactReport(w, roots, b.violations)
    ensures forall v :: v in a.violations ==> Found(v, b)
  {
    hide Reachable, ByInclude, LeadsTo, EndsInInclude, Expected;
  }

  /** A visit reaches a new file of the tree, or shortens the worklist; no reached path is lost. */
  lemma VisitProgresses(w: World, s: Walk, i: nat)
    requires i < |s.pending| && VisitAt(w, s, i).Walking?
    ensures var after := VisitAt(w, s, i).walk;
            && s.reached.Keys <= after.reached.Keys
            && ((exists p :: p in w.tree.files && p !in s.reached && p in after.reached) || |after.pending| < |s.pending|)
  {
    hide Children, Judge, Report;
    ExpandedExists(w, s.pending[i].path);
  }

  /** The walk is over: nothing is pending, or an operand could not be read. */
  predicate Ended(stage: Stage) {
    stage.Walking? ==> stage.walk.pending == []
  }

  function FirstChoices(choice: nat -> nat, n: nat): (r: seq<nat>)
    ensures |r| == n
  {
    if n == 0 then [] else FirstChoices(choice, n - 1) + [choice(n - 1)]
  }

  /** Every order ends: whatever is chosen at each step, the walk is over after finitely many. */
  lemma EveryOrderEnds(w: World, roots: seq<Path>, choice: nat -> nat) returns (n: nat)
    ensures Ended(Directed(w, roots, FirstChoices(choice, n)))
  {
    n := EndsFrom(w, roots, choice, 0, Begin(roots));
  }

  lemma {:induction false} EndsFrom(w: World, roots: seq<Path>, choice: nat -> nat, k: nat, s: Walk) returns (n: nat)
    requires Directed(w, roots, FirstChoices(choice, k)) == Walking(s)
    ensures Ended(Directed(w, roots, FirstChoices(choice, n)))
    decreases w.tree.files - s.reached.Keys, |s.pending|
  {
    n := k;
    if s.pending != [] {
      DirectedOn(w, roots, choice, k, s);
      var next := VisitAt(w, s, choice(k) % |s.pending|);
      n := k + 1;
      hide VisitAt, Directed;
      if next.Walking? {
        VisitProgresses(w, s, choice(k) % |s.pending|);
        n := EndsFrom(w, roots, choice, k + 1, next.walk);
      }
    }
  }

  lemma DirectedOn(w: World, roots: seq<Path>, choice: nat -> nat, k: nat, s: Walk)
    requires Directed(w, roots, FirstChoices(choice, k)) == Walking(s) && s.pending != []
    ensures Directed(w, roots, FirstChoices(choice, k + 1)) == VisitAt(w, s, choice(k) % |s.pending|)
  {
    assert FirstChoices(choice, k + 1)[..k] == FirstChoices(choice, k);
    hide VisitAt;
  }
}
