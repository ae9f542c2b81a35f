/** The worklist loop, and what its result means whatever order the entries come in. */
module ClosureWalk {
  import opened Wrappers
  import opened SourceClosure

  datatype Result =
    | Closure(reached: map<Path, Chain>, reachedByInclude: map<Path, bool>,
              violations: seq<Violation>, missing: seq<Path>)
    | Unreadable(path: Path)

  // ----- from the loop invariant at the end to reachability

  lemma {:induction false} ChainIsReached(w: World, roots: seq<Path>, s: Walk, chain: Chain)
    requires Coverage(w, roots, s) && s.pending == [] && IsChain(w, roots, chain)
    ensures chain[|chain| - 1] in s.reached
  {
    if |chain| == 1 {
      assert Covered(s, chain[0], true);
    } else {
      var init := chain[..|chain| - 1];
      ChainPrefix(w, roots, chain, |chain| - 1);
      ChainIsReached(w, roots, s, init);
      hide IncludeEdge, UnitEdge;
      var a, b := chain[|chain| - 2], chain[|chain| - 1];
      assert IncludeEdge(w, a, b) || UnitEdge(w, a, b);
      assert Covered(s, b, IncludeEdge(w, a, b));
    }
  }

  /** With nothing pending, the reached paths are exactly the reachable ones. */
  lemma ReachedIsReachable(w: World, roots: seq<Path>, s: Walk)
    requires GenuineChains(w, roots, s) && Coverage(w, roots, s) && s.pending == []
    ensures forall p :: p in s.reached <==> Reachable(w, roots, p)
  {
    forall p | p in s.reached ensures Reachable(w, roots, p) {
      assert LeadsTo(w, roots, s.reached[p], p);
    }
    forall p | Reachable(w, roots, p) ensures p in s.reached {
      var chain :| LeadsTo(w, roots, chain, p);
      ChainIsReached(w, roots, s, chain);
    }
  }

  /** With nothing pending, `reached_by_include` holds exactly for roots and include targets. */
  lemma IncludedIsByInclude(w: World, roots: seq<Path>, s: Walk)
    requires GenuineChains(w, roots, s) && Coverage(w, roots, s) && s.pending == []
    ensures forall p :: p in s.reached ==> (s.byInclude[p] <==> ByInclude(w, roots, p))
  {
    ReachedIsReachable(w, roots, s);
    hide IncludeEdge, UnitEdge, Reachable;
    forall p | p in s.reached && s.byInclude[p] ensures ByInclude(w, roots, p) {
      var chain := s.reached[p];
      assert GenuineItem(w, roots, Item(p, chain, true));
      if |chain| > 1 {
        ChainPrefix(w, roots, chain, |chain| - 1);
        PrefixReachable(w, roots, chain[..|chain| - 1], chain[|chain| - 2]);
        assert IncludeEdge(w, chain[|chain| - 2], p);
      }
    }
    forall p | p in s.reached && ByInclude(w, roots, p) ensures s.byInclude[p] {
      if p in roots {
        assert Covered(s, p, true);
      } else {
        var a :| Reachable(w, roots, a) && IncludeEdge(w, a, p);
        assert Covered(s, p, true);
      }
    }
  }

  lemma PrefixReachable(w: World, roots: seq<Path>, chain: Chain, path: Path)
    requires LeadsTo(w, roots, chain, path)
    ensures Reachable(w, roots, path)
  {
  }

  // ----- what the result promises

  ghost predicate ExactReach(w: World, roots: seq<Path>, r: Result)
    requires r.Closure?
  {
    && r.reached.Keys == r.reachedByInclude.Keys
    && (forall p :: p in r.reached <==> Reachable(w, roots, p))
    && (forall p :: p in r.reached ==> (r.reachedByInclude[p] <==> ByInclude(w, roots, p)))
    && (forall p :: p in r.reached ==> LeadsTo(w, roots, r.reached[p], p))
    && (forall p :: p in r.reached && r.reachedByInclude[p] ==> EndsInInclude(w, r.reached[p]))
  }

  /** Each reachable path has its expected violation, or none, exactly once; nothing else is reported. */
  ghost predicate ExactReport(w: World, roots: seq<Path>, violations: seq<Violation>) {
    && (forall v :: v in violations ==>
          && Reachable(w, roots, v.path)
          && Expected(w, v.path, ByInclude(w, roots, v.path)) == Some((v.kind, v.detail))
          && LeadsTo(w, roots, v.reachedBy, v.path)
          && (v.kind == UnmetDependency ==> EndsInInclude(w, v.reachedBy)))
    && (forall p :: Reachable(w, roots, p) && Expected(w, p, ByInclude(w, roots, p)).Some? ==>
          exists v :: v in violations && v.path == p)
    && (forall i, j :: 0 <= i < j < |violations| ==> violations[i].path != violations[j].path)
  }

  ghost predicate ExactAbsence(w: World, roots: seq<Path>, missing: seq<Path>) {
    && (forall p :: p in missing <==> Reachable(w, roots, p) && Judge(w, p).Missing?)
    && forall i, j :: 0 <= i < j < |missing| ==> missing[i] != missing[j]
  }

  /** A reachable file to expand whose include operands cannot all be read. */
  ghost predicate Blocks(w: World, roots: seq<Path>, path: Path) {
    Reachable(w, roots, path) && Judge(w, path).Expanded? && w.tree.includes(path).None?
  }

  /** Exact reach, report and absence; or the error, exactly when some reachable file blocks. */
  ghost predicate IsClosure(w: World, roots: seq<Path>, r: Result) {
    match r
    case Closure(_, _, violations, missing) =>
      && ExactReach(w, roots, r) && ExactReport(w, roots, violations) && ExactAbsence(w, roots, missing)
      && forall p :: !Blocks(w, roots, p)
    case Unreadable(path) => Blocks(w, roots, path)
  }

  lemma EndReach(w: World, roots: seq<Path>, s: Walk)
    requires GenuineChains(w, roots, s) && Coverage(w, roots, s) && s.pending == []
    ensures ExactReach(w, roots, Closure(s.reached, s.byInclude, s.violations, s.missing))
  {
    hide Reachable, ByInclude, LeadsTo, EndsInInclude, Coverage, GenuineChains;
    ReachedIsReachable(w, roots, s);
    IncludedIsByInclude(w, roots, s);
    SameKeys(w, roots, s);
    ReachedChains(w, roots, s);
  }

  lemma SameKeys(w: World, roots: seq<Path>, s: Walk)
    requires GenuineChains(w, roots, s)
    ensures s.reached.Keys == s.byInclude.Keys
  {
  }

  lemma ReachedChains(w: World, roots: seq<Path>, s: Walk)
    requires GenuineChains(w, roots, s)
    ensures forall p :: p in s.reached ==> LeadsTo(w, roots, s.reached[p], p)
    ensures forall p :: p in s.reached && s.byInclude[p] ==> EndsInInclude(w, s.reached[p])
  {
    hide LeadsTo, EndsInInclude;
    assert forall p :: p in s.reached ==> GenuineItem(w, roots, Item(p, s.reached[p], s.byInclude[p]));
  }

  lemma EndReport(w: World, roots: seq<Path>, s: Walk)
    requires ExactViolations(w, roots, s) && ExactMissing(w, s)
    requires s.reached.Keys == s.byInclude.Keys
    requires forall p :: p in s.reached <==> Reachable(w, roots, p)
    requires forall p :: p in s.reached ==> (s.byInclude[p] <==> ByInclude(w, roots, p))
    ensures ExactReport(w, roots, s.violations) && ExactAbsence(w, roots, s.missing)
  {
    hide Reachable, ByInclude, LeadsTo, EndsInInclude, Judge, Expected;
  }

  lemma EndReadable(w: World, roots: seq<Path>, s: Walk)
    requires Coverage(w, roots, s)
    ensures forall p :: p in s.reached && Judge(w, p).Expanded? ==> w.tree.includes(p).Some?
  {
    hide Covered, IncludeEdge, UnitEdge, Judge;
  }

  lemma EndIsExact(w: World, roots: seq<Path>, s: Walk)
    requires WalkInv(w, roots, s) && s.pending == []
    ensures IsClosure(w, roots, Closure(s.reached, s.byInclude, s.violations, s.missing))
  {
    hide GenuineChains, Coverage, ExactViolations, ExactMissing, ExactReport, ExactAbsence, Reachable, ByInclude,
         LeadsTo, EndsInInclude, Judge;
    EndReach(w, roots, s);
    EndReport(w, roots, s);
    EndReadable(w, roots, s);
  }

  // ----- the loop

  /** The part of a visit that reports: returns whether the file is to be expanded. */
  method Record(w: World, item: Item, wasReached: bool, wasReachedByInclude: bool,
                violations: seq<Violation>, missing: seq<Path>)
    returns (violations': seq<Violation>, missing': seq<Path>, expand: bool)
    requires wasReachedByInclude ==> wasReached
    ensures expand == (Judge(w, item.path).Expanded? && !wasReached)
    ensures missing' == if Judge(w, item.path).Missing? && !wasReached then missing + [item.path] else missing
    ensures var now := Expected(w, item.path, wasReachedByInclude || item.byInclude);
            var before := if wasReached then Expected(w, item.path, wasReachedByInclude) else None;
            violations' == if now.Some? && before.None?
                           then violations + [Violation(now.value.0, item.path, item.chain, now.value.1)]
                           else violations
  {
    violations', missing', expand := violations, missing, false;
    var forbiddenPrefix := ForbiddenPrefix(w.ledger.forbiddenPrefixes, item.path);
    var disposition := if item.path in w.ledger.dispositions then Some(w.ledger.dispositions[item.path]) else None;
    if forbiddenPrefix.Some? {
      if !wasReached {
        violations' := violations + [Violation(Forbidden, item.path, item.chain, ForbiddenBy(forbiddenPrefix.value))];
      }
      return;
    }
    if disposition == Some(ForbiddenFile) {
      if !wasReached {
        violations' := violations + [Violation(Forbidden, item.path, item.chain, Classified(ForbiddenFile))];
      }
      return;
    }
    if disposition.None? && item.path in w.ledger.generatedHeaders {
      if item.path in w.tree.files && !wasReached {
        violations' := violations + [Violation(Unclassified, item.path, item.chain, DeclaredGenerated)];
      }
      return;
    }
    if disposition.None? {
      if !wasReached {
        violations' := violations + [Violation(Unclassified, item.path, item.chain, NoDetail)];
      }
      return;
    }
    if disposition.value != Vendor {
      if item.byInclude && !wasReachedByInclude {
        violations' := violations + [Violation(UnmetDependency, item.path, item.chain, Classified(disposition.value))];
      }
      return;
    }
    if wasReached {
      return;
    }
    if item.path !in w.tree.files {
      missing' := missing + [item.path];
      return;
    }
    expand := true;
  }

  /** One popped entry; `raised` when the file has an include operand that cannot be read. */
  method VisitEntry(w: World, item: Item, ghost s: Walk, pending: seq<Item>, reached: map<Path, Chain>,
                    reachedByInclude: map<Path, bool>, violations: seq<Violation>, missing: seq<Path>)
    returns (pending': seq<Item>, reached': map<Path, Chain>, reachedByInclude': map<Path, bool>,
             violations': seq<Violation>, missing': seq<Path>, raised: bool)
    requires s == Walk(pending + [item], reached, reachedByInclude, violations, missing)
    requires reached.Keys == reachedByInclude.Keys
    ensures raised == Raises(w, s)
    ensures !raised ==> Walk(pending', reached', reachedByInclude', violations', missing') == Visit(w, s)
    ensures !raised ==> reached'.Keys == reachedByInclude'.Keys
    ensures !raised ==>
              reached'.Keys == reached.Keys + {item.path}
              && (item.path in reached || item.path !in w.tree.files ==> |pending'| == |pending|)
  {
    hide Expected, Judge, IsHeader, ImplementationUnits, IncludeItems, UnitItems;
    ExpandedExists(w, item.path);
    assert s.pending[..|s.pending| - 1] == pending;
    pending', reached', reachedByInclude', violations', missing', raised :=
      pending, reached, reachedByInclude, violations, missing, false;
    var path, chain := item.path, item.chain;
    var wasReached := path in reached;
    var wasReachedByInclude := path in reachedByInclude && reachedByInclude[path];
    if wasReached && (wasReachedByInclude || !item.byInclude) {
      return;
    }
    reached' := reached[path := chain];
    reachedByInclude' := reachedByInclude[path := wasReachedByInclude || item.byInclude];
    var expand;
    violations', missing', expand := Record(w, item, wasReached, wasReachedByInclude, violations, missing);
    if !expand {
      return;
    }
    var includes := w.tree.includes(path);
    if includes.None? {
      raised := true;
      return;
    }
    ghost var marked := Mark(s.(pending := pending), item);
    pending' := PushIncludes(pending, reached', reachedByInclude', chain, includes.value, marked);
    if IsHeader(path) {
      pending' := PushUnits(pending', reached', chain, ImplementationUnits(w, path), marked);
    }
  }

  /** Walks include and implementation edges from every root. */
  method ComputeClosure(w: World, roots: seq<Path>) returns (r: Result)
    ensures IsClosure(w, roots, r)
  {
    hide WalkInv, IsClosure, Judge, Visit, Raises;
    var reached: map<Path, Chain> := map[];
    var violations: seq<Violation> := [];
    var missing: seq<Path> := [];
    var pending := seq(|roots|, i requires 0 <= i < |roots| => Item(roots[i], [roots[i]], true));
    var reachedByInclude: map<Path, bool> := map[];
    BeginInv(w, roots);

    while pending != []
      invariant WalkInv(w, roots, Walk(pending, reached, reachedByInclude, violations, missing))
      invariant reached.Keys == reachedByInclude.Keys
      decreases w.tree.files - reached.Keys, |pending|
    {
      ghost var before := Walk(pending, reached, reachedByInclude, violations, missing);
      var item := pending[|pending| - 1];
      Shrinks(w.tree.files, reached.Keys, item.path);
      assert pending == pending[..|pending| - 1] + [item];
      var raised;
      pending, reached, reachedByInclude, violations, missing, raised :=
        VisitEntry(w, item, before, pending[..|pending| - 1], reached, reachedByInclude, violations, missing);
      if raised {
        ItemReachable(w, roots, before);
        return Unreadable(item.path);
      }
      VisitKeepsInv(w, roots, before);
    }
    EndIsExact(w, roots, Walk(pending, reached, reachedByInclude, violations, missing));
    r := Closure(reached, reachedByInclude, violations, missing);
  }

  lemma Shrinks(files: set<Path>, before: set<Path>, path: Path)
    ensures if path in files && path !in before then files - (before + {path}) < files - before
            else files - (before + {path}) == files - before
  {
    if path in files && path !in before {
      assert path in files - before;
    }
  }

  lemma ExpandedExists(w: World, path: Path)
    ensures Judge(w, path).Expanded? ==> path in w.tree.files
  {
  }

  lemma ItemReachable(w: World, roots: seq<Path>, s: Walk)
    requires WalkInv(w, roots, s) && s.pending != []
    ensures Reachable(w, roots, s.pending[|s.pending| - 1].path)
    ensures Raises(w, s) ==> IsClosure(w, roots, Unreadable(s.pending[|s.pending| - 1].path))
  {
    var item := s.pending[|s.pending| - 1];
    assert GenuineItem(w, roots, item);
    PrefixReachable(w, roots, item.chain, item.path);
  }

  /** Pushes the includes that no include has reached yet. */
  method PushIncludes(before: seq<Item>, reached: map<Path, Chain>, reachedByInclude: map<Path, bool>,
                      chain: Chain, includes: seq<Path>, ghost s: Walk)
    returns (pending: seq<Item>)
    requires s.reached == reached && s.byInclude == reachedByInclude
    ensures pending == before + IncludeItems(s, chain, includes)
  {
    pending := before;
    for i := 0 to |includes|
      invariant pending == before + IncludeItems(s, chain, includes[..i])
    {
      assert includes[..i + 1][..i] == includes[..i];
      var target := includes[i];
      if target !in reached || !(target in reachedByInclude && reachedByInclude[target]) {
        pending := pending + [Item(target, chain + [target], true)];
      }
    }
    assert includes[..|includes|] == includes;
  }

  /** Pushes the implementation units that nothing has reached yet. */
  method PushUnits(before: seq<Item>, reached: map<Path, Chain>, chain: Chain, units: seq<Path>, ghost s: Walk)
    returns (pending: seq<Item>)
    requires s.reached == reached
    ensures pending == before + UnitItems(s, chain, units)
  {
    pending := before;
    for i := 0 to |units|
      invariant pending == before + UnitItems(s, chain, units[..i])
    {
      assert units[..i + 1][..i] == units[..i];
      if units[i] !in reached {
        pending := pending + [Item(units[i], chain + [units[i]], false)];
      }
    }
    assert units[..|units|] == units;
  }
}
