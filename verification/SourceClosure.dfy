/** The edges, verdicts and worklist steps of the source-closure walk. */
module SourceClosure {
  import opened Wrappers

  type Path = string

  datatype Disposition = Vendor | FirstParty | ReferenceOnly | Discard | ForbiddenFile

  datatype Ledger = Ledger(
    dispositions: map<Path, Disposition>, forbiddenPrefixes: seq<string>,
    generatedHeaders: set<Path>, declaredImplementations: map<Path, seq<Path>>)

  /** The files of the tree, and the literal includes of each, or None for an operand that cannot be read. */
  datatype Tree = Tree(files: set<Path>, includes: Path -> Option<seq<Path>>)

  datatype World = World(ledger: Ledger, tree: Tree)

  /** The first forbidden prefix, in ledger order, that starts the path. */
  function ForbiddenPrefix(prefixes: seq<string>, path: Path): (r: Option<string>)
    ensures r.Some? <==> exists i :: 0 <= i < |prefixes| && prefixes[i] <= path
    ensures r.Some? ==> exists i :: 0 <= i < |prefixes| && prefixes[i] == r.value <= path
                                    && forall j :: 0 <= j < i ==> !(prefixes[j] <= path)
  {
    if prefixes == [] then None
    else if prefixes[0] <= path then Some(prefixes[0])
    else
      var rest := ForbiddenPrefix(prefixes[1..], path);
      assert rest.Some? ==> exists i :: 0 <= i < |prefixes[1..]| && prefixes[1..][i] == rest.value <= path
                                    && forall j :: 0 <= j < i ==> !(prefixes[1..][j] <= path);
      assert rest.Some? ==> exists i :: 0 < i < |prefixes| && prefixes[i] == rest.value <= path
                                    && forall j :: 0 <= j < i ==> !(prefixes[j] <= path) by {
        if rest.Some? {
          var i :| 0 <= i < |prefixes[1..]| && prefixes[1..][i] == rest.value <= path
                   && forall j :: 0 <= j < i ==> !(prefixes[1..][j] <= path);
          assert prefixes[i + 1] == rest.value;
          forall j | 0 <= j < i + 1 ensures !(prefixes[j] <= path) {
            assert j == 0 || prefixes[j] == prefixes[1..][j - 1];
          }
        }
      }
      rest
  }

  predicate EndsWith(s: string, suffix: string) {
    |suffix| <= |s| && s[|s| - |suffix|..] == suffix
  }

  predicate IsHeader(path: Path) {
    EndsWith(path, ".h") || EndsWith(path, ".hpp")
  }

  function Stem(header: Path): Path {
    if EndsWith(header, ".h") then header[..|header| - 2]
    else if EndsWith(header, ".hpp") then header[..|header| - 4]
    else header
  }

  /** The units sharing the header's stem that exist, then those the ledger declares. */
  function ImplementationUnits(w: World, header: Path): seq<Path> {
    (if Stem(header) + ".cc" in w.tree.files then [Stem(header) + ".cc"] else [])
    + (if Stem(header) + ".cpp" in w.tree.files then [Stem(header) + ".cpp"] else [])
    + (if header in w.ledger.declaredImplementations then w.ledger.declaredImplementations[header] else [])
  }

  datatype Verdict =
    | UnderPrefix(prefix: string) | ClassifiedForbidden
    | GeneratedPresent | GeneratedAbsent | Undecided
    | Declined(disposition: Disposition) | Missing | Expanded

  /** What the ledger and the tree say of a path, in the order the walk asks. */
  function Judge(w: World, path: Path): Verdict {
    var prefix := ForbiddenPrefix(w.ledger.forbiddenPrefixes, path);
    var disposition := if path in w.ledger.dispositions then Some(w.ledger.dispositions[path]) else None;
    if prefix.Some? then UnderPrefix(prefix.value)
    else if disposition == Some(ForbiddenFile) then ClassifiedForbidden
    else if disposition.None? && path in w.ledger.generatedHeaders then
      if path in w.tree.files then GeneratedPresent else GeneratedAbsent
    else if disposition.None? then Undecided
    else if disposition.value != Vendor then Declined(disposition.value)
    else if path !in w.tree.files then Missing
    else Expanded
  }

  predicate Readable(w: World, path: Path) {
    Judge(w, path).Expanded? && w.tree.includes(path).Some?
  }

  predicate IncludeEdge(w: World, a: Path, b: Path) {
    Readable(w, a) && b in w.tree.includes(a).value
  }

  predicate UnitEdge(w: World, a: Path, b: Path) {
    Readable(w, a) && IsHeader(a) && b in ImplementationUnits(w, a)
  }

  // ----- reachability, independent of any walk

  type Chain = seq<Path>

  ghost predicate IsChain(w: World, roots: seq<Path>, chain: Chain) {
    && chain != [] && chain[0] in roots
    && forall i :: 0 < i < |chain| ==>
         IncludeEdge(w, chain[i - 1], chain[i]) || UnitEdge(w, chain[i - 1], chain[i])
  }

  ghost predicate LeadsTo(w: World, roots: seq<Path>, chain: Chain, path: Path) {
    IsChain(w, roots, chain) && chain[|chain| - 1] == path
  }

  ghost predicate EndsInInclude(w: World, chain: Chain) {
    |chain| == 1 || (|chain| > 1 && IncludeEdge(w, chain[|chain| - 2], chain[|chain| - 1]))
  }

  ghost predicate Reachable(w: World, roots: seq<Path>, path: Path) {
    exists chain :: LeadsTo(w, roots, chain, path)
  }

  /** A root, or the target of an include of some expanded file. */
  ghost predicate ByInclude(w: World, roots: seq<Path>, path: Path) {
    path in roots || exists a :: Reachable(w, roots, a) && IncludeEdge(w, a, path)
  }

  lemma ChainExtends(w: World, roots: seq<Path>, chain: Chain, b: Path)
    requires IsChain(w, roots, chain)
    requires IncludeEdge(w, chain[|chain| - 1], b) || UnitEdge(w, chain[|chain| - 1], b)
    ensures LeadsTo(w, roots, chain + [b], b)
    ensures IncludeEdge(w, chain[|chain| - 1], b) ==> EndsInInclude(w, chain + [b])
  {
    hide IncludeEdge, UnitEdge;
    var longer := chain + [b];
    forall i | 0 < i < |longer|
      ensures IncludeEdge(w, longer[i - 1], longer[i]) || UnitEdge(w, longer[i - 1], longer[i])
    {
      if i < |chain| {
        assert longer[i - 1] == chain[i - 1] && longer[i] == chain[i];
      }
    }
  }

  lemma ChainPrefix(w: World, roots: seq<Path>, chain: Chain, n: nat)
    requires IsChain(w, roots, chain) && 0 < n <= |chain|
    ensures LeadsTo(w, roots, chain[..n], chain[n - 1])
  {
    hide IncludeEdge, UnitEdge;
  }

  /** The reachable paths are the least set with the roots that is closed under both edges. */
  lemma {:induction false} ReachableIsLeast(w: World, roots: seq<Path>, s: iset<Path>, path: Path)
    requires forall r :: r in roots ==> r in s
    requires forall a, b :: a in s && (IncludeEdge(w, a, b) || UnitEdge(w, a, b)) ==> b in s
    requires Reachable(w, roots, path)
    ensures path in s
  {
    var chain :| LeadsTo(w, roots, chain, path);
    ChainStays(w, roots, s, chain);
  }

  lemma {:induction false} ChainStays(w: World, roots: seq<Path>, s: iset<Path>, chain: Chain)
    requires forall r :: r in roots ==> r in s
    requires forall a, b :: a in s && (IncludeEdge(w, a, b) || UnitEdge(w, a, b)) ==> b in s
    requires IsChain(w, roots, chain)
    ensures chain[|chain| - 1] in s
  {
    if |chain| > 1 {
      ChainStays(w, roots, s, chain[..|chain| - 1]);
    }
  }

  lemma ReachableIsClosed(w: World, roots: seq<Path>)
    ensures forall r :: r in roots ==> Reachable(w, roots, r)
    ensures forall a, b :: Reachable(w, roots, a) && (IncludeEdge(w, a, b) || UnitEdge(w, a, b)) ==>
              Reachable(w, roots, b)
  {
    forall r | r in roots ensures Reachable(w, roots, r) {
      assert LeadsTo(w, roots, [r], r);
    }
    forall a, b | Reachable(w, roots, a) && (IncludeEdge(w, a, b) || UnitEdge(w, a, b))
      ensures Reachable(w, roots, b)
    {
      var chain :| LeadsTo(w, roots, chain, a);
      ChainExtends(w, roots, chain, b);
    }
  }

  // ----- the walk

  datatype Item = Item(path: Path, chain: Chain, byInclude: bool)

  datatype Kind = Forbidden | Unclassified | UnmetDependency

  datatype Detail = ForbiddenBy(prefix: string) | Classified(disposition: Disposition) | DeclaredGenerated | NoDetail

  datatype Violation = Violation(kind: Kind, path: Path, reachedBy: Chain, detail: Detail)

  /** The violation a reached path stands for, given whether an include edge reached it. */
  function Expected(w: World, path: Path, byInclude: bool): Option<(Kind, Detail)> {
    match Judge(w, path)
    case UnderPrefix(prefix) => Some((Forbidden, ForbiddenBy(prefix)))
    case ClassifiedForbidden => Some((Forbidden, Classified(ForbiddenFile)))
    case GeneratedPresent => Some((Unclassified, DeclaredGenerated))
    case Undecided => Some((Unclassified, NoDetail))
    case Declined(d) => if byInclude then Some((UnmetDependency, Classified(d))) else None
    case _ => None
  }

  datatype Walk = Walk(
    pending: seq<Item>, reached: map<Path, Chain>, byInclude: map<Path, bool>,
    violations: seq<Violation>, missing: seq<Path>)

  function Included(s: Walk, path: Path): bool {
    path in s.byInclude && s.byInclude[path]
  }

  /** An entry that brings nothing new: its path was reached at least as strongly. */
  predicate Stale(s: Walk, item: Item) {
    item.path in s.reached && (Included(s, item.path) || !item.byInclude)
  }

  function Mark(s: Walk, item: Item): Walk {
    s.(reached := s.reached[item.path := item.chain],
       byInclude := s.byInclude[item.path := Included(s, item.path) || item.byInclude])
  }

  /** The violation this visit reports: a new path's, or an unmet dependency's when an include first arrives. */
  function Report(w: World, s: Walk, item: Item): seq<Violation> {
    var now := Expected(w, item.path, Included(s, item.path) || item.byInclude);
    var before := if item.path in s.reached then Expected(w, item.path, Included(s, item.path)) else None;
    if now.Some? && before.None? then [Violation(now.value.0, item.path, item.chain, now.value.1)] else []
  }

  /** Entries for the includes not yet reached by an include. */
  function IncludeItems(s: Walk, chain: Chain, includes: seq<Path>): seq<Item> {
    if includes == [] then []
    else
      var last := includes[|includes| - 1];
      IncludeItems(s, chain, includes[..|includes| - 1])
      + (if last !in s.reached || !Included(s, last) then [Item(last, chain + [last], true)] else [])
  }

  /** Entries for the implementation units not yet reached at all. */
  function UnitItems(s: Walk, chain: Chain, units: seq<Path>): seq<Item> {
    if units == [] then []
    else
      var last := units[|units| - 1];
      UnitItems(s, chain, units[..|units| - 1])
      + (if last !in s.reached then [Item(last, chain + [last], false)] else [])
  }

  function Children(w: World, s: Walk, item: Item): seq<Item>
    requires Readable(w, item.path)
  {
    IncludeItems(s, item.chain, w.tree.includes(item.path).value)
    + (if IsHeader(item.path) then UnitItems(s, item.chain, ImplementationUnits(w, item.path)) else [])
  }

  /** One iteration: pop the last entry, mark, report, and expand a file reached for the first time. */
  function Visit(w: World, s: Walk): Walk
    requires s.pending != []
  {
    var item := s.pending[|s.pending| - 1];
    var rest := s.(pending := s.pending[..|s.pending| - 1]);
    if Stale(rest, item) then rest
    else
      var marked := Mark(rest, item);
      var first := item.path !in s.reached;
      marked.(
        violations := s.violations + Report(w, rest, item),
        missing := if first && Judge(w, item.path).Missing? then s.missing + [item.path] else s.missing,
        pending := if first && Readable(w, item.path) then rest.pending + Children(w, marked, item) else rest.pending)
  }

  /** The visit that raises instead: the first visit of a file with an include operand that cannot be read. */
  predicate Raises(w: World, s: Walk)
    requires s.pending != []
  {
    var item := s.pending[|s.pending| - 1];
    item.path !in s.reached && Judge(w, item.path).Expanded? && w.tree.includes(item.path).None?
  }

  function Begin(roots: seq<Path>): Walk {
    Walk(seq(|roots|, i requires 0 <= i < |roots| => Item(roots[i], [roots[i]], true)), map[], map[], [], [])
  }

  // ----- what every visit keeps

  ghost predicate GenuineItem(w: World, roots: seq<Path>, item: Item) {
    LeadsTo(w, roots, item.chain, item.path) && (item.byInclude ==> EndsInInclude(w, item.chain))
  }

  ghost predicate GenuineChains(w: World, roots: seq<Path>, s: Walk) {
    && (forall item :: item in s.pending ==> GenuineItem(w, roots, item))
    && s.reached.Keys == s.byInclude.Keys
    && forall p :: p in s.reached ==> GenuineItem(w, roots, Item(p, s.reached[p], s.byInclude[p]))
  }

  /** Reached, or about to be, at least as strongly as asked. */
  ghost predicate Covered(s: Walk, path: Path, byInclude: bool) {
    || (path in s.reached && (byInclude ==> Included(s, path)))
    || exists item :: item in s.pending && item.path == path && (byInclude ==> item.byInclude)
  }

  ghost predicate Coverage(w: World, roots: seq<Path>, s: Walk) {
    && (forall r :: r in roots ==> Covered(s, r, true))
    && (forall a, b :: a in s.reached && IncludeEdge(w, a, b) ==> Covered(s, b, true))
    && (forall a, b :: a in s.reached && UnitEdge(w, a, b) ==> Covered(s, b, false))
    && (forall a :: a in s.reached && Judge(w, a).Expanded? ==> Readable(w, a))
  }

  /** The reported violations are the expected ones, once each, with genuine chains. */
  ghost predicate ExactViolations(w: World, roots: seq<Path>, s: Walk) {
    && (forall v :: v in s.violations ==>
          && v.path in s.reached && Expected(w, v.path, Included(s, v.path)) == Some((v.kind, v.detail))
          && LeadsTo(w, roots, v.reachedBy, v.path)
          && (v.kind == UnmetDependency ==> EndsInInclude(w, v.reachedBy)))
    && (forall p :: p in s.reached && Expected(w, p, Included(s, p)).Some? ==>
          exists v :: v in s.violations && v.path == p)
    && (forall i, j :: 0 <= i < j < |s.violations| ==> s.violations[i].path != s.violations[j].path)
  }

  ghost predicate ExactMissing(w: World, s: Walk) {
    && (forall p :: p in s.missing <==> p in s.reached && Judge(w, p).Missing?)
    && forall i, j :: 0 <= i < j < |s.missing| ==> s.missing[i] != s.missing[j]
  }

  ghost predicate WalkInv(w: World, roots: seq<Path>, s: Walk) {
    GenuineChains(w, roots, s) && Coverage(w, roots, s) && ExactViolations(w, roots, s) && ExactMissing(w, s)
  }

  lemma BeginInv(w: World, roots: seq<Path>)
    ensures WalkInv(w, roots, Begin(roots))
  {
    forall r | r in roots ensures Covered(Begin(roots), r, true) {
      var i :| 0 <= i < |roots| && roots[i] == r;
      assert Begin(roots).pending[i] == Item(r, [r], true);
    }
  }

  lemma {:induction false} IncludeItemsAre(s: Walk, chain: Chain, includes: seq<Path>)
    ensures forall item :: item in IncludeItems(s, chain, includes) <==>
              item.path in includes && (item.path !in s.reached || !Included(s, item.path))
              && item.chain == chain + [item.path] && item.byInclude
  {
    if includes != [] {
      IncludeItemsAre(s, chain, includes[..|includes| - 1]);
      assert includes == includes[..|includes| - 1] + [includes[|includes| - 1]];
    }
  }

  lemma {:induction false} UnitItemsAre(s: Walk, chain: Chain, units: seq<Path>)
    ensures forall item :: item in UnitItems(s, chain, units) <==>
              item.path in units && item.path !in s.reached && item.chain == chain + [item.path] && !item.byInclude
  {
    if units != [] {
      UnitItemsAre(s, chain, units[..|units| - 1]);
      assert units == units[..|units| - 1] + [units[|units| - 1]];
    }
  }

  /** The children are exactly the edges out of the path that are not yet covered. */
  lemma ChildrenAre(w: World, s: Walk, item: Item)
    requires Readable(w, item.path)
    ensures forall c :: c in Children(w, s, item) ==>
              && c.chain == item.chain + [c.path]
              && if c.byInclude then IncludeEdge(w, item.path, c.path) else UnitEdge(w, item.path, c.path)
    ensures forall b :: IncludeEdge(w, item.path, b) ==>
              (b in s.reached && Included(s, b)) || Item(b, item.chain + [b], true) in Children(w, s, item)
    ensures forall b :: UnitEdge(w, item.path, b) ==>
              b in s.reached || Item(b, item.chain + [b], false) in Children(w, s, item)
  {
    hide Judge, IncludeItems, UnitItems, IsHeader, ImplementationUnits;
    IncludeItemsAre(s, item.chain, w.tree.includes(item.path).value);
    UnitItemsAre(s, item.chain, ImplementationUnits(w, item.path));
  }

  /** Marking an entry that is not stale records its chain with its own edge kind. */
  lemma MarkGenuine(w: World, roots: seq<Path>, s: Walk, item: Item)
    requires GenuineChains(w, roots, s) && GenuineItem(w, roots, item) && !Stale(s, item)
    ensures GenuineChains(w, roots, Mark(s, item))
  {
    hide GenuineItem;
    assert Included(s, item.path) || item.byInclude == item.byInclude;
  }

  lemma ChildrenGenuine(w: World, roots: seq<Path>, s: Walk, item: Item)
    requires Readable(w, item.path) && GenuineItem(w, roots, item)
    ensures forall c :: c in Children(w, s, item) ==> GenuineItem(w, roots, c)
  {
    ChildrenAre(w, s, item);
    hide Readable, IncludeEdge, UnitEdge, Children, IsChain, EndsInInclude, Judge;
    forall c | c in Children(w, s, item) ensures GenuineItem(w, roots, c) {
      assert c.chain == item.chain + [c.path];
      ChainExtends(w, roots, item.chain, c.path);
    }
  }

  lemma VisitGenuine(w: World, roots: seq<Path>, s: Walk)
    requires GenuineChains(w, roots, s) && s.pending != [] && !Raises(w, s)
    ensures GenuineChains(w, roots, Visit(w, s))
  {
    var item := s.pending[|s.pending| - 1];
    var rest := s.(pending := s.pending[..|s.pending| - 1]);
    hide GenuineItem, Judge, Children, Mark, Stale, Report;
    if !Stale(rest, item) {
      MarkGenuine(w, roots, rest, item);
      MarkFrames(rest, item);
      if item.path !in s.reached && Readable(w, item.path) {
        ChildrenGenuine(w, roots, Mark(rest, item), item);
      }
    }
  }

  lemma MarkFrames(s: Walk, item: Item)
    ensures Mark(s, item).pending == s.pending
  {
  }

  /** What was covered stays covered. */
  lemma VisitCovers(w: World, s: Walk, path: Path, byInclude: bool)
    requires s.pending != [] && Covered(s, path, byInclude)
    ensures Covered(Visit(w, s), path, byInclude)
  {
    hide Judge, Children, Expected;
    var item := s.pending[|s.pending| - 1];
    var rest := s.pending[..|s.pending| - 1];
    assert s.pending == rest + [item];
    if !(path in s.reached && (byInclude ==> Included(s, path))) {
      var cover :| cover in s.pending && cover.path == path && (byInclude ==> cover.byInclude);
      if cover in rest {
        assert cover in Visit(w, s).pending;
      }
    }
  }

  lemma VisitCoverage(w: World, roots: seq<Path>, s: Walk)
    requires Coverage(w, roots, s) && s.pending != [] && !Raises(w, s)
    ensures Coverage(w, roots, Visit(w, s))
  {
    var s' := Visit(w, s);
    var item := s.pending[|s.pending| - 1];
    var rest := s.(pending := s.pending[..|s.pending| - 1]);
    var marked := Mark(rest, item);
    assert forall a :: a in s'.reached ==> a in s.reached || a == item.path;
    var expands := !Stale(rest, item) && item.path !in s.reached && Readable(w, item.path);
    if expands {
      ChildrenAre(w, marked, item);
      assert forall c :: c in Children(w, marked, item) ==> c in s'.pending;
    }
    hide Judge, Children, Expected, Visit, Covered, IncludeEdge, UnitEdge;
    forall r | r in roots ensures Covered(s', r, true) {
      VisitCovers(w, s, r, true);
    }
    forall a, b | a in s'.reached && IncludeEdge(w, a, b) ensures Covered(s', b, true) {
      if a in s.reached {
        VisitCovers(w, s, b, true);
      } else {
        EdgeCovered(w, s, b, true);
      }
    }
    forall a, b | a in s'.reached && UnitEdge(w, a, b) ensures Covered(s', b, false) {
      if a in s.reached {
        VisitCovers(w, s, b, false);
      } else {
        EdgeCovered(w, s, b, false);
      }
    }
  }

  /** A first visit covers every edge out of its path. */
  lemma EdgeCovered(w: World, s: Walk, b: Path, byInclude: bool)
    requires s.pending != []
    requires var item := s.pending[|s.pending| - 1];
             item.path !in s.reached
             && if byInclude then IncludeEdge(w, item.path, b) else UnitEdge(w, item.path, b)
    ensures Covered(Visit(w, s), b, byInclude)
  {
    var item := s.pending[|s.pending| - 1];
    var rest := s.(pending := s.pending[..|s.pending| - 1]);
    ChildrenAre(w, Mark(rest, item), item);
    hide Judge, Children, Expected, ImplementationUnits, IsHeader;
    var child := Item(b, item.chain + [b], byInclude);
    if child in Children(w, Mark(rest, item), item) {
      assert child in Visit(w, s).pending;
    }
  }

  /** The violation a visit reports is the expected one, with the visiting chain. */
  lemma ReportIsExpected(w: World, roots: seq<Path>, s: Walk, item: Item)
    requires GenuineItem(w, roots, item) && !Stale(s, item) && s.byInclude.Keys == s.reached.Keys
    ensures forall v :: v in Report(w, s, item) ==>
              && v.path == item.path
              && Expected(w, v.path, Included(Mark(s, item), v.path)) == Some((v.kind, v.detail))
              && LeadsTo(w, roots, v.reachedBy, v.path)
              && (v.kind == UnmetDependency ==> EndsInInclude(w, v.reachedBy))
    ensures Report(w, s, item) != [] ==>
              item.path !in s.reached || Expected(w, item.path, Included(s, item.path)).None?
    ensures Expected(w, item.path, Included(Mark(s, item), item.path)).Some? ==>
              Report(w, s, item) != []
              || (item.path in s.reached && Expected(w, item.path, Included(s, item.path)).Some?)
    ensures |Report(w, s, item)| <= 1
  {
    ExpectedGrows(w, item.path, Included(s, item.path), item.byInclude);
    hide Expected, LeadsTo, EndsInInclude;
  }

  lemma VisitExact(w: World, roots: seq<Path>, s: Walk)
    requires ExactViolations(w, roots, s) && GenuineChains(w, roots, s) && s.pending != []
    ensures ExactViolations(w, roots, Visit(w, s))
  {
    var item := s.pending[|s.pending| - 1];
    var rest := s.(pending := s.pending[..|s.pending| - 1]);
    assert GenuineItem(w, roots, item);
    hide Judge, Expected, LeadsTo, EndsInInclude, Children, GenuineChains;
    if !Stale(rest, item) {
      ReportIsExpected(w, roots, rest, item);
      ExpectedGrows(w, item.path, Included(s, item.path), item.byInclude);
      hide Report;
      AppendExact(w, roots, s, Visit(w, s), item.path, Report(w, rest, item));
    }
  }

  lemma AppendExact(w: World, roots: seq<Path>, s: Walk, t: Walk, path: Path, added: seq<Violation>)
    requires ExactViolations(w, roots, s) && t.violations == s.violations + added && |added| <= 1
    requires t.reached.Keys == s.reached.Keys + {path}
    requires forall p :: p in s.reached && p != path ==> Included(t, p) == Included(s, p)
    requires path in s.reached && Expected(w, path, Included(s, path)).Some? ==>
               Expected(w, path, Included(t, path)) == Expected(w, path, Included(s, path))
    requires forall v :: v in added ==>
               && v.path == path && Expected(w, v.path, Included(t, v.path)) == Some((v.kind, v.detail))
               && LeadsTo(w, roots, v.reachedBy, v.path)
               && (v.kind == UnmetDependency ==> EndsInInclude(w, v.reachedBy))
    requires added != [] ==> path !in s.reached || Expected(w, path, Included(s, path)).None?
    requires Expected(w, path, Included(t, path)).Some? ==>
               added != [] || (path in s.reached && Expected(w, path, Included(s, path)).Some?)
    ensures ExactViolations(w, roots, t)
  {
    hide Expected, LeadsTo, EndsInInclude, Included;
    forall p | p in t.reached && Expected(w, p, Included(t, p)).Some?
      ensures exists v :: v in t.violations && v.path == p
    {
      if p == path && added != [] {
        assert added[0] in t.violations && added[0].path == path;
      } else {
        var v :| v in s.violations && v.path == p;
        assert v in t.violations;
      }
    }
  }

  /** A further include can only add the unmet dependency, never change a reported violation. */
  lemma ExpectedGrows(w: World, path: Path, before: bool, arrived: bool)
    ensures Expected(w, path, before).Some? ==>
              Expected(w, path, before || arrived) == Expected(w, path, before)
    ensures Expected(w, path, before || arrived).Some? && Expected(w, path, before).None? ==> arrived && !before
    ensures var e := Expected(w, path, before || arrived);
            e.Some? && e.value.0 == UnmetDependency ==> before || arrived
  {
  }

  lemma VisitMissing(w: World, s: Walk)
    requires ExactMissing(w, s) && s.pending != []
    ensures ExactMissing(w, Visit(w, s))
  {
    hide Judge, Expected, Children;
  }

  lemma VisitKeepsInv(w: World, roots: seq<Path>, s: Walk)
    requires WalkInv(w, roots, s) && s.pending != [] && !Raises(w, s)
    ensures WalkInv(w, roots, Visit(w, s))
  {
    hide GenuineChains, Coverage, ExactViolations, ExactMissing, Visit, Raises;
    VisitGenuine(w, roots, s);
    VisitCoverage(w, roots, s);
    VisitExact(w, roots, s);
    VisitMissing(w, s);
  }
}
