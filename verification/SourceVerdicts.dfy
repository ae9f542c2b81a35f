/** What the ledger and the tree alone say of each path: which edges leave it, and what is reported of it. */
module SourceVerdicts {
  import opened Wrappers
  import opened SourceClosure
  import opened ClosureWalk

  ghost predicate UnderForbidden(w: World, path: Path) {
    exists i :: 0 <= i < |w.ledger.forbiddenPrefixes| && w.ledger.forbiddenPrefixes[i] <= path
  }

  /** The prefix starts the path and none before it in the ledger does. */
  ghost predicate IsFirstPrefix(w: World, path: Path, prefix: string) {
    exists i :: 0 <= i < |w.ledger.forbiddenPrefixes| && w.ledger.forbiddenPrefixes[i] == prefix <= path
                && forall j :: 0 <= j < i ==> !(w.ledger.forbiddenPrefixes[j] <= path)
  }

  predicate Classed(w: World, path: Path, d: Disposition) {
    path in w.ledger.dispositions && w.ledger.dispositions[path] == d
  }

  predicate Undecidable(w: World, path: Path) {
    path !in w.ledger.dispositions
  }

  /** A vendor file of the tree under no forbidden prefix: the only kind that is read. */
  ghost predicate Expands(w: World, path: Path) {
    !UnderForbidden(w, path) && Classed(w, path, Vendor) && path in w.tree.files
  }

  /** The unit has the header's stem and exists, or the ledger declares it for the header. */
  ghost predicate Implements(w: World, header: Path, unit: Path) {
    || (unit in w.tree.files
        && exists stem: Path :: header in {stem + ".h", stem + ".hpp"} && unit in {stem + ".cc", stem + ".cpp"})
    || (header in w.ledger.declaredImplementations && unit in w.ledger.declaredImplementations[header])
  }

  lemma SuffixCut(path: string, suffix: string)
    ensures EndsWith(path, suffix) <==> exists stem: string :: path == stem + suffix
    ensures EndsWith(path, suffix) ==> path == path[..|path| - |suffix|] + suffix
  {
    if EndsWith(path, suffix) {
      assert path == path[..|path| - |suffix|] + suffix;
    }
    forall stem: string | path == stem + suffix ensures EndsWith(path, suffix) {
      assert (stem + suffix)[|stem|..] == suffix;
    }
  }

  /** Which verdict is given, from the prefixes, the dispositions, the generated headers and the tree. */
  lemma VerdictsAre(w: World, path: Path)
    ensures var v := Judge(w, path);
            && (v.UnderPrefix? <==> UnderForbidden(w, path))
            && (v.UnderPrefix? ==> IsFirstPrefix(w, path, v.prefix))
            && (!UnderForbidden(w, path) ==>
                  && (v.ClassifiedForbidden? <==> Classed(w, path, ForbiddenFile))
                  && (v.Expanded? <==> Classed(w, path, Vendor) && path in w.tree.files)
                  && (v.Missing? <==> Classed(w, path, Vendor) && path !in w.tree.files)
                  && (v.Declined? <==> exists d :: d in {FirstParty, ReferenceOnly, Discard} && Classed(w, path, d))
                  && (v.Declined? ==> Classed(w, path, v.disposition))
                  && (v.Undecided? <==> Undecidable(w, path) && path !in w.ledger.generatedHeaders)
                  && (v.GeneratedPresent? <==>
                        Undecidable(w, path) && path in w.ledger.generatedHeaders && path in w.tree.files)
                  && (v.GeneratedAbsent? <==>
                        Undecidable(w, path) && path in w.ledger.generatedHeaders && path !in w.tree.files))
  {
    if path in w.ledger.dispositions {
      assert Classed(w, path, w.ledger.dispositions[path]);
    }
  }

  lemma FirstPrefixUnique(w: World, path: Path, a: string, b: string)
    requires IsFirstPrefix(w, path, a) && IsFirstPrefix(w, path, b)
    ensures a == b
  {
  }

  /** The edges out of a path. */
  lemma EdgesAre(w: World, a: Path, b: Path)
    ensures IncludeEdge(w, a, b) <==> Expands(w, a) && w.tree.includes(a).Some? && b in w.tree.includes(a).value
    ensures UnitEdge(w, a, b) <==>
            && Expands(w, a) && w.tree.includes(a).Some? && (exists stem: Path :: a in {stem + ".h", stem + ".hpp"})
            && Implements(w, a, b)
  {
    VerdictsAre(w, a);
    UnitsAre(w, a, b);
    SuffixCut(a, ".h");
    SuffixCut(a, ".hpp");
    hide Judge, ImplementationUnits, EndsWith, UnderForbidden;
    if IsHeader(a) {
      var stem := if EndsWith(a, ".h") then a[..|a| - 2] else a[..|a| - 4];
      assert a in {stem + ".h", stem + ".hpp"};
    }
  }

  lemma StemIs(header: Path, stem: Path)
    requires header in {stem + ".h", stem + ".hpp"}
    ensures Stem(header) == stem && IsHeader(header)
  {
    if header == stem + ".h" {
      assert header[|header| - 2..] == ".h" && header[..|header| - 2] == stem;
    } else {
      assert header[|header| - 4..] == ".hpp" && header[..|header| - 4] == stem;
      assert header[|header| - 1] == 'p';
    }
  }

  lemma UnitsAre(w: World, header: Path, unit: Path)
    ensures IsHeader(header) ==> (unit in ImplementationUnits(w, header) <==> Implements(w, header, unit))
  {
    if IsHeader(header) {
      SuffixCut(header, ".h");
      SuffixCut(header, ".hpp");
      var own := if EndsWith(header, ".h") then header[..|header| - 2] else header[..|header| - 4];
      assert header in {own + ".h", own + ".hpp"};
      StemIs(header, own);
      hide EndsWith, Stem, IsHeader;
      if stem: Path :| header in {stem + ".h", stem + ".hpp"} && unit in {stem + ".cc", stem + ".cpp"} {
        StemIs(header, stem);
      }
    }
  }

  // ----- what a closure reports

  ghost predicate Reports(r: Result, kind: Kind, path: Path, detail: Detail)
    requires r.Closure?
  {
    exists v :: v in r.violations && v.kind == kind && v.path == path && v.detail == detail
  }

  /** What the ledger and the tree demand to be reported of a path that is reached. */
  ghost predicate Offends(w: World, roots: seq<Path>, kind: Kind, path: Path, detail: Detail) {
    match (kind, detail)
    case (Forbidden, ForbiddenBy(prefix)) => IsFirstPrefix(w, path, prefix)
    case (Forbidden, Classified(d)) => d == ForbiddenFile && !UnderForbidden(w, path) && Classed(w, path, d)
    case (Unclassified, DeclaredGenerated) =>
      && !UnderForbidden(w, path) && Undecidable(w, path)
      && path in w.ledger.generatedHeaders && path in w.tree.files
    case (Unclassified, NoDetail) =>
      !UnderForbidden(w, path) && Undecidable(w, path) && path !in w.ledger.generatedHeaders
    case (UnmetDependency, Classified(d)) =>
      && d in {FirstParty, ReferenceOnly, Discard} && !UnderForbidden(w, path) && Classed(w, path, d)
      && ByInclude(w, roots, path)
    case _ => false
  }

  lemma OffendsIffExpected(w: World, roots: seq<Path>, kind: Kind, path: Path, detail: Detail)
    ensures Offends(w, roots, kind, path, detail) <==> Expected(w, path, ByInclude(w, roots, path)) == Some((kind, detail))
  {
    VerdictsAre(w, path);
    if detail.ForbiddenBy? && IsFirstPrefix(w, path, detail.prefix) && UnderForbidden(w, path) {
      FirstPrefixUnique(w, path, detail.prefix, Judge(w, path).prefix);
    }
    hide Judge, ByInclude;
  }

  /** A finished closure reports of every reachable path exactly what ledger and tree demand, and misses exactly the absent vendor files. */
  lemma ReportIsDemanded(w: World, roots: seq<Path>, r: Result, kind: Kind, path: Path, detail: Detail)
    requires r.Closure? && IsClosure(w, roots, r)
    ensures Reports(r, kind, path, detail) <==> Reachable(w, roots, path) && Offends(w, roots, kind, path, detail)
    ensures path in r.missing <==>
            && Reachable(w, roots, path) && !UnderForbidden(w, path) && Classed(w, path, Vendor)
            && path !in w.tree.files
  {
    OffendsIffExpected(w, roots, kind, path, detail);
    VerdictsAre(w, path);
    hide Judge, Reachable, ByInclude, Offends, Expected, LeadsTo, EndsInInclude, ExactReach, UnderForbidden, Classed, Undecidable;
    if Reachable(w, roots, path) && Offends(w, roots, kind, path, detail) {
      var v :| v in r.violations && v.path == path;
      assert Expected(w, v.path, ByInclude(w, roots, v.path)) == Some((v.kind, v.detail));
    }
  }

  /** A forbidden prefix wins over every disposition: the path is reported, and nothing is read from it. */
  lemma PrefixWins(w: World, roots: seq<Path>, r: Result, path: Path, prefix: string)
    requires r.Closure? && IsClosure(w, roots, r) && Reachable(w, roots, path) && IsFirstPrefix(w, path, prefix)
    ensures Reports(r, Forbidden, path, ForbiddenBy(prefix))
    ensures forall b :: !IncludeEdge(w, path, b) && !UnitEdge(w, path, b)
  {
    ReportIsDemanded(w, roots, r, Forbidden, path, ForbiddenBy(prefix));
    hide IsClosure, Reachable, IncludeEdge, UnitEdge, Reports;
    forall b ensures !IncludeEdge(w, path, b) && !UnitEdge(w, path, b) {
      EdgesAre(w, path, b);
    }
  }

  /** And reading fails exactly at a file that would be read but has an include operand that cannot be. */
  lemma BlocksAre(w: World, roots: seq<Path>, path: Path)
    ensures Blocks(w, roots, path) <==> Reachable(w, roots, path) && Expands(w, path) && w.tree.includes(path).None?
  {
    VerdictsAre(w, path);
    hide Judge;
  }
}
