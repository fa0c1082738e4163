/** The parts of the triage report agree with each other: the order of the list with the
    dependencies, the stages with the cycles found, the errors with the classification,
    and an error-free report with a fully resolved plan. */
module TriageAgreement {
  import opened Ordering
  import opened Graphs
  import opened Memos
  import opened Stages
  import opened Triage
  import opened TriageReport
  import opened CycleSearch

  /** A dependency is at a strictly lower stage than a resolvable issue that names it. */
  lemma StageDrops(g: Graph, p: string, q: string, n: int, m: int)
    requires Edge(g, p, q) && IsStage(g, p, n) && IsStage(g, q, m) && n < UNRESOLVED
    ensures m < n
  {
    if m == UNRESOLVED {
      UnresolvedUp(g, p, q);
      StageUnique(g, p, n, UNRESOLVED);
    } else {
      var c :| ChainFrom(g, c, q) && |c| == m + 1;
      Cons(g, p, c);
      assert Bounded(g, p, n);
    }
  }

  lemma DependencyEdge(issues: seq<IssueMemo>, x: IssueMemo, dep: string)
    requires DistinctPaths(issues) && x in issues && x.status != DONE && dep in x.dependencyPaths
    ensures Edge(DependencyGraph(ByPath(issues)), x.path, dep)
  {
    ByPathFinds(issues, x);
  }

  // ----- what an entry says about its issue ---------------------------------------------

  /** The dependency is a finished memo, and not the issue itself. */
  predicate Satisfied(x: IssueMemo, byPath: map<string, IssueMemo>, dep: string) {
    dep in byPath && byPath[dep].status == DONE && dep != x.path && Basename(dep) !in x.ambiguousNames
  }

  ghost predicate Entry(a: ActionableIssue, x: IssueMemo, byPath: map<string, IssueMemo>) {
    && a.path == x.path
    && IsStage(DependencyGraph(byPath), x.path, a.stage)
    && (a.ready ==> forall dep :: dep in x.dependencyPaths ==> Satisfied(x, byPath, dep))
  }

  lemma DescribedEntry(a: ActionableIssue, x: IssueMemo, issues: seq<IssueMemo>, adrs: seq<AdrRecord>)
    requires Describes(a, x, issues, adrs)
    ensures Entry(a, x, ByPath(issues))
  {
    var byPath := ByPath(issues);
    if a.ready {
      forall dep | dep in x.dependencyPaths ensures Satisfied(x, byPath, dep) { Unblocked(x, byPath, dep); }
    }
  }

  /** An issue is ready exactly if it is no draft, every dependency is another, finished, unambiguous
      memo and every ADR is accepted. */
  lemma ReadyExactly(a: ActionableIssue, x: IssueMemo, issues: seq<IssueMemo>, adrs: seq<AdrRecord>)
    requires Describes(a, x, issues, adrs)
    ensures a.ready <==>
      && x.status != DRAFT
      && (forall i :: 0 <= i < |x.dependencyPaths| ==> Satisfied(x, ByPath(issues), x.dependencyPaths[i]))
      && (forall i :: 0 <= i < |x.dependencyAdrIds| ==>
            x.dependencyAdrIds[i] in AdrById(adrs) && AdrById(adrs)[x.dependencyAdrIds[i]].status == "Accepted")
  {
    var byPath := ByPath(issues);
    NoAdrBlockers(AdrById(adrs), x.dependencyAdrIds);
    NoPathBlockers(x, byPath, x.dependencyPaths);
    forall i | 0 <= i < |x.dependencyPaths|
      ensures PathBlocker(x, byPath, x.dependencyPaths[i]) == [] <==> Satisfied(x, byPath, x.dependencyPaths[i]) {
    }
  }

  lemma Unblocked(x: IssueMemo, byPath: map<string, IssueMemo>, dep: string)
    requires PathBlockers(x, byPath, x.dependencyPaths) == [] && dep in x.dependencyPaths
    requires dep in byPath ==> byPath[dep].path == dep
    ensures Satisfied(x, byPath, dep)
  {
    NoPathBlockers(x, byPath, x.dependencyPaths);
    var i :| 0 <= i < |x.dependencyPaths| && x.dependencyPaths[i] == dep;
    assert PathBlocker(x, byPath, x.dependencyPaths[i]) == [];
  }

  lemma IssueAt(r: seq<ActionableIssue>, issues: seq<IssueMemo>, adrs: seq<AdrRecord>, i: nat) returns (x: IssueMemo)
    requires Actionable(r, issues, adrs) && i < |r|
    ensures x in issues && Active(x.status) && Entry(r[i], x, ByPath(issues))
  {
    x := IssueOf(r, issues, adrs, i);
    DescribedEntry(r[i], x, issues, adrs);
  }

  lemma EntryAt(r: seq<ActionableIssue>, issues: seq<IssueMemo>, adrs: seq<AdrRecord>, x: IssueMemo) returns (i: nat)
    requires Actionable(r, issues, adrs) && x in issues && Active(x.status)
    ensures i < |r| && Entry(r[i], x, ByPath(issues))
  {
    i := EntryOf(r, issues, adrs, x);
    DescribedEntry(r[i], x, issues, adrs);
  }

  lemma SamePath(issues: seq<IssueMemo>, x: IssueMemo, y: IssueMemo)
    requires DistinctPaths(issues) && x in issues && y in issues && x.path == y.path
    ensures x == y
  {
    ByPathFinds(issues, x);
    ByPathFinds(issues, y);
  }

  // ----- order --------------------------------------------------------------------------

  /** The list is a topological order of its resolvable part: an active dependency of a
      resolvable issue is listed before it. */
  lemma DependenciesComeFirst(r: seq<ActionableIssue>, issues: seq<IssueMemo>, adrs: seq<AdrRecord>,
                              i: nat, x: IssueMemo, y: IssueMemo) returns (j: nat)
    requires DistinctPaths(issues) && Actionable(r, issues, adrs)
    requires i < |r| && r[i].stage < UNRESOLVED
    requires x in issues && x.path == r[i].path && y in issues && Active(y.status) && y.path in x.dependencyPaths
    ensures j < i && r[j].path == y.path && r[j].stage < r[i].stage
  {
    var x' := IssueAt(r, issues, adrs, i);
    SamePath(issues, x, x');
    j := EntryAt(r, issues, adrs, y);
    DependencyEdge(issues, x, y.path);
    StageDrops(DependencyGraph(ByPath(issues)), x.path, y.path, r[i].stage, r[j].stage);
    NotReady(r[i], x, issues, y);
    RankedBefore(r, j, i);
  }

  /** An unfinished dependency keeps an issue from being ready. */
  lemma NotReady(a: ActionableIssue, x: IssueMemo, issues: seq<IssueMemo>, y: IssueMemo)
    requires DistinctPaths(issues) && Entry(a, x, ByPath(issues))
    requires y in issues && y.status != DONE && y.path in x.dependencyPaths
    ensures !a.ready
  {
    ByPathFinds(issues, y);
    assert !Satisfied(x, ByPath(issues), y.path);
  }

  lemma RankedBefore(r: seq<ActionableIssue>, j: nat, i: nat)
    requires Ordered(r, RankLe) && i < |r| && j < |r|
    requires !r[i].ready && r[j].stage < r[i].stage
    ensures j < i
  {
    assert j != i;
    assert i < j ==> InOrder(r, RankLe, i, j);
  }

  /** A ready issue waits for nothing: it has no dependencies, or only finished ones. */
  lemma ReadyIsShallow(r: seq<ActionableIssue>, issues: seq<IssueMemo>, adrs: seq<AdrRecord>, i: nat)
    requires DistinctPaths(issues) && Actionable(r, issues, adrs) && i < |r| && r[i].ready
    ensures r[i].stage <= 1
  {
    var x := IssueAt(r, issues, adrs, i);
    ByPathFinds(issues, x);
    ShallowStage(x, ByPath(issues), r[i].stage);
  }

  lemma ShallowStage(x: IssueMemo, byPath: map<string, IssueMemo>, n: int)
    requires x.path in byPath && byPath[x.path] == x && IsStage(DependencyGraph(byPath), x.path, n)
    requires forall dep :: dep in x.dependencyPaths ==> Satisfied(x, byPath, dep)
    ensures n <= 1
  {
    var g := DependencyGraph(byPath);
    forall c | ChainFrom(g, c, x.path) ensures |c| <= 2 && c[|c| - 1] in g {
      if |c| > 1 {
        assert Step(g, c, 0);
        assert Satisfied(x, byPath, c[1]);
        assert Step(g, c, 1);
      }
    }
    var c :| ChainFrom(g, c, x.path) && (|c| == n + 1 || (n == UNRESOLVED && Unresolving(g, c, x.path)));
  }

  // ----- cycles -------------------------------------------------------------------------

  lemma {:induction false} ActiveWalk(issues: seq<IssueMemo>, c: seq<string>)
    requires DistinctPaths(issues) && Walk(ActiveGraph(issues), c)
    ensures Walk(DependencyGraph(ByPath(issues)), c)
  {
    var g := DependencyGraph(ByPath(issues));
    forall i | 0 <= i < |c| - 1 ensures Step(g, c, i) {
      assert Step(ActiveGraph(issues), c, i);
      ActiveEdgeIsDependency(issues, c[i], c[i + 1]);
    }
  }

  /** Every member of a component of two or more lies on a closed walk. */
  lemma OnCycle(g: Graph, s: set<string>, p: string) returns (c: seq<string>)
    requires IsScc(g, s) && |s| >= 2 && p in s
    ensures WalkFromTo(g, c, p, p) && |c| > 1
  {
    assert |s - {p}| == |s| - 1;
    var q :| q in s - {p};
    assert Mutual(g, p, q);
    var there :| WalkFromTo(g, there, p, q);
    var back :| WalkFromTo(g, back, q, p);
    WalkJoin(g, there, back);
    c := there + back[1..];
  }

  lemma CycleBlocked(r: seq<ActionableIssue>, issues: seq<IssueMemo>, adrs: seq<AdrRecord>,
                     cycles: seq<seq<string>>, c: seq<string>, p: string) returns (i: nat)
    requires DistinctPaths(issues) && Actionable(r, issues, adrs)
    requires ExactCycles(ActiveGraph(issues), cycles) && c in cycles && p in c
    ensures i < |r| && r[i].path == p && !r[i].ready && r[i].stage == UNRESOLVED
  {
    var s :| CycleOf(ActiveGraph(issues), c, s);
    var walk := OnCycle(ActiveGraph(issues), s, p);
    ActiveWalk(issues, walk);
    assert Step(ActiveGraph(issues), walk, 0);
    i := CyclicBlocked(r, issues, adrs, p, walk[1]);
  }

  lemma CyclicBlocked(r: seq<ActionableIssue>, issues: seq<IssueMemo>, adrs: seq<AdrRecord>, p: string, q: string) returns (i: nat)
    requires DistinctPaths(issues) && Actionable(r, issues, adrs)
    requires Edge(ActiveGraph(issues), p, q) && Below(DependencyGraph(ByPath(issues)), p, p)
    ensures i < |r| && r[i].path == p && !r[i].ready && r[i].stage == UNRESOLVED
  {
    ActiveEdge(issues, p, q);
    var x, y :| x in issues && y in issues && x.path == p && y.path == q
                && Active(x.status) && Active(y.status) && q in x.dependencyPaths;
    i := EntryAt(r, issues, adrs, x);
    CycleStage(DependencyGraph(ByPath(issues)), p);
    StageUnique(DependencyGraph(ByPath(issues)), p, r[i].stage, UNRESOLVED);
    NotReady(r[i], x, issues, y);
  }

  // ----- errors -------------------------------------------------------------------------

  predicate DependencyError(e: Reason) {
    e.DependsOnSelf? || e.AmbiguousDependency? || e.PathNotFound?
  }

  /** A name is marked ambiguous only because some dependency with it stays unknown. */
  lemma AmbiguousMeansUnknown(raw: seq<IssueMemo>, k: nat, name: string) returns (dep: string)
    requires k < |raw| && name in Resolved(raw, raw[k]).ambiguousNames
    ensures dep in Resolved(raw, raw[k]).dependencyPaths && dep !in KnownPaths(raw) && Basename(dep) == name
  {
    var deps := raw[k].dependencyPaths;
    AmbiguousNamesExact(raw, deps, name);
    var i :| 0 <= i < |deps| && AmbiguousPath(raw, deps[i]) && Basename(deps[i]) == name;
    dep := deps[i];
    ResolvedKnown(raw, dep);
    assert ResolvePaths(raw, deps)[i] == dep;
  }

  lemma ByPathKeys(issues: seq<IssueMemo>)
    ensures ByPath(issues).Keys == KnownPaths(issues)
  {
  }

  lemma BrokenDependencyBlocks(report: Report, raw: seq<IssueMemo>, adrs: seq<AdrRecord>, k: nat, dep: string) returns (i: nat)
    requires DistinctPaths(raw) && IsReport(report, raw, adrs) && k < |raw| && Active(raw[k].status)
    requires dep in AllResolved(raw)[k].dependencyPaths
    requires PathReasons(AllResolved(raw)[k], AllResolved(raw), dep) != []
    ensures i < |report.actionable| && report.actionable[i].path == raw[k].path
    ensures !report.actionable[i].ready && report.actionable[i].stage == UNRESOLVED
  {
    var issues := AllResolved(raw);
    var x := issues[k];
    ResolvedFrame(raw);
    ByPathKeys(issues);
    assert x in issues;
    i := EntryAt(report.actionable, issues, adrs, x);
    assert !Satisfied(x, ByPath(issues), dep);
    BrokenStage(raw, k, dep);
    StageUnique(DependencyGraph(ByPath(issues)), x.path, report.actionable[i].stage, UNRESOLVED);
  }

  lemma BrokenStage(raw: seq<IssueMemo>, k: nat, dep: string)
    requires DistinctPaths(raw) && k < |raw| && Active(raw[k].status)
    requires dep in AllResolved(raw)[k].dependencyPaths
    requires PathReasons(AllResolved(raw)[k], AllResolved(raw), dep) != []
    ensures IsStage(DependencyGraph(ByPath(AllResolved(raw))), raw[k].path, UNRESOLVED)
  {
    var issues := AllResolved(raw);
    var x := issues[k];
    var g := DependencyGraph(ByPath(issues));
    ResolvedFrame(raw);
    ByPathKeys(issues);
    assert x in issues;
    if dep == x.path {
      DependencyEdge(issues, x, dep);
      BelowStep(g, x.path, x.path, x.path);
      CycleStage(g, x.path);
    } else {
      var lost := dep;
      if Basename(dep) in x.ambiguousNames {
        lost := AmbiguousMeansUnknown(raw, k, Basename(dep));
      }
      DependencyEdge(issues, x, lost);
      MissingStage(g, lost);
      UnresolvedUp(g, x.path, lost);
    }
  }

  lemma {:induction false} AdrReasonKinds(known: set<string>, ids: seq<string>, r: Reason)
    requires r in AdrReasons(known, ids)
    ensures r.AdrNotFound?
  {
    var n := |ids| - 1;
    if r in AdrReasons(known, ids[..n]) { AdrReasonKinds(known, ids[..n], r); }
  }

  /** Reasons of memos are no cycles, and dependency errors among them come from a dependency. */
  lemma ReasonKinds(x: IssueMemo, issues: seq<IssueMemo>, adrIds: set<string>, r: Reason)
    requires r in IssueReasons(x, issues, adrIds)
    ensures !r.DependencyCycle?
    ensures DependencyError(r) ==> exists i :: 0 <= i < |x.dependencyPaths| && r in PathReasons(x, issues, x.dependencyPaths[i])
  {
    AllPathReasonsExact(x, issues, x.dependencyPaths, r);
    if r in AdrReasons(adrIds, x.dependencyAdrIds) { AdrReasonKinds(adrIds, x.dependencyAdrIds, r); }
  }

  /** An error of a report is one of a memo, or it names a cycle that the search found. */
  lemma ErrorFrom(report: Report, raw: seq<IssueMemo>, adrs: seq<AdrRecord>, e: TriageError) returns (cycles: seq<seq<string>>)
    requires IsReport(report, raw, adrs) && e in report.errors
    ensures ExactCycles(ActiveGraph(AllResolved(raw)), cycles)
    ensures e in IssueErrors(AllResolved(raw), AllResolved(raw), AdrIds(adrs))
         || (e.reason.DependencyCycle? && e.reason.members in cycles)
  {
    var issues := AllResolved(raw);
    cycles :| ExactCycles(ActiveGraph(issues), cycles) && report.errors == IssueErrors(issues, issues, AdrIds(adrs)) + CycleErrors(cycles);
    if e in CycleErrors(cycles) {
      var i :| 0 <= i < |cycles| && CycleErrors(cycles)[i] == e;
      assert cycles[i] in cycles;
    }
  }

  /** Every member of a reported cycle is listed, is not ready, and has stage 999. */
  lemma CycleMembersBlocked(report: Report, raw: seq<IssueMemo>, adrs: seq<AdrRecord>, e: TriageError, p: string) returns (i: nat)
    requires DistinctPaths(raw) && IsReport(report, raw, adrs)
    requires e in report.errors && e.reason.DependencyCycle? && p in e.reason.members
    ensures i < |report.actionable| && report.actionable[i].path == p
    ensures !report.actionable[i].ready && report.actionable[i].stage == UNRESOLVED
  {
    var issues := AllResolved(raw);
    var cycles := ErrorFrom(report, raw, adrs, e);
    if e in IssueErrors(issues, issues, AdrIds(adrs)) {
      var x := MemoOf(issues, AdrIds(adrs), e);
      ReasonKinds(x, issues, AdrIds(adrs), e.reason);
    }
    ResolvedFrame(raw);
    i := CycleBlocked(report.actionable, issues, adrs, cycles, e.reason.members, p);
  }

  lemma MemoOf(issues: seq<IssueMemo>, adrIds: set<string>, e: TriageError) returns (x: IssueMemo)
    requires e in IssueErrors(issues, issues, adrIds)
    ensures x in issues && e.path == x.path && e.reason in IssueReasons(x, issues, adrIds)
  {
    IssueErrorsExact(issues, issues, adrIds, e);
    x :| x in issues && e.path == x.path && e.reason in IssueReasons(x, issues, adrIds);
  }

  /** An active issue for which a self, ambiguous or missing dependency is reported is listed as
      blocked, and its stage is 999. */
  lemma DependencyErrorsBlock(report: Report, raw: seq<IssueMemo>, adrs: seq<AdrRecord>, e: TriageError, k: nat) returns (i: nat)
    requires DistinctPaths(raw) && IsReport(report, raw, adrs) && e in report.errors && DependencyError(e.reason)
    requires k < |raw| && raw[k].path == e.path && Active(raw[k].status)
    ensures i < |report.actionable| && report.actionable[i].path == e.path
    ensures !report.actionable[i].ready && report.actionable[i].stage == UNRESOLVED
  {
    var issues := AllResolved(raw);
    var _ := ErrorFrom(report, raw, adrs, e);
    var x := MemoOf(issues, AdrIds(adrs), e);
    ResolvedFrame(raw);
    assert issues[k] in issues;
    SamePath(issues, x, issues[k]);
    ReasonKinds(x, issues, AdrIds(adrs), e.reason);
    var j :| 0 <= j < |x.dependencyPaths| && e.reason in PathReasons(x, issues, x.dependencyPaths[j]);
    i := BrokenDependencyBlocks(report, raw, adrs, k, x.dependencyPaths[j]);
  }

  // ----- a clean report -----------------------------------------------------------------

  predicate Fine(x: IssueMemo, known: set<string>) {
    && (Active(x.status) || x.status == DONE)
    && forall dep :: dep in x.dependencyPaths ==> dep in known && dep != x.path
  }

  /** What the absence of errors says about the memos. */
  ghost predicate Sound(issues: seq<IssueMemo>) {
    && (forall x :: x in issues ==> Fine(x, KnownPaths(issues)))
    && (forall s {:trigger Sorted(s)} :: !CycleOf(ActiveGraph(issues), Sorted(s), s))
  }

  lemma CleanIssue(issues: seq<IssueMemo>, adrIds: set<string>, x: IssueMemo)
    requires IssueErrors(issues, issues, adrIds) == [] && x in issues
    ensures Fine(x, KnownPaths(issues))
  {
    var reasons := IssueReasons(x, issues, adrIds);
    forall r ensures r !in reasons {
      IssueErrorsExact(issues, issues, adrIds, TriageError(x.path, r));
    }
    HeadIn(reasons);
    NoReasonsFine(x, issues, adrIds);
  }

  lemma NoReasonsFine(x: IssueMemo, issues: seq<IssueMemo>, adrIds: set<string>)
    requires IssueReasons(x, issues, adrIds) == []
    ensures Fine(x, KnownPaths(issues))
  {
    assert MetadataReasons(x) == [];
    forall dep | dep in x.dependencyPaths ensures dep in KnownPaths(issues) && dep != x.path {
      NoPathReasons(x, issues, x.dependencyPaths, dep);
    }
  }

  lemma {:induction false} NoPathReasons(x: IssueMemo, issues: seq<IssueMemo>, deps: seq<string>, dep: string)
    requires AllPathReasons(x, issues, deps) == [] && dep in deps
    ensures PathReasons(x, issues, dep) == []
  {
    var n := |deps| - 1;
    if dep != deps[n] {
      assert dep in deps[..n];
      NoPathReasons(x, issues, deps[..n], dep);
    }
  }

  lemma NoCycleErrors(issues: seq<IssueMemo>, cycles: seq<seq<string>>, s: set<string>)
    requires ExactCycles(ActiveGraph(issues), cycles) && CycleErrors(cycles) == []
    ensures !CycleOf(ActiveGraph(issues), Sorted(s), s)
  {
    assert |CycleErrors(cycles)| == |cycles|;
    assert Sorted(s) !in cycles;
  }

  lemma CleanSound(report: Report, raw: seq<IssueMemo>, adrs: seq<AdrRecord>)
    requires IsReport(report, raw, adrs) && report.errors == []
    ensures Sound(AllResolved(raw))
  {
    var issues := AllResolved(raw);
    var cycles :| ExactCycles(ActiveGraph(issues), cycles)
                  && report.errors == IssueErrors(issues, issues, AdrIds(adrs)) + CycleErrors(cycles);
    forall x | x in issues ensures Fine(x, KnownPaths(issues)) {
      CleanIssue(issues, AdrIds(adrs), x);
    }
    forall s ensures !CycleOf(ActiveGraph(issues), Sorted(s), s) {
      NoCycleErrors(issues, cycles, s);
    }
  }

  lemma SoundEdge(issues: seq<IssueMemo>, p: string, q: string)
    requires Sound(issues) && Edge(DependencyGraph(ByPath(issues)), p, q)
    ensures q in ByPath(issues) && q != p
  {
    ByPathKeys(issues);
    assert Fine(ByPath(issues)[p], KnownPaths(issues));
  }

  lemma NothingMissing(issues: seq<IssueMemo>, p: string)
    requires Sound(issues) && p in ByPath(issues)
    ensures !ReachesMissing(DependencyGraph(ByPath(issues)), p)
  {
    var g := DependencyGraph(ByPath(issues));
    forall x, y | x in g.Keys && Edge(g, x, y) ensures y in g.Keys {
      SoundEdge(issues, x, y);
    }
    forall q | Reach(g, p, q) ensures q in g {
      ReachStaysInside(g, g.Keys, p, q);
    }
  }

  /** In a sound plan a dependency between unfinished issues joins two active ones. */
  lemma SoundActiveEdge(issues: seq<IssueMemo>, p: string, q: string, r: string)
    requires DistinctPaths(issues) && Sound(issues)
    requires Edge(DependencyGraph(ByPath(issues)), p, q) && Edge(DependencyGraph(ByPath(issues)), q, r)
    ensures Edge(ActiveGraph(issues), p, q)
  {
    SoundEdge(issues, p, q);
    var x, y := ByPath(issues)[p], ByPath(issues)[q];
    assert Fine(x, KnownPaths(issues)) && Fine(y, KnownPaths(issues));
    ActiveEdge(issues, p, q);
  }

  /** A closed walk of at least one step puts its start in a component of two or more. */
  lemma CycleFound(g: Graph, c: seq<string>) returns (s: set<string>)
    requires Closed(g) && Walk(g, c) && |c| > 1 && c[|c| - 1] == c[0] && c[1] != c[0]
    ensures CycleOf(g, Sorted(s), s)
  {
    var p := c[0];
    assert Step(g, c, 0);
    ReachEdge(g, p, c[1]);
    Segment(g, c, 1, |c| - 1);
    assert Reach(g, c[1], p);
    ReachRefl(g, p);
    s := ComponentOf(g, p);
    assert Mutual(g, p, c[1]);
    assert p in s && c[1] in s;
    SubsetCard({p, c[1]}, s);
  }

  lemma ComponentOf(g: Graph, p: string) returns (s: set<string>)
    requires Closed(g) && p in g
    ensures IsScc(g, s) && p in s
  {
    s := set y | y in g.Keys && Mutual(g, p, y);
    ReachRefl(g, p);
    assert Mutual(g, p, p);
    forall x, y | x in s ensures y in s <==> Mutual(g, x, y) {
      if y in s {
        ReachTrans(g, x, p, y);
        ReachTrans(g, y, p, x);
      }
      if Mutual(g, x, y) {
        ReachTrans(g, p, x, y);
        ReachTrans(g, y, x, p);
        ReachStaysInside(g, g.Keys, p, y);
      }
    }
  }

  lemma StepEdge(g: Graph, c: seq<string>, i: nat)
    requires Walk(g, c) && i < |c| - 1
    ensures Edge(g, c[i], c[i + 1])
  {
    assert Step(g, c, i);
  }

  lemma SoundStep(issues: seq<IssueMemo>, c: seq<string>, i: nat)
    requires DistinctPaths(issues) && Sound(issues)
    requires Walk(DependencyGraph(ByPath(issues)), c) && i < |c| - 1 && c[|c| - 1] == c[0]
    ensures Step(ActiveGraph(issues), c, i)
  {
    var next := if i + 2 < |c| then i + 1 else 0;
    assert c[next] == c[i + 1];
    StepEdge(DependencyGraph(ByPath(issues)), c, i);
    StepEdge(DependencyGraph(ByPath(issues)), c, next);
    SoundActiveEdge(issues, c[i], c[i + 1], c[next + 1]);
  }

  lemma SoundWalk(issues: seq<IssueMemo>, c: seq<string>)
    requires DistinctPaths(issues) && Sound(issues)
    requires Walk(DependencyGraph(ByPath(issues)), c) && |c| > 1 && c[|c| - 1] == c[0]
    ensures Walk(ActiveGraph(issues), c)
  {
    forall i | 0 <= i < |c| - 1 ensures Step(ActiveGraph(issues), c, i) {
      SoundStep(issues, c, i);
    }
  }

  lemma NoCycle(issues: seq<IssueMemo>, p: string)
    requires DistinctPaths(issues) && Sound(issues)
    ensures !Below(DependencyGraph(ByPath(issues)), p, p)
  {
    if c :| WalkFromTo(DependencyGraph(ByPath(issues)), c, p, p) && |c| > 1 {
      SoundWalk(issues, c);
      assert Step(DependencyGraph(ByPath(issues)), c, 0);
      SoundEdge(issues, c[0], c[1]);
      var s := CycleFound(ActiveGraph(issues), c);
    }
  }

  lemma SoundResolved(issues: seq<IssueMemo>, p: string)
    requires DistinctPaths(issues) && Sound(issues)
    requires |KnownPaths(issues)| <= UNRESOLVED && p in ByPath(issues)
    ensures !IsStage(DependencyGraph(ByPath(issues)), p, UNRESOLVED)
  {
    var g := DependencyGraph(ByPath(issues));
    ByPathKeys(issues);
    assert g.Keys == ByPath(issues).Keys;
    SentinelSound(g, p);
    NothingMissing(issues, p);
    forall q ensures !Below(g, q, q) {
      NoCycle(issues, q);
    }
  }

  /** An error-free report over at most 999 memos is fully resolved: no active issue has the
      sentinel stage, so the whole list is a topological order. */
  lemma CleanReportResolved(report: Report, raw: seq<IssueMemo>, adrs: seq<AdrRecord>, i: nat)
    requires DistinctPaths(raw) && IsReport(report, raw, adrs) && report.errors == []
    requires |KnownPaths(raw)| <= UNRESOLVED && i < |report.actionable|
    ensures report.actionable[i].stage < UNRESOLVED
  {
    var issues := AllResolved(raw);
    var x := IssueAt(report.actionable, issues, adrs, i);
    ResolvedFrame(raw);
    CleanSound(report, raw, adrs);
    assert x.path in ByPath(issues);
    SoundResolved(issues, x.path);
  }
}
