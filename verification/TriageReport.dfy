/** The whole run: errors, counts and the actionable list, and how they agree. */
module TriageReport {
  import opened Ordering
  import opened Graphs
  import opened Memos
  import opened Triage
  import opened CycleSearch
  import Text

  // ----- the graph of active issues -----------------------------------------------------

  function OtherActive(deps: seq<string>, active: set<string>, p: string): (r: seq<string>)
    ensures forall d :: d in r <==> d in deps && d in active && d != p
  {
    if deps == [] then [] else
      var n := |deps| - 1;
      assert deps == deps[..n] + [deps[n]];
      OtherActive(deps[..n], active, p) + (if deps[n] in active && deps[n] != p then [deps[n]] else [])
  }

  /** Active issues only, without self-loops. */
  function ActiveGraph(issues: seq<IssueMemo>): Graph {
    var active := ByPath(ActiveOf(issues));
    map p | p in active :: OtherActive(active[p].dependencyPaths, active.Keys, p)
  }

  method FindActiveDependencyCycles(issues: seq<IssueMemo>) returns (r: seq<seq<string>>)
    ensures ExactCycles(ActiveGraph(issues), r)
  {
    r := FindCycles(ActiveGraph(issues));
  }

  lemma {:induction false} ActiveOfExact(issues: seq<IssueMemo>)
    ensures forall x :: x in ActiveOf(issues) <==> x in issues && Active(x.status)
    ensures DistinctPaths(issues) ==> DistinctPaths(ActiveOf(issues))
  {
    if issues != [] {
      var n := |issues| - 1;
      ActiveOfExact(issues[..n]);
      assert issues == issues[..n] + [issues[n]];
    }
  }

  lemma ActiveEdge(issues: seq<IssueMemo>, p: string, q: string)
    requires DistinctPaths(issues)
    ensures Edge(ActiveGraph(issues), p, q) <==>
      p != q && exists x, y :: x in issues && y in issues && x.path == p && y.path == q
                               && Active(x.status) && Active(y.status) && q in x.dependencyPaths
  {
    ActiveOfExact(issues);
    var active := ByPath(ActiveOf(issues));
    if Edge(ActiveGraph(issues), p, q) {
      assert active[p] in issues && active[q] in issues;
    }
    if x, y :| x in issues && y in issues && x.path == p && y.path == q
               && Active(x.status) && Active(y.status) && q in x.dependencyPaths {
      ByPathFinds(ActiveOf(issues), x);
    }
  }

  /** Every edge between active issues is a dependency. */
  lemma ActiveEdgeIsDependency(issues: seq<IssueMemo>, p: string, q: string)
    requires DistinctPaths(issues) && Edge(ActiveGraph(issues), p, q)
    ensures Edge(DependencyGraph(ByPath(issues)), p, q)
  {
    ActiveEdge(issues, p, q);
    var x, y :| x in issues && y in issues && x.path == p && y.path == q
                && Active(x.status) && Active(y.status) && q in x.dependencyPaths;
    ByPathFinds(issues, x);
    LiveEdge(ByPath(issues), x, q);
  }

  lemma LiveEdge(byPath: map<string, IssueMemo>, x: IssueMemo, q: string)
    requires x.path in byPath && byPath[x.path] == x && Active(x.status) && q in x.dependencyPaths
    ensures Edge(DependencyGraph(byPath), x.path, q)
  {
  }

  // ----- errors -------------------------------------------------------------------------

  datatype Reason =
    | MissingStatus
    | InvalidStatus(status: string)
    | MissingPriority
    | DependsOnSelf(dep: string)
    | AmbiguousDependency(name: string, candidates: seq<string>)
    | PathNotFound(dep: string)
    | AdrNotFound(id: string)
    | DependencyCycle(members: seq<string>)

  datatype TriageError = TriageError(path: string, reason: Reason)

  function MetadataReasons(x: IssueMemo): seq<Reason> {
    (if x.status == "Unknown" then [MissingStatus]
     else if !Active(x.status) && x.status != DONE then [InvalidStatus(x.status)] else [])
    + (if x.priority == "N/A" || Text.Blank(x.priority, Text.PySpace) then [MissingPriority] else [])
  }

  function PathReasons(x: IssueMemo, issues: seq<IssueMemo>, dep: string): seq<Reason> {
    if dep == x.path then [DependsOnSelf(dep)]
    else if Basename(dep) in x.ambiguousNames then
      [AmbiguousDependency(Basename(dep), SortBy(PathsNamed(issues, Basename(dep)), Le))]
    else if dep !in KnownPaths(issues) then [PathNotFound(dep)]
    else []
  }

  function AllPathReasons(x: IssueMemo, issues: seq<IssueMemo>, deps: seq<string>): seq<Reason> {
    if deps == [] then [] else
      var n := |deps| - 1;
      AllPathReasons(x, issues, deps[..n]) + PathReasons(x, issues, deps[n])
  }

  function AdrReasons(known: set<string>, ids: seq<string>): seq<Reason> {
    if ids == [] then [] else
      var n := |ids| - 1;
      AdrReasons(known, ids[..n]) + (if ids[n] in known then [] else [AdrNotFound(ids[n])])
  }

  function IssueReasons(x: IssueMemo, issues: seq<IssueMemo>, adrIds: set<string>): seq<Reason> {
    MetadataReasons(x) + AllPathReasons(x, issues, x.dependencyPaths) + AdrReasons(adrIds, x.dependencyAdrIds)
  }

  function At(path: string, reasons: seq<Reason>): (r: seq<TriageError>)
    ensures |r| == |reasons| && forall i :: 0 <= i < |r| ==> r[i] == TriageError(path, reasons[i])
  {
    seq(|reasons|, i requires 0 <= i < |reasons| => TriageError(path, reasons[i]))
  }

  function IssueErrors(todo: seq<IssueMemo>, issues: seq<IssueMemo>, adrIds: set<string>): seq<TriageError> {
    if todo == [] then [] else
      var n := |todo| - 1;
      IssueErrors(todo[..n], issues, adrIds) + At(todo[n].path, IssueReasons(todo[n], issues, adrIds))
  }

  function CycleErrors(cycles: seq<seq<string>>): seq<TriageError> {
    seq(|cycles|, i requires 0 <= i < |cycles| =>
      TriageError(if cycles[i] == [] then "" else cycles[i][0], DependencyCycle(cycles[i])))
  }

  function AdrIds(adrs: seq<AdrRecord>): set<string> {
    set a | a in adrs :: a.adrId
  }

  method CollectReasons(x: IssueMemo, issues: seq<IssueMemo>, adrIds: set<string>) returns (reasons: seq<Reason>)
    ensures reasons == IssueReasons(x, issues, adrIds)
  {
    var deps, ids := x.dependencyPaths, x.dependencyAdrIds;
    var paths: seq<Reason> := [];
    for i := 0 to |deps|
      invariant paths == AllPathReasons(x, issues, deps[..i])
    {
      assert deps[..i + 1][..i] == deps[..i];
      paths := paths + PathReasons(x, issues, deps[i]);
    }
    assert deps[..|deps|] == deps;
    var adrs: seq<Reason> := [];
    for i := 0 to |ids|
      invariant adrs == AdrReasons(adrIds, ids[..i])
    {
      assert ids[..i + 1][..i] == ids[..i];
      if ids[i] !in adrIds {
        adrs := adrs + [AdrNotFound(ids[i])];
      }
    }
    assert ids[..|ids|] == ids;
    reasons := MetadataReasons(x) + paths + adrs;
  }

  method CollectErrors(issues: seq<IssueMemo>, adrIds: set<string>) returns (errors: seq<TriageError>)
    ensures errors == IssueErrors(issues, issues, adrIds)
  {
    errors := [];
    for i := 0 to |issues|
      invariant errors == IssueErrors(issues[..i], issues, adrIds)
    {
      assert issues[..i + 1][..i] == issues[..i];
      var reasons := CollectReasons(issues[i], issues, adrIds);
      errors := errors + At(issues[i].path, reasons);
    }
    assert issues[..|issues|] == issues;
  }

  lemma {:induction false} IssueErrorsExact(todo: seq<IssueMemo>, issues: seq<IssueMemo>, adrIds: set<string>, e: TriageError)
    ensures e in IssueErrors(todo, issues, adrIds)
       <==> exists x :: x in todo && e.path == x.path && e.reason in IssueReasons(x, issues, adrIds)
  {
    if todo != [] {
      var n := |todo| - 1;
      IssueErrorsExact(todo[..n], issues, adrIds, e);
      assert todo == todo[..n] + [todo[n]];
      var reasons := IssueReasons(todo[n], issues, adrIds);
      if e.path == todo[n].path && e.reason in reasons {
        var i :| 0 <= i < |reasons| && reasons[i] == e.reason;
        assert At(todo[n].path, reasons)[i] == e;
      }
    }
  }

  lemma {:induction false} AllPathReasonsExact(x: IssueMemo, issues: seq<IssueMemo>, deps: seq<string>, r: Reason)
    ensures r in AllPathReasons(x, issues, deps)
       <==> exists i :: 0 <= i < |deps| && r in PathReasons(x, issues, deps[i])
  {
    if deps != [] {
      var n := |deps| - 1;
      var init := deps[..n];
      AllPathReasonsExact(x, issues, init, r);
      assert forall i :: 0 <= i < n ==> init[i] == deps[i];
      if r in AllPathReasons(x, issues, init) {
        var i :| 0 <= i < |init| && r in PathReasons(x, issues, init[i]);
        assert r in PathReasons(x, issues, deps[i]);
      }
    }
  }

  // ----- the report ---------------------------------------------------------------------

  datatype Report = Report(
    actionable: seq<ActionableIssue>,
    activeCount: nat,
    readyCount: nat,
    blockedCount: nat,
    errors: seq<TriageError>)

  predicate CountsAsBlocked(a: ActionableIssue) {
    a.blockers != [] || a.status == DRAFT
  }

  function CountReady(r: seq<ActionableIssue>): nat {
    if r == [] then 0 else CountReady(r[1..]) + (if r[0].ready then 1 else 0)
  }

  function CountBlocked(r: seq<ActionableIssue>): nat {
    if r == [] then 0 else CountBlocked(r[1..]) + (if CountsAsBlocked(r[0]) then 1 else 0)
  }

  function AllResolved(issues: seq<IssueMemo>): (r: seq<IssueMemo>)
    ensures |r| == |issues| && forall i :: 0 <= i < |r| ==> r[i] == Resolved(issues, issues[i])
  {
    seq(|issues|, i requires 0 <= i < |issues| => Resolved(issues, issues[i]))
  }

  /** What a report for these memos says. */
  ghost predicate IsReport(report: Report, raw: seq<IssueMemo>, adrs: seq<AdrRecord>) {
    var issues := AllResolved(raw);
    && Actionable(report.actionable, issues, adrs)
    && report.activeCount == |report.actionable|
    && report.readyCount == CountReady(report.actionable)
    && report.blockedCount == CountBlocked(report.actionable)
    && exists cycles :: ExactCycles(ActiveGraph(issues), cycles)
                        && report.errors == IssueErrors(issues, issues, AdrIds(adrs)) + CycleErrors(cycles)
  }

  method Collect(raw: seq<IssueMemo>, adrs: seq<AdrRecord>) returns (report: Report)
    ensures IsReport(report, raw, adrs)
  {
    var issues := ResolveAll(raw);
    assert issues == AllResolved(raw);
    var errors := CollectErrors(issues, AdrIds(adrs));
    var cycles := FindActiveDependencyCycles(issues);
    var actionable := BuildActionableIssues(issues, adrs);
    var ready, blocked := CountReady(actionable), CountBlocked(actionable);
    report := Report(actionable, |actionable|, ready, blocked, errors + CycleErrors(cycles));
  }

  lemma ResolvedFrame(raw: seq<IssueMemo>)
    requires DistinctPaths(raw)
    ensures DistinctPaths(AllResolved(raw))
    ensures KnownPaths(AllResolved(raw)) == KnownPaths(raw)
  {
    var issues := AllResolved(raw);
    forall p ensures p in KnownPaths(issues) <==> p in KnownPaths(raw) {
      if x :| x in raw && x.path == p {
        var i :| 0 <= i < |raw| && raw[i] == x;
        assert issues[i].path == p && issues[i] in issues;
      }
      if x :| x in issues && x.path == p {
        var i :| 0 <= i < |issues| && issues[i] == x;
        assert raw[i].path == p && raw[i] in raw;
      }
    }
  }

  // ----- entries and issues -------------------------------------------------------------

  lemma IssueOf(r: seq<ActionableIssue>, issues: seq<IssueMemo>, adrs: seq<AdrRecord>, i: nat) returns (x: IssueMemo)
    requires Actionable(r, issues, adrs) && i < |r|
    ensures x in issues && Active(x.status) && Describes(r[i], x, issues, adrs)
  {
    var active := ActiveOf(issues);
    var items :| DescribesAll(items, active, issues, adrs) && multiset(r) == multiset(items);
    SameElements(r, items);
    assert r[i] in items;
    var k :| 0 <= k < |items| && items[k] == r[i];
    ActiveOfExact(issues);
    assert DescribesAt(items, active, issues, adrs, k);
    x := active[k];
    assert x in active;
  }

  lemma EntryOf(r: seq<ActionableIssue>, issues: seq<IssueMemo>, adrs: seq<AdrRecord>, x: IssueMemo) returns (i: nat)
    requires Actionable(r, issues, adrs) && x in issues && Active(x.status)
    ensures i < |r| && Describes(r[i], x, issues, adrs)
  {
    var active := ActiveOf(issues);
    var items :| DescribesAll(items, active, issues, adrs) && multiset(r) == multiset(items);
    SameElements(r, items);
    ActiveOfExact(issues);
    var k :| 0 <= k < |active| && active[k] == x;
    assert DescribesAt(items, active, issues, adrs, k);
    assert items[k] in items;
    i :| 0 <= i < |r| && r[i] == items[k];
  }

  // ----- counts -------------------------------------------------------------------------

  lemma {:induction false} CountsComplement(r: seq<ActionableIssue>)
    requires forall i :: 0 <= i < |r| ==> r[i].ready == !CountsAsBlocked(r[i])
    ensures CountReady(r) + CountBlocked(r) == |r|
  {
    if r != [] {
      CountsComplement(r[1..]);
    }
  }

  /** Ready and blocked split the active issues. */
  lemma CountsAddUp(report: Report, raw: seq<IssueMemo>, adrs: seq<AdrRecord>)
    requires IsReport(report, raw, adrs)
    ensures report.readyCount + report.blockedCount == report.activeCount == |ActiveOf(AllResolved(raw))|
  {
    var r := report.actionable;
    var issues := AllResolved(raw);
    forall i | 0 <= i < |r| ensures r[i].ready == !CountsAsBlocked(r[i]) {
      var x := IssueOf(r, issues, adrs, i);
    }
    CountsComplement(r);
    var items :| DescribesAll(items, ActiveOf(issues), issues, adrs) && multiset(r) == multiset(items);
    SameElements(r, items);
  }
}
