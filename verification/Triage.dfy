/** The triage report: resolving dependency names, classifying every active issue,
    ordering the result, and the errors that stop the run. */
module Triage {
  import opened Ordering
  import opened Memos
  import opened Stages

  // ----- resolving dependencies ---------------------------------------------------------

  /** `Path(p).name` */
  function Basename(p: string): string {
    if '/' !in p then p else Basename(p[1..])
  }

  function KnownPaths(issues: seq<IssueMemo>): set<string> {
    set x | x in issues :: x.path
  }

  /** The paths of all issues with this file name, in the order of the issues. */
  function PathsNamed(issues: seq<IssueMemo>, name: string): seq<string> {
    if issues == [] then [] else
      var n := |issues| - 1;
      PathsNamed(issues[..n], name) + (if Basename(issues[n].path) == name then [issues[n].path] else [])
  }

  /** `dict.fromkeys(s)`: the first occurrence of each element. */
  function Dedupe(s: seq<string>): (r: seq<string>)
    ensures forall x :: x in r <==> x in s
    ensures forall i, j :: 0 <= i < j < |r| ==> r[i] != r[j]
  {
    if s == [] then [] else
      var n := |s| - 1;
      var r := Dedupe(s[..n]);
      assert s == s[..n] + [s[n]];
      if s[n] in r then r else r + [s[n]]
  }

  function ResolvePath(issues: seq<IssueMemo>, dep: string): string {
    if dep in KnownPaths(issues) then dep else
      var candidates := PathsNamed(issues, Basename(dep));
      if |candidates| == 1 then candidates[0] else dep
  }

  predicate AmbiguousPath(issues: seq<IssueMemo>, dep: string) {
    dep !in KnownPaths(issues) && |PathsNamed(issues, Basename(dep))| > 1
  }

  function ResolvePaths(issues: seq<IssueMemo>, deps: seq<string>): (r: seq<string>)
    ensures |r| == |deps| && forall i :: 0 <= i < |r| ==> r[i] == ResolvePath(issues, deps[i])
  {
    seq(|deps|, i requires 0 <= i < |deps| => ResolvePath(issues, deps[i]))
  }

  function AmbiguousNames(issues: seq<IssueMemo>, deps: seq<string>): seq<string> {
    if deps == [] then [] else
      var n := |deps| - 1;
      AmbiguousNames(issues, deps[..n]) + (if AmbiguousPath(issues, deps[n]) then [Basename(deps[n])] else [])
  }

  lemma {:induction false} AmbiguousNamesExact(issues: seq<IssueMemo>, deps: seq<string>, name: string)
    ensures name in AmbiguousNames(issues, deps)
       <==> exists i :: 0 <= i < |deps| && AmbiguousPath(issues, deps[i]) && Basename(deps[i]) == name
  {
    if deps != [] {
      var n := |deps| - 1;
      AmbiguousNamesExact(issues, deps[..n], name);
      assert forall i :: 0 <= i < n ==> deps[..n][i] == deps[i];
    }
  }

  function Resolved(issues: seq<IssueMemo>, x: IssueMemo): IssueMemo {
    x.(dependencyPaths := ResolvePaths(issues, x.dependencyPaths),
       ambiguousNames := Dedupe(AmbiguousNames(issues, x.dependencyPaths)))
  }

  /** `paths_by_name.get(name, [])` */
  function Candidates(byName: map<string, seq<string>>, name: string): seq<string> {
    if name in byName then byName[name] else []
  }

  ghost predicate NameIndex(byName: map<string, seq<string>>, issues: seq<IssueMemo>) {
    forall name {:trigger Candidates(byName, name)} :: Candidates(byName, name) == PathsNamed(issues, name)
  }

  /** Every memo with its dependency paths resolved by exact path, else by unique file name. */
  method ResolveAll(issues: seq<IssueMemo>) returns (r: seq<IssueMemo>)
    ensures |r| == |issues|
    ensures forall i :: 0 <= i < |r| ==> r[i] == Resolved(issues, issues[i])
  {
    var byName := IndexByName(issues);
    var known := KnownPaths(issues);
    r := [];
    for i := 0 to |issues|
      invariant |r| == i && forall j :: 0 <= j < i ==> r[j] == Resolved(issues, issues[j])
    {
      var paths, names := ResolveOne(issues, known, byName, issues[i].dependencyPaths);
      r := r + [issues[i].(dependencyPaths := paths, ambiguousNames := Dedupe(names))];
    }
  }

  method IndexByName(issues: seq<IssueMemo>) returns (byName: map<string, seq<string>>)
    ensures NameIndex(byName, issues)
  {
    byName := map[];
    for i := 0 to |issues|
      invariant NameIndex(byName, issues[..i])
    {
      var name := Basename(issues[i].path);
      assert issues[..i + 1][..i] == issues[..i];
      ghost var before := byName;
      byName := byName[name := Candidates(byName, name) + [issues[i].path]];
      assert forall other :: Candidates(byName, other) == Candidates(before, other) + (if other == name then [issues[i].path] else []);
    }
    assert issues[..|issues|] == issues;
  }

  method ResolveOne(ghost issues: seq<IssueMemo>, known: set<string>, byName: map<string, seq<string>>, deps: seq<string>)
    returns (paths: seq<string>, names: seq<string>)
    requires known == KnownPaths(issues) && NameIndex(byName, issues)
    ensures paths == ResolvePaths(issues, deps)
    ensures names == AmbiguousNames(issues, deps)
  {
    paths, names := [], [];
    for k := 0 to |deps|
      invariant |paths| == k && forall j :: 0 <= j < k ==> paths[j] == ResolvePath(issues, deps[j])
      invariant names == AmbiguousNames(issues, deps[..k])
    {
      assert deps[..k + 1][..k] == deps[..k];
      var path, ambiguous := ResolveDependency(issues, known, byName, deps[k]);
      paths := paths + [path];
      if ambiguous {
        names := names + [Basename(deps[k])];
      }
    }
    assert deps[..|deps|] == deps;
  }

  method ResolveDependency(ghost issues: seq<IssueMemo>, known: set<string>, byName: map<string, seq<string>>, dep: string)
    returns (path: string, ambiguous: bool)
    requires known == KnownPaths(issues) && NameIndex(byName, issues)
    ensures path == ResolvePath(issues, dep)
    ensures ambiguous == AmbiguousPath(issues, dep)
  {
    if dep in known {
      return dep, false;
    }
    var name := Basename(dep);
    var candidates := Candidates(byName, name);
    if |candidates| == 1 {
      return candidates[0], false;
    }
    return dep, |candidates| > 1;
  }

  lemma {:induction false} PathsNamedKnown(issues: seq<IssueMemo>, name: string)
    ensures forall p :: p in PathsNamed(issues, name) <==> p in KnownPaths(issues) && Basename(p) == name
  {
    if issues != [] {
      var n := |issues| - 1;
      PathsNamedKnown(issues[..n], name);
      assert issues == issues[..n] + [issues[n]];
      assert KnownPaths(issues) == KnownPaths(issues[..n]) + {issues[n].path};
    }
  }

  /** A resolved dependency is known exactly when its path was, or exactly one issue has its
      file name; then it is that issue. Otherwise it is left as written, and it is marked
      ambiguous exactly when there are several. */
  lemma ResolvedKnown(issues: seq<IssueMemo>, dep: string)
    ensures var named := PathsNamed(issues, Basename(dep));
      var r := ResolvePath(issues, dep);
      && (r in KnownPaths(issues) <==> dep in KnownPaths(issues) || |named| == 1)
      && Basename(r) == Basename(dep)
      && (r !in KnownPaths(issues) ==> r == dep && (AmbiguousPath(issues, dep) <==> named != []))
  {
    var named := PathsNamed(issues, Basename(dep));
    PathsNamedKnown(issues, Basename(dep));
    if |named| == 1 { assert named[0] in named; }
  }

  // ----- blockers and readiness ---------------------------------------------------------

  datatype Blocker =
    | Ambiguous(name: string)
    | Missing(name: string)
    | SelfDependency(id: string)
    | Unfinished(id: string, status: string)
    | AdrMissing(id: string)
    | AdrUnaccepted(id: string, status: string)

  function AdrById(adrs: seq<AdrRecord>): map<string, AdrRecord> {
    if adrs == [] then map[] else
      var n := |adrs| - 1;
      AdrById(adrs[..n])[adrs[n].adrId := adrs[n]]
  }

  /** What one dependency path contributes: nothing, or one blocker. */
  function PathBlocker(x: IssueMemo, byPath: map<string, IssueMemo>, dep: string): seq<Blocker> {
    if Basename(dep) in x.ambiguousNames then [Ambiguous(Basename(dep))]
    else if dep !in byPath then [Missing(Basename(dep))]
    else if byPath[dep].path == x.path then [SelfDependency(x.backlogId)]
    else if byPath[dep].status != DONE then [Unfinished(byPath[dep].backlogId, byPath[dep].status)]
    else []
  }

  function AdrBlocker(adrById: map<string, AdrRecord>, id: string): seq<Blocker> {
    if id !in adrById then [AdrMissing(id)]
    else if adrById[id].status != "Accepted" then [AdrUnaccepted(id, adrById[id].status)]
    else []
  }

  function PathBlockers(x: IssueMemo, byPath: map<string, IssueMemo>, deps: seq<string>): seq<Blocker> {
    if deps == [] then [] else
      var n := |deps| - 1;
      PathBlockers(x, byPath, deps[..n]) + PathBlocker(x, byPath, deps[n])
  }

  function AdrBlockers(adrById: map<string, AdrRecord>, ids: seq<string>): seq<Blocker> {
    if ids == [] then [] else
      var n := |ids| - 1;
      AdrBlockers(adrById, ids[..n]) + AdrBlocker(adrById, ids[n])
  }

  function Blockers(x: IssueMemo, byPath: map<string, IssueMemo>, adrById: map<string, AdrRecord>): seq<Blocker> {
    PathBlockers(x, byPath, x.dependencyPaths) + AdrBlockers(adrById, x.dependencyAdrIds)
  }

  lemma {:induction false} NoPathBlockers(x: IssueMemo, byPath: map<string, IssueMemo>, deps: seq<string>)
    ensures PathBlockers(x, byPath, deps) == []
       <==> forall i :: 0 <= i < |deps| ==> PathBlocker(x, byPath, deps[i]) == []
  {
    if deps != [] {
      var n := |deps| - 1;
      NoPathBlockers(x, byPath, deps[..n]);
      assert forall i :: 0 <= i < n ==> deps[..n][i] == deps[i];
    }
  }

  lemma {:induction false} NoAdrBlockers(adrById: map<string, AdrRecord>, ids: seq<string>)
    ensures AdrBlockers(adrById, ids) == []
       <==> forall i :: 0 <= i < |ids| ==> ids[i] in adrById && adrById[ids[i]].status == "Accepted"
  {
    if ids != [] {
      var n := |ids| - 1;
      NoAdrBlockers(adrById, ids[..n]);
      assert forall i :: 0 <= i < n ==> ids[..n][i] == ids[i];
    }
  }

  method CollectBlockers(x: IssueMemo, byPath: map<string, IssueMemo>, adrById: map<string, AdrRecord>)
    returns (blockers: seq<Blocker>)
    ensures blockers == Blockers(x, byPath, adrById)
  {
    blockers := [];
    var deps := x.dependencyPaths;
    for i := 0 to |deps|
      invariant blockers == PathBlockers(x, byPath, deps[..i])
    {
      assert deps[..i + 1][..i] == deps[..i];
      blockers := blockers + PathBlocker(x, byPath, deps[i]);
    }
    assert deps[..|deps|] == deps;
    ghost var paths := blockers;
    var ids := x.dependencyAdrIds;
    for i := 0 to |ids|
      invariant blockers == paths + AdrBlockers(adrById, ids[..i])
    {
      assert ids[..i + 1][..i] == ids[..i];
      blockers := blockers + AdrBlocker(adrById, ids[i]);
    }
    assert ids[..|ids|] == ids;
  }

  // ----- who is unlocked ----------------------------------------------------------------

  /** The active issues that name `q` among their dependencies, themselves excepted: once
      for every time they name it, in the order of the issues. */
  function Dependents(issues: seq<IssueMemo>, q: string): seq<string> {
    if issues == [] then [] else
      var n := |issues| - 1;
      Dependents(issues[..n], q) + (if Active(issues[n].status) then NamedBy(issues[n].path, issues[n].dependencyPaths, q) else [])
  }

  function NamedBy(p: string, deps: seq<string>, q: string): seq<string> {
    if deps == [] then [] else
      var n := |deps| - 1;
      NamedBy(p, deps[..n], q) + (if deps[n] == q && q != p then [p] else [])
  }

  lemma {:induction false} NamedByExact(p: string, deps: seq<string>, q: string, r: string)
    ensures r in NamedBy(p, deps, q) <==> r == p && q in deps && q != p
  {
    if deps != [] {
      var n := |deps| - 1;
      NamedByExact(p, deps[..n], q, r);
      assert deps == deps[..n] + [deps[n]];
    }
  }

  /** `unlocks` inverts the dependency relation of the active issues. */
  lemma {:induction false} DependentsExact(issues: seq<IssueMemo>, q: string, p: string)
    ensures p in Dependents(issues, q)
       <==> exists x :: x in issues && Active(x.status) && x.path == p && q in x.dependencyPaths && q != p
  {
    if issues != [] {
      var n := |issues| - 1;
      DependentsExact(issues[..n], q, p);
      NamedByExact(issues[n].path, issues[n].dependencyPaths, q, p);
      assert issues == issues[..n] + [issues[n]];
    }
  }

  ghost predicate DependentIndex(m: map<string, seq<string>>, known: set<string>, issues: seq<IssueMemo>) {
    m.Keys == known && forall q :: q in m ==> m[q] == Dependents(issues, q)
  }

  method IndexDependents(issues: seq<IssueMemo>) returns (m: map<string, seq<string>>)
    ensures DependentIndex(m, KnownPaths(issues), issues)
  {
    var known := KnownPaths(issues);
    m := map q | q in known :: [];
    for i := 0 to |issues|
      invariant DependentIndex(m, known, issues[..i])
    {
      assert issues[..i + 1][..i] == issues[..i];
      if Active(issues[i].status) {
        m := AddDependencies(m, issues[i], issues[..i]);
      }
    }
    assert issues[..|issues|] == issues;
  }

  method AddDependencies(m0: map<string, seq<string>>, x: IssueMemo, ghost before: seq<IssueMemo>)
    returns (m: map<string, seq<string>>)
    requires forall q :: q in m0 ==> m0[q] == Dependents(before, q)
    ensures m.Keys == m0.Keys
    ensures forall q :: q in m ==> m[q] == Dependents(before, q) + NamedBy(x.path, x.dependencyPaths, q)
  {
    m := m0;
    var deps := x.dependencyPaths;
    for k := 0 to |deps|
      invariant m.Keys == m0.Keys
      invariant forall q :: q in m ==> m[q] == Dependents(before, q) + NamedBy(x.path, deps[..k], q)
    {
      assert deps[..k + 1][..k] == deps[..k];
      if deps[k] in m && deps[k] != x.path {
        m := m[deps[k] := m[deps[k]] + [x.path]];
      }
    }
    assert deps[..|deps|] == deps;
  }

  // ----- the actionable list ------------------------------------------------------------

  datatype ActionableIssue = ActionableIssue(
    path: string,
    backlogId: string,
    status: string,
    priority: string,
    ready: bool,
    blockers: seq<Blocker>,
    unlocks: seq<string>,
    stage: int)

  function PriorityRank(p: string): int {
    if p == "P0" then 0 else if p == "P1" then 1 else if p == "P2" then 2 else if p == "P3" then 3 else 9
  }

  /** The sort key: ready first, then by stage, then by priority, then by path. */
  predicate RankLe(x: ActionableIssue, y: ActionableIssue) {
    if x.ready != y.ready then x.ready
    else if x.stage != y.stage then x.stage < y.stage
    else if PriorityRank(x.priority) != PriorityRank(y.priority) then PriorityRank(x.priority) < PriorityRank(y.priority)
    else Le(x.path, y.path)
  }

  lemma RankOrder()
    ensures TotalPreorder(RankLe)
  {
    forall x, y ensures RankLe(x, y) || RankLe(y, x) { LeTotal(x.path, y.path); }
    forall x, y, z | RankLe(x, y) && RankLe(y, z) ensures RankLe(x, z) {
      if Le(x.path, y.path) && Le(y.path, z.path) { LeTrans(x.path, y.path, z.path); }
    }
  }

  /** `a` is what the report says about the issue `x`. */
  ghost predicate Describes(a: ActionableIssue, x: IssueMemo, issues: seq<IssueMemo>, adrs: seq<AdrRecord>) {
    var byPath := ByPath(issues);
    && a.path == x.path && a.backlogId == x.backlogId && a.status == x.status && a.priority == x.priority
    && a.blockers == Blockers(x, byPath, AdrById(adrs))
    && a.ready == (x.status != DRAFT && a.blockers == [])
    && a.unlocks == SortBy(Dependents(issues, x.path), Le)
    && IsStage(DependencyGraph(byPath), x.path, a.stage)
  }

  function ActiveOf(issues: seq<IssueMemo>): seq<IssueMemo> {
    if issues == [] then [] else
      var n := |issues| - 1;
      ActiveOf(issues[..n]) + (if Active(issues[n].status) then [issues[n]] else [])
  }

  ghost predicate DescribesAll(items: seq<ActionableIssue>, active: seq<IssueMemo>, issues: seq<IssueMemo>, adrs: seq<AdrRecord>) {
    && |items| == |active|
    && forall i {:trigger DescribesAt(items, active, issues, adrs, i)} :: 0 <= i < |items| ==> DescribesAt(items, active, issues, adrs, i)
  }

  ghost predicate DescribesAt(items: seq<ActionableIssue>, active: seq<IssueMemo>, issues: seq<IssueMemo>, adrs: seq<AdrRecord>, i: int)
    requires 0 <= i < |items| == |active|
  {
    Describes(items[i], active[i], issues, adrs)
  }

  lemma DescribesOneMore(items: seq<ActionableIssue>, active: seq<IssueMemo>, issues: seq<IssueMemo>, adrs: seq<AdrRecord>,
                         item: ActionableIssue, x: IssueMemo)
    requires DescribesAll(items, active, issues, adrs) && Describes(item, x, issues, adrs)
    ensures DescribesAll(items + [item], active + [x], issues, adrs)
  {
    forall i | 0 <= i <= |items| ensures DescribesAt(items + [item], active + [x], issues, adrs, i) {
      if i < |items| { assert DescribesAt(items, active, issues, adrs, i); }
    }
  }

  /** One description per active issue, in rank order. */
  ghost predicate Actionable(r: seq<ActionableIssue>, issues: seq<IssueMemo>, adrs: seq<AdrRecord>) {
    && Ordered(r, RankLe)
    && exists items :: DescribesAll(items, ActiveOf(issues), issues, adrs) && multiset(r) == multiset(items)
  }

  method DescribeIssue(x: IssueMemo, ghost issues: seq<IssueMemo>, ghost adrs: seq<AdrRecord>,
                       adrById: map<string, AdrRecord>, dependents: map<string, seq<string>>, search: StageSearch)
    returns (item: ActionableIssue)
    requires x in issues && adrById == AdrById(adrs)
    requires DependentIndex(dependents, KnownPaths(issues), issues)
    requires search.byPath == ByPath(issues) && search.Valid()
    modifies search
    ensures search.Valid()
    ensures Describes(item, x, issues, adrs)
  {
    assert x.path in KnownPaths(issues);
    var blockers := CollectBlockers(x, search.byPath, adrById);
    var stage := search.DependencyStage(x.path, {});
    item := ActionableIssue(x.path, x.backlogId, x.status, x.priority, x.status != DRAFT && blockers == [],
                            blockers, SortBy(dependents[x.path], Le), stage);
  }

  method DescribeActive(issues: seq<IssueMemo>, adrs: seq<AdrRecord>) returns (items: seq<ActionableIssue>)
    ensures DescribesAll(items, ActiveOf(issues), issues, adrs)
  {
    var byPath := ByPath(issues);
    var adrById := AdrById(adrs);
    var dependents := IndexDependents(issues);
    var search := new StageSearch(byPath);
    items := [];
    for i := 0 to |issues|
      invariant search.byPath == byPath && search.Valid()
      invariant DescribesAll(items, ActiveOf(issues[..i]), issues, adrs)
    {
      var x := issues[i];
      assert issues[..i + 1][..i] == issues[..i];
      if Active(x.status) {
        var item := DescribeIssue(x, issues, adrs, adrById, dependents, search);
        DescribesOneMore(items, ActiveOf(issues[..i]), issues, adrs, item, x);
        items := items + [item];
      } else {
        assert ActiveOf(issues[..i + 1]) == ActiveOf(issues[..i]);
      }
    }
    assert issues[..|issues|] == issues;
  }

  method BuildActionableIssues(issues: seq<IssueMemo>, adrs: seq<AdrRecord>) returns (r: seq<ActionableIssue>)
    ensures Actionable(r, issues, adrs)
  {
    var items := DescribeActive(issues, adrs);
    RankOrder();
    SortByOrdered(items, RankLe);
    r := SortBy(items, RankLe);
  }
}
