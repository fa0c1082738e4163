/** What the parts of a triage report mean, said without the functions that compute them. */
module TriageMeaning {
  import opened Ordering
  import opened Memos
  import opened Triage
  import opened TriageReport
  import Text

  // ----- file names ---------------------------------------------------------------------

  /** `p` is the name itself, or a directory, a slash and the name. */
  predicate Names(p: string, name: string) {
    p == name || (|p| > |name| && p[|p| - |name| - 1] == '/' && p[|p| - |name|..] == name)
  }

  /** The file name has no slash, and the path is that name or ends with a slash and it. */
  lemma {:induction false} BasenameNames(p: string)
    ensures '/' !in Basename(p) && Names(p, Basename(p))
  {
    if '/' in p {
      BasenameNames(p[1..]);
      var name := Basename(p[1..]);
      if p[1..] == name {
        assert p[0] == '/';
      } else {
        assert p[|p| - |name|..] == p[1..][|p| - 1 - |name|..];
      }
    }
  }

  /** Nothing else without a slash is. */
  lemma BasenameExactly(p: string, name: string)
    requires '/' !in name
    ensures Basename(p) == name <==> Names(p, name)
  {
    BasenameNames(p);
    if Names(p, name) { NamesUnique(p, name, Basename(p)); }
  }

  lemma NamesUnique(p: string, a: string, b: string)
    requires '/' !in a && '/' !in b && Names(p, a) && Names(p, b)
    ensures a == b
  {
    if |a| < |b| {
      SlashInside(p, a, b);
    } else if |b| < |a| {
      SlashInside(p, b, a);
    } else {
      assert p[|p| - |a|..] == a && p[|p| - |b|..] == b;
    }
  }

  lemma SlashInside(p: string, a: string, b: string)
    requires Names(p, a) && Names(p, b) && |a| < |b|
    ensures '/' in b
  {
    assert p[|p| - |b|..] == b;
    assert b[|b| - |a| - 1] == p[|p| - |a| - 1];
  }

  predicate NamedAt(issues: seq<IssueMemo>, name: string, j: int) {
    0 <= j < |issues| && Names(issues[j].path, name)
  }

  /** The memo at `k`, and no other, has this file name. */
  ghost predicate OnlyOne(issues: seq<IssueMemo>, name: string, k: int) {
    NamedAt(issues, name, k) && forall j {:trigger NamedAt(issues, name, j)} :: NamedAt(issues, name, j) ==> j == k
  }

  lemma NamedInit(issues: seq<IssueMemo>, name: string, j: int)
    requires issues != []
    ensures NamedAt(issues, name, j) <==> NamedAt(issues[..|issues| - 1], name, j) || (j == |issues| - 1 && Names(issues[j].path, name))
  {
  }

  lemma {:induction false} NoneNamed(issues: seq<IssueMemo>, name: string)
    requires '/' !in name
    ensures PathsNamed(issues, name) == [] <==> forall j {:trigger NamedAt(issues, name, j)} :: !NamedAt(issues, name, j)
  {
    if issues != [] {
      var n := |issues| - 1;
      NoneNamed(issues[..n], name);
      BasenameExactly(issues[n].path, name);
      forall j ensures NamedAt(issues, name, j) <==> NamedAt(issues[..n], name, j) || (j == n && Names(issues[n].path, name)) {
        NamedInit(issues, name, j);
      }
      if j :| NamedAt(issues[..n], name, j) { assert NamedAt(issues, name, j); }
      assert Names(issues[n].path, name) ==> NamedAt(issues, name, n);
    }
  }

  lemma OnlyOneInit(issues: seq<IssueMemo>, name: string, k: int)
    requires issues != [] && !Names(issues[|issues| - 1].path, name)
    ensures OnlyOne(issues, name, k) <==> OnlyOne(issues[..|issues| - 1], name, k)
  {
    var init := issues[..|issues| - 1];
    forall j ensures NamedAt(issues, name, j) <==> NamedAt(init, name, j) { NamedInit(issues, name, j); }
  }

  lemma OnlyOneLast(issues: seq<IssueMemo>, name: string, k: int)
    requires issues != [] && Names(issues[|issues| - 1].path, name)
    ensures OnlyOne(issues, name, k) <==> k == |issues| - 1 && forall j {:trigger NamedAt(issues[..|issues| - 1], name, j)} :: !NamedAt(issues[..|issues| - 1], name, j)
  {
    var n := |issues| - 1;
    var init := issues[..n];
    forall j ensures NamedAt(issues, name, j) <==> NamedAt(init, name, j) || j == n { NamedInit(issues, name, j); }
    assert NamedAt(issues, name, n);
    if j :| NamedAt(init, name, j) { assert NamedAt(issues, name, j); }
  }

  lemma {:induction false} OneNamed(issues: seq<IssueMemo>, name: string, k: int)
    requires '/' !in name
    ensures OnlyOne(issues, name, k) ==> PathsNamed(issues, name) == [issues[k].path]
  {
    if issues != [] {
      var n := |issues| - 1;
      BasenameExactly(issues[n].path, name);
      if Names(issues[n].path, name) {
        OnlyOneLast(issues, name, k);
        NoneNamed(issues[..n], name);
      } else {
        OnlyOneInit(issues, name, k);
        OneNamed(issues[..n], name, k);
      }
    }
  }

  lemma {:induction false} OneFound(issues: seq<IssueMemo>, name: string) returns (k: int)
    requires '/' !in name && |PathsNamed(issues, name)| == 1
    ensures OnlyOne(issues, name, k)
  {
    var n := |issues| - 1;
    BasenameExactly(issues[n].path, name);
    if Names(issues[n].path, name) {
      k := n;
      NoneNamed(issues[..n], name);
      OnlyOneLast(issues, name, k);
    } else {
      k := OneFound(issues[..n], name);
      OnlyOneInit(issues, name, k);
    }
  }

  /** A dependency that is no known path resolves to a memo exactly if one memo, and no other, has its
      file name. */
  lemma ResolvesExactly(issues: seq<IssueMemo>, dep: string)
    requires dep !in KnownPaths(issues)
    ensures ResolvePath(issues, dep) in KnownPaths(issues) <==> exists k :: OnlyOne(issues, Basename(dep), k)
    ensures forall k :: OnlyOne(issues, Basename(dep), k) ==> ResolvePath(issues, dep) == issues[k].path
  {
    var name := Basename(dep);
    BasenameNames(dep);
    ResolvedKnown(issues, dep);
    forall k | OnlyOne(issues, name, k) ensures PathsNamed(issues, name) == [issues[k].path] { OneNamed(issues, name, k); }
    if |PathsNamed(issues, name)| == 1 { var _ := OneFound(issues, name); }
  }

  // ----- blockers -----------------------------------------------------------------------

  lemma {:induction false} PathBlockersHold(x: IssueMemo, byPath: map<string, IssueMemo>, deps: seq<string>, b: Blocker)
    ensures b in PathBlockers(x, byPath, deps) <==> exists i :: 0 <= i < |deps| && PathBlocker(x, byPath, deps[i]) == [b]
  {
    if deps != [] {
      var n := |deps| - 1;
      var init := deps[..n];
      PathBlockersHold(x, byPath, init, b);
      assert forall i :: 0 <= i < n ==> init[i] == deps[i];
      if b in PathBlockers(x, byPath, init) {
        var i :| 0 <= i < |init| && PathBlocker(x, byPath, init[i]) == [b];
        assert PathBlocker(x, byPath, deps[i]) == [b];
      }
    }
  }

  lemma {:induction false} AdrBlockersHold(adrById: map<string, AdrRecord>, ids: seq<string>, b: Blocker)
    ensures b in AdrBlockers(adrById, ids) <==> exists i :: 0 <= i < |ids| && AdrBlocker(adrById, ids[i]) == [b]
  {
    if ids != [] {
      var n := |ids| - 1;
      var init := ids[..n];
      AdrBlockersHold(adrById, init, b);
      assert forall i :: 0 <= i < n ==> init[i] == ids[i];
      if b in AdrBlockers(adrById, init) {
        var i :| 0 <= i < |init| && AdrBlocker(adrById, init[i]) == [b];
        assert AdrBlocker(adrById, ids[i]) == [b];
      }
    }
  }

  /** The dependency gives this blocker. */
  ghost predicate Gives(x: IssueMemo, byPath: map<string, IssueMemo>, dep: string, b: Blocker) {
    var ambiguous := Basename(dep) in x.ambiguousNames;
    match b
    case Ambiguous(name) => ambiguous && name == Basename(dep)
    case Missing(name) => !ambiguous && dep !in byPath && name == Basename(dep)
    case SelfDependency(id) => !ambiguous && dep in byPath && byPath[dep].path == x.path && id == x.backlogId
    case Unfinished(id, status) =>
      && !ambiguous && dep in byPath && byPath[dep].path != x.path && byPath[dep].status != "Done"
      && id == byPath[dep].backlogId && status == byPath[dep].status
    case _ => false
  }

  ghost predicate AdrGives(adrById: map<string, AdrRecord>, id: string, b: Blocker) {
    match b
    case AdrMissing(i) => i == id && id !in adrById
    case AdrUnaccepted(i, status) => i == id && id in adrById && status == adrById[id].status && status != "Accepted"
    case _ => false
  }

  lemma PathGives(x: IssueMemo, byPath: map<string, IssueMemo>, dep: string, b: Blocker)
    ensures PathBlocker(x, byPath, dep) == [b] <==> Gives(x, byPath, dep, b)
  {
  }

  lemma AdrGivesOne(adrById: map<string, AdrRecord>, id: string, b: Blocker)
    ensures AdrBlocker(adrById, id) == [b] <==> AdrGives(adrById, id, b)
  {
  }

  /** An issue has exactly the blockers that its dependencies and its ADRs give. */
  lemma BlockersExact(x: IssueMemo, byPath: map<string, IssueMemo>, adrById: map<string, AdrRecord>, b: Blocker)
    ensures b in Blockers(x, byPath, adrById) <==>
      || (exists i :: 0 <= i < |x.dependencyPaths| && Gives(x, byPath, x.dependencyPaths[i], b))
      || (exists i :: 0 <= i < |x.dependencyAdrIds| && AdrGives(adrById, x.dependencyAdrIds[i], b))
  {
    PathBlockersHold(x, byPath, x.dependencyPaths, b);
    AdrBlockersHold(adrById, x.dependencyAdrIds, b);
    forall dep ensures PathBlocker(x, byPath, dep) == [b] <==> Gives(x, byPath, dep, b) { PathGives(x, byPath, dep, b); }
    forall id ensures AdrBlocker(adrById, id) == [b] <==> AdrGives(adrById, id, b) { AdrGivesOne(adrById, id, b); }
  }

  // ----- reasons ------------------------------------------------------------------------

  lemma {:induction false} AdrReasonsHold(known: set<string>, ids: seq<string>, r: Reason)
    ensures r in AdrReasons(known, ids) <==> r.AdrNotFound? && r.id in ids && r.id !in known
  {
    if ids != [] {
      var n := |ids| - 1;
      AdrReasonsHold(known, ids[..n], r);
      assert ids == ids[..n] + [ids[n]];
    }
  }

  /** The dependency gives this reason. */
  ghost predicate Faults(x: IssueMemo, issues: seq<IssueMemo>, dep: string, r: Reason) {
    var ambiguous := Basename(dep) in x.ambiguousNames;
    match r
    case DependsOnSelf(d) => d == dep && dep == x.path
    case AmbiguousDependency(name, candidates) =>
      dep != x.path && ambiguous && name == Basename(dep) && candidates == SortBy(PathsNamed(issues, name), Le)
    case PathNotFound(d) => d == dep && dep != x.path && !ambiguous && dep !in KnownPaths(issues)
    case _ => false
  }

  lemma PathFaults(x: IssueMemo, issues: seq<IssueMemo>, dep: string, r: Reason)
    ensures r in PathReasons(x, issues, dep) <==> Faults(x, issues, dep, r)
  {
  }

  lemma MetadataHold(x: IssueMemo, r: Reason)
    ensures r in MetadataReasons(x) <==>
      match r
      case MissingStatus => x.status == "Unknown"
      case InvalidStatus(s) => s == x.status && s !in ["Unknown", "Draft", "Open", "In Progress", "Done"]
      case MissingPriority => x.priority == "N/A" || Text.Blank(x.priority, Text.PySpace)
      case _ => false
  {
  }

  lemma PathReasonsHold(x: IssueMemo, issues: seq<IssueMemo>, deps: seq<string>, r: Reason)
    ensures r in AllPathReasons(x, issues, deps) <==> exists i :: 0 <= i < |deps| && Faults(x, issues, deps[i], r)
  {
    AllPathReasonsExact(x, issues, deps, r);
    forall dep ensures r in PathReasons(x, issues, dep) <==> Faults(x, issues, dep, r) { PathFaults(x, issues, dep, r); }
  }

  /** A memo has exactly these reasons: an unknown or invalid status, a missing priority, a faulty
      dependency, an unknown ADR. */
  lemma ReasonsExact(x: IssueMemo, issues: seq<IssueMemo>, adrIds: set<string>, r: Reason)
    ensures r in IssueReasons(x, issues, adrIds) <==>
      match r
      case MissingStatus => x.status == "Unknown"
      case InvalidStatus(s) => s == x.status && s !in ["Unknown", "Draft", "Open", "In Progress", "Done"]
      case MissingPriority => x.priority == "N/A" || Text.Blank(x.priority, Text.PySpace)
      case AdrNotFound(id) => id in x.dependencyAdrIds && id !in adrIds
      case DependencyCycle(_) => false
      case _ => exists i :: 0 <= i < |x.dependencyPaths| && Faults(x, issues, x.dependencyPaths[i], r)
  {
    MetadataHold(x, r);
    PathReasonsHold(x, issues, x.dependencyPaths, r);
    AdrReasonsHold(adrIds, x.dependencyAdrIds, r);
  }

  /** Every cycle found gives one error, at its first member. */
  lemma CycleErrorsExact(cycles: seq<seq<string>>, e: TriageError)
    requires forall c :: c in cycles ==> c != []
    ensures e in CycleErrors(cycles) <==> e.reason.DependencyCycle? && e.reason.members in cycles && e.path == e.reason.members[0]
  {
    if e.reason.DependencyCycle? && e.reason.members in cycles && e.path == e.reason.members[0] {
      var i :| 0 <= i < |cycles| && cycles[i] == e.reason.members;
      assert CycleErrors(cycles)[i] == e;
    }
    if e in CycleErrors(cycles) {
      var i :| 0 <= i < |cycles| && CycleErrors(cycles)[i] == e;
      assert cycles[i] in cycles;
    }
  }

  // ----- the order of the list ----------------------------------------------------------

  /** The place of a priority: P0 to P3, then everything else. */
  predicate Before(p: string, q: string) {
    || (p == "P0" && q != "P0")
    || (p == "P1" && q !in ["P0", "P1"])
    || (p == "P2" && q !in ["P0", "P1", "P2"])
    || (p == "P3" && q !in ["P0", "P1", "P2", "P3"])
  }

  lemma PriorityExact(p: string, q: string)
    ensures PriorityRank(p) < PriorityRank(q) <==> Before(p, q)
  {
  }

  /** Ready issues come first; among them, and among the others, smaller stages; then higher
      priorities; then paths in order. */
  lemma ListOrder(r: seq<ActionableIssue>, i: nat, j: nat)
    requires Ordered(r, RankLe) && i < j < |r|
    ensures r[j].ready ==> r[i].ready
    ensures r[i].ready == r[j].ready ==> r[i].stage <= r[j].stage
    ensures r[i].ready == r[j].ready && r[i].stage == r[j].stage ==> !Before(r[j].priority, r[i].priority)
    ensures r[i].ready == r[j].ready && r[i].stage == r[j].stage && !Before(r[i].priority, r[j].priority) ==> Le(r[i].path, r[j].path)
  {
    assert InOrder(r, RankLe, i, j);
    PriorityExact(r[i].priority, r[j].priority);
    PriorityExact(r[j].priority, r[i].priority);
  }

  // ----- counts -------------------------------------------------------------------------

  lemma {:induction false} ReadyCounted(r: seq<ActionableIssue>, k: nat)
    requires k <= |r|
    ensures CountReady(r[k..]) == |set i | k <= i < |r| && r[i].ready|
    decreases |r| - k
  {
    var here := set i | k <= i < |r| && r[i].ready;
    if k < |r| {
      ReadyCounted(r, k + 1);
      assert r[k..][1..] == r[k + 1..];
      var rest := set i | k + 1 <= i < |r| && r[i].ready;
      assert here == rest + if r[k].ready then {k} else {};
    } else {
      assert here == {};
    }
  }

  lemma {:induction false} BlockedCounted(r: seq<ActionableIssue>, k: nat)
    requires k <= |r|
    ensures CountBlocked(r[k..]) == |set i | k <= i < |r| && (r[i].blockers != [] || r[i].status == "Draft")|
    decreases |r| - k
  {
    var here := set i | k <= i < |r| && (r[i].blockers != [] || r[i].status == "Draft");
    if k < |r| {
      BlockedCounted(r, k + 1);
      assert r[k..][1..] == r[k + 1..];
      var rest := set i | k + 1 <= i < |r| && (r[i].blockers != [] || r[i].status == "Draft");
      assert here == rest + if r[k].blockers != [] || r[k].status == "Draft" then {k} else {};
    } else {
      assert here == {};
    }
  }

  /** The counts are the numbers of ready issues, and of issues with a blocker or in draft. */
  lemma CountsMean(report: Report, raw: seq<IssueMemo>, adrs: seq<AdrRecord>)
    requires IsReport(report, raw, adrs)
    ensures var r := report.actionable;
            && report.readyCount == |set i | 0 <= i < |r| && r[i].ready|
            && report.blockedCount == |set i | 0 <= i < |r| && (r[i].blockers != [] || r[i].status == "Draft")|
  {
    var r := report.actionable;
    assert r[0..] == r;
    ReadyCounted(r, 0);
    BlockedCounted(r, 0);
  }

  /** An active issue is a draft, open or in progress. */
  lemma ActiveExactly(issues: seq<IssueMemo>, x: IssueMemo)
    ensures x in ActiveOf(issues) <==> x in issues && x.status in ["Draft", "Open", "In Progress"]
  {
    ActiveOfExact(issues);
  }

  // ----- looking up memos and decisions -------------------------------------------------

  /** The last decision with the id is the one that counts, */
  lemma {:induction false} AdrLast(adrs: seq<AdrRecord>, k: nat)
    requires k < |adrs| && forall j :: k < j < |adrs| ==> adrs[j].adrId != adrs[k].adrId
    ensures adrs[k].adrId in AdrById(adrs) && AdrById(adrs)[adrs[k].adrId] == adrs[k]
  {
    var n := |adrs| - 1;
    if k < n { AdrLast(adrs[..n], k); }
  }

  lemma {:induction false} AdrOnly(adrs: seq<AdrRecord>, id: string)
    ensures id in AdrById(adrs) <==> exists k :: 0 <= k < |adrs| && adrs[k].adrId == id
  {
    if adrs != [] {
      var n := |adrs| - 1;
      AdrOnly(adrs[..n], id);
      if k :| 0 <= k < n && adrs[..n][k].adrId == id { assert adrs[k].adrId == id; }
      if k :| 0 <= k < |adrs| && adrs[k].adrId == id {
        if k < n { assert adrs[..n][k].adrId == id; }
      }
    }
  }

  lemma ByPathStep(issues: seq<IssueMemo>, x: IssueMemo, p: string)
    ensures var m, before := ByPath(issues + [x]), ByPath(issues);
            if p == x.path then p in m && m[p] == x else (p in m <==> p in before) && (p in m ==> m[p] == before[p])
  {
    assert (issues + [x])[..|issues|] == issues;
  }

  ghost predicate LastMemo(issues: seq<IssueMemo>, k: nat) {
    k < |issues| && forall j :: k < j < |issues| ==> issues[j].path != issues[k].path
  }

  /** and the last memo with the path. */
  lemma {:induction false} MemoLast(issues: seq<IssueMemo>, k: nat)
    requires LastMemo(issues, k)
    ensures issues[k].path in ByPath(issues) && ByPath(issues)[issues[k].path] == issues[k]
  {
    var n := |issues| - 1;
    var init, x := issues[..n], issues[n];
    assert issues == init + [x];
    ByPathStep(init, x, issues[k].path);
    if k < n {
      assert init[k] == issues[k] && LastMemo(init, k);
      MemoLast(init, k);
    }
  }
}
