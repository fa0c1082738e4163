/** Issue memos and ADR records as the triage reads them, after parsing. */
module Memos {
  import opened Graphs

  datatype IssueMemo = IssueMemo(
    path: string,
    backlogId: string,
    status: string,
    priority: string,
    dependencyPaths: seq<string>,
    dependencyAdrIds: seq<string>,
    ambiguousNames: seq<string>)

  datatype AdrRecord = AdrRecord(adrId: string, status: string)

  const DONE := "Done"
  const DRAFT := "Draft"

  /** ACTIVE_ISSUE_STATUSES */
  predicate Active(status: string) {
    status == "Draft" || status == "Open" || status == "In Progress"
  }

  predicate DistinctPaths(issues: seq<IssueMemo>) {
    forall i, j :: 0 <= i < j < |issues| ==> issues[i].path != issues[j].path
  }

  /** `{issue.path: issue for issue in issues}` */
  function ByPath(issues: seq<IssueMemo>): (m: map<string, IssueMemo>)
    ensures forall p :: p in m ==> m[p] in issues && m[p].path == p
    ensures forall x :: x in issues ==> x.path in m
  {
    if issues == [] then map[] else
      var n := |issues| - 1;
      ByPath(issues[..n])[issues[n].path := issues[n]]
  }

  lemma {:induction false} ByPathFinds(issues: seq<IssueMemo>, x: IssueMemo)
    requires DistinctPaths(issues) && x in issues
    ensures ByPath(issues)[x.path] == x
  {
    var n := |issues| - 1;
    if x != issues[n] {
      assert x in issues[..n];
      ByPathFinds(issues[..n], x);
    }
  }

  /** The dependencies that still count: a Done memo's notes are history. */
  function LiveDeps(x: IssueMemo): seq<string> {
    if x.status == DONE then [] else x.dependencyPaths
  }

  /** Who depends on whom. A path outside the keys is missing. */
  function DependencyGraph(byPath: map<string, IssueMemo>): Graph {
    map p | p in byPath :: LiveDeps(byPath[p])
  }
}
