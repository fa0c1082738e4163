# Plans, queries, templates and layouts: a verified model

This project models the algorithmic cores of the repository and proves what they promise.

- **Plan triage** (`01_Plans/triage_actionable_plans.py`). Issue memos name each other as
  dependencies. The triage searches the active issues for dependency cycles (a recursive search
  with indices, low links and a stack), gives every issue a stage (the longest chain of
  dependencies below it, 999 if that cannot be told), decides which issues are ready, and lists
  the active issues in order. Modules `CycleSearch`, `Stages`, `Triage`, `TriageReport`,
  `TriageMeaning` and `TriageAgreement`; the last shows that search, stages, readiness and order
  agree.
- **Qualitative queries** (`01_Plans/research/qualitative_query_d0`). A snapshot of nodes,
  relations, critiques, contradictions and events is indexed and queried: neighbourhoods, all
  shortest paths up to a limit, leftovers, unresolved points and more. A request is normalised,
  the snapshot is cut down to what the requester may see, one query is run and its selection is
  projected. Modules `Snapshots`, `Networks`, `Distances`, `ShortestPaths`, `PathQueries`,
  `StateQueries`, `Selections`, `Requests`, `Pipeline` and `ReviewBoundary`; the last shows that
  hidden material cannot be noticed. `QueryMeaning` and `PipelineMeaning` say of each answer what
  it holds, node by node. `CandidateChannels` models the lexical channel and the
  envelope.
- **Template expressions and logic hot-swap** (`02_Architecture/support.js`). `TemplateScan` has
  the scans over a string and what they find, counted with `Nesting`; `TemplateExpr` is the
  evaluator that works by slicing strings; `TemplatePrinter` has abstract expressions, their
  meaning and their printed form, and shows that evaluating what is printed gives the meaning;
  `TemplateLiterals` says exactly when other string literals are read as they are meant, and
  `TemplateMalformed` what text means that no expression prints.
  `Lifecycle` is the component that swaps its logic instance when the registry changes.
- **Hierarchical layout** (`03_Implement/backend/scripts`). `LayoutBatches` and
  `LayoutRelations` split a document into batches; `LayoutComposition` reads the stages' answers
  and composes them; `LayoutAlgebra` and `LayoutIdentity` say what composing keeps,
  `LayoutMeaning` what a plan holds.
- **Document normalisers** (`01_Plans/docs_contract_checks.py`). `Fences` blanks fenced code,
  `InlineCode` removes inline code and puts the two together, `HtmlLines` is the HTML normaliser
  driven by parser tokens. `FenceBlocks` and `HtmlMeaning` say what is blanked and what is written,
  over blocks of lines and over the tree of a document.
- **Contrast pools** (`01_Plans/dogfood/prepare_cognitive_assoc_benchmark.py`).
  `ContrastPools` has the admission of islands, the two pools and their sizes.

`Ordering`, `Graphs`, `Memos`, `Text`, `Options` and `Folding` hold what these share: Python's
orders on strings and tuples, walks and components, memo records, trimming.

Where the source updates things step by step the model does too, and each such method is proved
against a specification: the search and the component are classes, the loops are loops with
invariants. `dafny verify dfyconfig.toml` covers the whole project.

## Findings

Some promises hold only under a condition, which the model makes exact:

- A swap of the logic class in a render before the mount commit sends will-unmount to an instance
  that was never mounted, and can mount the new one twice. The calls are in order exactly when no
  such render happens (`Lifecycle.OrderlyExactly`, `Lifecycle.EarlySwapMountsTwice`).
- Two islands with one id make the first one's cards disappear from the layout plan. The plan is
  a partition of the cards exactly when no island that has cards is overwritten
  (`LayoutBatches.PlanPartitions`, `LayoutBatches.SameIdLosesCard`).
- The evaluator does not treat quotes as quoting. A string literal is read as one exactly if no
  operator is found in it at top level (`TemplateLiterals.StringLiteralExact`,
  `TemplateLiterals.StringWithOperator`); in parentheses it must, besides, not close a parenthesis
  too many (`TemplateLiterals.GroupedLiteralExact`; `(')')` means nothing,
  `TemplateLiterals.StringWithParenthesis`); as a key its brackets must be balanced and no operator
  may be found in the whole path (`TemplateLiterals.KeyLiteralExact`; `a[']']` means nothing,
  `TemplateLiterals.StringWithBracket`).
- Stage 999 also stands for a sound chain of 999 or more issues; with fewer memos it means a cycle
  or a missing path and nothing else (`Stages.SentinelMeaning`, `Stages.SentinelSound`,
  `Stages.SoundButUnresolved`).
- An unreviewed node that takes a reviewed node's id is noticed: every restricted request then
  fails (`ReviewBoundary.UnseenIffNewId`, `ReviewBoundary.ClashFails`).
- A hidden line that ends in a bare carriage return gains a newline (`Fences.LineNumbersKept`,
  `Fences.ReturnSlips`). Files are read with newline translation, so such a line reaches the check
  only from a character reference in an HTML page, or from a caller with a text of its own.
- In the HTML normaliser an `href` with a newline is counted twice
  (`HtmlLines.AddressCountedTwice`), an anchor inside an open anchor loses the newlines of the
  outer label (`HtmlLines.NestedAnchorLoses`), a character reference for a newline adds one, and
  declarations and end tags over several lines lose theirs
  (`HtmlLines.ReferencesAndDeclarations`). Lines are kept exactly if all this cancels out
  (`HtmlLines.LinesAccounted`).
- A card listed twice in one observed island is admitted (`ContrastPools.RepeatedCardPaired`). It is
  paired with itself exactly if there is a card outside the island
  (`ContrastPools.SelfPairedExactly`), and then some entry comes twice exactly if such an island
  has three or more entries (`ContrastPools.TriplePoolOnce`). A card id that the document repeats puts
  its cross-island pairs into the pair pool several times (`ContrastPools.PairPoolOnce`).

## Model

| member | source | states |
|---|---|---|
| `CycleSearch.Search.Visit` | 01_Plans/triage_actionable_plans.py:239-265 | One recursive visit of an unnumbered vertex: the search invariants hold again, numbers and stack only grow, the low link is at most the number of every older stack vertex that an edge leads to from what the visit left on the stack, and either nothing is left and the low link is the vertex's own number, or it is a smaller number of an older stack vertex that the vertex reaches. |
| `CycleSearch.Search.PopComponent` | 01_Plans/triage_actionable_plans.py:254-265 | Takes the stack down to and including the vertex, and files exactly what was above as one component. |
| `CycleSearch.PopIsScc` | 01_Plans/triage_actionable_plans.py:254-265 | What is popped when the low link equals the index is a strongly connected component: a whole class of mutual reachability. |
| `CycleSearch.NothingOpen` | 01_Plans/triage_actionable_plans.py:254-271 | After each root visit the stack is empty and every visited vertex is in exactly one popped component. |
| `CycleSearch.FindCycles` | 01_Plans/triage_actionable_plans.py:211-271 | Terminates, and returns exactly the strongly connected components with two or more members, each sorted, each once, in ascending order. |
| `TriageReport.FindActiveDependencyCycles` | 01_Plans/triage_actionable_plans.py:211-271 | The same for the graph of the active issues without self-loops. |
| `TriageReport.ActiveEdge` | 01_Plans/triage_actionable_plans.py:216-231 | That graph has an edge exactly where one active issue names another, different, active issue. |
| `Stages.StageSearch.DependencyStage` | 01_Plans/triage_actionable_plans.py:287-321 | The answer is the stage of the path, whatever is in the cache and whatever ancestors are on the stack; the cache stays correct; the recursion ends because the known paths outside the stack shrink. |
| `Stages.StageUnique` | 01_Plans/triage_actionable_plans.py:287-321 | A path has one stage only, so the answer does not depend on the order of calls. |
| `Stages.StageStep` | 01_Plans/triage_actionable_plans.py:308-321 | If every dependency has its stage, one more than the greatest, capped at 999, is the stage of the issue. |
| `Stages.CycleStage` | 01_Plans/triage_actionable_plans.py:292-298 | An issue that depends on itself, through whatever chain, has stage 999. |
| `Stages.SentinelMeaning` | 01_Plans/triage_actionable_plans.py:287-321 | The stage is 999 exactly if a missing path or a cycle can be reached, or a chain of 999 distinct issues lies below. |
| `Stages.SentinelSound` | 01_Plans/triage_actionable_plans.py:287-321 | With at most 999 memos the stage is 999 exactly if a missing path or a cycle can be reached. |
| `Stages.SoundButUnresolved` | 01_Plans/triage_actionable_plans.py:287-321 | On 1000 issues that depend on each other in a row the first has stage 999, though no missing path and no cycle can be reached. |
| `Triage.ResolveAll` | 01_Plans/triage_actionable_plans.py:438-466 | Each dependency is kept if it is a known path, else replaced by the only memo of that file name, else kept; the ambiguous names are recorded once each. |
| `Triage.AmbiguousNamesExact` | 01_Plans/triage_actionable_plans.py:451-458 | A name is recorded as ambiguous exactly if some unknown dependency has it and several memos do. |
| `Triage.ResolvedKnown` | 01_Plans/triage_actionable_plans.py:447-458 | A dependency is a known path after resolution exactly if it was one before or its file name belongs to one memo only; its file name is kept; if it stays unknown it is as written, and ambiguous exactly if some memo has its name. |
| `TriageMeaning.BasenameNames` | 01_Plans/triage_actionable_plans.py:451-458 | The file name of a path has no slash, and the path is that name or ends with a slash and that name. |
| `TriageMeaning.BasenameExactly` | 01_Plans/triage_actionable_plans.py:451-458 | No other name without a slash is such an end of the path. |
| `TriageMeaning.ResolvesExactly` | 01_Plans/triage_actionable_plans.py:438-466 | A dependency that is no known path resolves to a memo exactly if one memo path, and no other, is that file name or ends with a slash and it; then to that path. |
| `Triage.CollectBlockers` | 01_Plans/triage_actionable_plans.py:327-349 | The blockers of an issue, in order: one for every dependency that is ambiguous, missing, the issue itself or unfinished, and for every ADR that is missing or not accepted. |
| `Triage.NoPathBlockers` | 01_Plans/triage_actionable_plans.py:327-341 | There is no path blocker exactly if no single dependency contributes one. |
| `TriageMeaning.BlockersExact` | 01_Plans/triage_actionable_plans.py:327-349 | An issue has exactly these blockers: for a dependency whose name is ambiguous that name, else if it is unknown its name, else if it is the issue itself its id, else if it is not done its id and status; and every ADR that is missing or not accepted. |
| `TriageMeaning.AdrLast` | 01_Plans/triage_actionable_plans.py:278-278 | Among ADRs of one id the last one counts. |
| `TriageMeaning.MemoLast` | 01_Plans/triage_actionable_plans.py:277-277 | Among memos of one path the last one counts. |
| `Triage.DependentsExact` | 01_Plans/triage_actionable_plans.py:279-285 | The unlock list of a path inverts the dependencies: it holds exactly the active issues that name it, the issue itself excepted. |
| `Triage.BuildActionableIssues` | 01_Plans/triage_actionable_plans.py:274-370 | The list describes every active issue once, with its stage, blockers, readiness and unlocks, in the order of the sort key. |
| `TriageMeaning.ListOrder` | 01_Plans/triage_actionable_plans.py:366-370 | Of two listed issues the first is ready if the second is, and with equal readiness has no greater stage, with equal stage no lower priority (P0 to P3, then all others), with equal priority no greater path. |
| `TriageMeaning.ActiveExactly` | 01_Plans/triage_actionable_plans.py:280-283 | An issue is active exactly if its status is Draft, Open or In Progress. |
| `TriageReport.CollectErrors` | 01_Plans/triage_actionable_plans.py:468-495 | The errors of all memos in order: metadata, dependency paths, ADRs. |
| `TriageReport.IssueErrorsExact` | 01_Plans/triage_actionable_plans.py:468-495 | An error is reported for memos exactly if some memo has that reason at its own path. |
| `TriageMeaning.ReasonsExact` | 01_Plans/triage_actionable_plans.py:468-495 | A memo's reasons, one by one: status unknown or not one of the four, priority missing or blank, a dependency on itself, an ambiguous or unknown one, an unknown ADR; and no others. |
| `TriageMeaning.CycleErrorsExact` | 01_Plans/triage_actionable_plans.py:497-502 | There is one error for each cycle found, with its members, at the path of the first. |
| `TriageReport.Collect` | 01_Plans/triage_actionable_plans.py:428-537 | The report has the actionable list of the resolved memos, the three counts, and the memo errors followed by one error for every cycle. |
| `TriageReport.CountsAddUp` | 01_Plans/triage_actionable_plans.py:530-535 | Ready and blocked counts add up to the active count, which is the number of active memos. |
| `TriageMeaning.CountsMean` | 01_Plans/triage_actionable_plans.py:530-535 | The counts are the number of ready issues and the number of issues with a blocker or in draft. |
| `TriageAgreement.DependenciesComeFirst` | 01_Plans/triage_actionable_plans.py:323-370 | Topological order: an active dependency of a listed issue with stage below 999 is listed before it, with a smaller stage. |
| `TriageAgreement.ReadyExactly` | 01_Plans/triage_actionable_plans.py:327-348 | An issue is ready exactly if it is no draft, every dependency is another, finished, unambiguous memo and every ADR is accepted. |
| `TriageAgreement.ReadyIsShallow` | 01_Plans/triage_actionable_plans.py:323-370 | A ready issue has stage 0 or 1. |
| `TriageAgreement.CycleMembersBlocked` | 01_Plans/triage_actionable_plans.py:211-349 | Every member of a cycle that the report's errors name is listed, is not ready, and has stage 999. |
| `TriageAgreement.DependencyErrorsBlock` | 01_Plans/triage_actionable_plans.py:327-349 | An active issue for which the report's errors name a self, ambiguous or missing dependency is listed as not ready, with stage 999. |
| `TriageAgreement.CleanReportResolved` | 01_Plans/triage_actionable_plans.py:428-537 | A report without errors over at most 999 memos has no issue with stage 999, so the whole list is a topological order. |
| `Networks.Build` | 01_Plans/research/qualitative_query_d0/query_engine.py:20-114 | A snapshot that passes the checks becomes a network whose every index holds what scanning the lists gives. |
| `Networks.IndexItems` | 01_Plans/research/qualitative_query_d0/query_engine.py:44-55 | The loop succeeds exactly if no id is empty or occurs twice, and gives the items by id. |
| `Networks.ValidateRefs` | 01_Plans/research/qualitative_query_d0/query_engine.py:57-77 | The loops accept exactly if every end, target and source that is named exists. |
| `Networks.BuildAdjacency` | 01_Plans/research/qualitative_query_d0/query_engine.py:79-86 | The adjacency lists are the sorted neighbours over the relations, for every node. |
| `QueryMeaning.HopMeans` | 01_Plans/research/qualitative_query_d0/query_engine.py:79-86 | A hop goes from a known node along a relation, or back along one that is not directed, and nowhere else. |
| `Distances.NeighborhoodDistances` | 01_Plans/research/qualitative_query_d0/query_engine.py:136-152 | The bounded multi-source search records exactly the nodes within the depth, each with its hop distance. |
| `Distances.ShortestDistances` | 01_Plans/research/qualitative_query_d0/query_engine.py:225-236 | The same from one node. |
| `Distances.DistanceByWalk` | 01_Plans/research/qualitative_query_d0/query_engine.py:136-152 | A node is recorded exactly if a walk of at most that many hops leads to it, and its distance is the length of the shortest such walk. |
| `PathQueries.QueryNeighborhood` | 01_Plans/research/qualitative_query_d0/query_engine.py:136-161 | Unknown or empty focus and a depth outside 0 to 5 fail; else the selection is the nodes within the depth, with their distances, and the relations between them. |
| `PathQueries.SelectedByWalk` | 01_Plans/research/qualitative_query_d0/query_engine.py:136-161 | A node is selected exactly if a walk of at most `depth` hops leads to it from the focus; its distance is that of the shortest. |
| `PathQueries.InducedExact` | 01_Plans/research/qualitative_query_d0/query_engine.py:128-134 | The relations of a selection are exactly those whose two ends are selected, in order of id. |
| `PathQueries.DeeperByOneHop` | 01_Plans/research/qualitative_query_d0/query_engine.py:136-161 | Selecting one level deeper adds exactly one hop from what was selected. |
| `ShortestPaths.PathSearch.Walk` | 01_Plans/research/qualitative_query_d0/query_engine.py:267-281 | The recursive walk adds the shortest paths that extend its argument, in order, as many as there is room for. |
| `ShortestPaths.ExtensionsExact` | 01_Plans/research/qualitative_query_d0/query_engine.py:260-281 | Following neighbours whose distance grows by one finds exactly the shortest paths that begin with the given path. |
| `ShortestPaths.ExtensionsListed` | 01_Plans/research/qualitative_query_d0/query_engine.py:260-281 | They are found in strictly ascending order, so none twice. |
| `ShortestPaths.FindPaths` | 01_Plans/research/qualitative_query_d0/query_engine.py:260-282 | Nothing if the goal is out of reach, else all shortest paths if there are at most `max_paths`, else the first `max_paths` of them. |
| `ShortestPaths.TakeListed` | 01_Plans/research/qualitative_query_d0/query_engine.py:281-282 | The final sort of the paths changes nothing. |
| `ShortestPaths.BridgeFound` | 01_Plans/research/qualitative_query_d0/query_engine.py:250-300 | Paths are found exactly if the goal is within `max_depth` hops. |
| `ShortestPaths.BridgeUnique` | 01_Plans/research/qualitative_query_d0/query_engine.py:250-300 | The graph and the query determine the paths. |
| `PathQueries.EdgeRefBetween` | 01_Plans/research/qualitative_query_d0/query_engine.py:238-248 | The least id of a relation between two nodes; fails exactly if there is none. |
| `PathQueries.ConnectsLeads` | 01_Plans/research/qualitative_query_d0/query_engine.py:238-248 | A relation connects two nodes exactly if it alone makes the second a neighbour of the first. |
| `PathQueries.HopExactly` | 01_Plans/research/qualitative_query_d0/query_engine.py:238-248 | Between two nodes a relation is found exactly if there is a hop. |
| `PathQueries.EdgePathFollowed` | 01_Plans/research/qualitative_query_d0/query_engine.py:284-300 | Every relation on a path can be followed there: it goes from the one node to the next, or back if it is not directed. |
| `PathQueries.FollowPath` | 01_Plans/research/qualitative_query_d0/query_engine.py:238-300 | Along a walk the lookup never fails and gives the least relation of every hop. |
| `PathQueries.QueryBridge` | 01_Plans/research/qualitative_query_d0/query_engine.py:250-300 | The whole bridge answer: failures for unknown ends and bad limits, the trivial path for equal ends, else the paths, their relations and all refs on them. |
| `PathQueries.PathsFound` | 01_Plans/research/qualitative_query_d0/query_engine.py:250-300 | An answer has paths exactly if the goal is within `max_depth` hops. |
| `StateQueries.IndexedReasonsExact` | 01_Plans/research/qualitative_query_d0/query_engine.py:302-333 | The reasons read from the indexes equal those of a scan of all critiques, contradictions and relations. |
| `StateQueries.QueryResidual` | 01_Plans/research/qualitative_query_d0/query_engine.py:302-333 | The residual answer computed from the indexes equals the one defined by scanning the snapshot. |
| `StateQueries.ResidualChosen` | 01_Plans/research/qualitative_query_d0/query_engine.py:302-333 | A node is chosen exactly if it is in scope and has a reason. |
| `QueryMeaning.ResidualMeans` | 01_Plans/research/qualitative_query_d0/query_engine.py:302-333 | The six reasons in terms of the snapshot: alone on its island, held, pending or shelved, an open critique, no relation, an open contradiction, no source. |
| `StateQueries.QueryUnresolved` | 01_Plans/research/qualitative_query_d0/query_engine.py:335-378 | The unresolved answer computed from the indexes equals the one defined by scanning the snapshot. |
| `StateQueries.UnresolvedChosen` | 01_Plans/research/qualitative_query_d0/query_engine.py:335-378 | A node is chosen exactly if it is in scope and has an open point or is an end of an open contradiction inside the scope. |
| `QueryMeaning.UnresolvedMeans` | 01_Plans/research/qualitative_query_d0/query_engine.py:335-378 | The three open points: its hold state, if one of the three, unreviewed, an open critique. |
| `StateQueries.UnresolvedWithinResidual` | 01_Plans/research/qualitative_query_d0/query_engine.py:302-378 | Every node that `unresolved` chooses is chosen by `residual` or is marked unreviewed, and both stay inside the scope. |
| `Selections.ExecuteSelection` | 01_Plans/research/qualitative_query_d0/execute_projection_request.py:95-118 | Each intent runs its query with the focus it needs, or fails for a focus of the wrong size. |
| `Selections.SelectionUnique` | 01_Plans/research/qualitative_query_d0/execute_projection_request.py:95-118 | Snapshot, intent and focus determine the selection or the failure. |
| `QueryMeaning.ContrastMeans` | 01_Plans/research/qualitative_query_d0/query_engine.py:163-223 | For sources, actors, islands, hold states, review states and relation types: the shared values are those of both sides, the others those of one side only, each in order. |
| `QueryMeaning.CrossMeans` | 01_Plans/research/qualitative_query_d0/query_engine.py:188-223 | The contradictions named are those between the two sides, whichever way they go; the nodes are those of both sides. |
| `QueryMeaning.ProvenanceMeans` | 01_Plans/research/qualitative_query_d0/query_engine.py:417-441 | Each source and each actor of a node in scope is listed with exactly the nodes in scope that have it, in order; the nodes without a source are named. |
| `QueryMeaning.TemporalMeans` | 01_Plans/research/qualitative_query_d0/query_engine.py:380-415 | The timeline holds exactly the dated observations, relations, critiques and contradictions in scope and the events that touch it, with their fields. |
| `QueryMeaning.TemporalOrder` | 01_Plans/research/qualitative_query_d0/query_engine.py:380-415 | It is in order of time, then of kind, then of reference. |
| `Requests.NormalizeIdempotent` | 01_Plans/research/qualitative_query_d0/projection_request.py:93-207 | Normalising an accepted request again changes nothing and grants the same visibility. |
| `Requests.NormalizeOrderFree` | 01_Plans/research/qualitative_query_d0/projection_request.py:93-207 | Requests that differ only in order, repetition and surrounding white space of their lists are accepted alike and normalised alike. |
| `PipelineMeaning.AcceptedExactly` | 01_Plans/research/qualitative_query_d0/projection_request.py:111-207 | Which requests are accepted: the conditions on every list and every scalar, as an if-and-only-if. |
| `PipelineMeaning.NormalizeExactly` | 01_Plans/research/qualitative_query_d0/projection_request.py:93-207 | What an accepted request becomes: lists trimmed, in order and without repetition, and the visibility that is granted. |
| `Snapshots.ReviewedIdempotent` | 01_Plans/research/qualitative_query_d0/execute_projection_request.py:39-78 | Filtering for review twice is filtering once. |
| `Snapshots.ReviewedWellFormed` | 01_Plans/research/qualitative_query_d0/execute_projection_request.py:39-78 | The filtered snapshot of a well-formed one is well-formed. |
| `Snapshots.ReviewedIds` | 01_Plans/research/qualitative_query_d0/execute_projection_request.py:39-78 | The ids of the nodes that remain are exactly those of the human-reviewed nodes. |
| `Snapshots.KeptAreReviewed` | 01_Plans/research/qualitative_query_d0/execute_projection_request.py:39-78 | If the remaining ids are distinct, the nodes that remain are exactly the human-reviewed ones. |
| `Pipeline.CollectProjections` | 01_Plans/research/qualitative_query_d0/execute_projection_request.py:125-180 | The loop over the forms gives the projections and the deferred forms in order, or fails where a form does not fit. |
| `Pipeline.Execute` | 01_Plans/research/qualitative_query_d0/execute_projection_request.py:125-180 | Request, visibility, intent, selection and projections are put together as one response or the first failure. |
| `PipelineMeaning.ChosenExactly` | 01_Plans/research/qualitative_query_d0/execute_projection_request.py:81-92 | An intent is chosen exactly if one of the seven is sought and no other of them, and it is that one. |
| `PipelineMeaning.AnsweredAsAsked` | 01_Plans/research/qualitative_query_d0/execute_projection_request.py:95-180 | A request that seeks one of the seven is answered by the query of that name, with the focus and the limits of the source, on what it may see. |
| `PipelineMeaning.RefusedUnlessOne` | 01_Plans/research/qualitative_query_d0/execute_projection_request.py:81-92 | A request that seeks none or several of them fails with the intent error, once the snapshot has been accepted. |
| `PipelineMeaning.VisibleExactly` | 01_Plans/research/qualitative_query_d0/execute_projection_request.py:39-78 | A request sees the whole snapshot exactly if it asks for the unreviewed and safe mode allows it, else the reviewed part. |
| `PipelineMeaning.FitsExactly` | 01_Plans/research/qualitative_query_d0/projection.py:37-118 | Which form fits which kind of selection. |
| `PipelineMeaning.SubgraphExact` | 01_Plans/research/qualitative_query_d0/projection.py:37-118 | A subgraph shows the selected nodes in order and exactly the relations between them. |
| `PipelineMeaning.LayoutExact` | 01_Plans/research/qualitative_query_d0/projection.py:37-118 | A layout shows exactly the selected nodes that have both coordinates, where they are. |
| `PipelineMeaning.ProjectedForms` | 01_Plans/research/qualitative_query_d0/execute_projection_request.py:125-180 | The forms sought are projected in order, but for the narrative, which is deferred. |
| `PipelineMeaning.ProjectedExactly` | 01_Plans/research/qualitative_query_d0/execute_projection_request.py:125-180 | The projections succeed exactly if every form fits the selection. |
| `Pipeline.ResponseUnique` | 01_Plans/research/qualitative_query_d0/execute_projection_request.py:125-180 | Snapshot and request determine the whole response. |
| `ReviewBoundary.EditInvisible` | 01_Plans/research/qualitative_query_d0/execute_projection_request.py:39-78 | Adding, removing or rewriting hidden nodes, and what touches them, leaves the filtered snapshot as it was. |
| `ReviewBoundary.Noninterference` | 01_Plans/research/qualitative_query_d0/execute_projection_request.py:39-180 | Over every sequence of such edits, a restricted requester gets the same response, for every intent and form, failures included. |
| `ReviewBoundary.UnseenIffNewId` | 01_Plans/research/qualitative_query_d0/execute_projection_request.py:39-78 | Adding an unreviewed node goes unseen exactly if its id is not that of a visible node. |
| `ReviewBoundary.ClashFails` | 01_Plans/research/qualitative_query_d0/execute_projection_request.py:39-180 | An unreviewed node with a visible id makes every restricted request fail. |
| `ReviewBoundary.OnlyReviewedMentioned` | 01_Plans/research/qualitative_query_d0/execute_projection_request.py:39-118 | Every node a restricted selection mentions is human-reviewed. |
| `ReviewBoundary.OnlyReviewedProjected` | 01_Plans/research/qualitative_query_d0/projection.py:27-118 | In every projection of a restricted response every node shown has the state human_reviewed, every relation shown joins such nodes, and every reference is to one. |
| `ReviewBoundary.SameFingerprintSameSelection` | 01_Plans/research/qualitative_query_d0/projection_request.py:214-230 | Accepted requests with equal fingerprint and visibility get the same selection or the same failure, whatever their actor, roles and forms. |
| `CandidateChannels.CharacterNgrams` | 01_Plans/research/qualitative_query_d0/lexical_sparse.py:30-44 | Exactly the windows of the given sizes; a size below one is refused. |
| `CandidateChannels.LexicalExpand` | 01_Plans/research/qualitative_query_d0/lexical_sparse.py:64-136 | Refused exactly for empty or unknown refs or limits below one; else the candidates in order, each with its matched anchors and its first pieces of evidence. |
| `CandidateChannels.ExpansionOfUnion` | 01_Plans/research/qualitative_query_d0/lexical_sparse.py:79-121 | The candidates of two anchor sets together are those of either, less both anchor sets. |
| `CandidateChannels.EvidenceOfUnion` | 01_Plans/research/qualitative_query_d0/lexical_sparse.py:95-113 | Matched anchors and shared features of two anchor sets together are the unions. |
| `CandidateChannels.CollectPresence` | 01_Plans/research/qualitative_query_d0/query_envelope.py:121-129 | The table has exactly the mentioned refs, each with the names of the channels that mention it. |
| `CandidateChannels.PresenceExact` | 01_Plans/research/qualitative_query_d0/query_envelope.py:121-129 | The presence list is the exact inverse of membership. |
| `CandidateChannels.EnvelopeOrderFree` | 01_Plans/research/qualitative_query_d0/query_envelope.py:132-180 | The envelope, and whether there is one, does not depend on the order of the channels. |
| `TemplateScan.ParensWrapWhole` | 02_Architecture/support.js:235-245 | True exactly if no closing parenthesis before the last character brings the depth to 0. |
| `TemplateScan.FindTopLevelEquality` | 02_Architecture/support.js:246-260 | The first place at bracket depth 0 where an equality operator starts that has something before it and does not follow an operator character, with the operator's full text; none exactly if there is no such place. |
| `TemplateScan.FindClose` | 02_Architecture/support.js:272-284 | The first bracket that brings the depth to 0; none exactly if there is none. |
| `TemplateScan.CloseWhole` | 02_Architecture/support.js:272-284 | A given bracket is the one found exactly if what stands before it is balanced. |
| `TemplateExpr.Resolve` | 02_Architecture/support.js:203-234 | Gives the meaning of the string; every recursive call is on a strictly shorter one, so it ends on every input. |
| `TemplatePrinter.NumberMeaning` | 02_Architecture/support.js:202-229 | Digits, with or without a minus sign before them and a point and digits after them, mean the number of that text. |
| `TemplatePrinter.NumberExactly` | 02_Architecture/support.js:202-229 | No other text is read as a number. |
| `TemplateExpr.NameCharacters` | 02_Architecture/support.js:201-201 | The characters a name begins with and goes on with, one by one. |
| `TemplateMalformed.BlankMeaning` | 02_Architecture/support.js:203-205 | Blank text means undefined. |
| `TemplateMalformed.StrayMeaning` | 02_Architecture/support.js:230-263 | Text that is no group, comparison, negation, word, number or string and begins with no name means undefined. |
| `TemplateExpr.ResolvePath` | 02_Architecture/support.js:261-292 | The loop over dots and brackets gives the value at the end of the path, undefined for a malformed one. |
| `TemplateScan.EqualityNested` | 02_Architecture/support.js:246-260 | The search passes over bracketed text without finding an operator in it. |
| `TemplateScan.CloseNested` | 02_Architecture/support.js:272-284 | The search for the closing bracket finds the matching one. |
| `TemplatePrinter.ComparisonFound` | 02_Architecture/support.js:246-260 | In a printed comparison the search finds the operator between the operands, in its full length, for all four operators. |
| `TemplatePrinter.PathScanned` | 02_Architecture/support.js:261-292 | Scanning a printed path stands, at its end, at the path's value, nested keys included. |
| `TemplateMalformed.StoppedMeaning` | 02_Architecture/support.js:261-292 | A path followed by a dot without a name, a bracket without a partner or any other character means undefined, whatever it began with. |
| `TemplatePrinter.PrintedMeaning` | 02_Architecture/support.js:203-292 | Evaluating the printed form of a well-formed expression, with any white space around it, gives the expression's value; literals may hold nested brackets and parentheses, and operators inside them. |
| `TemplatePrinter.PlainBody` | 02_Architecture/support.js:203-292 | Literals without brackets, parentheses and operators are among the well-formed ones. |
| `TemplatePrinter.PrintUnambiguous` | 02_Architecture/support.js:203-292 | Expressions that print alike mean the same. |
| `TemplateLiterals.StringLiteralExact` | 02_Architecture/support.js:203-234 | A quoted string by itself means its body exactly if the search finds no operator in it. |
| `TemplateLiterals.WrapsExactly` | 02_Architecture/support.js:235-245 | Parentheses enclose a text as a whole exactly if no prefix of it closes more than it opens. |
| `TemplateLiterals.GroupedLiteralExact` | 02_Architecture/support.js:203-245 | A quoted string in parentheses means its body exactly if, besides, no prefix of the body closes a parenthesis too many. |
| `TemplateLiterals.KeyClosesExactly` | 02_Architecture/support.js:272-284 | A quoted string as a key is read up to its own end exactly if its brackets are balanced. |
| `TemplateLiterals.KeyLiteralMeans` | 02_Architecture/support.js:261-292 | With balanced brackets and no operator found in string and path, the path means the element under the string's body, for every host. |
| `TemplateLiterals.KeyLiteralExact` | 02_Architecture/support.js:261-292 | And only then, in a host that keeps all values apart. |
| `TemplateLiterals.StringWithOperator` | 02_Architecture/support.js:208-222 | The literal `'a==b'` evaluates as a comparison of undefined with undefined. |
| `TemplateLiterals.StringWithBracket` | 02_Architecture/support.js:261-292 | The path `a[']']` evaluates to undefined. |
| `TemplateLiterals.StringWithParenthesis` | 02_Architecture/support.js:203-245 | `(')')` evaluates to undefined, though `')'` evaluates to its body. |
| `Lifecycle.StreamableComponent.MakeLogic` | 02_Architecture/support.js:839-859 | Makes a new instance, of the base class if the construction threw, remembers the failure, and adopts the previous state over the initial one. |
| `Lifecycle.NewMeans` | 02_Architecture/support.js:839-859 | A new component holds exactly the keys and values of the constructor's state and has its class; if the constructor threw, or there is no class, the base class and no key. |
| `Lifecycle.SwapMeans` | 02_Architecture/support.js:839-891 | After a swap every previous key has its previous value, every other key of the constructor's state its initial value, and there is no other key; after a throw only the previous keys are there. |
| `Lifecycle.StreamableComponent.ReconcileLogic` | 02_Architecture/support.js:875-891 | Leaves the component as it is unless the class changed and did not just fail in the same way; else will-unmount, if the instance was mounted, and a new instance with the old state. |
| `Lifecycle.StreamableComponent.ComponentDidUpdate` | 02_Architecture/support.js:900-917 | A pending did-mount is delivered once a template is there and no error is shown; else did-update. |
| `Lifecycle.StreamableComponent.ComponentWillUnmount` | 02_Architecture/support.js:918-927 | Will-unmount is delivered unless did-mount is still pending. |
| `Lifecycle.OrderlyExactly` | 02_Architecture/support.js:839-927 | Over every run: every instance is mounted, updated and unmounted in that order, at most once each for the first and last, exactly if no render before the mount commit swaps. |
| `Lifecycle.OrderlyMeans` | 02_Architecture/support.js:839-927 | In an orderly run did-mount and will-unmount come at most once, and each will-unmount after exactly one did-mount. |
| `Lifecycle.NoneLeftMounted` | 02_Architecture/support.js:839-927 | Without such a swap, every instance that is swapped out or whose component is gone has had as many will-unmounts as did-mounts. |
| `Lifecycle.EarlySwapMountsTwice` | 02_Architecture/support.js:875-917 | After such a swap, a mount and an update, the new instance has been mounted twice and the old one unmounted without being mounted. |
| `Lifecycle.StateKept` | 02_Architecture/support.js:839-891 | Over every run a state key's value lasts until it is set, whatever is swapped. |
| `Lifecycle.StateExactly` | 02_Architecture/support.js:839-891 | Over every run a key holds the value it was last set to; if never set, the value it had; if it had none, the initial value of the first instance made since that has one; else it is absent. |
| `Lifecycle.KeyPresent` | 02_Architecture/support.js:839-891 | Over every run a key is there exactly if it was, was set, or an instance made since had it initially. |
| `Lifecycle.UpdatesTold` | 02_Architecture/support.js:900-917 | While no instance is made, every update commit is told to the instance in use, once. |
| `Lifecycle.MountDelivered` | 02_Architecture/support.js:900-917 | A swapped-in instance is told of its mounting by the first update commit that has a template and shows no error, of every update after that, and of nothing before. |
| `Lifecycle.RenderServes` | 02_Architecture/support.js:875-891 | Over every run a render leaves the component alone exactly if it runs the entry's class or stands in for it after a failure with the same version and props; otherwise it makes one instance, and then does so, unless the construction throws with props that do not count as the same as themselves. |
| `Lifecycle.MadeOnce` | 02_Architecture/support.js:839-891 | Over every run that renders one entry with the same props, at most one instance is made, even if its construction throws every time. |
| `Lifecycle.RetriedExactly` | 02_Architecture/support.js:875-891 | After a construction threw, and however often it was rendered since, the class is tried again exactly if the version or the props changed. |
| `LayoutBatches.BatchOwnership` | 03_Implement/backend/scripts/measure_ai_layout_hierarchical_candidate.py:67-110 | Succeeds exactly if every island member is a known card and none is a member twice, and gives the owners and batches. |
| `LayoutMeaning.OwnableMeans` | 03_Implement/backend/scripts/measure_ai_layout_hierarchical_candidate.py:67-110 | That is: all memberships together name every card of the document at most once and nothing else. |
| `LayoutMeaning.PlanMeans` | 03_Implement/backend/scripts/measure_ai_layout_hierarchical_candidate.py:67-110 | The plan's batches are exactly: for the last island of each id a batch with its id, title, parent and sorted members, and for each card that is no member a batch of its own. |
| `LayoutBatches.OwnershipWithin` | 03_Implement/backend/scripts/measure_ai_layout_hierarchical_candidate.py:67-110 | Every card has an owner, and every card of a batch is owned by it and in it once. |
| `LayoutBatches.PlanPartitions` | 03_Implement/backend/scripts/measure_ai_layout_hierarchical_candidate.py:67-110 | Every card is in exactly one batch of the plan exactly if no island with cards has the id of a later one. |
| `LayoutBatches.DistinctIslandsKept` | 03_Implement/backend/scripts/measure_ai_layout_hierarchical_candidate.py:67-110 | Distinct island ids meet that condition. |
| `LayoutBatches.SameIdLosesCard` | 03_Implement/backend/scripts/measure_ai_layout_hierarchical_candidate.py:67-110 | Two islands of one id with a card each are accepted and do not give a partition. |
| `LayoutRelations.RelationPartition` | 03_Implement/backend/scripts/measure_ai_layout_hierarchical_candidate.py:113-157 | Succeeds exactly if every relation between cards has owned ends, and splits the sorted relations by their home. |
| `LayoutRelations.RelationsConserved` | 03_Implement/backend/scripts/measure_ai_layout_hierarchical_candidate.py:113-157 | The local relations of the plan's batches and the global ones are together the relations of the document, with multiplicity. |
| `LayoutRelations.LocalMeans` | 03_Implement/backend/scripts/measure_ai_layout_hierarchical_candidate.py:140-150 | A relation local to a batch is between two cards that this batch owns. |
| `LayoutMeaning.LocalExactly` | 03_Implement/backend/scripts/measure_ai_layout_hierarchical_candidate.py:140-150 | A row is in a batch's bucket exactly if both ends are cards, an empty kind counting as a card, and both are owned by the batch. |
| `LayoutMeaning.GlobalExactly` | 03_Implement/backend/scripts/measure_ai_layout_hierarchical_candidate.py:140-155 | A row is in the global bucket exactly if its ends are cards of two batches, which it then names, or are not both cards. |
| `LayoutMeaning.GroundedMeans` | 03_Implement/backend/scripts/measure_ai_layout_hierarchical_candidate.py:141-145 | The split is refused exactly if some relation between cards has an end that no batch owns. |
| `LayoutMeaning.BucketOrder` | 03_Implement/backend/scripts/measure_ai_layout_hierarchical_candidate.py:120-128 | Every bucket is in the order of the relations' sort key. |
| `LayoutMeaning.RelationLeMeans` | 03_Implement/backend/scripts/measure_ai_layout_hierarchical_candidate.py:120-128 | That order is by type, then by the one end, the other end, and the id. |
| `LayoutComposition.CoverageForced` | 03_Implement/backend/scripts/measure_ai_layout_hierarchical_composition.py:104-139 | Right length, no duplicates and no unknown ids already force full coverage, so the last check cannot fail. |
| `LayoutComposition.AnswersExactly` | 03_Implement/backend/scripts/measure_ai_layout_hierarchical_composition.py:104-174 | An answer is accepted exactly if it is a duplicate-free reordering of the expected ids. |
| `LayoutComposition.ParseLocal` | 03_Implement/backend/scripts/measure_ai_layout_hierarchical_composition.py:104-139 | Accepted exactly for the right batch id and a full answer; gives the offset of every card of the batch. |
| `LayoutComposition.ParseGlobal` | 03_Implement/backend/scripts/measure_ai_layout_hierarchical_composition.py:142-174 | Accepted exactly for a full answer; gives the anchor of every batch. |
| `LayoutComposition.Compose` | 03_Implement/backend/scripts/measure_ai_layout_hierarchical_composition.py:177-220 | Succeeds exactly if answers, plan and document fit together, and lists the composed places in the order of the card ids. |
| `LayoutAlgebra.PlacedAt` | 03_Implement/backend/scripts/measure_ai_layout_hierarchical_composition.py:199-210 | Every card is at its batch's anchor plus its offset. |
| `LayoutAlgebra.EachCardOnce` | 03_Implement/backend/scripts/measure_ai_layout_hierarchical_composition.py:177-220 | An accepted composition lists every source card exactly once. |
| `LayoutAlgebra.ShiftMovesAll` | 03_Implement/backend/scripts/measure_ai_layout_hierarchical_composition.py:177-220 | Shifting all anchors is accepted and shifts every card alike. |
| `LayoutAlgebra.OneOffsetMovesOne` | 03_Implement/backend/scripts/measure_ai_layout_hierarchical_composition.py:177-220 | Changing one offset is accepted, moves that card and no other. |
| `LayoutIdentity.BuildIdentity` | 03_Implement/backend/scripts/measure_ai_layout_hierarchical_composition.py:70-101 | Succeeds exactly if the card ids are good and every batch has cards, all known; gives offsets around the centroids. |
| `LayoutMeaning.CentroidBalances` | 03_Implement/backend/scripts/measure_ai_layout_hierarchical_composition.py:59-101 | The offsets of a batch's cards around a point add up to zero exactly if the point is the centroid. |
| `LayoutIdentity.IdentityRoundTrip` | 03_Implement/backend/scripts/measure_ai_layout_hierarchical_composition.py:70-220 | Composing identity answers of a plan that partitions the cards gives the source layout, whatever the anchors. |
| `LayoutIdentity.DocumentRoundTrip` | 03_Implement/backend/scripts/measure_ai_layout_hierarchical_composition.py:70-220 | From the document to the plan, the identity answers and back: the source layout, for every document whose batches are not empty and whose islands are kept. |
| `Fences.WithoutFencedCode` | 01_Plans/docs_contract_checks.py:326-351 | The loop over the lines blanks the fenced ones, opening and closing fences as the marker rule says. |
| `FenceBlocks.MarkerExact` | 01_Plans/docs_contract_checks.py:41-41 | A line is a fence of n characters exactly if, after at most three blanks or tabs, it has exactly n backticks or tildes, at least three. |
| `FenceBlocks.BlocksExist` | 01_Plans/docs_contract_checks.py:326-351 | Every sequence of lines splits into blocks, each from a fence line to the first line that has at least as many of the same character, or to the end, and no fence line between the blocks. |
| `FenceBlocks.StripByBlocks` | 01_Plans/docs_contract_checks.py:326-351 | For every such split the lines outside the blocks are kept as they are, and of those inside only the line end is left. |
| `Fences.LineNumbersKept` | 01_Plans/docs_contract_checks.py:326-351 | Every line starts at its old line number exactly if no hidden line ends with a bare carriage return. |
| `Fences.ReturnSlips` | 01_Plans/docs_contract_checks.py:326-351 | A fence line that ends with a bare carriage return gains a newline. |
| `Fences.CharacterKeepsLine` | 01_Plans/docs_contract_checks.py:326-351 | In the output of fence blanking alone, on a text with normalised newlines, every character of a line that is not hidden keeps its line number. |
| `InlineCode.MatchExact` | 01_Plans/docs_contract_checks.py:42-42 | The match removed is one with the most backticks, and among those the shortest; none is found exactly if there is none. |
| `InlineCode.RemoveExact` | 01_Plans/docs_contract_checks.py:354-355 | Reading from the left, a span is cut where a match starts and a character is kept where none does; what remains is exactly what is kept. |
| `InlineCode.SpanOnOneLine` | 01_Plans/docs_contract_checks.py:42-42 | What a match removes has no line end in it. |
| `InlineCode.SurvivorsKeepLines` | 01_Plans/docs_contract_checks.py:326-355 | Every character that survives fence blanking and inline-code removal is on the line it was on, unless a hidden line ends with a bare carriage return. |
| `InlineCode.ReportedLineExact` | 01_Plans/docs_contract_checks.py:537-537 | On a text with normalised newlines the line reported for a match is that of its first character in the file. |
| `InlineCode.NormalisedNewlines` | 01_Plans/docs_contract_checks.py:354-355 | The whole normaliser adds one newline for each hidden line that ends with a bare carriage return, and no other. |
| `Fences.StripIdempotent` | 01_Plans/docs_contract_checks.py:326-351 | Blanking fences twice is blanking them once, on every text. |
| `HtmlLines.HtmlToMarkdownish.BeginHeading` | 01_Plans/docs_contract_checks.py:404-420 | The loop removes exactly the indentation at the end of the parts before the heading marker. |
| `HtmlLines.HtmlToMarkdownish.Feed` | 01_Plans/docs_contract_checks.py:423-467 | Each token changes the state as its handler says. |
| `HtmlMeaning.NodeRendered` | 01_Plans/docs_contract_checks.py:423-467 | Running over the tokens of a document tree writes its rendering: links for anchors, backticks around text in code, heading marks at the line start, newlines only for scripts and styles; and leaves the depths as they were. |
| `HtmlMeaning.DocumentRendered` | 01_Plans/docs_contract_checks.py:384-474 | The output for a whole document is its rendering. |
| `HtmlMeaning.TrimMeans` | 01_Plans/docs_contract_checks.py:404-420 | What is trimmed before a heading is blanks only, and all of them. |
| `HtmlLines.LinesAccounted` | 01_Plans/docs_contract_checks.py:384-474 | For every token sequence the output has the newlines of the tokens' text plus their drift (addresses written again, labels thrown away, decoded references, end tags and declarations without trace); so lines are kept exactly if the drift is 0. |
| `HtmlLines.LinesKept` | 01_Plans/docs_contract_checks.py:384-474 | Without nested anchors, with addresses, end tags and declarations on one line and no reference to a newline, newlines written equal newlines read whenever no anchor is open, and at the end. |
| `HtmlLines.AddressCountedTwice` | 01_Plans/docs_contract_checks.py:423-457 | An anchor drifts by the newlines of its address. |
| `HtmlLines.NestedAnchorLoses` | 01_Plans/docs_contract_checks.py:423-437 | An anchor inside an open one drifts by the newlines of the outer label, downwards. |
| `HtmlLines.ReferencesAndDeclarations` | 01_Plans/docs_contract_checks.py:460-467 | A character reference for a newline adds one, a declaration loses its newlines. |
| `ContrastPools.CheckIslands` | 01_Plans/dogfood/prepare_cognitive_assoc_benchmark.py:128-168 | Admits exactly the islands of known cards that do not share cards and cover all of them. |
| `ContrastPools.IslandIs` | 01_Plans/dogfood/prepare_cognitive_assoc_benchmark.py:188-195 | The index gives every card its group or its single island. |
| `ContrastPools.DerivePairPool` | 01_Plans/dogfood/prepare_cognitive_assoc_benchmark.py:198-214 | The loops give the cross-island pairs in the order of combinations, for ids in order that may repeat. |
| `ContrastPools.PairPoolCount` | 01_Plans/dogfood/prepare_cognitive_assoc_benchmark.py:198-214 | A pair of different islands is in the pool once for every way to choose its two entries; no other pair is. |
| `ContrastPools.PairPoolExact` | 01_Plans/dogfood/prepare_cognitive_assoc_benchmark.py:198-214 | The pool holds exactly the pairs of cards of different islands, the smaller id first. |
| `ContrastPools.PairPoolOnce` | 01_Plans/dogfood/prepare_cognitive_assoc_benchmark.py:198-214 | No pair is in the pool twice, exactly if every card with a partner in another island is listed once. |
| `ContrastPools.PairPoolSplit` | 01_Plans/dogfood/prepare_cognitive_assoc_benchmark.py:198-214 | The pool has C(n,2) entries less the pairs of entries inside each island. |
| `ContrastPools.PairPoolSize` | 01_Plans/dogfood/prepare_cognitive_assoc_benchmark.py:198-214 | With distinct cards that is C(n,2) less the sum of C(g,2) over the groups. |
| `ContrastPools.DeriveTwoPlusOnePool` | 01_Plans/dogfood/prepare_cognitive_assoc_benchmark.py:217-236 | The loops give every pair of a group with every card outside it. |
| `ContrastPools.GroupPoolCount` | 01_Plans/dogfood/prepare_cognitive_assoc_benchmark.py:217-236 | An entry of a group's pool occurs once for every way to choose its pair from the group. |
| `ContrastPools.GroupPoolExact` | 01_Plans/dogfood/prepare_cognitive_assoc_benchmark.py:217-236 | The entries of a group are its pairs, the smaller card first or one card listed twice, with every card outside. |
| `ContrastPools.SelfPairedExactly` | 01_Plans/dogfood/prepare_cognitive_assoc_benchmark.py:217-236 | A card is paired with itself exactly if the group lists it twice and there is an outsider. |
| `ContrastPools.TriplePoolExact` | 01_Plans/dogfood/prepare_cognitive_assoc_benchmark.py:217-236 | The whole pool holds exactly what the groups give. |
| `ContrastPools.TriplePoolOnce` | 01_Plans/dogfood/prepare_cognitive_assoc_benchmark.py:217-236 | For admitted groups no entry is in the pool twice, exactly if every group has distinct cards, or only two entries, or no outsider. |
| `ContrastPools.TriplePoolSize` | 01_Plans/dogfood/prepare_cognitive_assoc_benchmark.py:217-236 | The pool has the sum over the groups of C(g,2) times the number of different cards outside. |
| `ContrastPools.RepeatedCardPaired` | 01_Plans/dogfood/prepare_cognitive_assoc_benchmark.py:128-168 | For different cards x and z, the group x, x and the single island z are admitted, and x, x, z is an entry. |

## Left out

- Reading files, git, subprocesses, arguments and printing: the model starts from parsed records.
- Regular-expression parsing of memo and ADR metadata, mock detection and the ADR list of the triage, with its errors for ambiguous references: an error-free report of the source is error-free here.
- The texts of errors and blockers: they are datatypes with the values the texts would show.
- Paths with a trailing slash or `.` components: the file name is what follows the last slash.
- Python's recursion limit, which the cycle search and the stages could reach on long chains.
- Type checks of raw JSON (objects, lists, unknown keys, numbers that are not finite): requests, snapshots and answers are typed records, coordinates are reals.
- Digests and hashes: the fingerprint is the record that is hashed.
- Reason codes are records of flags instead of lists of strings; the contrast, temporal and provenance answers and the projections are functions rather than methods with loops; `QueryMeaning` and `PipelineMeaning` state what they hold.
- The host language's values, equality, truthiness and property access are parameters of the evaluator; strings are sequences of Unicode characters, not of UTF-16 units.
- TemplatePrinter.PrintedMeaning: string literals with unbalanced brackets or an operator at top level are outside it, because the evaluator does not treat quotes as quoting; the literal theorems say exactly when those are read as meant by themselves, in parentheses and as a key.
- React, the DOM, fetching, compiling of templates and the registry's own bookkeeping: a run of a component is any sequence of renders, commits and state updates that React's phases allow, and a bump of the registry shows in the entry of the next render. Exceptions from hooks are swallowed by the source and change nothing.
- Prompt texts, byte counts and the provider calls of the layout measurement.
- `_parse_local_result` and `_parse_global_result` share one loop here; the final coverage check is proved redundant instead of being repeated.
- Fences are opened and closed by the rule of the source, which is looser than section 4.5 of CommonMark: a closing marker may have text after it, an opening run of backticks may have backticks after it.
- HtmlMeaning.NodeRendered: speaks of documents in which every anchor, code, heading, script and style element has its end tag; the line counts of `HtmlLines` hold for every sequence of tokens.
- The other document checks, how links are found in the normalised text, and how the HTML parser finds its tokens.
- Unicode normalisation of the lexical channel: features are taken from a given surface, and of a ref they are a parameter.
- The associative channel, and the checks of the deterministic selection in the envelope.
- The benchmark's manifest, exclusions, challenge sets and outputs; entries of the pools are their card ids.
