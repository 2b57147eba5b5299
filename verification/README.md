# Verification model of the document-search backend

A Dafny 4.11 model of the algorithms and protocols at the heart of the backend, with proofs about them.
`dafny verify dfyconfig.toml` checks the whole project.

The original's loops and objects appear here as methods, arrays and classes. Each method is proved to compute a
specification function of its inputs or of the old state, and the lemmas say what that function promises, for
every input or for every run. Protocols are state machines whose steps interleave arbitrarily, with crashes and
redeliveries between them; the handlers that take those steps are then given as methods of a class, proved to be
runs of the machine.

## What is modelled

**Community detection.** `CommunityGraph` (levels, degrees, adjacency), `Modularity` (Newman's Q as a sum over
communities and an equal form that mentions no community ids; the exact change one move makes), `LocalMoving`
(visits, passes, the incremental degree totals), `Aggregation` (super-nodes), `Louvain` (the outer loop and the
whole run) and `TiedMove` (a concrete run). Weights are exact reals. `Sums`, `SetSums`, `FirstSeen` and
`RealAlgebra` hold what they share, as `Wrappers`, `Texts` and `Numerals` do for the rest. Beyond the result's being
no worse than all singletons, the final partition is proved *merge-optimal*: no two of its communities could be
joined to score more.

**Canonical entities.** `CanonicalModel` is the store as a value and its operations, `CanonicalRuns` and
`CanonicalTheorems` what every run keeps, `CanonicalLedger` the store seen as accounts owed by documents to
identities (which is what makes undo work across other documents' activity), `CanonicalUndo` exactly what such an
undo restores, `CanonicalRepository` the in-memory repository as a class, `CanonicalCalls` what a call does in the terms of its
mentions' fields, `MentionLinks` resolving new mentions. `AliasMerges` and `AliasResolution` are alias resolution
under a judge that may answer anything, fail, or return too few or too many verdicts.

**Jobs and scans.** `JobStatus` (the transition rules), `JobStore` (the in-memory store), `JobRuns` (execution
names), `JobDispatch` (publishes interleaving with crashes and reports), `MalwareScan` (one upload's scan results,
timeouts and retries interleaving, each handler stopped anywhere), `ScanHandlers` (the handlers themselves) and
`EntityBatches` (batch extraction under redelivery).

**Text and streams.** `FooterFilter` and `AnswerParse` (the streamed answer and its authoritative parse), `Utf8`
and `Splitter` (chunking; section 4 of RFC 3629), `EventStream` (server-sent events in the form of section 9.2 of
the WHATWG HTML Standard).

**Smaller cores.** `GraphPath` (multi-source breadth-first search), `RateLimit` (two limiters), `Reevaluation`
(questions behind re-evaluated answers).

## Where the code and its comments differ

- internal/community/louvain.go:95-97 says every accepted move strictly increases modularity.
  `TiedMove.ZeroMove` is a run in which one leaves it unchanged; `LocalMoving.VisitRaises` says exactly when: the
  node's own community attains the greatest positive gain, but some candidate met earlier attains it too.
- internal/canonical/canonical.go:46-48 calls DocumentCount the number of distinct contributing documents.
  `CanonicalTheorems.DocumentCountRunsAhead` is a run in which it is more, and `DocumentCountExact` says exactly
  which operations keep it equal: those that count no document twice on one row.
- Decrementing a document undoes its resolving as far as rows and mention counts go, whatever other documents did
  in between (`CanonicalLedger.InterleavedUndo`). Document counts can come out one too many
  (`CanonicalUndo.UndoLeavesOneTooMany`); `UndoRestoresDocuments` says exactly when they do not. The display text and
  creation time of a row the document created stay what its first mention gave.
- The limiters agree on every run exactly when the limit is positive (`RateLimit.AgreeExactly`): with a limit of 0
  the memory store lets the first request of each window through and the table lets none.
- A file the upload stores after a timeout has failed its scan can stay in the store of a failed document, even a
  clean one (`MalwareScan.LateFileStays`). `MalwareScan.AlwaysGoneUnlessStranded` says exactly when it may: the scan
  has already failed, and every notice delivered so far is handled or past its delete. A file whose rejection has
  been handled is gone in any case (`RejectedIsGone`).
- A clean result delivered again after processing has finished starts it once more, without any retry
  (`MalwareScan.CleanStartsAnother` says exactly when), where internal/malwarescan/malwarescan.go:142-144 speaks of
  starting it.
- Planning an extraction is said to clear the previous run's entities (internal/pipeline/entityextract/entityextract.go:229-230).
  For a document that no longer has chunks it returns before that, and the old entities stay
  (`EntityBatches.NoChunksKeepsOld`); `RunReplacesExactly` says exactly when a run replaces them.
- A confirmed merge is said to prefer the side with more mentions (internal/canonical/alias.go:145-153). It compares
  the counts read before the round's merges, and can merge a row away into a smaller one
  (`AliasResolution.KeepsTheSmaller`); `KeepsTheLarger` says exactly when it does not.
- The chunk splitter keeps code points whole exactly when size minus overlap is at least 4
  (`Splitter.KeepsCodePointsWhenStepIsFour`); below that some well-formed text is cut inside a code point, which
  internal/chunk/splitter.go:31-39 means to rule out.
- The rule for which query a re-evaluation re-asks (internal/server/searchhandler.go:284-292) relies on a question
  and its answer being stored next to each other. `Reevaluation.InterleavedSearches` and `LostQuestion` are runs in
  which it re-asks another search's query; `ReplyFindsItsOwn` says exactly when it re-asks the right one: the last
  message stored when the answer is appended is its question.

## Model

| member | source | states |
|---|---|---|
| FirstSeen.RenumberFaithful | internal/community/louvain.go:160-172 | compacting ids keeps exactly the equalities between nodes' communities |
| FirstSeen.RenumberDense | internal/community/louvain.go:327-339 | final ids are dense 0..k-1 and handed out in first-seen order |
| FirstSeen.Compact | internal/community/louvain.go:160-173 | the compaction loop yields the first-seen numbering, the number of ids used and the map from old to new ids |
| CommunityGraph.BuildLevel | internal/community/louvain.go:62-75 | the level built from edges has each node's neighbours in edge order and its degree: twice its self-loop plus its edges |
| CommunityGraph.OneEdge | internal/community/louvain.go:68-73 | what one edge adds to every node's neighbours and degree |
| CommunityGraph.AdjacencySum | internal/community/louvain.go:68-73 | weight summed over a node's adjacency list equals weight summed over the edges, for any choice of neighbours |
| CommunityGraph.DegreeNonNegative | internal/community/louvain.go:47-49 | with non-negative weights every degree is non-negative |
| Modularity.NewmanIsQuality | internal/community/louvain.go:206-234 | Newman's sum over communities equals a form that mentions no community ids, whatever the ids |
| Modularity.QualityRelabel | internal/community/louvain.go:240-244 | modularity depends only on which nodes share a community |
| Modularity.MoveDegree | internal/community/louvain.go:109-112 | moving a node changes exactly two communities' total degrees, by its degree |
| Modularity.MoveInside | internal/community/louvain.go:114-122 | moving a node changes the weight inside communities by the neighbour sums the scan computes |
| Modularity.MoveChange | internal/community/louvain.go:126-135 | one move changes modularity by exactly (new gain - old gain) / m |
| Modularity.InternalWeights | internal/community/louvain.go:217-222 | the loop's map holds each community's edge weight strictly inside it |
| Modularity.CommunityDegrees | internal/community/louvain.go:223-226 | the loop's map holds each community's total degree |
| Modularity.Compute | internal/community/louvain.go:213-234 | the score returned is Newman's Q, in whatever order the map yields communities, and 0 without weight |
| LocalMoving.ScanNeighbors | internal/community/louvain.go:114-122 | neighbour communities in first-met order, each with exactly the weight joining it |
| LocalMoving.BestPicks | internal/community/louvain.go:124-132 | the winner is the earliest neighbour community of greatest positive gain; without a positive gain the node stays |
| LocalMoving.AbsentGain | internal/community/louvain.go:126-132 | a community no neighbour belongs to offers no positive gain, so scanning neighbours misses nothing |
| LocalMoving.PickBest | internal/community/louvain.go:124-132 | the choice made from the running totals is the specified target |
| LocalMoving.RunPass | internal/community/louvain.go:104-140 | a pass visits every node in index order; at its end sigmaTot is again each community's total degree |
| LocalMoving.VisitRaises | internal/community/louvain.go:95-139 | a visit never lowers modularity, and moves the node without raising it if and only if the node's own community attains the greatest positive gain but is not the first candidate to do so |
| LocalMoving.MoverTies | internal/community/louvain.go:124-135 | a node that moves gains at least what its own community offered, and as much only on such a tie |
| LocalMoving.TieMoves | internal/community/louvain.go:124-135 | a node whose community ties later does leave it, for a candidate of the same gain |
| LocalMoving.PassRaises | internal/community/louvain.go:104-140 | no prefix of a pass lowers modularity |
| LocalMoving.PassesRaise | internal/community/louvain.go:99-144 | the whole phase never lowers modularity, however many passes it takes |
| LocalMoving.PassEmpties | internal/community/louvain.go:105-139 | if a pass from singletons changes anything, some community ends empty |
| LocalMoving.VacancyStays | internal/community/louvain.go:114-135 | an emptied community never refills |
| LocalMoving.SettledEmpties | internal/community/louvain.go:85-146 | if anything moved, fewer communities than nodes remain, so the next level is strictly smaller |
| LocalMoving.RunPasses | internal/community/louvain.go:94-145 | passes run to the fixed point or the cap, reporting whether any node moved as whether the assignment changed; cancelled exactly when the context is done by the last pass it would make |
| LocalMoving.NextPass | internal/community/louvain.go:99-144 | one more pass takes the phase on, or shows it at rest |
| LocalMoving.MoveNodes | internal/community/louvain.go:85-146 | local moving returns the settled assignment after as many checks as passes, or is cancelled exactly when the context is done by the last of them |
| TiedMove.FirstVisit | internal/community/louvain.go:105-139 | on a three-node path the first node joins the second |
| TiedMove.SecondVisit | internal/community/louvain.go:105-139 | the second node then moves to the third's community on a tie |
| TiedMove.ZeroMove | internal/community/louvain.go:95-97 | an accepted move can leave modularity unchanged |
| Aggregation.CrossingTotal | internal/community/louvain.go:183-201 | for any choice of pairs, merged edges carry exactly the weight of the old edges between those pairs |
| Aggregation.LoopTotal | internal/community/louvain.go:175-188 | new self-loops total the old ones plus the edges folded inside |
| Aggregation.SuperDegree | internal/community/louvain.go:47-49 | a super-node's degree is the sum of its members' degrees |
| Aggregation.AggregateWeight | internal/community/louvain.go:159-204 | total weight of edges and self-loops is unchanged by aggregation |
| Aggregation.AggregatePreserves | internal/community/louvain.go:159-204 | any partition of the super-nodes scores what the partition it induces scores on the level below |
| Aggregation.AggregateNonNegative | internal/community/louvain.go:175-201 | non-negative weights stay non-negative |
| Aggregation.CarryLoops | internal/community/louvain.go:175-178 | members' self-loops are summed into their super-node's |
| Aggregation.FoldEdges | internal/community/louvain.go:180-197 | inside edges fold into self-loops, the rest are summed per unordered pair in first-seen order |
| Aggregation.Aggregate | internal/community/louvain.go:159-204 | the method builds the specified next level, its size and the id map |
| Louvain.RepresentsNext | internal/community/louvain.go:310-318 | composing through remap and comm, every partition of a later level scores what it scores on the original graph |
| Louvain.ClimbRaises | internal/community/louvain.go:297-325 | the outer loop never lowers the original graph's modularity |
| Louvain.SettledStill | internal/community/louvain.go:302-308 | if local moving moved nothing, every node would choose to stay alone |
| Louvain.SettledPair | internal/community/louvain.go:302-308 | when nothing moves, joining any two super-nodes cannot raise modularity |
| Louvain.ClimbOptimal | internal/community/louvain.go:297-325 | on termination no two final communities can be merged for a higher modularity |
| Louvain.LabelsTheorem | internal/community/louvain.go:236-343 | labels are dense in first-seen order, score at least the all-singletons partition, and are merge-optimal |
| Louvain.RunTheorem | internal/community/louvain.go:286-341 | the same for any level with positive total weight |
| Louvain.IndexNodes | internal/community/louvain.go:261-264 | the index maps each node to its last position |
| Louvain.IndexLast | internal/community/louvain.go:261-264 | the index gives a node's last position |
| Louvain.IndexedRight | internal/community/louvain.go:266-276 | which of the graph's edges are indexed, at which positions, with which ends and weights: strictly increasing positions, and every other edge has an unknown end or equal ends |
| Louvain.IndexedWeight | internal/community/louvain.go:273-275 | their weights total those of the graph's edges that join two known nodes |
| Louvain.IndexEdges | internal/community/louvain.go:266-276 | the level's edges are, in order and with their weights, exactly the graph's edges whose two ends are known and differ, each joining the last positions of its ends; the weight used is those edges' total |
| Louvain.Assign | internal/community/louvain.go:327-339 | every node and nothing else is assigned the label of its last position |
| Louvain.ComposeFinal | internal/community/louvain.go:316-318 | the in-place update composes each node's place with the level's compacted communities |
| Louvain.ClimbLevels | internal/community/louvain.go:289-325 | the loop terminates (each level is smaller) with the specified communities, or is cancelled exactly when the context is done by the last check of the whole climb |
| Louvain.Detect | internal/community/louvain.go:286-342 | the score returned is Newman's Q of the returned labels on the original graph; cancelled exactly when the context is done by the run's last check |
| Louvain.RunWeighted | internal/community/louvain.go:286-342 | the same for a graph that has nodes and weight, its nodes assigned |
| Louvain.ClusteringOf | internal/community/louvain.go:251-343 | the labels and score of a run, told of the graph's own nodes, edges and weights |
| Louvain.Run | internal/community/louvain.go:251-343 | a run is cancelled exactly when the context is done by the last check it would make; otherwise there is a level made of exactly the graph's joining edges, and dense labels on it, such that every node gets its label, the score is the modularity of those labels and, without negative weights, is at least that of all singletons and of any merge of two communities |
| CanonicalRuns.MentionKeeps | internal/canonical/memory/memory.go:50-79 | one counted mention keeps every row's count equal to what documents contribute to it |
| CanonicalRuns.CallKeeps | internal/canonical/memory/memory.go:44-81 | a whole call for one document keeps the store's invariant |
| CanonicalRuns.DecrementTotals | internal/canonical/memory/memory.go:94-116 | decrementing takes exactly the document's contribution from every row's account |
| CanonicalRuns.DecrementKeeps | internal/canonical/memory/memory.go:94-116 | decrementing keeps the invariant: rows left are positive and exactly accounted for |
| CanonicalRuns.MergeTotals | internal/canonical/memory/memory.go:206-215 | a merge adds the two rows' accounts and joins their documents, leaving other rows alone |
| CanonicalRuns.MergeKeeps | internal/canonical/memory/memory.go:190-218 | merging two different live rows keeps the invariant |
| CanonicalTheorems.ApplyKeeps | internal/canonical/memory/memory.go:44-218 | every operation its callers may make keeps the invariant |
| CanonicalTheorems.RunKeeps | internal/canonical/memory/memory.go:44-218 | in every run counts are positive and equal the documents' contributions, identities are unique, document counts bound the documents |
| CanonicalTheorems.CanonicalizeExcess | internal/canonical/memory/memory.go:69-76 | a call raises a row's excess of counted over contributing documents exactly when its document already contributed |
| CanonicalTheorems.DecrementExcess | internal/canonical/memory/memory.go:104-113 | decrementing never changes the excess of a row it leaves |
| CanonicalTheorems.MergeExcess | internal/canonical/memory/memory.go:202-203 | a merge adds both rows' excess plus the documents they share |
| CanonicalTheorems.TouchedExactly | internal/canonical/memory/memory.go:50-76 | the existing rows a call touches are exactly those of its mentions' identities |
| CanonicalTheorems.DocumentCountExact | internal/canonical/canonical.go:46-48 | document counts stay exact if and only if the operation counts no document twice |
| CanonicalTheorems.CountedTwice | internal/canonical/canonical.go:46-48 | any two calls for one document that name the same entity count the document twice on its row |
| CanonicalTheorems.DocumentCountRunsAhead | internal/canonical/canonical.go:46-48 | a two-call run in which a row counts one document twice |
| CanonicalTheorems.ResolveThenDecrement | internal/canonical/memory/memory.go:44-116 | resolving a new document and decrementing it restores every row and contribution |
| CanonicalTheorems.DecrementTwice | internal/canonical/memory/memory.go:94-116 | a second decrement changes nothing |
| CanonicalLedger.CanonicalizeTally | internal/canonical/memory/memory.go:44-81 | a call adds to its document's accounts exactly how often each identity occurs, and to no other account |
| CanonicalLedger.DecrementTally | internal/canonical/memory/memory.go:94-116 | decrementing clears its document's accounts and no other |
| CanonicalLedger.AccountCounts | internal/canonical/memory/memory.go:44-116 | equal accounts of one identity give it a row in both stores or in neither, with the same mention count |
| CanonicalLedger.LedgerCounts | internal/canonical/memory/memory.go:44-116 | stores with equal ledgers have the same identities with the same mention counts |
| CanonicalLedger.LedgerDocuments | internal/canonical/memory/memory.go:44-116 | and, where document counts are exact, the same document counts |
| CanonicalLedger.InterleavedUndo | internal/canonical/memory/memory.go:44-116 | undoing a document leaves every identity with a row or without, and with the mention count, as if it had never been resolved, whatever happened to other documents in between (document counts: CanonicalUndo) |
| CanonicalUndo.CanonicalizeKeyExcess | internal/canonical/memory/memory.go:69-78 | a call makes an identity's row count one document too many exactly when it names the identity and its document already contributed |
| CanonicalUndo.DecrementKeyExcess | internal/canonical/memory/memory.go:103-113 | a decrement leaves that excess alone as long as the row stays |
| CanonicalUndo.RunTracks | internal/canonical/memory/memory.go:44-116 | along any run, the store with the document is ahead in excess exactly if the store without it lost some with a deleted row |
| CanonicalUndo.UndoRestoresDocuments | internal/canonical/memory/memory.go:44-116 | after the undo a remaining row has the document count it would have had, if and only if the document never named it or no deletion of the row in the run without the document lost any excess |
| CanonicalUndo.UndoRestoresAll | internal/canonical/memory/memory.go:44-116 | where counts are exact and no operation counts a document twice, the undo restores mention and document counts of every row |
| CanonicalUndo.UndoLeavesOneTooMany | internal/canonical/memory/memory.go:103-113 | a run whose undo leaves a row counting a document too many |
| CanonicalCalls.MentionInFields | internal/canonical/memory/memory.go:50-79 | one mention changes exactly the row that has its base, tenant, type and normalized text |
| CanonicalCalls.CallTold | internal/canonical/memory/memory.go:44-81 | a call counts each row by the positions of the mentions that name it, and resolves each mention to such a row |
| CanonicalCalls.CallMeans | internal/canonical/memory/memory.go:44-81 | and two mentions share a row if and only if they agree in base, tenant, type and normalized text |
| CanonicalRepository.Repository.constructor | internal/canonical/memory/memory.go:33-38 | a new repository is the empty store |
| CanonicalRepository.Repository.FindLocked | internal/canonical/memory/memory.go:83-90 | finds the row of an identity in whatever order rows come |
| CanonicalRepository.Repository.Canonicalize | internal/canonical/memory/memory.go:44-81 | the method's effect and result are the specified call; told by fields, each row gains the mentions that have its base, tenant, type and normalized text, a new row is made from its first mention, each document's contribution grows alike, every mention resolves to the row with its base, tenant, type and normalized text, and two share a row exactly if those four agree |
| CanonicalRepository.TokensAreWords | internal/canonical/memory/memory.go:171-177 | the tokens of a text are exactly its longest runs without white space |
| CanonicalRepository.FuzzyMatchMeans | internal/canonical/memory/memory.go:157-161 | two texts match if and only if they differ and the words of either all occur in the other |
| CanonicalRepository.Repository.CountOne | internal/canonical/memory/memory.go:50-79 | one mention is counted on its row, created at first sight |
| CanonicalRepository.Repository.DecrementForDocument | internal/canonical/memory/memory.go:94-116 | the method's effect is the specified decrement, in whatever order contributions come: exactly the document's contributions leave the mention counts and one document each count, rows left without mentions are deleted, and nothing else changes |
| CanonicalRepository.Repository.Lookup | internal/canonical/memory/memory.go:119-128 | a row is found exactly if it is the user's |
| CanonicalRepository.Repository.ListByKB | internal/canonical/memory/memory.go:131-142 | each of the knowledge base's rows is listed once |
| CanonicalRepository.Repository.FuzzyCandidates | internal/canonical/memory/memory.go:147-169 | exactly the other rows of the same tenant, base and type with another text whose words all occur in the text asked about, or the reverse, once each, with their texts, counts and age |
| CanonicalRepository.Repository.MergeInto | internal/canonical/memory/memory.go:190-218 | succeeds exactly when both rows are the user's, and then has the specified merge's effect: the row kept gains the other's counts and keeps the rest |
| MentionLinks.EntityRepository.BulkSetCanonicalEntityID | internal/entity/memory/memory.go:91-103 | links exactly the listed mentions of this user, skipping unknown and foreign ones |
| MentionLinks.ResolveNew | internal/canonical/canonical.go:143-163 | only mentions not linked yet are counted, each row's count growing by exactly the positions of those that name its identity, and then linked, each to a live row of its own identity; other entities stay as they were, and without unlinked mentions nothing changes |
| MentionLinks.PendingExtracts | internal/canonical/canonical.go:144-149 | the mentions counted are those at strictly increasing positions, and every mention elsewhere is linked already |
| MentionLinks.PendingCount | internal/canonical/canonical.go:144-149 | an identity is counted once for each position of an unlinked mention that names it |
| MentionLinks.StoredRight | internal/canonical/canonical.go:155-163 | the links stored are the user's unlinked mentions', each to a live row of the mention's own identity |
| MentionLinks.ResolveNewTwice | internal/canonical/canonical.go:143-163 | re-reading the mentions after a resolve leaves nothing pending, so a repeat changes nothing |
| MentionLinks.LinksRight | internal/canonical/canonical.go:143-163 | every link leads to a live row of the mention's own identity |
| AliasMerges.LogInvariant | internal/canonical/memory/memory.go:190-218 | a sequence of merges of live rows keeps the store's invariant |
| AliasMerges.SurvivorLive | internal/canonical/alias.go:121-140 | every original row's survivor is live |
| AliasMerges.SurvivorSelf | internal/canonical/alias.go:121-140 | live rows are original rows and survive as themselves, so no row has two survivors |
| AliasMerges.SurvivorMentions | internal/canonical/alias.go:121-140 | a survivor's mention count is the total of the rows folded into it |
| AliasMerges.LogConserves | internal/canonical/memory/memory.go:190-218 | merges conserve total mentions and remove exactly one row each |
| AliasMerges.IdentityKept | internal/canonical/memory/memory.go:190-218 | merging changes no row's identity and brings none back |
| AliasMerges.ScopeShrinks | internal/canonical/alias.go:73-91 | merges within a knowledge base leave it one row less each |
| AliasResolution.SurvivorDecided | internal/canonical/alias.go:154-162 | of two different rows exactly one survives, whichever is asked about first |
| AliasResolution.MergePair | internal/canonical/alias.go:127-132 | the pair merged is found live; the row kept had, as read, more mentions, or as many and was not created later, or both tie and its id is smaller |
| AliasResolution.MergeConfirmed | internal/canonical/alias.go:121-140 | exactly the confirmed candidates are merged, in order, until the row itself is merged away, each time keeping the row with more mentions, else the older, else the smaller id, as read; no merge reports not found |
| AliasResolution.EntryRight | internal/canonical/alias.go:124-162 | the merge decided joins the pair and keeps the right one of the two |
| AliasResolution.RoundRight | internal/canonical/alias.go:121-162 | a turn's merges are those the verdicts ask for, and each keeps the right row by the rows as read |
| AliasResolution.RunRight | internal/canonical/alias.go:93-143 | so are those of every turn of a pass, by the rows as that turn reads them |
| AliasResolution.RoundEnds | internal/canonical/alias.go:133-137 | nothing is merged after the row itself is gone |
| AliasResolution.RoundCounts | internal/canonical/alias.go:121-140 | while a row survives its round it holds its own mentions and those absorbed; candidates to come are as they were read |
| AliasResolution.KeepsTheLarger | internal/canonical/alias.go:145-162 | a merge keeps the side with at least as many mentions at that moment, if and only if it is not the case that the candidate survives by the counts read before the round and the row has absorbed past it |
| AliasResolution.KeepsTheSmaller | internal/canonical/alias.go:145-153 | a store and a round in which a row of four mentions is merged into one of three |
| AliasResolution.ResolveOne | internal/canonical/alias.go:94-140 | one row's turn, for any judge: skipped if gone, else judged on all its candidates and merged accordingly |
| AliasResolution.ResolveAliasesFor | internal/canonical/alias.go:93-143 | a pass over ids is a run of rounds, each on the store the earlier ones left, stopping only at a failed question |
| AliasResolution.RunLocal | internal/canonical/alias.go:73-91 | a pass over rows of one knowledge base merges only rows of it |
| AliasResolution.ResolveAliases | internal/canonical/alias.go:50-60 | each resolved row gets one turn; every merge joins two different live rows and keeps the one with more mentions, else the older, else the smaller id, as its turn read them |
| AliasResolution.ResolveAllAliases | internal/canonical/alias.go:73-91 | for any judge, every row present at the start gets its turn on the store the earlier turns left, until a question fails; every merge is one its turn's verdicts ask for and keeps the right one of its rows, and their number is returned |
| JobStatus.AttemptsCountUp | internal/jobstatus/jobstatus.go:106-115 | attempts are 1, 2, 3, ..., the record is of the newest, and an active record carries no error |
| JobStatus.OutcomeFrozen | internal/jobstatus/jobstatus.go:133-163 | whatever is published or reported later, a finished attempt keeps outcome, reason and phase while current |
| JobStatus.SupersededChangesNothing | internal/jobstatus/jobstatus.go:133-136 | a report on another attempt is refused and changes nothing |
| JobStatus.TransitionAccepts | internal/jobstatus/jobstatus.go:117-163 | exactly which reports are accepted and which change the record, and what it then says: a phase reported replaces the one before, an empty one keeps it, success clears it and failure keeps it with the reason given |
| JobStore.Store.Lookup | internal/jobstatus/memory/memory.go:47-55 | another tenant's row reads as missing |
| JobStore.Store.EnqueueJob | internal/jobstatus/memory/memory.go:70-88 | applies the enqueue rule to the user's own row, stamping a new attempt with a new sequence number |
| JobStore.Store.TransitionJob | internal/jobstatus/memory/memory.go:110-124 | applies the transition rule to the user's own row; errors change nothing |
| JobStore.Store.Matches | internal/jobstatus/memory/memory.go:129-143 | exactly the active jobs of the user's documents, oldest attempt first |
| JobStore.Store.ActiveJobs | internal/jobstatus/memory/memory.go:129-155 | per document, exactly its active jobs, oldest attempt first; documents without one are absent |
| JobRuns.ExecutionNameInjective | internal/queue/stepfunctions/stepfunctions.go:72-77 | two runs share an execution name only if they are the same attempt of the same job |
| JobRuns.ExecutionNameFits | internal/queue/stepfunctions/stepfunctions.go:72-77 | with up to four digits of attempt a name stays within 80 characters |
| JobDispatch.RunKeeps | internal/queue/dispatch/dispatch.go:84-104 | in every interleaving, runs dispatched or about to be are issued attempts, all different |
| JobDispatch.RunFollows | internal/jobstatus/jobstatus.go:117-163 | across any further events no job goes back an attempt and a finished attempt keeps its outcome |
| JobDispatch.RowsFollowRules | internal/jobstatus/jobstatus.go:106-163 | enqueueing and reporting change the rows as the status rules change their records |
| JobDispatch.DispatchedOnce | internal/queue/dispatch/dispatch.go:84-104 | each attempt of each job is dispatched at most once, under a name no other run has |
| JobDispatch.PublishedOutcome | internal/queue/dispatch/dispatch.go:84-104 | what the steps of an undisturbed publish add up to |
| JobDispatch.RefusedCanRetry | internal/queue/dispatch/dispatch.go:75-79 | a refused attempt ends failed with its reason, so that the next publish dispatches the next attempt, exactly if the job store works when it is marked; otherwise the next publish does nothing |
| JobDispatch.Publisher.RecordJob | internal/queue/dispatch/dispatch.go:86-92 | records a new attempt unless one is active or the row is another tenant's |
| JobDispatch.Publisher.PublishJob | internal/queue/dispatch/dispatch.go:84-104 | the method, whatever the job store and the target answer, has the effect of the machine's undisturbed publish |
| MalwareScan.StepKeeps | internal/malwarescan/malwarescan.go:142-183 | every atomic step of every handler keeps the protocol's invariant |
| MalwareScan.RunKeeps | internal/malwarescan/malwarescan.go:142-183 | so does every interleaving of deliveries, retries, crashes and pipeline activity |
| MalwareScan.NeverBoth | internal/malwarescan/malwarescan.go:142-183 | processing starts only after a succeeded scan, deletion only after a failed one, never both |
| MalwareScan.RejectedIsGone | internal/malwarescan/malwarescan.go:159-183 | once a rejection of a failed scan has been handled no file is left, whenever it was stored |
| MalwareScan.Resolved | internal/malwarescan/malwarescan.go:128-183 | once all that was delivered, a timeout included, has been handled, the document either started or is failed with its file deleted; a file is left only if stored after its scan had failed and never rejected |
| MalwareScan.AlwaysGoneUnlessStranded | internal/malwarescan/malwarescan.go:128-183 | a file about to be stored is sure to be gone from a failed document once all has been handled, if and only if it is not the case that the scan has failed and every delivered notice is handled or past its delete |
| MalwareScan.GoneUnlessStranded | internal/malwarescan/malwarescan.go:159-183 | a notice still to be handled when the file is stored deletes it |
| MalwareScan.FinishAll | internal/malwarescan/malwarescan.go:176-183 | calls past their delete can all finish with the file still there |
| MalwareScan.LateFileStays | internal/malwarescan/scans.go:71-75 | a run that leaves a clean file in the store of a failed document: a timeout handled before the file is stored |
| MalwareScan.AttemptStarts | internal/jobstatus/jobstatus.go:106-115 | a step starts another processing attempt exactly if it records the job for a call and finds none, or a finished one |
| MalwareScan.AttemptsCounted | internal/jobstatus/jobstatus.go:106-115 | in every run the attempt reached is the number of such steps |
| MalwareScan.CleanStartsAnother | internal/malwarescan/malwarescan.go:145-157 | a clean notice, delivered first or again, starts another attempt exactly if the scan has not failed and the ingestion job is missing or finished |
| MalwareScan.ScanFrozen | internal/jobstatus/jobstatus.go:147-153 | a finished scan never changes again |
| MalwareScan.FailureExplained | internal/malwarescan/malwarescan.go:128-165 | in every run a failed scan carries the finding of a rejection that was delivered, or says that it timed out |
| ScanHandlers.CallEnds | internal/malwarescan/malwarescan.go:145-183 | however the stores and the target answer, a handler or retry left alone ends within eight steps |
| ScanHandlers.StepsLeft | internal/malwarescan/malwarescan.go:145-183 | every step brings a call nearer its end |
| ScanHandlers.Service.StoreUpload | internal/malwarescan/scans.go:71-75 | storing the file is the machine's step |
| ScanHandlers.Service.MarkFailed | internal/malwarescan/malwarescan.go:164-175 | marks the scan failed unless it has succeeded, which it reports |
| ScanHandlers.Service.Discard | internal/malwarescan/malwarescan.go:176-182 | deletes the file, then fails the document, as far as the stores work |
| ScanHandlers.Service.MarkSucceeded | internal/malwarescan/malwarescan.go:146-152 | marks the scan succeeded unless it has failed, which it reports |
| ScanHandlers.Service.Dispatch | internal/queue/dispatch/dispatch.go:94-103 | an attempt the target refuses is marked failed if the job store works |
| ScanHandlers.Service.StartProcessing | internal/queue/dispatch/dispatch.go:84-104 | succeeds exactly if the job is recorded and was active already or its new attempt is accepted; an attempt it gives up on is failed |
| ScanHandlers.Service.HandleClean | internal/malwarescan/malwarescan.go:145-157 | a run of the machine; ended well, the scan is decided and a succeeded scan's document has started processing; a failed scan's document and every file are left alone; another attempt starts exactly if the job is recorded and was missing or finished |
| ScanHandlers.Service.HandleReject | internal/malwarescan/malwarescan.go:164-183 | a run of the machine; ended well, the scan is decided and a failed scan's file is gone and its document failed; a succeeded scan's are left alone |
| ScanHandlers.Service.MayRetry | internal/server/dochandler.go:646-676 | lets a retry through exactly for a failed document with no active job whose file was not rejected |
| ScanHandlers.Service.Restart | internal/server/dochandler.go:678-687 | resets the status and starts processing, or puts the status back |
| ScanHandlers.Service.RetryDocument | internal/server/dochandler.go:646-687 | a run of the machine; it succeeds only for a failed document with a clean file and no active job, which has then started, and otherwise leaves the status as it was |
| ScanHandlers.ServiceIsSafe | internal/malwarescan/malwarescan.go:142-183 | after any sequence of calls, each ended anyhow, processing and deletion exclude each other |
| ScanHandlers.ServiceResolves | internal/malwarescan/malwarescan.go:128-183 | once everything delivered has been handled, the document has started or is failed with its file gone, but for a late file never rejected |
| EntityBatches.Plan | internal/pipeline/entityextract/entityextract.go:266-275 | consecutive non-empty batches that are the chunks in order, each standing where the batches before it, all of the batch size, leave off |
| EntityBatches.EntityStore.BulkCreate | internal/entity/memory/memory.go:26-38 | appends the entities given |
| EntityBatches.EntityStore.ChunkIDsWithEntities | internal/entity/memory/memory.go:63-73 | exactly the chunks of the document that have entities |
| EntityBatches.EntityStore.DeleteByDocument | internal/entity/memory/memory.go:76-85 | removes the document's entities and no others, keeping order |
| EntityBatches.OfRunCopies | internal/entity/memory/memory.go:76-85 | the document's entities and the rest, each as often as the list holds them |
| EntityBatches.CheckBatch | internal/pipeline/entityextract/entityextract.go:340-357 | a staged batch is saved only if every id parses and no chunk has entities; the first of the two to be met decides the outcome |
| EntityBatches.PersistBatch | internal/pipeline/entityextract/entityextract.go:316-379 | saves the entities of the batch's own chunks unless the attempt is unknown or superseded, the staged input malformed or the batch already saved, and says which; what is added is, in order and one for one, the result's entries that name a chunk of the batch, with their fields and the run's user, document and base |
| EntityBatches.KeptRight | internal/pipeline/entityextract/entityextract.go:361-371 | a batch keeps, in order, one entity for each entry of its result that names one of its chunks, and for no other |
| EntityBatches.KeptCopies | internal/pipeline/entityextract/entityextract.go:361-371 | a batch keeps as many copies of an entity as there are such entries it comes from |
| EntityBatches.SavesRight | internal/pipeline/entityextract/entityextract.go:316-379 | a result is saved exactly if the attempt is current and unfinished, every staged id parses and no staged chunk has entities of the document |
| EntityBatches.SavedExactly | internal/pipeline/entityextract/entityextract.go:340-359 | a batch counts as saved exactly when it was persisted before and had something to save |
| EntityBatches.PersistedOnce | internal/pipeline/entityextract/entityextract.go:312-379 | persisted in any order with any repeats, the store gains exactly one copy of each batch's kept entities |
| EntityBatches.OrderIrrelevant | internal/pipeline/entityextract/entityextract.go:312-379 | which entities are saved does not depend on the order of batches |
| EntityBatches.BatchesApart | internal/pipeline/entityextract/entityextract.go:266-275 | planned batches of distinct chunks share none |
| EntityBatches.ClearedExtracts | internal/entity/memory/memory.go:76-85 | a cleared document has no chunk with entities |
| EntityBatches.PlannedRunSaves | internal/pipeline/entityextract/entityextract.go:231-379 | for a document that has chunks: whatever it held before, after a planned run its entities are one copy of what each persisted batch kept, and once all are persisted that is every batch of the plan; other documents are untouched |
| EntityBatches.RunReplacesExactly | internal/pipeline/entityextract/entityextract.go:229-276 | a whole run leaves the document with exactly what its persisted batches kept if and only if the document has chunks or had no entities before; without chunks it keeps the old ones |
| EntityBatches.ExtractionReplaces | internal/pipeline/entityextract/entityextract.go:266-379 | what a planned run leaves, counted by the entries of the results of the batches delivered, each batch once |
| EntityBatches.NoChunksKeepsOld | internal/pipeline/entityextract/entityextract.go:249-253 | a document without chunks that keeps an entity of its earlier ones |
| EntityBatches.Prepare | internal/pipeline/entityextract/entityextract.go:231-276 | planning marks the attempt, and unless it is unknown, stale or finds no chunks takes back the document's canonical counts, clears its entities and splits its chunks; otherwise nothing is touched |
| EntityBatches.PersistDelivered | internal/pipeline/entityextract/entityextract.go:312-379 | persists the batches delivered, one after another |
| EntityBatches.Extract | internal/pipeline/entityextract/entityextract.go:231-379 | the extraction replaces the document's entities by what its batches kept if and only if it was planned or there were none; planned, the store then holds as many copies of an entity of the document as entries of delivered batches it comes from, and of any other as many as before |
| FooterFilter.HeldBack | internal/search/footerfilter.go:48-64 | text let out of the buffer can no longer be part of a marker, whatever follows |
| FooterFilter.WriteConsistent | internal/search/footerfilter.go:30-65 | each write keeps the filter's state true to the whole text so far |
| FooterFilter.FilterShowsVisible | internal/search/footerfilter.go:26-81 | however the text is cut, writes and flush together show exactly the text before the first marker |
| FooterFilter.NeverRetracts | internal/search/footerfilter.go:26-29 | what has been shown at any moment is a prefix of what will finally be visible |
| FooterFilter.ShowsAllItCan | internal/search/footerfilter.go:48-64 | at any moment exactly what stays visible under every continuation of the text has been shown: nothing more, and nothing less |
| FooterFilter.MarkerIs | internal/search/footerfilter.go:32-35 | the marker is found in any mix of small and capital letters, and nothing else is |
| FooterFilter.PreviewOfSummary | internal/search/footerfilter.go:15-22 | the preview is a prefix of the summary's text, and all of it if and only if the marker occurs at most once |
| FooterFilter.Filter.Write | internal/search/footerfilter.go:30-65 | the method computes the specified write, hold-back loop included |
| FooterFilter.Filter.Flush | internal/search/footerfilter.go:73-81 | gives out what is held unless the footer was found |
| FooterFilter.StreamAnswer | internal/search/answerer.go:52-94 | the pieces passed on are never empty and together are the visible text |
| AnswerParse.ParseCitations | internal/search/answerer.go:156-186 | each chunk named in range is cited once, in the order first named, with its own source |
| AnswerParse.ParseResponse | internal/search/answerer.go:138-189 | the summary is the text before the last marker, trimmed, or the fixed not-found reply; the citations are the usable numbers of the list after it |
| AnswerParse.AnswerReadsBack | internal/search/answerer.go:124-189 | an answer in the form the prompt asks for is read back exactly: its text, whatever that quotes, and the numbers it cites, in order |
| AnswerParse.DividedAtMarker | internal/search/answerer.go:149-155 | a response is divided at its last marker, in whatever case, into the text before and the list after |
| AnswerParse.AnswerStream | internal/search/answerer.go:52-94 | what is shown live is a prefix of the text the summary is taken from |
| AnswerParse.UsableMembers | internal/search/answerer.go:156-161 | exactly the entries that name one of the chunks are usable |
| Texts.TrimIs | internal/search/answerer.go:153-158 | trimming takes off exactly the white space around a text |
| Texts.SplitJoins | internal/search/answerer.go:159-159 | the pieces between commas, joined by commas again, are the list |
| Numerals.AtoiReads | internal/search/answerer.go:158-161 | a number written in decimal is read back |
| Numerals.AtoiExactly | internal/search/answerer.go:158-161 | an entry reads as a number if and only if it writes that number in decimal, with or without a sign and leading zeros |
| Utf8.NearBoundary | internal/chunk/splitter.go:31-39 | in well-formed text a boundary lies at most 3 bytes before any position |
| Utf8.CutAt | internal/chunk/splitter.go:31-39 | cutting well-formed text at a boundary leaves two well-formed texts, cutting it elsewhere leaves none |
| Splitter.AlignToRuneBoundary | internal/chunk/splitter.go:40-45 | the loop finds the nearest boundary at or before a position |
| Splitter.Aligned | internal/chunk/splitter.go:40-45 | no boundary lies between the position found and the one asked about |
| Splitter.Split | internal/chunk/splitter.go:48-85 | terminates on every byte string with the specified windows, ordinals, texts and token counts |
| Splitter.NoGap | internal/chunk/splitter.go:56-82 | the next window starts after this one's start and no later than its end |
| Splitter.Covers | internal/chunk/splitter.go:48-85 | no byte is lost: windows are non-empty, within the size, touch or overlap, and rejoin to the whole text |
| Splitter.WholeCodePoints | internal/chunk/splitter.go:31-39 | with a step of at least 4 every window of a well-formed text is well-formed and overlaps within 3 bytes of the setting |
| Splitter.ChunkCount | internal/chunk/splitter.go:48-85 | there are at most ceil(length / (step - 3)) windows |
| Splitter.ShortStepCuts | internal/chunk/splitter.go:60-81 | with a step below 4 some well-formed text gets a window that is not |
| Splitter.KeepsCodePointsWhenStepIsFour | internal/chunk/splitter.go:31-85 | windows of well-formed text are well-formed for every text if and only if the step is at least 4 |
| EventStream.CutAnywhere | web/src/api/searchStream.ts:80-95 | reading a stream in two pieces is reading it at once, whatever it holds |
| EventStream.ReadWhole | web/src/api/searchStream.ts:80-95 | so it is for any number of pieces |
| EventStream.ParseBody | web/src/api/searchStream.ts:103-113 | a frame parses back to the event written |
| EventStream.RoundTrip | internal/server/searchhandler.go:498-507 | however the network cuts the stream, the reader gets exactly the events written, with nothing left over |
| EventStream.NeverAhead | web/src/api/searchStream.ts:80-95 | what has been read at any moment is a prefix of what was written |
| EventStream.NeverBehind | web/src/api/searchStream.ts:87-94 | every frame fully received has been read |
| EventStream.ReadsBackExactly | internal/server/searchhandler.go:489-507 | an event survives the wire if and only if its parts hold no line break |
| EventStream.ParseFrame | web/src/api/searchStream.ts:103-113 | the loop yields the values of the last event line and the last data line, and nothing exactly if either kind is missing |
| EventStream.ParseMeans | web/src/api/searchStream.ts:103-113 | the same of the specified parse |
| EventStream.Reader.Feed | web/src/api/searchStream.ts:83-95 | each piece hands on the events it completes and keeps the rest |
| EventStream.PostEventStream | web/src/api/searchStream.ts:59-96 | the whole read gives the events of the concatenated pieces, those sent if a run of plain events was sent |
| EventStream.Writer.WriteSse | internal/server/searchhandler.go:498-507 | appends one frame |
| EventStream.Stream | internal/server/searchhandler.go:498-507 | writing events one by one sends their frames in order |
| GraphPath.LoadGraph | cmd/graphpath/main.go:104-117 | nodes are neighbours exactly if an edge joins them, and each has the name the last edge that mentions it gives it |
| GraphPath.WalkBound | cmd/graphpath/main.go:153-166 | every walk from a start ends at a node known to be that near, or beyond the head of the queue |
| GraphPath.HeadIsNearest | cmd/graphpath/main.go:153-159 | no end can be reached in fewer hops than the head of the queue |
| GraphPath.SearchGoesOn | cmd/graphpath/main.go:154-165 | expanding the head keeps the search's invariants, whatever the neighbour order |
| GraphPath.Expand | cmd/graphpath/main.go:160-165 | marks and queues exactly the unseen neighbours, in any order |
| GraphPath.Search | cmd/graphpath/main.go:146-166 | terminates; what is found is a nearest end, and nothing is found only if no end can be reached |
| GraphPath.WalkBack | cmd/graphpath/main.go:173-181 | following predecessors ends at a start and gives a walk of the found distance |
| GraphPath.Matching | cmd/graphpath/main.go:120-129 | exactly the nodes whose text matches |
| GraphPath.PathBetween | cmd/graphpath/main.go:146-181 | a shortest walk from a start to an end, or none if and only if there is no walk |
| GraphPath.Run | cmd/graphpath/main.go:104-186 | each outcome of the command exactly when it is the right one; the path is a shortest one |
| RateLimit.RunMirrors | internal/ratelimit/pgstore/pgstore.go:37-57 | after every run the memory's count is the table's capped at the limit, and purged rows are over |
| RateLimit.Agree | internal/ratelimit/memory/memory.go:54-69 | for a positive limit both limiters decide every request of every run alike |
| RateLimit.AgreeExactly | internal/ratelimit/pgstore/pgstore.go:31-57 | they agree on all runs if and only if the limit is at least 1 |
| RateLimit.PurgeIsHarmless | internal/ratelimit/pgstore/pgstore.go:59-72 | deleting expired rows never changes a later decision, whatever the limit |
| RateLimit.AtMostTwiceTheLimit | internal/ratelimit/memory/memory.go:49-69 | no closed interval of one window's length admits more than 2 * limit - 1 requests of a key |
| RateLimit.WorstReachesBound | internal/ratelimit/memory/memory.go:49-69 | that bound is reached, for every positive limit and window |
| RateLimit.AdmittedAlike | internal/ratelimit/pgstore/pgstore.go:37-57 | the table admits as many requests as the memory in any interval |
| RateLimit.MemoryStore.Allow | internal/ratelimit/memory/memory.go:54-69 | the method has the effect and answer of the specified step |
| RateLimit.TableStore.Allow | internal/ratelimit/pgstore/pgstore.go:37-57 | the upsert has the effect and answer of the specified step |
| RateLimit.TableStore.DeleteExpired | internal/ratelimit/pgstore/pgstore.go:64-72 | removes exactly the rows over for long enough and counts them |
| RateLimit.Serve | internal/ratelimit/ratelimit.go:14-22 | the two stores behind one interface answer a run alike for a positive limit |
| Reevaluation.IndexById | internal/server/searchhandler.go:294-297 | the map holds each message under its id |
| Reevaluation.QueryForReEvaluation | internal/server/searchhandler.go:293-326 | the walk terminates at the chain's first answer and returns the question stored before it |
| Reevaluation.FindsItsOwn | internal/server/searchhandler.go:284-326 | an answer finds the query that produced its first answer exactly if that answer was stored right after its question; nothing but an answer finds any |
| Reevaluation.ReplyFindsItsOwn | internal/server/searchhandler.go:375-445 | whatever overlaps and whatever is lost, an ordinary answer is re-evaluated with its own query, ever after, if and only if the last message stored when it is appended is that query's question |
| Reevaluation.RevisionFindsTheSame | internal/server/searchhandler.go:284-326 | a superseding answer goes back to its own query if and only if the answer it supersedes does, however often that was superseded |
| Reevaluation.QueryStays | internal/server/searchhandler.go:262-281 | appends between reading a re-evaluation's query and storing its answer do not change the query |
| Reevaluation.StepKeeps | internal/server/searchhandler.go:375-445 | every append, in any interleaving, keeps the thread's invariant |
| Reevaluation.Run | internal/inquiry/memory/memory.go:64-92 | so does every run of them |
| Reevaluation.PointersGoBack | internal/server/searchhandler.go:304-311 | supersedes pointers go to earlier messages, so every walk to a root ends |
| Reevaluation.ReevaluatesItsOwnQuery | internal/server/searchhandler.go:284-326 | where searches run one at a time and keep their questions, some failing and some losing their answers, every answer is re-evaluated with its own query |
| Reevaluation.InterleavedSearches | internal/server/searchhandler.go:284-292 | a run of two overlapping searches in which the first answer goes back to the second question and the second to none |
| Reevaluation.LostQuestion | internal/server/searchhandler.go:375-397 | a run in which a lost question makes its answer go back to an earlier, failed search's question |
| Reevaluation.Thread.AppendMessage | internal/inquiry/memory/memory.go:64-79 | appends with a new id and the next ordinal |
| Reevaluation.Thread.PersistUserMessage | internal/server/searchhandler.go:382-397 | stores the question, or nothing when the append fails |
| Reevaluation.Thread.PersistAssistantMessage | internal/server/searchhandler.go:408-445 | stores the answer, or nothing when the append fails |
| Reevaluation.Thread.FindQuery | internal/server/searchhandler.go:262-275 | finds the query for a target, its own exactly if the target is backed |
| Reevaluation.Thread.SearchAlone | internal/server/searchhandler.go:95-101 | a search that nothing overlaps has the effect of its steps |
| Reevaluation.Thread.ReevaluateAlone | internal/server/searchhandler.go:238-282 | re-asks the query found and appends a superseding answer, or refuses and appends nothing |

## Left out

- Floating-point rounding: weights and modularity are exact reals. Cancellation is a context that is done from some check onwards.
- Louvain.LabelsTheorem: claims nothing of graphs with negative weights; their runs are modelled, but only termination, cancellation, the labels and the meaning of the score are proved of them.
- `Normalize` (NFKC and case mapping) is an arbitrary function of text; `FuzzyCandidates` splits on Unicode white space but does not model encodings.
- UUIDs are numbers never handed out twice; their text form, used to break ties between candidates, is taken to order them as the numbers do.
- Map iteration order is an arbitrary choice at each step; locks are modelled by each store method being atomic.
- The alias judge is an arbitrary function of its question's number and text; repository errors other than not-found are not modelled.
- MentionLinks.ResolveNew: a crash between counting mentions and linking them, which would count them again, is not modelled.
- CanonicalTheorems.RunKeeps: calls are assumed to carry one document's mentions and merges two different ids, as all callers in the repository do.
- CanonicalLedger.InterleavedUndo: work in between contains no merges, since a merge moves the document's own contributions to another row. Document counts are the subject of CanonicalUndo; display text and creation time are not restored by the code.
- MalwareScan.Resolved: documents without a scan record (uploaded before scanning existed), deletion of the document, and an upload that fails after recording its scan are not modelled; the run begins once the scan is recorded and its timeout started (internal/malwarescan/scans.go:76-95).
- ScanHandlers.Service.HandleClean: the branch for a document without a scan record is left out, as are object keys and the decoding of events; storage errors end the call and are not told apart.
- ScanHandlers.Service.HandleReject: the branch for a document without a scan record is left out; storage errors end the call and are not told apart.
- ScanHandlers.Service.RetryDocument: whether the document's other background jobs are active is a parameter; finding the document and reading it back for the response are left out.
- ScanHandlers.Service.MayRetry: whether the document's other background jobs are active is a parameter.
- JobDispatch: a crash between recording an attempt and dispatching it is modelled, but nothing is claimed about the attempt it strands, a gap the code documents (internal/queue/dispatch/dispatch.go:81-83). Which state machine runs a job type, and Step Functions' answer that an execution already exists, are part of the target's answer.
- JobStore.Store.ActiveJobs: returns whole rows, of which the original copies type, phase, status and error.
- EntityBatches.PersistBatch: deliveries run one after another; two at once could both find a batch unsaved. Reading staged inputs and results from object storage, results that are not JSON, a document that has gone, and other storage errors are left out.
- EntityBatches.Prepare: finding the document, listing its chunks and staging the batches in object storage are left out, as are errors of those and of the stores.
- FooterFilter.FilterShowsVisible: letters are folded in ASCII only, so a letter whose lower case has another encoded length is not modelled; text is a sequence of characters.
- FooterFilter.Filter.Write: letters are folded in ASCII only.
- AnswerParse.ParseResponse: page numbers and bounding boxes are copied along with the source; numbers are unbounded, where the original rejects those beyond a machine integer, which name no chunk anyway.
- AnswerParse.AnswerStream: the complete response is the deltas joined; generation errors and the reply when the provider's quota is exceeded are left out.
- Splitter.Split: a negative size, on which the original panics, is excluded.
- EventStream.ParseFrame: payloads are opaque text without line breaks, as JSON encoding produces, and are not decoded.
- EventStream.PostEventStream: decoding bytes to text across pieces is the platform's; a request that fails before streaming is left out.
- GraphPath: identifiers are opaque, and the empty text that stands for "not found" in the code is an option; case-folded substring matching is an arbitrary predicate on names. Loading edges from the database is left out.
- RateLimit: time is an integer that never goes back, the same clock for both stores; the middleware's failing open on errors and the choice of client address are left out.
- Reevaluation.ReevaluatesItsOwnQuery: searches run one at a time and keep their questions; ReplyFindsItsOwn states what holds without that. Citations and retrieved documents of a message, and tenancy, are left out.
- Reevaluation.Thread.AppendMessage: tenancy, and the citations and retrieved documents of a message, are left out.
- Reevaluation.Thread.PersistAssistantMessage: the citations and retrieved documents of a message are left out.
- HTTP parsing, authentication, telemetry, configuration, SQL (other than the limiter's upsert) and the user interface.
- Embeddings, similarity search, edge weights from co-occurrence, and the prompts and answers of language models.
