# Veska application core: a Dafny model

Veska parses a repository into a code graph. This project models the algorithms
and protocols of its application layer (`internal/application`) and proves what
they promise. `dafny verify dfyconfig.toml` checks all of it.

| files | models |
|---|---|
| `Basics`, `Graph`, `Tarjan`, `Components`, `CycleGate` | the cycle gate: an iterative Tarjan over an explicit call stack, and a verdict on a base and an after graph |
| `UnionFind`, `Duplicates` | near-duplicate clusters: a path-compressing union-find, then aggregation with score bounds |
| `Fronts`, `BlastRadius`, `Overlay`, `Guard` | the bounded, hub-gated breadth-first radius hop by hop, and the scope guard's fixpoint on top of it |
| `VecCodec`, `EmbedStore`, `EmbedBatch`, `Embedder`, `EmbedDrain`, `EmbedRace` | the embedding drain: codec, batch transaction, dedup with aliased vectors, drain passes, rehydration, promotions beside a drain |
| `Staging`, `PromotionRace`, `BranchSwitch`, `Resync` | staging over durable storage, promotion in one step and in three, the generation and pause gate, replay of missed commits |
| `JsonScan` | the brace scanner for model replies, against the JSON grammar |
| `CloneGate` | the net-new exact-clone gate |
| `ReverseMap` | from changed nodes back to the tests that reach them |
| `Quota` | the review token caps |

Conventions. Node ids, names, texts and commits are abstract types with equality,
since the source only compares them (their empty value is a named constant where
it matters). What lies outside the model (a store, a provider, an index, a clock) answers
through parameters: each theorem holds for every pattern of answers, and says what each
pattern leads to; which rows of a refused upsert the index took is left open. Reachability
is membership in every closed set (`Graph.ReachIsWalk` shows it is the same as
having a walk). Stores follow the contracts their interfaces state: a transaction
is applied whole or not at all.

How the hard results are built. `StronglyConnected` keeps `Tarjan.Inv`, which says
of each call-stack level which part of the node stack it owns, that its lowlink is
the index of a node it reaches, and that the lowlink bounds every edge already read
from that part; each loop step has one lemma. `Find` terminates by a ghost depth
that the forest invariant keeps, and roots agree with connectivity after any unions.
The blast radius is compared, gate and repeated frontier nodes included, with a sequence
of fronts, and that with distance balls and with counts of copies; the drain with a transition system
over worlds (durable tables and index), staging with the last write per file, and the
interleaved branch switch with an invariant over the times of reads, checks and bumps.

Where the code and its documentation differ the model follows the code: the radius
documentation reads as if either bound set `Truncated`, but only the node bound does;
a resync skips deletions, so a path deleted in the replayed range keeps its old
content, and the store mirrors HEAD at a path exactly when HEAD has the path or
nobody ever had it (`Resync.MirrorsHeadExactly`); the union of single-seed test maps
is the multi-seed map exactly when no seed is a test covering a seed
(`ReverseMap.UnionLaw`). `Stage` compares the generation before it takes the lock: a
run stages nothing stale exactly when no save is overtaken, between that check and
its write, by a bump and then a clear of its own branch
(`BranchSwitch.StaleExactlyWhenOvertaken`). A promotion snapshots, commits and unstages
in three parts: in every interleaving of saves and any number of promotions the view is
every file's last write all along exactly when no commit puts an old snapshot over a
file nobody has staged any more and no unstaging drops a save the store does not hold
(`PromotionRace.RightExactlyWithoutClobber`); with promotions one at a time, exactly
when each path is unstaged with its snapshot's contents
(`PromotionRace.OneAtATimeExactly`). A row may use any amount of its tokens on a day
exactly when that is the day it checked or a day still under its cap
(`Quota.SafeExactly`), which a clock that does not go back guarantees. A node promoted
again leaves its old vector indexed while its ref is pending: the index agrees with the
table in every state of a run exactly when no step does that to an indexed vector
(`EmbedStore.IndexAgreesExactly`). The store flips a ref by its id alone, so with
promotions beside a drain every ready ref has its own text's embedding exactly when no
batch flips a ref whose text changed since its fetch (`EmbedRace.RefsRightWhenTimely`).

## Model

| member | source | states |
|---|---|---|
| `Graph.ReachIsWalk` | internal/application/diffgate/cyclegate.go:179-191 | closed-set reachability over the edges is exactly the existence of a finite walk |
| `Components.StronglyConnected` | internal/application/diffgate/cyclegate.go:179-265 | for every edge list: the result partitions all endpoints, two nodes share a component iff each reaches the other, and every edge leads to its own or an earlier emitted component; the loop terminates |
| `Components.BuildAdjacency` | internal/application/diffgate/cyclegate.go:180-189 | adjacency holds exactly the non-loop edges; the node set is exactly the endpoints, including those of self-loops |
| `Components.Walker.PushNode` | internal/application/diffgate/cyclegate.go:211-217 | entering a node gives it the next index and lowlink and puts it on the stack, and the on-stack marks agree with the stack |
| `Components.Walker.PopComponent` | internal/application/diffgate/cyclegate.go:242-251 | popping down to the root returns, without repeats, exactly the part of the stack from the root up |
| `Components.Walker.NextEntry` | internal/application/diffgate/cyclegate.go:227-231 | the top frame's next adjacency entry, the frame moved past it |
| `Components.Walker.ReadNext` | internal/application/diffgate/cyclegate.go:229-239 | one adjacency entry is read, the invariant kept, and either a new node is indexed or the unread entries drop |
| `Components.Walker.Leave` | internal/application/diffgate/cyclegate.go:240-261 | retiring a finished node emits its component if it is a root, else hands its lowlink to its caller; the invariant is kept and the call stack shrinks |
| `Components.Walker.Explore` | internal/application/diffgate/cyclegate.go:219-263 | exploring a root ends with an empty call stack and only adds indexed nodes |
| `Components.LeaveKeepsInv` | internal/application/diffgate/cyclegate.go:240-261 | a root's lowlink never lowers its caller's, so emitting then propagating is the same as emitting; a non-root always has a caller |
| `Components.EmittedIsDecomposition` | internal/application/diffgate/cyclegate.go:241-264 | components that are fresh, strongly linked and closed with the earlier ones are the strongly connected components in reverse topological order |
| `Components.ReachGoesBack` | internal/application/diffgate/cyclegate.go:241-264 | whatever a component reaches was emitted no later than it |
| `Tarjan.BottomIsRoot` | internal/application/diffgate/cyclegate.go:219-263 | the bottom call node always roots a component, so the node stack is empty after each outer root |
| `Tarjan.Lower` | internal/application/diffgate/cyclegate.go:235-237 | lowering a lowlink to the index of a lower stack node the call node reaches keeps the invariant |
| `Tarjan.PushChild` | internal/application/diffgate/cyclegate.go:232-234 | entering an unseen successor keeps the invariant |
| `Tarjan.Retire` | internal/application/diffgate/cyclegate.go:255-261 | dropping a finished non-root frame keeps the invariant: its stack part now reaches the caller |
| `Tarjan.EmitInv` | internal/application/diffgate/cyclegate.go:241-254 | emitting at a root keeps the invariant: the component is strongly linked and its edges stay inside it or lead to emitted nodes |
| `CycleGate.Evaluate` | internal/application/diffgate/cyclegate.go:84-106 | passes iff any two distinct nodes mutually reachable after the change, in a class touching the change set, already were at base; the groups reported are exactly the new cycles, disjoint and in full |
| `CycleGate.DeletionsPass` | internal/application/diffgate/cyclegate.go:84-106 | if every after edge was a base edge the gate passes, whatever the change set |
| `CycleGate.ComponentIndex` | internal/application/diffgate/cyclegate.go:136-147 | names the component of exactly the nodes in components of two or more |
| `CycleGate.ContainedInOneBaseSCC` | internal/application/diffgate/cyclegate.go:112-123 | true iff all members have the same base component |
| `CycleGate.SameBaseIsMutual` | internal/application/diffgate/cyclegate.go:108-147 | for a cycle, one common base component is the same as pairwise mutual reachability at base |
| `CycleGate.TouchesChanged` | internal/application/diffgate/cyclegate.go:125-132 | true iff some member is in the change set |
| `CycleGate.Members` | internal/application/diffgate/cyclegate.go:149-165 | one labelled member per node, falling back to the bare id |
| `CycleGate.GroupsDecide` | internal/application/diffgate/cyclegate.go:91-105 | filtering components yields no group iff the declarative pass condition holds, and every newly mutual pair lies in exactly one group |
| `CycleGate.NewCycleIff` | internal/application/diffgate/cyclegate.go:92-101 | the three tests of the loop decide whether a component is a new cycle |
| `UnionFind.Sets.Find` | internal/application/duplicates/duplicates.go:295-305 | terminates, adds an unknown node as its own root, returns the root, and compresses paths without changing any node's root |
| `UnionFind.Sets.Union` | internal/application/duplicates/duplicates.go:307-312 | after it, two nodes have the same root iff the pairs united so far connect them |
| `UnionFind.Compress` | internal/application/duplicates/duplicates.go:301-303 | pointing a node straight at its root keeps the forest and every root |
| `UnionFind.LinkAgrees` | internal/application/duplicates/duplicates.go:307-312 | linking two roots makes equal roots mean connected for the extended relation |
| `Duplicates.ClusterEdges` | internal/application/duplicates/duplicates.go:223-232 | clusters are the connected components of the similarity edges, each node once with its last record, with min and max scores exactly those of the component's edges |
| `Duplicates.AggregateComponents` | internal/application/duplicates/duplicates.go:235-258 | for each root: its ids without repeats and the exact score bounds of its edges; finds along the way change no root |
| `Duplicates.Absorb` | internal/application/duplicates/duplicates.go:244-255 | folds one edge: bounds widened by its score, each end not seen before appended once |
| `Duplicates.BuildClusters` | internal/application/duplicates/duplicates.go:261-286 | exactly one cluster per root, carrying its bounds and the recorded member of each id |
| `Duplicates.ClustersRight` | internal/application/duplicates/duplicates.go:223-286 | root-wise aggregates over roots that agree with connectivity are the connected components with exact bounds |
| `BlastRadius.Applied` | internal/application/blastradius/blastradius.go:194-214 | unset, legal and too large bounds become 3, themselves and 10 for the depth, 200, themselves and 10000 for the nodes; an unset direction means callers; an unset hub threshold the default, any other stays |
| `BlastRadius.Of` | internal/application/blastradius/blastradius.go:219-338 | seed error iff seeds are given and none resolves; with the hub gate as it is, each node is listed with the hop that first meets it, in the order met, cut iff more is met than the node bound allows; uncut it lists all that is met and flags exactly the nodes the gate stopped, cut it lists and flags all of the earlier hops; when no node is flagged distances are shortest and the list is the depth ball |
| `BlastRadius.Walk` | internal/application/blastradius/blastradius.go:246-303 | the walk stops at the depth bound, an empty frontier or the node bound; its state is exactly that of the fronts so far, or of the hop it was cut in |
| `BlastRadius.ExpandPerSource` | internal/application/blastradius/blastradius.go:344-365 | each source's neighbour list, repeated once per occurrence of the source in the frontier |
| `BlastRadius.Search.Enqueue` | internal/application/blastradius/blastradius.go:250-261 | a known node is accepted unchanged, a new one listed at its distance, and refusal sets truncation and lists nothing |
| `BlastRadius.Search.Seed` | internal/application/blastradius/blastradius.go:263-272 | the non-empty seeds enter at distance zero; truncated iff some did not fit |
| `BlastRadius.Search.HopNode` | internal/application/blastradius/blastradius.go:289-301 | one frontier node is flagged iff its fetched list is longer than a positive threshold; otherwise its list is queued and listed at the next distance, or cut |
| `BlastRadius.Search.Hop` | internal/application/blastradius/blastradius.go:283-302 | one hop flags exactly the gated nodes and lists exactly what the others meet, in order, or is cut in it |
| `BlastRadius.HubHasCopies` | internal/application/blastradius/blastradius.go:289-294 | a flagged node, cut or not: in some hop before the depth bound its copies in the frontier times its degree exceeded the threshold |
| `BlastRadius.FlaggedExactly` | internal/application/blastradius/blastradius.go:289-294 | uncut, a node is flagged iff that happened in some hop before the depth bound |
| `BlastRadius.DegreeDecides` | internal/application/blastradius/blastradius.go:291-294 | where a node never repeats in a frontier, nearer than the depth bound it is flagged iff its degree exceeds the threshold |
| `BlastRadius.NeighboursListed` | internal/application/blastradius/blastradius.go:295-301 | uncut, every neighbour of an unflagged node nearer than the depth bound is listed, at most one hop further |
| `BlastRadius.CutSize` | internal/application/blastradius/blastradius.go:254-257 | a cut walk means more is met within the depth bound than is listed |
| `Fronts.CopiesAreCounts` | internal/application/blastradius/blastradius.go:344-365 | how often a node stands in the frontier of a hop: its seed occurrences, then over every open node the square of its copies times the occurrences in its list |
| `Fronts.SeenIsNear` | internal/application/blastradius/blastradius.go:282-303 | while no node is flagged what the fronts meet is the distance ball, repeats or not |
| `Fronts.SeenInBall` | internal/application/blastradius/blastradius.go:291-294 | with the gate on it stays within the ball reached through no node of degree above the threshold |
| `Fronts.NearIsShortWalk` | internal/application/blastradius/blastradius.go:282-303 | the k-hop ball is exactly the nodes with a walk of at most k edges from a seed |
| `Fronts.RingSuffices` | internal/application/blastradius/blastradius.go:287-302 | expanding any frontier between the last ring and the whole ball gives the next ball, so re-appended nodes do no harm |
| `Fronts.EmptyFrontStops` | internal/application/blastradius/blastradius.go:282-282 | once a front is empty deeper hops meet and flag nothing |
| `Fronts.GatedWithin` | internal/application/blastradius/blastradius.go:291-294 | gating hubs never reaches more than the ungated ball |
| `Guard.ChangedNodeIDs` | internal/application/diffgate/changednodes.go:33-59 | each id once: an overlay node whose hash is absent, unknown or empty at base, or different is listed, and one that is not listed has a non-empty base hash equal to its own |
| `Guard.NewNodes` | internal/application/diffgate/guard.go:126-145 | the changed ids the base does not know |
| `Guard.BuildWires` | internal/application/diffgate/guard.go:159-172 | adjacency is exactly the resolved, fully named overlay edges, in both directions |
| `Guard.AdmitNewWired` | internal/application/diffgate/guard.go:152-191 | in any visiting order the loop ends with the start plus the new nodes chained to it through new nodes |
| `Guard.AdmittedIsLeast` | internal/application/diffgate/guard.go:147-191 | that set is the least one holding the start and closed under admitting a new node joined to a member |
| `Guard.Offending` | internal/application/diffgate/guard.go:103-112 | the named changed ids outside the admitted set, once each |
| `Guard.Check` | internal/application/diffgate/guard.go:76-119 | rejected iff the anchor is empty or unknown; the radius is the blast radius of the anchor; offending ids are exactly the changed ones out of scope, among them every node of the base modified outside the radius; contained implies every changed node is within the depth bound of the anchor or a new node chained to such a node, and conversely when the radius is complete |
| `Guard.ModifiedOffends` | internal/application/diffgate/guard.go:95-112 | a node of the base whose hash differs, or cannot be confirmed, offends whenever it is outside the radius |
| `Guard.ScopeMono` | internal/application/diffgate/guard.go:76-119 | what is in scope of a smaller radius is in scope of a larger one |
| `VecCodec.EncodeFloat32LE` | internal/application/veccodec/veccodec.go:17-23 | the fresh buffer spells each 32-bit word least significant byte first |
| `VecCodec.DecodeFloat32LE` | internal/application/veccodec/veccodec.go:29-39 | the fresh vector holds the first dim words, or as many as the blob has |
| `VecCodec.EncodedIsLittleEndian` | internal/application/veccodec/veccodec.go:17-23 | each four bytes of an encoding, the first worth 1 and the next 256 times as much each, add up to the element at that place |
| `VecCodec.DecodedIsLittleEndian` | internal/application/veccodec/veccodec.go:29-39 | each element decoded is that sum of its four bytes, up to dim elements or the last whole word |
| `VecCodec.RoundTrip` | internal/application/veccodec/veccodec.go:17-39 | decoding an encoded vector gives it back bit for bit; fewer elements give its front |
| `VecCodec.ReEncode` | internal/application/veccodec/veccodec.go:17-39 | encoding what was decoded gives back the blob's whole words |
| `EmbedStore.IndexAgreesExactly` | internal/application/embedder/persist.go:54-67 | in every run of batch writes, failed transactions, failed upserts, restarts, rehydrations and promotions, in every state each indexed vector belongs to a durably ready ref and equals its stored embedding iff no step reset the ref of an indexed vector and left it indexed |
| `EmbedStore.AllAgreeStep` | internal/application/embedder/persist.go:54-67 | one step from an index that agrees keeps it agreeing iff it makes no such reset |
| `EmbedStore.EveryRun` | internal/application/embedder/persist.go:54-67 | resets or not, ready refs always point at the stored embedding of their own text and every indexed vector is the normalised embedding of some stored text |
| `EmbedStore.WrittenAgrees` | internal/application/embedder/persist.go:54-66 | whatever a step writes to the index belongs to a durably ready ref and equals its stored embedding |
| `EmbedStore.AgreesUntilReset` | internal/infrastructure/sqlite/promotion_sink.go:30-48 | an entry that agreed with the table and was not dropped still does if its ref was not reset to pending since, and until the next flip only then |
| `EmbedStore.ResetLeavesEntry` | internal/infrastructure/sqlite/promotion_sink.go:39-48 | promoting an indexed node again leaves its vector indexed although its ref is pending |
| `EmbedStore.EnqueueKeeps` | internal/infrastructure/sqlite/promotion_sink.go:39-67 | queueing refs, new or again, keeps the durable rows right |
| `EmbedStore.ExactAfterRehydrate` | internal/application/embedder/rehydrate.go:47-93 | after a complete rehydration the index holds exactly the ready refs iff it held no entry of another ref before, as after a restart |
| `EmbedStore.DedupInvisible` | internal/application/embedder/pipeline.go:97-119 | at every point of every run a ready ref's stored bytes decode to the normalised embedding of its own text, and its index entry agrees with the table iff it is that vector |
| `EmbedStore.PersistKeeps` | internal/application/embedder/persist.go:54-67 | a batch written whole or not at all, with any part of its vectors upserted and whatever its refs have become since the fetch, keeps the table right and the index made of stored embeddings |
| `EmbedStore.RehydrateKeeps` | internal/application/embedder/rehydrate.go:70-91 | so does a rehydration stopped anywhere |
| `EmbedStore.ApplyAt` | internal/infrastructure/sqlite/embedding_refs_repo.go:218-250 | a batch flips exactly its ready refs against their hash, whatever their state, only bumps pending failed ones, and changes no other ref |
| `EmbedStore.FailedAt` | internal/infrastructure/sqlite/embedding_refs_repo.go:234-250 | a pending ref whose text failed is given up when its attempts reach the limit (at least one), else pending with one attempt more |
| `EmbedStore.GivenUpAtLimit` | internal/infrastructure/sqlite/embedding_refs_repo.go:234-250 | failing k times in a row a new ref is pending with k attempts until k reaches the limit, then failed for good |
| `EmbedStore.ApplyTable` | internal/infrastructure/sqlite/embedding_refs_repo.go:202-216 | stored rows are never overwritten and every hash flipped to is stored |
| `EmbedStore.RefsRightExactly` | internal/infrastructure/sqlite/embedding_refs_repo.go:218-232 | after any batch every ready ref points at its own text's row iff the batch flipped none against another text's hash |
| `EmbedRace.RefsRightWhenTimely` | internal/infrastructure/sqlite/embedding_refs_repo.go:218-232 | in every run of drains and promotions side by side, fetch, lookup and write apart, every ready ref has pointed at its own text's embedding all along iff no batch flipped a ref queued again with another text between its fetch and its write |
| `EmbedRace.IndexAgreesWhenUnspoiled` | internal/application/embedder/persist.go:54-67 | in every such run the whole index has agreed with the table all along iff no step reset the ref of an indexed vector and left it, and no vector was written under a repo or branch its ref had left since the fetch |
| `EmbedRace.StoredThroughout` | internal/application/embedder/persist.go:54-67 | in every such run the table stays right, nothing stored changes, and every indexed vector is some stored embedding |
| `EmbedRace.BatchStillOk` | internal/application/embedder/pipeline.go:90-93 | what a batch found stored is still stored when it is written |
| `EmbedRace.OldTextFlipped` | internal/infrastructure/sqlite/embedding_refs_repo.go:218-232 | a run in which a ref, its text changed after the fetch, ends ready with the old text's vector |
| `EmbedBatch.FatesRespected` | internal/application/embedder/persist.go:25-52 | every ref of a batch is in exactly one of ready, failed or untouched, and the lists carry those fates, each ref once |
| `EmbedBatch.NoPermitNoFailure` | internal/application/embedder/persist.go:22-25 | without a permit nothing is marked failed and only stored hits are flipped |
| `EmbedBatch.UniqueFacts` | internal/application/embedder/pipeline.go:125-134 | the texts to embed are pairwise distinct and exactly those of the waiting refs |
| `EmbedBatch.SlicesCover` | internal/application/embedder/embedder.go:319-324 | the slices concatenate to everything fetched, at most limit of them, none empty or too large |
| `Embedder.Classify` | internal/application/embedder/pipeline.go:63-136 | refs whose hash is stored are flipped with the decoded vector, all others wait, in order, with one slot per distinct text |
| `Embedder.BatchJob.ClassifyOne` | internal/application/embedder/pipeline.go:94-123 | a hit is flipped and cached, a miss queued; cached vectors stay the normalised embedding of their text |
| `Embedder.OnlyMissesAsked` | internal/application/embedder/pipeline.go:63-136 | the embedder is asked for each missing text of the batch once and for nothing else |
| `Embedder.Deduplicate` | internal/application/embedder/pipeline.go:125-134 | one slot per distinct hash, in first-seen order |
| `Embedder.EmbedTexts` | internal/application/embedder/pipeline.go:182-222 | given what the provider answers: a failed batched call fails every text, a batched reply fails none, a call per text fails its own; each other slot holds the raw embedding of its own text iff it was answered, never shared |
| `Embedder.EmbedJob` | internal/application/embedder/pipeline.go:143-175 | without texts nothing is asked, without a permit nothing is embedded or failed; otherwise exactly the hashes answered with a non-empty vector are got and those refused are broken |
| `Embedder.BatchJob.PersistOne` | internal/application/embedder/persist.go:26-51 | the ref is failed iff its slot failed, flipped iff its slot came back non-empty, else left alone |
| `Embedder.BatchJob.NormalizeSlot` | internal/application/embedder/persist.go:39-42 | in-place normalisation touches no cached vector and no other slot, so each vector is normalised exactly once |
| `Embedder.L2Normalize` | internal/application/embedder/persist.go:104-116 | the vector's contents are replaced by their normalisation |
| `Embedder.Persist` | internal/application/embedder/persist.go:21-67 | the refs flipped and failed are exactly those with that fate, insert hashes are distinct and every vector is its own text's; a refused transaction leaves database and index alone; a committed one is the whole batch, and every flipped ref whose bucket the index takes is indexed with the normalised embedding of its own text |
| `Embedder.UpsertAll` | internal/application/embedder/persist.go:61-66 | every bucket is upserted whatever the others do: rows of a bucket that is not refused are all in the index, and nothing but the batch's rows is written |
| `Embedder.FlipsOk` | internal/application/embedder/persist.go:36-51 | the batch flips only pending refs, each once, against its own text's hash, stored or being stored |
| `EmbedDrain.DrainPass` | internal/application/embedder/embedder.go:282-335 | stops early iff paused, unable to fetch, or cancelled with refs pending, writing nothing; else disjoint slices of the pending refs, at most limit, each looked up in what was stored at the start and written as its own permit, provider, transaction and index answers decide; full iff the haul was; a flipped ref whose bucket was taken agrees at the end, and with every upsert taken no ready ref goes missing, so a complete index stays complete |
| `EmbedDrain.FateByReply` | internal/application/embedder/persist.go:25-52 | a ref is flipped iff its hash was stored or its text was answered with a non-empty vector under a permit, failed iff its text was refused under one, else untouched |
| `EmbedDrain.WroteAddsNoLack` | internal/application/embedder/persist.go:54-67 | with every upsert taken, a written batch leaves no ready ref without its vector that had it or was not ready |
| `EmbedDrain.FlipAgrees` | internal/application/embedder/persist.go:57-66 | a flipped ref whose bucket was taken is durably ready and its entry is its stored embedding |
| `EmbedDrain.WroteKeepsAgreeing` | internal/application/embedder/persist.go:54-67 | whatever is refused, a written batch leaves every entry that agreed agreeing |
| `EmbedDrain.PassIndexes` | internal/application/embedder/embedder.go:330-332 | what one batch of a pass indexes still agrees when the pass ends |
| `EmbedDrain.PassAddsNoLack` | internal/application/embedder/embedder.go:330-332 | with every upsert taken, a ready ref without its vector at any point of a pass was one at its start |
| `EmbedDrain.ClassifyAll` | internal/application/embedder/embedder.go:319-324 | every slice is looked up and classified before anything is embedded, in jobs that share no state |
| `EmbedDrain.EmbedJobs` | internal/application/embedder/pipeline.go:143-175 | every job ends embedded as its own replies say; no job touches another's state |
| `EmbedDrain.PersistAll` | internal/application/embedder/embedder.go:330-332 | writing the jobs in turn is a run of persist steps, and one batch leaves the refs of the later ones pending |
| `EmbedDrain.FetchPending` | internal/application/embedder/embedder.go:313-316 | fails iff the query does; else distinct pending refs, at most max, and all of them when fewer than max |
| `EmbedDrain.LookupExistingBatch` | internal/application/embedder/pipeline.go:78-92 | exactly the stored rows of the refs' hashes, or nothing when the lookup fails |
| `EmbedDrain.LoadBuckets` | internal/application/embedder/rehydrate.go:64-82 | the buckets hold exactly the ready refs with non-empty stored vectors, decoded |
| `EmbedDrain.RehydrateVectors` | internal/application/embedder/rehydrate.go:47-93 | only ready rows are upserted; succeeds iff the rows load and the index takes the bucket of every ready ref with a vector; then every ready ref's entry is its stored embedding, whatever stale entry stood there; a failed load changes nothing |
| `EmbedDrain.RunKeepsInv` | internal/application/embedder/persist.go:54-67 | chaining passes and other steps keeps what EveryRun states |
| `Staging.Gate.BranchSwitch` | internal/application/staging/gate.go:99-107 | whatever draining says, the gate ends open, the generation is bumped once and the left branch's staging is empty |
| `Staging.Area.Stage` | internal/application/staging/area.go:84-97 | overwrites the file's entry iff there is no guard or the guard is the current generation |
| `Staging.Area.Clear` | internal/application/staging/area.go:152-161 | removes every entry of the branch and no other |
| `Staging.Area.Snapshot` | internal/application/staging/area.go:181-198 | the branch's entries by path, all of them and no others |
| `Staging.Ingester.SaveFile` | internal/application/ingester.go:96-130 | a parsed file becomes the staged entry, a parse error changes nothing |
| `Staging.Ingester.FinishSave` | internal/application/ingester.go:99-119 | a save whose generation went stale while it parsed changes nothing |
| `Staging.Ingester.DeleteFile` | internal/application/ingester.go:140-145 | an empty tombstone becomes the staged entry |
| `Staging.PromoteBranch` | internal/application/promoter.go:95-156 | given the store's answer: accepted, the branch's staged files are stored and unstaged; refused, nothing changes; the call succeeds iff it was accepted |
| `Staging.BuildBatch` | internal/application/promoter.go:107-123 | one batch entry per snapshotted path with its contents |
| `Staging.Unstage` | internal/application/promoter.go:150-156 | removes exactly the batch's paths |
| `Staging.PromotionInvisible` | internal/application/promoter.go:95-156 | a promotion never changes the overlay-then-store view; success empties the branch's staging, failure changes nothing |
| `Staging.ViewIsLastWrite` | internal/application/promoter.go:95-156 | in every run of saves, deletions and promotions the view of each file is its last parsed save or tombstone |
| `PromotionRace.RightExactlyWithoutClobber` | internal/application/promoter.go:95-156 | in every interleaving of saves, deletions and the steps of any number of promotions, every file has shown its last write all along iff no commit overwrote an unstaged file with other contents and no unstaging dropped a save the store did not hold |
| `PromotionRace.OneAtATimeExactly` | internal/application/promoter.go:98-155 | with promotions one at a time, iff every path was unstaged with the contents its snapshot holds |
| `PromotionRace.OvertakenPromotion` | internal/application/promoter.go:98-155 | a run of two overlapping promotions in which the overtaken one stores its old snapshot over a later save |
| `PromotionRace.StepShows` | internal/application/promoter.go:129-155 | a step shows the right contents of a file iff it does not clobber it |
| `PromotionRace.StoredWasStaged` | internal/application/promoter.go:98-147 | in every interleaving whatever the store holds of a file was there at the start or was staged for it when a promotion of its own branch began that was stored since, and nothing stored is ever lost |
| `PromotionRace.SnapshotTaken` | internal/application/promoter.go:98-123 | each promotion under way holds exactly what its branch had staged when it began, and counts as committed iff it was stored since |
| `Staging.TornPromotionKeepsView` | internal/application/promoter.go:98-155 | for any events between snapshot and commit and between commit and unstaging, the view of a file is its last write iff the file was not snapshotted or its last write is what it shows: the snapshot's contents, or what was seen at the last other promotion of the branch since the commit |
| `Staging.LoneTornPromotion` | internal/application/promoter.go:98-155 | without another good promotion of the branch after the commit, iff the file was not snapshotted or its last write is what the snapshot held |
| `Staging.OverlapShowsOldWrite` | internal/application/promoter.go:98-155 | a run with an overlapping promotion in which the last write is the snapshot's contents and yet an older save is seen |
| `Staging.TornPromotionLosesSave` | internal/application/promoter.go:98-155 | a save between snapshot and unstaging, before or after the commit, is lost |
| `Staging.Reconcile` | internal/application/branchreconcile.go:57-81 | an unreadable, empty or equal branch changes nothing; otherwise the generation is bumped and the old branch cleared, even if recording the new one fails |
| `BranchSwitch.StaleExactlyWhenOvertaken` | internal/application/staging/area.go:84-97 | in every run of the code as written, check and write apart: nothing stale is ever staged iff no save is overtaken between its check and its write by a bump and then a clear of its own branch |
| `BranchSwitch.EveryInterleaving` | internal/application/staging/gate.go:80-107 | in every interleaving of saves, switches, reconciles and unstagings, guard and write in one step or two, the gate is shut only while a switch is active |
| `BranchSwitch.StagedIsLastEffect` | internal/application/staging/area.go:84-161 | in every interleaving a file's staged entry is what the last stage, write or unstaging of that file, or clear of its own repo and branch, left; nothing else adds, changes or drops it |
| `BranchSwitch.ClearIsWithout` | internal/application/staging/area.go:152-161 | a clear leaves exactly the keys the staging area's own Clear leaves |
| `BranchSwitch.GateIsHistory` | internal/application/staging/gate.go:49-75 | the generation is the number of bumps so far, and the gate is shut iff the last pause or resume was a pause |
| `BranchSwitch.PassesOpenGate` | internal/application/staging/gate.go:80-86 | no save comes through while the gate is shut |
| `BranchSwitch.WritesInTurn` | internal/application/ingester.go:96-130 | every write of a save comes after it passed the gate, read the generation and checked it, in that order |
| `BranchSwitch.SwitchInTurn` | internal/application/staging/gate.go:99-107 | every resume of a switch comes after it bumped, and then paused and cleared |
| `BranchSwitch.StaleExactlyByLateWrite` | internal/application/staging/area.go:89-96 | from a state with nothing stale, a step makes something stale iff it is the write of a save whose branch has since been cleared under a bump later than the save's check |
| `BranchSwitch.OneStepStageIsSafe` | internal/application/staging/area.go:84-97 | with guard and write as one step no staged entry of a cleared branch ever comes from a save that read the generation before that switch's bump |
| `BranchSwitch.HistoryHolds` | internal/application/staging/gate.go:99-107 | the times kept in a state name the actions that set them, each taken once per thread |
| `BranchSwitch.GateKept` | internal/application/staging/gate.go:99-107 | every step keeps the gate open when no switch is between pause and resume |
| `BranchSwitch.StageTorn` | internal/application/staging/area.go:89-96 | a run in which guard and write are split and a stale save lands after the clear |
| `Resync.ReplayCommit` | internal/application/resync.go:216-234 | saves the commit's readable changes and promotes: accepted, the store gains exactly them; refused, nothing and they stay staged |
| `Resync.ResyncRepo` | internal/application/resync.go:193-214 | replays up to the first commit whose promotion is refused and no further, to HEAD if none is; the store is the one an uninterrupted replay has there, and it can be resumed |
| `Resync.InterruptedReplay` | internal/application/resync.go:153-214 | stopped and resumed, staging lost or not: it ends at HEAD iff everything is accepted at once or all that is left the second time, and then has the uninterrupted store and agrees with HEAD |
| `Resync.ReplayedSeen` | internal/application/resync.go:204-234 | each file some commit has ends as the last such commit left it |
| `Resync.ReplayedUnseen` | internal/application/resync.go:204-234 | a file no commit has is untouched |
| `Resync.ReplayedUnchanged` | internal/application/resync.go:216-221 | a file every commit has with the same contents is untouched |
| `Resync.ReplayedElsewhere` | internal/application/resync.go:229-233 | other repos and branches are untouched |
| `Resync.AgreesAtHead` | internal/application/resync.go:204-234 | the replayed store agrees with HEAD on every path HEAD has |
| `Resync.DeletedPathSurvives` | internal/application/resync.go:222-228 | a path deleted in the range and not re-added keeps the content of the last commit that had it |
| `Resync.ReplayedHolds` | internal/application/resync.go:204-234 | the replayed store holds a path iff the old store or some replayed commit did |
| `Resync.MirrorsHeadExactly` | internal/application/resync.go:222-230 | the store mirrors HEAD at a path iff HEAD has it or neither the old store nor any commit of the range did |
| `Resync.DeletionIsLost` | internal/application/resync.go:222-228 | a history of one deletion whose file stays in the store |
| `JsonScan.ExtractJSONObject` | internal/application/review/parse.go:92-121 | returns the shortest balanced prefix from the first opening brace, or empty; balanced is defined by cutting the text at its string literals |
| `JsonScan.BalancedIffBackAtStart` | internal/application/review/parse.go:97-118 | a text is balanced in that sense iff the depth, string and escape flags end where they began |
| `JsonScan.ObjectComesBack` | internal/application/review/parse.go:87-121 | for every JSON object of RFC 8259, any prefix without an opening brace and any suffix, the answer is exactly the printed object |
| `JsonScan.EmptyMeansNoneBalances` | internal/application/review/parse.go:92-121 | the answer is empty iff nothing from the first opening brace on balances |
| `JsonScan.ExtractedIsUnique` | internal/application/review/parse.go:92-121 | the scanner's contract leaves one answer |
| `CloneGate.Evaluate` | internal/application/diffgate/clonegate.go:100-174 | unchecked is a fail; else fails iff some content hash, over all hashes, has two after-state holders and fewer than two at base; each such hash is reported once with exactly its after-state holders |
| `CloneGate.NewCloneInOverlay` | internal/application/diffgate/clonegate.go:140-142 | a new clone always has an overlay member, so looking only at overlay hashes is complete |
| `CloneGate.GroupOverlay` | internal/application/diffgate/clonegate.go:116-138 | exactly the eligible overlay nodes, by content hash |
| `CloneGate.WhoHolds` | internal/application/duplicates/duplicates.go:16-18 | a node counts for a non-empty hash iff it is its own and its kind is none of package, chunk, file, module, field and import |
| `CloneGate.MergeMembers` | internal/application/diffgate/clonegate.go:156-165 | overlay members and untouched base nodes merged by id, the base row winning |
| `CloneGate.MergedIsAfter` | internal/application/diffgate/clonegate.go:151-165 | the merged ids are the after-state's holders of the hash, with the right fields |
| `CloneGate.NoGrowthPasses` | internal/application/diffgate/clonegate.go:79-91 | a change that gives no hash more holders than it had passes |
| `CloneGate.MovesAndThirdCopiesPass` | internal/application/diffgate/clonegate.go:84-91 | moving members, one per vacated base node, and adding copies to groups of two or more passes |
| `ReverseMap.TestsCoveringAny` | internal/application/coverage/reversemap.go:103-159 | walks whole levels up to the first that fills the cap (the option, or 5000) or adds nothing, and lists exactly the tests of that level, once each, nearest first; every one covers a seed, and all covering tests are there if the level is under the cap, in particular when fewer nodes than the cap can be reached |
| `ReverseMap.LevelCovers` | internal/application/coverage/reversemap.go:125-156 | the tests of level l are those with a call path of at most l calls to a seed and no other non-seed test inside |
| `ReverseMap.MaxNodes` | internal/application/coverage/reversemap.go:68-76 | a positive option is the cap, any other leaves 5000 |
| `ReverseMap.CoversIsReached` | internal/application/coverage/reversemap.go:125-156 | such call paths are exactly reachability over the steps the walk takes |
| `ReverseMap.ManySeeds` | internal/application/coverage/reversemap.go:99-103 | the multi-seed answer is the union of the single-seed ones less the seeds |
| `ReverseMap.UnionLaw` | internal/application/coverage/reversemap.go:99-103 | it is the plain union iff no seed is a test covering a seed, in particular when no seed is a test |
| `ReverseMap.UnionFails` | internal/application/coverage/reversemap.go:99-103 | two seeds, one a test calling the other, for which the union law fails |
| `ReverseMap.GoTestNameRule` | internal/application/coverage/reversemap.go:176-195 | stopping at the first matching prefix is the same as some prefix fitting |
| `ReverseMap.EntrypointRule` | internal/application/coverage/reversemap.go:161-195 | an entrypoint is a function in a test file whose name starts with Test, Benchmark, Fuzz or Example not followed by a lower-case letter |
| `ReverseMap.TestFileRule` | internal/application/pathfilter/pathfilter.go:53-75 | a test file by the ending of its whole path, or a .py file whose last part starts with test_ |
| `ReverseMap.BaseName` | internal/application/pathfilter/pathfilter.go:57-60 | the longest suffix of a path without a separator |
| `Quota.EveryRunBounded` | internal/application/review/quota.go:90-128 | in every sequential run of rows and restarts, store failures included, each commit total stays below its cap plus one row's largest usage, and so does each day total unless a row charges a day it did not check that has already reached its cap |
| `Quota.ForwardClockNeverLate` | internal/application/review/quota.go:81-128 | under a clock that does not go back no row makes such a charge |
| `Quota.ForwardClockBounded` | internal/application/review/quota.go:81-128 | so every total is bounded, rows crossing midnight included |
| `Quota.SafeExactly` | internal/application/review/handler.go:173-193 | a dispatched row keeps the daily bound whatever it uses on a day, within one row's most, iff that is the day it checked or a day under its cap |
| `Quota.RowKeepsDays` | internal/application/review/handler.go:346-353 | one row that makes no such charge keeps the daily bound |
| `Quota.ClockBackOverruns` | internal/application/review/quota.go:81-85 | a run, its clock put back, that overruns a daily cap |
| `Quota.ChargesExactly` | internal/application/review/handler.go:346-353 | a dispatched row charges its commit its whole clamped usage and each day what it used that day, and moves nothing else |
| `Quota.TokenQuota.DailyPaused` | internal/application/review/quota.go:90-99 | without a cap the store is not asked; a failed read is an error; else paused iff the day's total has reached the cap |
| `Quota.TokenQuota.CommitTotalReached` | internal/application/review/quota.go:104-111 | true iff the cap is positive and the commit's total has reached it |
| `Quota.TokenQuota.Record` | internal/application/review/quota.go:116-128 | the commit total grows by the usage, negative usage counting as zero, and the day total too unless the store refuses, which is an error |
| `Quota.Handler.EnforceQuota` | internal/application/review/handler.go:173-193 | stops the row iff the daily total cannot be read or a cap is reached, the daily one first |
| `Quota.Handler.RunKind` | internal/application/review/handler.go:322-374 | charges the reply, if any, even when storing the charge, parsing or saving then fails; succeeds iff none does |
| `Quota.Handler.Review` | internal/application/review/handler.go:255-284 | runs kinds up to and including the first that fails, charging each |
| `Quota.Handler.Handle` | internal/application/review/handler.go:141-166 | the totals move exactly by the row's charge if it is dispatched and not at all otherwise; stopped iff the check fails or a cap is reached; done iff dispatched and every kind goes through |

## Left out

- Command line, daemon wiring, sockets, SQLite, git, tree-sitter, file walking, metrics, tracing, audit lines and findings: glue or foreign code, replaced by the contracts their interfaces state.
- Errors returned by edge readers, node lookups and clone lookups: the source returns them at once with no verdict; only the embedder's, promoter's and index's failures are modelled, because state survives them.
- Sorting of nodes, adjacency lists, components, clusters, groups, members and offending ids: each is modelled in any order, so the proofs hold for the sorted one too.
- Duplicates.ClusterEdges: scores are reals, so NaN scores are not modelled.
- Embedder.L2Normalize: normalisation is any length-keeping function; its floating-point behaviour is not modelled.
- Embedder.EmbedTexts: vectors returned by the provider are taken to be newly allocated, one per slot; the governor's timing and the concurrency of embed calls are not modelled, jobs being independent.
- Embedder.Classify: cancellation inside the loop is not modelled; a cancelled pass writes nothing, as in EmbedDrain.DrainPass.
- EmbedStore.EveryRun: deleting refs (removing a repository, archiving a model) is not a step of the run; a promotion between the fetch and the write of a batch is a step of the EmbedRace runs. Content hashes are injective.
- EmbedStore.DedupInvisible: as EveryRun.
- The 64-bit staging generation does not wrap.
- Staging.Ingester.SaveFile: waiting at a shut gate is a step of the BranchSwitch runs, not of this method; parse-failure and todo findings are left out.
- Staging.Ingester.DeleteFile: as SaveFile.
- EmbedDrain.RehydrateVectors: the per-branch row counts it returns for the log are left out.
- Resync.ResyncRepo: the full-reparse branches (never promoted, divergent history), unreadable HEAD, cancellation and parse errors are left out; history is linear and the parser total.
- ReverseMap.TestsCoveringAny: a caller's stored row is the same wherever it is met, as the store's join on node id makes it.
- Quota.EveryRunBounded: rows run one after another and totals do not overflow.
- Quota.Handler.Handle: a handler without a quota, which runs every row, is not modelled.
- JsonScan.ExtractJSONObject: decoding and validating the extracted object is left out.
- Secrets, vulnerability, dead-code and untested checks, the API gate, wiki rendering, search ranking, tier labels and failure naming: filters or single-branch facts, not modelled.
