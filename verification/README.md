# Verification of the streaming-graph suite

This project models the computational core of the repository and proves, with Dafny,
what that core is for. Everything stated below is checked by the verifier; the models
follow the program's branches, constants and edge cases, in exact arithmetic and with
unbounded counters.

**Influence maximisation** (`ReachableSets`, `Generation`, `SeedSelection`, `Removal`,
`GreedyCluster`, `Workflow`, `Wire`). Random reverse-reachable sets hop between hosts
until they are stored at their owners; the greedy phase then repeatedly picks the node
that occurs most often and removes every set it covers. Both phases are state machines
over all hosts whose steps may come in any order; the same operations are also written
as the program writes them, as loops that update counters, queues and maps in place,
and proved against the machines. The main results: a set that is not cut off is exactly
what its root reaches over live edges, whatever the partition and the hops; the counters
are at all times the occurrences that the sets and pending updates account for; and `k`
picks miss at most a `(1 - 1/k)^k` share of the sets that any `k` nodes cover. Neither
machine can get stuck: every step brings the end of generation, or the next pick, nearer.

**Trading and cancellation** (`Reservation`, `Trading`, `TradeRound`, `Outcomes`,
`LoneBuyer`, `RoundOutcomes`, `QuiesceHost`, `QuiesceGraph`, `ProposalWire`,
`Cancellation`). Buyers reserve optimistically: read the surplus, add, check, take back.
Each buyer's steps are separate steps of a machine, so the results hold for every
interleaving: nobody oversells or buys too much, trades are conserved, every visit to a
seller trades just what the surplus read allows or fails the check, and a buyer is left
in need only if each of its sellers had at some moment nothing left. A round over all
hosts (propose, decide, commit) is put together from such runs and the edges exchanged
between them. Cancelling nodes is compared with never having had them.

**Graph algorithms** (`Walks`, `Dependency`, `LevelSearch`, `Brandes`, `SerialBrandes`,
`Bfs`, `PageRank`, `Triangles`). Betweenness centrality is defined by counting the
shortest walks of a multigraph as sets of edge-slot sequences; the concurrent
level-synchronous form and the serial form with a queue are both proved to compute that
definition, so they agree. Breadth-first search with duplicate-tolerant bags, PageRank
with its tolerance test and cap, and triangle counting are proved against independent
definitions as well.

**The graphs underneath** (`Sorting`, `MutableGraph`, `Replay`). Adjacency lists that
grow by batches, the compact form built from them by a prefix sum, and the batch
replayer: any use of the compact form gives the answer of the adjacency lists, and
replaying in batches gives the graph of a one-shot load.

**The host load balancer** (`Scheduler`). Longest-processing-time list scheduling, with
Graham's bound `4/3 - 1/(3m)` against every other schedule.

`Sums`, `Finite` and `Basics` hold shared mathematics. `dafny verify dfyconfig.toml`
checks the project.

Concurrency: a loop that the program runs in parallel is either a state machine over
atomic steps, or a method that lets an arbitrary unfinished task take its next step until
all have finished. A method of the second kind also proves that every schedule ends.

## Where the program differs from what one might expect

- `scripts/convert/graph_convert.go`: `bel2vdlConvert` divides by the number of routines
  before it tests that number for zero, so zero routines panic instead of standing for
  one routine per record (`Scheduler.Bel2Vdl`).
- `wf4/src/influence_maximization.cpp`: asking for zero nodes wraps the unsigned loop
  bound, so the loop runs 2^64 - 1 times (`GreedyCluster.PickCount`).
- `include/scea/graph/csr.hpp`: `sort_edges` sorts an empty range and leaves the edges
  as they are (`MutableGraph.Csr.SortEdges`).
- `wf4/src/quiesce.cpp`: cancellation equals deletion exactly when no node that trades
  with the partner is listed twice and no mirror of the partner that takes part starts
  below zero, as a mirror is set to the smaller of its value and zero, not to zero
  (`Cancellation.CancelIsDeletion`).
- `wf4/src/quiesce.cpp`: the amount of a trade proposed to another host is written as an
  integer whose bits are read back as a double, so only zero arrives as it was sent
  (`ProposalWire.OnlyZeroSurvives`).
- `include/scea/graph/adj.hpp`: a batch that mentions no vertex still leaves the graph
  with one vertex (`MutableGraph.SizeAfter`).

## Model

| member | source | states |
|---|---|---|
| ReachableSets.Continue | wf4/src/influence_maximization.cpp:370-419 | continuing a partial set at a host visits owned frontier nodes one at a time in a legal order, counts each exactly once, ends with nothing owned left in the frontier, and on the forced finish erases the dangling frontier from the set |
| ReachableSets.FollowEdges | wf4/src/influence_maximization.cpp:396-409 | drawing the edges of a node adds exactly the live targets that are new, each to the queue or the remote frontier by its owner |
| ReachableSets.SplitFrontier | wf4/src/influence_maximization.cpp:378-386 | the frontier is split into owned and remote nodes without loss |
| ReachableSets.ClosedHasPath | wf4/src/influence_maximization.cpp:370-419 | a set that has the root and is closed under live edges has everything reachable from the root |
| Generation.ContinueIsVisits | wf4/src/influence_maximization.cpp:344-368 | the traversal the code performs at one host is a sequence of single-visit steps of the distributed machine |
| Generation.NextInv | wf4/src/influence_maximization.cpp:344-419 | every step of the machine (visit, forward or store, exchange, start of the finish, end) keeps the token and counting invariants and the identity of every set |
| Generation.RunInv | wf4/src/influence_maximization.cpp:160-180 | in every reachable state each counter is the number of sets, in flight or stored, that have the node expanded, and no set is ever discarded |
| Generation.Generated | wf4/src/influence_maximization.cpp:123-188 | after the finish every set is stored at its owner under its own key, each counter is the number of stored sets that have the node, an uncut set is exactly what its root reaches over live edges, and all epochs have been run: a cut set has its root, is a subset, and has more nodes than there are epochs, so with as many epochs as nodes none is cut |
| Generation.StepAdvances | wf4/src/influence_maximization.cpp:160-180 | every step lowers the number of exchanges and phases still to come, or the work left before the next one |
| Generation.Completes | wf4/src/influence_maximization.cpp:160-188 | every run can be continued until generation is done |
| Generation.UnfinishedIsSmall | wf4/src/influence_maximization.cpp:160-169 | progress: a set that still has a frontier has not expanded every node |
| Generation.DeliveryKeepsToken | wf4/src/influence_maximization.cpp:598-637 | delivery never meets a set addressed to its own sender, so clearing the own slot loses nothing |
| SeedSelection.GreedyCoverage | wf4/src/influence_maximization.cpp:190-214 | against any at most k nodes, k greedy picks satisfy k^k (OPT - cov) <= (k-1)^k OPT |
| SeedSelection.OnePick | wf4/src/influence_maximization.cpp:202-214 | one greedy pick closes at least a k-th of the gap to any k nodes |
| SeedSelection.HitGain | wf4/src/influence_maximization.cpp:494-507 | a further pick adds exactly the remaining sets it occurs in |
| SeedSelection.HitAtMost | wf4/src/influence_maximization.cpp:421-457 | no group of nodes hits more than its size times the sets of a maximal node |
| SeedSelection.PositivePicksDistinct | wf4/src/influence_maximization.cpp:202-214 | a pick that still occurs in a remaining set was not picked before |
| Removal.NextInv | wf4/src/influence_maximization.cpp:486-563 | every interleaved step of emptying sets, sending and applying remote updates keeps: counter = remaining occurrences plus decrements pending in maps or messages |
| Removal.CountersAgreeNext | wf4/src/influence_maximization.cpp:494-507 | a decrement leaves the set and reaches the counter or the update map, never both and never neither |
| Removal.AtBarrier | wf4/src/influence_maximization.cpp:510-563 | at the barrier the family is what the picks leave over and the counters count exactly it |
| Removal.GlobalMaxBounds | wf4/src/influence_maximization.cpp:475-484 | the scan over the records finds the first of those with the largest influence, and none when no influence is positive |
| Removal.PickIsLargest | wf4/src/influence_maximization.cpp:438-457 | the agreed pick has the largest counter of the cluster, and it is set if and only if some counter is positive |
| Removal.PickIsGreedy | wf4/src/influence_maximization.cpp:421-457 | the pick occurs most often among the remaining sets; it is unset if and only if none remains |
| Removal.RunCounts | wf4/src/influence_maximization.cpp:486-563 | in every reachable state no counter is negative: no subtraction underflows |
| Removal.StepWorks | wf4/src/influence_maximization.cpp:486-563 | every step but a pick leaves less to do in the round |
| Removal.NextPickReached | wf4/src/influence_maximization.cpp:190-214 | every run can be continued to one more pick |
| Removal.RunCoverage | wf4/src/influence_maximization.cpp:190-214 | the greedy guarantee for the picks of every run of the distributed machine |
| GreedyCluster.GetMaxNode | wf4/src/influence_maximization.cpp:459-484 | the scan returns the first of the records with the largest influence; a fresh, unset record when none is positive |
| GreedyCluster.RecordMaxima | wf4/src/influence_maximization.cpp:565-578 | after a host's nodes have been handled by any threads, every thread's record is of one of its nodes and no node beats its thread's record |
| GreedyCluster.HostMaximum | wf4/src/influence_maximization.cpp:429-438 | the host's record is a maximum over its nodes, for any order and any assignment to threads |
| GreedyCluster.ExchangeMostInfluentialNodes | wf4/src/influence_maximization.cpp:639-672 | every host ends with the same vector of maxima, whatever the order of arrival |
| GreedyCluster.Cluster.RemoveReachableSetsWithInfluentialNode | wf4/src/influence_maximization.cpp:486-508 | the set is emptied exactly if it has the node, and counters and pending updates still agree with the sets |
| GreedyCluster.Cluster.RemoveNodesFromRemotes | wf4/src/influence_maximization.cpp:510-563 | afterwards nothing is pending and the counters agree with the sets |
| GreedyCluster.Cluster.GetMostInfluentialNode | wf4/src/influence_maximization.cpp:421-457 | the pick is maximal among the remaining sets |
| GreedyCluster.Cluster.GetInfluentialNodes | wf4/src/influence_maximization.cpp:190-214 | the loop returns greedy picks of the original family and leaves exactly the sets that all but the last pick leave over |
| Workflow.HandoverIsInitial | wf4/src/influence_maximization.cpp:171-188 | what any run of generation leaves behind is a correct start of the greedy phase |
| Workflow.InfluenceMaximization | wf4/src/influence_maximization.cpp:122-228 | end to end: picks of any greedy run after any generation run have the coverage guarantee on the generated sets |
| Wire.BytesRoundTrip | wf4/src/influence_maximization.cpp:249-288 | words written as eight little-endian bytes are read back unchanged |
| Wire.LittleEndian | wf4/src/influence_maximization.cpp:249-266 | of the eight bytes of a word the least significant comes first |
| Wire.DecodeEncoded | wf4/src/influence_maximization.cpp:268-288 | reading an encoded set followed by anything gives that set and exactly the rest, whatever enumeration order it was written in |
| Wire.SetsRoundTrip | wf4/src/influence_maximization.cpp:598-629 | a concatenation of any number of encoded sets decodes to the same sequence |
| Wire.MessageRoundTrip | wf4/src/influence_maximization.cpp:598-629 | a message is read back as the sets it carries, and it is shorter than 16 bytes if and only if it carries none |
| Wire.Serialize | wf4/src/influence_maximization.cpp:249-266 | appending a set to a buffer appends its number, owner and two sizes, then the members of the set and of its frontier in some order |
| Wire.SendSets | wf4/src/influence_maximization.cpp:598-606 | the buffer sent is a message for exactly these sets, a single byte when there are none |
| Wire.Deserialize | wf4/src/influence_maximization.cpp:268-288 | the extraction loops compute the decoding of the first set |
| Wire.ReceiveSets | wf4/src/influence_maximization.cpp:620-629 | reading until the buffer is used up computes the decoding of the message |
| Wire.MapRoundTrip | wf4/src/influence_maximization.cpp:546-561 | the removal map is read back as written, and its message is shorter than 16 bytes if and only if it is empty |
| Wire.SerializeMap | wf4/src/influence_maximization.cpp:674-687 | the words written encode exactly the map, in any order of its entries |
| Reservation.StepKeepsInv | wf4/src/quiesce.cpp:212-243 | every single step of every buyer keeps, for each seller copy: each live addition saw at least the additions before it, each accepted one saw no more than bought |
| Reservation.RunInv | wf4/src/quiesce.cpp:104-111 | the invariant holds in every state of every run, and nothing bought is ever taken back |
| Reservation.NoOversell | wf4/src/quiesce.cpp:220-243 | when all steps are done, each copy that accepted a trade has sold at most what it bought, and every other copy is unchanged |
| Reservation.AllAccepted | wf4/src/quiesce.cpp:220-226 | with nothing left open, what a copy gained is exactly what it accepted, and the last acceptance bounds it by what is bought |
| Trading.RunAccounts | wf4/src/quiesce.cpp:192-245 | over every run: completed local trades equal the rise of bought, notes for other hosts equal the completed remote trades when pairs are not repeated, and bought + promised + still needed never exceeds the start |
| Trading.ProposePhase | wf4/src/quiesce.cpp:104-111 | after proposing, sellers traded with on the host have sold as much more as buyers bought more, and every buyer's purchases and promises stay within what it had and needed |
| Trading.DecidePhase | wf4/src/quiesce.cpp:247-298 | after deciding, the rise of sold equals the sum of the decisions noted, nothing bought has changed, and each decision is positive and within a proposal |
| Trading.NotYetNoted | wf4/src/quiesce.cpp:292-297 | with one edge per buyer and seller a commit never meets an existing note, so dropping duplicates drops nothing |
| Trading.Untouched | wf4/src/quiesce.cpp:247-298 | a copy no proposal is for keeps what it has sold |
| Outcomes.LeavesWith | wf4/src/quiesce.cpp:205-243 | under any schedule a visit to a seller lowers the need of the buyer by just the smaller of the need and the surplus it read, or leaves it because at some moment of the visit the seller had sold more than it had bought |
| Outcomes.LeftInNeed | wf4/src/quiesce.cpp:201-244 | a buyer left in need had, at each of its sellers, seen no surplus, or taken all it saw, or failed the check |
| Outcomes.RunBalances | wf4/src/quiesce.cpp:227-242 | what a buyer has bought, is promised and still needs stays the same together, if no seller on another host is listed twice |
| Outcomes.ServedOrSoldOut | wf4/src/quiesce.cpp:192-245 | every buyer ends with all it needed, bought or promised, unless each of its sellers had at some moment sold what it had at the start |
| LoneBuyer.LoneWalk | wf4/src/quiesce.cpp:192-245 | when only one buyer is in need, the protocol ends with the books of a plain walk over its purchase edges |
| LoneBuyer.LoneBuyerTrades | wf4/src/quiesce.cpp:212-242 | with one purchase edge it takes the smaller of need and surplus: that much more sold, and bought or noted; nothing else changes |
| LoneBuyer.LoneBuyerServed | wf4/src/quiesce.cpp:192-245 | with several sellers it ends with what it needs, or with all that they had to offer |
| TradeRound.DecidedWithin | wf4/src/quiesce.cpp:267-298 | for every buyer and seller the decided amount lies between zero and the proposed amount |
| TradeRound.CreditsAreDecided | wf4/src/quiesce.cpp:300-322 | what is committed for a buyer is the sum of all sellers' decisions for it, no more and no less |
| TradeRound.NoOverbuyingInRound | wf4/src/quiesce.cpp:90-132 | every master ends a round with bought at most the larger of its starting bought and its desired |
| TradeRound.NoOversellInRound | wf4/src/quiesce.cpp:90-132 | every master ends a round with sold unchanged or at most bought |
| TradeRound.ProposalsConserve | wf4/src/quiesce.cpp:227-231 | over all hosts, trades completed while proposing raise sold and bought of masters alike |
| TradeRound.DecisionsConserve | wf4/src/quiesce.cpp:247-322 | over all hosts, decided sales raise sold by what the commits raise bought |
| TradeRound.RoundConserves | wf4/src/quiesce.cpp:90-132 | over a whole round the total rise of sold on masters equals the total rise of bought on masters |
| RoundOutcomes.OnlyBuyerServed | wf4/src/quiesce.cpp:90-132 | over all hosts: when only one node is in need, with one seller, what the seller can spare of it has been sold and bought after the round, and every other master keeps what it had |
| RoundOutcomes.DecidedOrSoldOut | wf4/src/quiesce.cpp:247-298 | a proposal is decided in full unless its seller had at some moment sold what it had at the start |
| RoundOutcomes.ServedInRound | wf4/src/quiesce.cpp:90-132 | a buyer in need ends the round with what it desires, unless the copy of each of its sellers on its own host, or the master of a seller it made a proposal to, had at some moment nothing left |
| QuiesceHost.Host.StepBuyer | wf4/src/quiesce.cpp:201-244 | one atomic step of one buyer on the host's fields is the machine's step |
| QuiesceHost.Host.RunPhase | wf4/src/quiesce.cpp:104-111 | any schedule of all buyers ends, and what it did to the fields is a run of the machine |
| QuiesceHost.Host.AddPurchaseEdges | wf4/src/quiesce.cpp:300-322 | each buyer's bought rises by the weights of the edges received for it |
| QuiesceGraph.SerializeSet | wf4/src/quiesce.cpp:363-377 | the edges listed for a host are exactly the notes that go there, each once, in any order |
| QuiesceGraph.SendNewEdges | wf4/src/quiesce.cpp:324-361 | a host receives exactly the notes of all other hosts that are for it |
| QuiesceGraph.ProposalsDelivered | wf4/src/quiesce.cpp:113-114 | so the sellers' owners receive every proposal exactly once |
| QuiesceGraph.DecisionsDelivered | wf4/src/quiesce.cpp:116-118 | so the buyers' owners receive every decision exactly once |
| QuiesceGraph.DecideHost | wf4/src/quiesce.cpp:247-298 | deciding what was received, one task per proposal in any schedule, is a decide phase of the round |
| QuiesceGraph.QuiesceGraph | wf4/src/quiesce.cpp:90-132 | running all phases on all hosts yields a round: no master buys beyond what it had or desires, one that sold has not sold more than it bought, total rises of sold and bought agree, and a single node in need with a single seller gets the smallest of need, known surplus and real surplus while all other masters stay as they are |
| ProposalWire.OnlyZeroSurvives | wf4/src/quiesce.cpp:363-377 | an amount sent to another host arrives as it was if and only if it is zero; one below 2^52 arrives as less than one, and the answer to it as zero |
| Cancellation.StepKeepsLedger | wf4/src/quiesce.cpp:152-190 | every step of every cancelling task keeps: a partner is flagged once something is taken off, a master loses what is taken off, a mirror too but from zero or below once it is clamped, and all other copies are untouched |
| Cancellation.Host.StepTask | wf4/src/quiesce.cpp:152-190 | one step of the code on the host's fields is the ledger's step |
| Cancellation.Host.CancelAll | wf4/src/quiesce.cpp:66-69 | any schedule of the tasks ends with exactly the partners flagged, their books reduced by what was traded, all other copies as before; a node desires nothing if it is listed and present, and otherwise what it did |
| Cancellation.Host.CancelAgain | wf4/src/quiesce.cpp:80-87 | the second pass clears exactly the listed nodes present on the host |
| Cancellation.AfterExchange | wf4/src/quiesce.cpp:71-77 | after mirrors are added, a master that is not cancelled has lost what the listed nodes traded with it, once per listing, and what its mirrors that take part were below zero, for every partition |
| Cancellation.CancelIsDeletion | wf4/src/quiesce.cpp:56-88 | a master that started with the sum of its trades ends with the sum over nodes not cancelled if and only if no node trading with it is listed twice and no mirror of it that takes part starts below zero |
| Cancellation.CancelNodes | wf4/src/quiesce.cpp:56-88 | the whole operation: cancelled masters end at zero and desire nothing; the others desire what they did, have lost what the listed nodes traded with them, and end as if these had been deleted if and only if the condition above holds |
| Walks.InWalkSet | include/scea/algo/bc.hpp:142-156 | the walks counted are exactly the edge-slot sequences of the given length between the two vertices, parallel edges told apart |
| Walks.CountIsSize | include/scea/algo/bc.hpp:142-156 | the recursive count of walks is the size of that set |
| Walks.CountSplit | include/scea/algo/bc.hpp:142-156 | a walk of a + b edges passes exactly one vertex after a edges, so counts multiply and add up |
| Dependency.ThroughSize | include/scea/algo/bc.hpp:88-97 | shortest walks through a vertex number the walks to it times the walks from it, or none when it is too far |
| Dependency.DeltaIsDependency | include/scea/algo/bc.hpp:88-103 | the product the algorithm forms is the sum over targets of the share of shortest walks through the vertex |
| Dependency.DeltaFromEdges | include/scea/algo/bc.hpp:88-101 | Brandes' recurrence: the dependency on a vertex follows from those of the targets one level deeper, edge by edge |
| LevelSearch.StepKeepsInv | include/scea/algo/bc.hpp:142-156 | every read, re-read, compare-and-swap, push and add of every task keeps the level invariant |
| LevelSearch.StepWorklist | include/scea/algo/bc.hpp:143-149 | each vertex of the next level is on the worklist once or held by the one task that won it |
| LevelSearch.LevelCounts | include/scea/algo/bc.hpp:151-155 | the counts added to a newly reached vertex are the number of walks one edge longer |
| LevelSearch.LevelDone | include/scea/algo/bc.hpp:137-162 | when all tasks have finished, distances, counts and the worklist of the next level are exact |
| LevelSearch.RunLevel | include/scea/algo/bc.hpp:137-158 | any interleaving of a level's tasks ends and settles the next level |
| LevelSearch.LevelSSSP | include/scea/algo/bc.hpp:117-165 | the search ends with true distances and shortest-walk counts for all reachable vertices, each once in the worklist of its distance, and one trailing empty worklist |
| Brandes.GatherVertex | include/scea/algo/bc.hpp:88-103 | a vertex's dependency and score become the definition's, nothing else changes |
| Brandes.GatherLevel | include/scea/algo/bc.hpp:80-110 | a level is gathered in any order of its worklist |
| Brandes.AddSource | include/scea/algo/bc.hpp:62-112 | search and sweep add to every vertex but the source its dependency for that source |
| Brandes.Compute | include/scea/algo/bc.hpp:35-115 | the scores are the betweenness centralities over all vertices when no number of sources is given, otherwise over that many of the shuffled vertices, or all of them |
| SerialBrandes.ScanKeepsInv | include/scea/algo/bc.hpp:221-233 | looking at one edge keeps queue order, distances, counts and predecessor lists consistent with the edges looked at |
| SerialBrandes.NoShorter | include/scea/algo/bc.hpp:218-234 | with the queue empty, no walk is shorter than the distance found and every reachable vertex was found |
| SerialBrandes.CountsExact | include/scea/algo/bc.hpp:226-229 | the counts are those of all shortest walks |
| SerialBrandes.SearchDone | include/scea/algo/bc.hpp:218-235 | distances and counts are exact, and each vertex one level up is a predecessor once for every edge |
| SerialBrandes.BfsShortestPaths | include/scea/algo/bc.hpp:210-236 | the queue search ends with all of that, and no vertex lies beyond the level it returns |
| SerialBrandes.SlotsByTarget | include/scea/algo/bc.hpp:195-199 | summing over edges, or over targets with their multiplicity, is the same |
| SerialBrandes.AllPushed | include/scea/algo/bc.hpp:195-199 | once all deeper neighbours have pushed, a vertex has received exactly its dependency |
| SerialBrandes.PushEdge | include/scea/algo/bc.hpp:195-199 | one push adds exactly one edge's share |
| SerialBrandes.SweepLevel | include/scea/algo/bc.hpp:191-206 | a level is swept completely, the source is not scored |
| SerialBrandes.Compute | include/scea/algo/bc.hpp:177-208 | the push-style sweep computes the same vector as the gathering form with every vertex as source |
| Bfs.StepKeepsInv | include/scea/algo/bfs.hpp:48-60 | every test, write, look and push of every task keeps the level invariant, with duplicates in the bags |
| Bfs.LevelDone | include/scea/algo/bfs.hpp:41-64 | after a level everything up to it is exact and the next bag has every vertex one further; it is empty unless something new was visited |
| Bfs.RunLevel | include/scea/algo/bfs.hpp:45-61 | any interleaving of the tasks of a bag ends |
| Bfs.Compute | include/scea/algo/bfs.hpp:22-66 | every entry is the exact hop distance, or UNVISITED if and only if unreachable; an out-of-range source leaves all unvisited; the loop ends also through rounds that visit nothing |
| PageRank.Contraction | include/scea/algo/pr.hpp:38-57 | one iteration brings any two rank vectors closer, in L1, by at least the damping factor, sinks included |
| PageRank.TotalIsOne | include/scea/algo/pr.hpp:29-57 | ranks stay non-negative, total rank never exceeds 1, and equals 1 when no vertex is a sink |
| PageRank.DifferenceShrinks | include/scea/algo/pr.hpp:59-68 | successive differences shrink by 0.85 each time and are at most 2 * 0.85^k |
| PageRank.CapIsAmple | include/scea/algo/pr.hpp:19-21 | 2 * 0.85^61 is below the tolerance |
| PageRank.AlwaysBreaks | include/scea/algo/pr.hpp:70-72 | the tolerance test ends the loop at the 62nd iteration at the latest |
| PageRank.NearFixedPoint | include/scea/algo/pr.hpp:70-72 | at the break the ranks are within 0.85/0.15 of the measured difference of any exact fixed point |
| PageRank.DistributeContributions | include/scea/algo/pr.hpp:38-46 | each vertex receives its in-neighbours' rank per edge, with multiplicity |
| PageRank.Iterate | include/scea/algo/pr.hpp:31-68 | the array loops compute one iteration and the L1 difference |
| PageRank.Compute | include/scea/algo/pr.hpp:26-74 | the loop stops at the first iteration whose difference is below 0.0001, always before the cap, with the ranks of that iteration; ranks start at 1/n, and a rank is 0.15/n plus 0.85 of what the in-neighbours passed along |
| Triangles.CliquesAreTriples | include/scea/algo/tc.hpp:30-46 | in a symmetric graph every 3-clique is exactly one ascending triple |
| Triangles.SameTriples | include/scea/algo/tc.hpp:22-27 | sorting the lists changes neither edges nor triples |
| Triangles.SortAll | include/scea/algo/tc.hpp:22-27 | afterwards every list is an ordered permutation of what it was |
| Triangles.CountClosing | include/scea/algo/tc.hpp:34-41 | the inner loop counts the closing edges found by binary search, each once |
| Triangles.Compute | include/scea/algo/tc.hpp:19-46 | the result is the number of 3-cliques of a simple symmetric graph, each counted once; every vertex keeps its edge multiset |
| Sorting.SortSlice | scripts/convert/graph_convert.go:115-121 | the in-place sort yields an ordered permutation for either direction |
| MutableGraph.MaxVertex | include/scea/graph/adj.hpp:28-41 | the largest vertex a batch mentions as source or target |
| MutableGraph.AdjGraph.Ingest | include/scea/graph/adj.hpp:26-50 | each list grows by exactly the batch's targets for it, the graph by just the vertices mentioned |
| MutableGraph.OrderOfBatch | include/scea/graph/adj.hpp:43-49 | with distinct sources the order of the batch does not matter |
| MutableGraph.AdjGraph.SortEdges | include/scea/graph/adj.hpp:60-62 | the list becomes an ordered permutation, all others stay |
| MutableGraph.AdjGraph.FindEdgeSorted | include/scea/graph/adj.hpp:64-66 | on an ordered list the search finds exactly the edges present |
| MutableGraph.BinarySearch | include/scea/graph/csr.hpp:85-89 | the search over an ordered stretch finds exactly its members |
| MutableGraph.CopyKeeps | include/scea/graph/csr.hpp:65-71 | the tasks of the compaction write disjoint stretches, so their order does not matter |
| MutableGraph.Csr.PrefixSum | include/scea/graph/csr.hpp:50-61 | the offsets are the prefix sums of the degrees |
| MutableGraph.Csr.PostIngest | include/scea/graph/csr.hpp:44-72 | after any ingest the compact form holds the adjacency lists one after the other, the lists themselves unchanged |
| MutableGraph.Csr.Ingest | include/scea/graph/adj.hpp:26-50 | ingest changes the lists as for the adjacency graph and leaves the compact form behind |
| MutableGraph.Csr.Size | include/scea/graph/csr.hpp:38-38 | the size is that of the adjacency lists |
| MutableGraph.Csr.GetOutDegree | include/scea/graph/csr.hpp:40-42 | the degree is that of the adjacency list |
| MutableGraph.Csr.ForEachEdge | include/scea/graph/csr.hpp:74-78 | the callback sees exactly the adjacency list, in its order |
| MutableGraph.Csr.SortEdges | include/scea/graph/csr.hpp:80-83 | as written it sorts nothing: the edges stay as they are |
| MutableGraph.Csr.FindEdgeSorted | include/scea/graph/csr.hpp:85-89 | on an ordered stretch it finds exactly the edges of the adjacency list |
| Replay.PrepareBatch | microbench/edit_scalability_large.cpp:48-104 | the batch has distinct sources and, for each, exactly the targets of the stretch with multiplicity |
| Replay.BatchesTile | microbench/edit_scalability_large.cpp:261-272 | the clamped ranges tile everything after the pre-ingested edges: their concatenation is the rest of the file |
| Replay.BatchSizes | microbench/edit_scalability_large.cpp:261-272 | all batches have the same number of edges until the file ends, and it is the least with which the batches reach the end |
| Replay.IngestLoads | microbench/edit_scalability_large.cpp:243-259 | ingesting the group of the next stretch turns a loaded prefix into a longer loaded prefix |
| Replay.Replay | microbench/edit_scalability_large.cpp:242-300 | after every batch the algorithm finds the compact graph of all edges so far, after the last one that of the whole file, whatever the split |
| Replay.LoadedAgree | README.md:168-169 | two graphs of the same file, however loaded, have the same size and the same edge multiset at every vertex |
| Replay.LoadAtOnce | include/scea/graph/adj.hpp:26-50 | a one-shot load gives the graph of the file |
| Scheduler.FoldLines | scripts/convert/graph_convert.go:104-114 | each virtual host gets exactly the lines that fall to it round robin |
| Scheduler.VhostTotal | scripts/convert/graph_convert.go:108-114 | folding loses nothing: the total load is that of the lines |
| Scheduler.LargeJobFits | scripts/convert/graph_convert.go:118-124 | when the next job is more than a third of another schedule's makespan, some host still takes it within that makespan |
| Scheduler.PlacementBound | scripts/convert/graph_convert.go:118-124 | placing the next largest job on a least loaded host keeps Graham's bound against every schedule |
| Scheduler.Distribute | scripts/convert/graph_convert.go:118-124 | the sort-and-add loop builds a schedule that is near-optimal and balanced |
| Scheduler.Vdl2Hdl | scripts/convert/graph_convert.go:103-129 | total load is conserved, makespan is at most (4/3 - 1/(3m)) times that of any schedule, loads differ by at most the largest job, and it panics exactly when it indexes an empty slice |
| Scheduler.ChunksTile | scripts/convert/graph_convert.go:142-161 | consecutive chunks meet, the first starts at 0, the last ends at the number of records |
| Scheduler.ChunkSizes | scripts/convert/graph_convert.go:142-161 | every chunk has the average number of records, rounded down or up |
| Scheduler.Bel2Vdl | scripts/convert/graph_convert.go:131-176 | every virtual host gets the number of records whose source falls to it, all of them together the number of records, for any number of routines; it panics exactly for zero routines or for records without virtual hosts |

## Left out

- Overflow of 64-bit and 32-bit counters, path counts and indices: numbers are unbounded, apart from the two sentinels and the wrapped loop bound named above.
- Floating-point rounding: amounts, ranks and dependencies are real numbers, so the order of atomic additions does not matter.
- The random generators: a coin oracle per set and edge decides which edges are live, and any list of vertices may be the sampled sources.
- Galois, Gluon and MPI internals: parallel loops are interleavings or arbitrary orders, a receive round delivers one message per other host, and synchronising adds flagged mirror values to the master.
- The trading modules pass the amounts of proposed edges between hosts unchanged; what the program's wire format makes of an amount is in ProposalWire alone.
- The final broadcast of sold and bought to mirrors at the end of a trading round, and amounts on edges after a trade, which the program changes only in a copy.
- Hosts whose memory is separate are handled one after the other in QuiesceGraph and CancelNodes; their values are passed as sequences between phases.
- Brandes.GatherLevel: the vertices of a level are gathered one after the other in any worklist order, as each writes only its own entries and reads a finished level.
- PageRank.DistributeContributions: the additions come in vertex order, as sums of reals do not depend on it.
- MutableGraph.AdjGraph.Ingest: requires distinct sources, which the parallel append relies on and the replayer provides.
- GreedyCluster.Cluster.GetMostInfluentialNode: when every counter is zero the program leaves the pick unset, and the model makes it arbitrary.
- The parallel branch of the prefix sum, whose code is outside the repository, and the graphs LS_CSR, LC_CSR and MorphGraph, which wrap graphs outside the repository.
- Node values, edge probabilities, parsers, command lines, timers, printing, plotting, the other converters and generators, and `scripts/divide_into_batches.cpp`, whose batch start is not clamped.
