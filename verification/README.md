# Maximum flow with lower bounds, modelled in Dafny

`max_flow.py` computes a maximum flow in a directed network whose edges
carry both a capacity and a lower bound ("demand"). Node 0 is the source
and node n-1 is the sink. `flujoMaximo` reduces the problem to two
ordinary maximum-flow searches:

1. **Demand totals.** For every internal node v (not 0, not n-1) it sums
   the lower bounds entering v and leaving v. It adds a super-source n
   with an arc (n, v) carrying the inbound total and a super-sink n+1 with
   an arc (v, n+1) carrying the outbound total. `d` and `d'` are the two
   totals summed over the internal nodes.
2. **Capacity stripping.** Every original edge's capacity becomes
   capacity - demand. A return arc (n-1, 0) with capacity
   `INF_VALUE` = 300 is added.
3. **Feasibility test.** Edmonds–Karp runs from n to n+1. If its value
   differs from `d` or from `d'`, the network is reported infeasible with
   that value.
4. **Reseeding and the second search.** The super nodes and the arcs
   between source and sink are removed. The flow of the first search
   becomes a recorded baseline (flow plus lower bound) and is taken off the
   residual capacities. Edmonds–Karp then runs from 0 to n-1 on what is
   left. Each edge's final flow is its baseline plus its second-search
   flow. The value is the second search's value plus the baseline on the
   edges leaving the source.

`parsearGrafo` reads edge records `u,v,capacity,demand`. It relabels the
endpoint `S` to node 0 and `T` to node n+1, where n is the largest numeric
id.

The model is functional. A network is a `Graph(n, edges)` whose edges are
keyed by their endpoint pair. The library's residual network is a map from
node pairs to `Arc(capacity, flow)`, with skew-symmetric flow. The
Edmonds–Karp search from the networkx library is replaced by a BFS
Edmonds–Karp written here (`Search.EdmondsKarp`). It mirrors the library's
observable behaviour:

- it skips self-loops and pairs without positive capacity when it builds
  its own residual network;
- the default "infinite" capacity is three times the total capacity, or 1;
- it refuses a path whose bottleneck is more than half of that value.

Modules, in dependency order:

- `Sums`: finite sums.
- `Network`: graphs and flows.
- `Residual`: arcs, building the residual network, augmenting.
- `Search`: BFS and Edmonds–Karp.
- `Reduction`: demand totals and auxiliary capacities.
- `Reconstruction`: detaching, reseeding, recording and combining.
- `Phases`: what each search leaves behind.
- `Cuts`: the flow/cut argument.
- `Outcomes`: results.
- `Correctness`: the end-to-end lemmas.
- `FlowWithDemands`: the executable methods.
- `Circulation`: the corrected feasibility test of the design.
- `Findings`: five departures of the source from its design.
- `Parse`: the record reader.

The source matches edges to residual arcs by walking two lists in step
(max_flow.py:127-135, 163-186). The model uses keyed lookups by (u, v)
instead. The rest of the model uses the corrected reseeding and recording
described under "Findings". `MaxFlow` keeps the feasibility test as
written. The corrected test of the design is modelled and proved separately
in `Circulation`.

## Model

| member | source | states |
|---|---|---|
| `Reduction.FromSuperSource` | max_flow.py:50-67 | there is an arc (n, v) exactly for the internal nodes 1 .. n-2, and its capacity is the sum of the lower bounds of the edges entering v; the source and the sink get no arc |
| `Reduction.ToSuperSink` | max_flow.py:50-68 | there is an arc (v, n+1) exactly for the internal nodes, and its capacity is the sum of the lower bounds of the edges leaving v |
| `Reduction.DemandsNonNegative` | max_flow.py:55-65 | in a well-formed network, both demand totals of every node are non-negative |
| `Reduction.DemandBalance` | max_flow.py:36-37 | d - d' equals the lower bounds on edges from the two ends into internal nodes minus those on edges from internal nodes into the two ends (double counting) |
| `Reduction.BalancedWithoutEndDemands` | max_flow.py:70-71 | if no edge touching the source or the sink has a lower bound, then d = d' |
| `Reduction.Stripped` | max_flow.py:77-85 | every original edge keeps its key and gets capacity - demand |
| `Reduction.AuxCapacities` | max_flow.py:49-91 | the auxiliary network holds exactly the original edges, the super-source and super-sink arcs of the internal nodes, and the return arc (n-1, 0); their capacities are the stripped capacity, the demand totals and INF_VALUE |
| `Reduction.AuxCapacitiesNonNegative` | max_flow.py:12-15 | given 0 <= demand <= capacity, every auxiliary capacity is non-negative |
| `Reduction.LibraryInfAbovePairs` | max_flow.py:104 | the library's default "infinite" capacity is at least twice the two-way capacity of any pair of nodes |
| `Search.ClosedBlocksPaths` | max_flow.py:155 | a node set that contains s but not t, and that no positive residual arc leaves, admits no augmenting path |
| `Search.Bfs` | max_flow.py:104 | either returns an augmenting path from s to t, or returns a reached set that contains s but not t and that no positive residual arc leaves |
| `Search.MinResidual` | max_flow.py:155 | the bottleneck is at most every residual capacity on the path and equals one of them |
| `Search.EdmondsKarp` | max_flow.py:155 | a successful search keeps the arcs and capacities and adds its value to s's net outflow and takes it from t's; every other node keeps its balance; no augmenting path remains, witnessed by a closed cut; Unbounded only when a pair has more than half of inf as capacity; a network with no augmenting path comes back unchanged with value 0 |
| `Correctness.LibraryNeverRefuses` | max_flow.py:104 | with the library's own "infinite" capacity, the first search is never refused |
| `Correctness.FirstSearchResult` | max_flow.py:104-109 | the first search succeeds; every original node is balanced; its value is at most d and at most d' |
| `Correctness.SearchMaximal` | max_flow.py:104 | a search that leaves a closed cut between s and t has found a maximum: no valid flow over the same arcs and capacities, balanced away from s and t, carries more out of s |
| `Correctness.FirstSearchIsMaximum` | max_flow.py:104-109 | the first search leaves no augmenting path, and its value is the maximum flow of the auxiliary network from n to n+1 |
| `FlowWithDemands.FirstPhase` | max_flow.py:104-109 | the residual network after the first search has the auxiliary capacities, valid flows, value out of n and into n+1, and balance at every original node; it has no augmenting path left, and the value is the maximum flow of the auxiliary network: no flow of it balanced at every original node carries more; 0 <= value <= d and value <= d'; when the auxiliary network has no augmenting path the value is 0 |
| `Phases.SourceSaturated` | max_flow.py:109-111 | once the test passes, every arc (n, v) carries its full capacity, the inbound demand total of v |
| `Phases.SinkSaturated` | max_flow.py:109-111 | once the test passes, every arc (v, n+1) carries its full capacity, the outbound demand total of v |
| `Phases.DemandSurplus` | max_flow.py:49-71 | with both super arcs saturated, an internal node sends out over the original arcs its inbound minus its outbound demand |
| `Reconstruction.Detach` | max_flow.py:113-119 | the detached network keeps exactly the arcs that touch no super node and do not join the source and the sink, with their capacity and flow unchanged |
| `Reconstruction.ReseedAsWritten` | max_flow.py:137-142 | every flow becomes 0; arcs with flow >= 0 keep their residual capacity; arcs with negative flow lose it by that flow |
| `Reconstruction.Reseed` | max_flow.py:137-142 | every flow becomes 0 and every residual capacity stays what it was |
| `Reconstruction.ReseedKeepsPairs` | max_flow.py:137-142 | reseeding keeps the capacity of every pair of nodes, counting both directions |
| `Reconstruction.RecordedAsWritten` | max_flow.py:126-140 | an entry exists exactly for the arcs with flow >= 0; an edge leaving an internal node records its flow plus its lower bound; every other entry records its flow alone |
| `Reconstruction.Recorded` | max_flow.py:121-140 | every original edge, and nothing else, records its lower bound plus its first-search flow |
| `Reconstruction.FinalFlows` | max_flow.py:167-190 | every original edge, and nothing else, gets its recorded flow plus its second-search flow |
| `Phases.BaselineEdge` | max_flow.py:121-140 | on an original edge, the first search's flow survives detaching and lies between 0 and capacity - demand |
| `Phases.BaselineFeasible` | max_flow.py:121-140 | once the test passes, the recorded baseline is a feasible flow of the original network |
| `Phases.FinalEdge` | max_flow.py:167-190 | each final edge flow lies between the edge's lower bound and its capacity |
| `Phases.FinalFeasible` | max_flow.py:167-190 | the combined flow is feasible: within bounds on every edge and conserved at every internal node |
| `Phases.FinalValue` | max_flow.py:172-192 | when no edge enters the source, the reported value (second-search value plus the baseline leaving the source) equals the final flow leaving the source |
| `Cuts.ValueCrossesCut` | max_flow.py:155 | for a conserving flow, the net value equals the net flow across any cut that separates the source from the sink |
| `Cuts.TightCutIsMaximum` | max_flow.py:155 | a feasible flow that fills every forward edge of a cut to capacity and holds every backward edge at its lower bound is at least as large as any feasible flow |
| `Correctness.ForwardCutEdge` | max_flow.py:167-190 | an edge leaving the set the second search reached ends at its capacity |
| `Correctness.BackwardCutEdge` | max_flow.py:167-190 | an edge entering the set the second search reached ends at its lower bound |
| `Correctness.FinalMaximal` | max_flow.py:155-192 | no feasible flow has a larger value than the combined flow |
| `Correctness.SecondUnbounded` | max_flow.py:152-155 | the second search is refused only when some pair of original nodes has more than 150 of capacity in its two directions |
| `Correctness.CombineCorrect` | max_flow.py:155-192 | combining the baseline with any result of the second search gives a maximum, or Unbounded caused by a wide pair |
| `FlowWithDemands.SecondPhase` | max_flow.py:113-192 | after a passed test the outcome is a maximum, or Unbounded caused by a wide pair |
| `FlowWithDemands.MaxFlow` | max_flow.py:24-192 | with fewer than three nodes, MissingNode; d != d' forces Infeasible, whose value is below d or d'; Feasible only when d = d', with one flow per edge that, on simple networks, is feasible and maximal; the value is the flow leaving the source when no edge enters it; Unbounded only for a wide pair; when d > 0 and the auxiliary network has no augmenting path, Infeasible with value 0; Infeasible carries the maximum flow of the auxiliary network from n to n+1; any other result with at least three nodes comes from a first search that carried d; and when d = d' and the auxiliary network has a flow of value d, the result is not Infeasible |
| `Findings.SourceDemandLost` | max_flow.py:49-65 | on 0 -> 1 -> 2 with lower bound 1 on both edges, whatever the two searches return, the flows as written break conservation at node 1 |
| `Findings.TightEdgeUnrecorded` | max_flow.py:128-140 | on a network whose internal edge has capacity = lower bound, that edge has no baseline entry as written and no arc in the second search; the corrected baseline gives it its lower bound |
| `Findings.CycleFlowBlocks` | max_flow.py:137-142 | on the cycle network, a first search that routes the demand round the cycle leaves the as-written reseeding with no augmenting path and no baseline leaving the source; the corrected reseeding has the path 0 -> 1 -> 3 -> 4 |
| `Findings.CycleBestFeasible` | max_flow.py:12-22 | the cycle network has a feasible flow of value 1 |
| `Findings.OneWayFeasible` | max_flow.py:12-22 | the one-way network (source 0, sink 3, edges 3 -> 2 -> 1 -> 0, lower bound 1 on (2, 1)) has a feasible flow of value -1 |
| `Findings.OneWayClosed` | max_flow.py:87-104 | on a residual network built from capacities with no positive pair out of {0, 1, 4}, that set is closed and the search from 4 to 5 has no augmenting path |
| `Findings.OneWayRejected` | max_flow.py:49-104 | the one-way network is simple with d = d' = 1 and has a feasible flow, yet its auxiliary network as written has no augmenting path from n to n+1 |
| `Findings.OneWayOutcome` | max_flow.py:104-111 | MaxFlow as written reports the one-way network Infeasible with value 0, although it has a feasible flow |
| `Findings.TightReturnFeasible` | max_flow.py:12-22 | the tight-return network (0 -> 1 -> 2 -> 3, capacity 500, lower bound 400 on (1, 2)) has a feasible flow of value 400 |
| `Findings.TightReturnBound` | max_flow.py:87-104 | in a valid residual network with those arcs, balanced at nodes 2 and 3, the value leaving the super-source is at most INF_VALUE: it all passes through the return arc (3, 0) |
| `Findings.TightReturnBlocked` | max_flow.py:87-104 | every first search on the tight-return network's auxiliary network as written carries at most INF_VALUE = 300 |
| `Findings.TightReturnRejected` | max_flow.py:7-111 | the tight-return network is simple, has d = d' = 400 and a feasible flow, yet no first search carries more than 300 |
| `Findings.TightReturnOutcome` | max_flow.py:104-111 | MaxFlow as written reports the tight-return network Infeasible with a value of at most 300, below d = 400, although it has a feasible flow |
| `Findings.TightReturnPassesCorrected` | max_flow.py:87-111 | on the tight-return network, any result of the search on the corrected auxiliary network, whose return arcs are as wide as the total capacity, carries the whole demand total 400 |
| `Findings.OneWayPassesCorrected` | max_flow.py:100-111 | on the one-way network, any result of the search on the corrected auxiliary network carries the whole demand total 1, so the corrected test passes |
| `Circulation.CirculationCapacities` | max_flow.py:49-91 | the corrected auxiliary network has exactly the original edges, a super arc from n and to n+1 for every node (the source and the sink included) and the return arcs both ways between the source and the sink; capacities are the stripped capacity, the demand totals and the network's total capacity |
| `Circulation.AllInIsAllOut` | max_flow.py:34-37 | summed over all nodes, the inbound and outbound demand totals agree: every lower bound leaves one node and enters another |
| `Circulation.NetFlowsCancel` | max_flow.py:12-22 | the net outflows of all nodes add up to 0 |
| `Circulation.SinkTakesValue` | max_flow.py:12-22 | under conservation, the sink takes in exactly the value the source sends out |
| `Circulation.ValueWithinTotalCapacity` | max_flow.py:87-91 | no flow within its bounds has a value, either way, larger than the total capacity, so return arcs of that capacity never limit a flow |
| `Circulation.InducedSource` | max_flow.py:39-47 | a flow within its bounds induces an assignment on the corrected auxiliary network that sends each node's inbound demand total out of the super-source, d in all |
| `Circulation.InducedConserves` | max_flow.py:12-22 | the induced assignment of a feasible flow is balanced at every original node |
| `Circulation.InducedSaturates` | max_flow.py:96-111 | the induced assignment of a feasible flow of a simple network fits any residual network over the corrected auxiliary network, is balanced away from the super nodes and carries d out of the super-source |
| `Correctness.ClosedCutBoundsFlows` | max_flow.py:155 | once a closed set separates s from t in a balanced residual network, no assignment within its capacities and balanced away from s and t sends more out of s than the residual network does |
| `Circulation.SearchBelowDemands` | max_flow.py:104-110 | no search on the corrected auxiliary network sends more than d out of the super-source |
| `Circulation.FeasibleSaturates` | max_flow.py:96-111 | after a search on the corrected auxiliary network that leaves a closed cut, a simple network with a feasible flow has exactly d out of the super-source |
| `Circulation.LibrarySearch` | max_flow.py:104 | a search on a network the library builds itself always returns a search result |
| `Circulation.CirculationSearchResult` | max_flow.py:96-111 | given a search result on the corrected auxiliary network (`Circulation.LibrarySearch` supplies one), it is Solved with a value between 0 and d, and carries exactly d when the network is simple and has a feasible flow |
| `Parse.MaxIdIsLargest` | max_flow.py:197-211 | the running maximum n is non-negative, bounds every numeric id, and is 0 or one of the ids |
| `Parse.LargestIdUnique` | max_flow.py:197-211 | any non-negative bound that is 0 or attained is that maximum |
| `Parse.Relabel` | max_flow.py:213-222 | at most one endpoint changes; numeric ids never change; a changed endpoint was S and becomes 0, or was T and becomes n+1 |
| `Parse.RelabelPositionwise` | max_flow.py:213-222 | the elif chain equals an endpoint-by-endpoint rule: the tail S becomes 0; the tail T becomes n+1 unless the head is S; the head S becomes 0 unless the tail is S; the head T becomes n+1 only after a numeric tail |
| `Parse.RelabelResolvesOne` | max_flow.py:213-222 | relabelling removes exactly one label from a record that has any |
| `Parse.RelabelBothLabels` | max_flow.py:213-222 | a record with labels at both ends keeps the head's label (T,S becomes (T, 0)) |
| `Parse.AddEdgesKeys` | max_flow.py:224 | the graph's edges are exactly the relabelled pairs of the records |
| `Parse.AddEdgesLastWins` | max_flow.py:224 | each edge holds the capacity and lower bound of the last record with its pair |
| `Parse.ParseGraph` | max_flow.py:213-228 | the pair list has one relabelled pair per record, in input order |
| `Parse.ParseGraphEdges` | max_flow.py:213-228 | the graph has one edge per distinct pair in that list, holding the last record's values |

## Left out

- Plotting, printing, the `DEBUG`/`VERBOSE` switches, `main` and file reading are not modelled. They are I/O without algorithmic content.
- Integer conversion and splitting of the record text are not modelled. Records arrive already split into fields, with integers.
- networkx is replaced by `Search.EdmondsKarp`. The library's choice among shortest augmenting paths is not pinned down. The lemmas hold for every path choice.
- The library's clipping of capacities to its "infinite" value is not modelled. It clips only when it builds the residual network itself, in the first search. There every capacity is below three times the total, so the clipping never changes anything.
- FlowWithDemands.MaxFlow: Infeasible does not promise that no feasible flow exists, because the test as written has three gaps. First, d and d' count only the internal nodes, so when lower bounds sit on edges at the source or the sink they can differ although a feasible flow exists; `Reduction.DemandBalance` states exactly when. Second, even with d = d' the first search can fall short of d: the return arc runs only from the sink to the source (max_flow.py:91), and the source and the sink get no super arcs (max_flow.py:52). A feasible flow whose value is negative, or that needs the lower bound of an edge at the source or the sink, has no counterpart in the auxiliary network. Finding D shows this on a simple network. Third, the return arc has capacity INF_VALUE = 300 (max_flow.py:7, 91), although the comment at max_flow.py:87-90 wants it never to limit flow. Everything the first search brings to the sink must leave through that arc, so a network whose feasible flows all need more than 300 on it is reported infeasible. Finding E shows this on a simple network with d = d' = 400.
- FlowWithDemands.MaxFlow: feasibility and maximality of the reported flow are proved only for simple networks: no self-loops, no pair of opposite edges, no edge between the source and the sink. On other networks the reduction merges or removes arcs and loses the per-edge flow.
- FlowWithDemands.MaxFlow: the value is tied to the flow leaving the source only when no edge enters the source. The source reports outflow alone.
- `MissingNode` stands for the library's error when the source, the sink or a super node is not a node. That is the case for networks with fewer than three nodes.
- Zero-capacity edges: the source says it treats them as absent. The residual build skips them, as the library does.
- The positional cursors and possibly unassigned variables of the two matching loops (max_flow.py:127-135, 163-186) are replaced by keyed lookups. `uD` and `vD` are read at max_flow.py:133 but assigned only while the list of lower bounds has entries (max_flow.py:130-131). So when no edge leaving an internal node has a positive lower bound, which includes every network without lower bounds, the source raises an error at the first arc the recording loop visits once the test has passed, unless the detached residual network has no arcs at all and the loop never runs; `MaxFlow` returns a result there. The cursors do not match by key. In the final loop, j advances only when the current record names the current edge (max_flow.py:184-186). It therefore stalls at the first recorded entry that is not an edge of the input, such as a reverse arc with flow 0, and every later recorded flow and lower bound is dropped. The model does not reproduce this stall; the Findings rows say where it changes the reported result.
- Circulation.CirculationSearchResult: only one direction of the design's equivalence is proved. A simple network with a feasible flow passes the corrected test. The converse, that a passing test yields a feasible flow, is not proved.
- Parse: the node set of the parsed graph, and `len(grafo)` as the size the reduction uses, are not connected to `Network.Graph`. Labels that stay after relabelling (for example `T` in `T,S`) become nodes of their own in the source.

## Findings

| source | as written | input that shows it | evidently intended | confidence | as-written member | corrected member |
|---|---|---|---|---|---|---|
| max_flow.py:49-65, 130-135 | Only out-edges of internal nodes are put on the list of lower bounds that is added back into the baseline. An edge leaving the source is recorded without its lower bound. | 0 -> 1 -> 2, capacity 5 and lower bound 1 on both edges. The first search routes node 1's demand through the super nodes, so both edges have first-search flow 0. (0, 1) records 0 without its lower bound, (1, 2) records 1, and the second search adds 4 to both. With the source's cursors, j stalls at the entry (1, 0, 0) (max_flow.py:182-186), so the record for (1, 2) is never read: both edges end at 4 and the value is 4, while the maximum is 5. Matched by key, as the model matches, (0, 1) ends at 4 and (1, 2) at 5, so node 1 is unbalanced. | every edge records its first-search flow plus its lower bound (comment at max_flow.py:121-125) | not executed | `Findings.SourceDemandLost`, `Reconstruction.RecordedAsWritten` | `Reconstruction.Recorded`, `Phases.BaselineFeasible` |
| max_flow.py:77-85, 128-140, 167-190 | An edge whose capacity equals its lower bound is stripped to capacity 0, and the library builds no arc for it. It gets no baseline entry, and the final matching loop cannot find an arc for it. | 0 -> 1 -> 2 -> 3 with (0, 1) and (2, 3) of capacity 2 and no lower bound, and (1, 2) of capacity 1 and lower bound 1 | such an edge carries exactly its lower bound | not executed | `Findings.TightEdgeUnrecorded`, `Reconstruction.RecordedAsWritten` | `Reconstruction.Recorded`, `Phases.FinalFeasible` |
| max_flow.py:137-142 | Only arcs with flow >= 0 have their capacity reduced; then every flow is reset to 0. A reverse arc (capacity 0, flow -f) thus loses the residual capacity f that would let the second search cancel the first search's flow. | nodes 0..4, edges (0,1), (2,3), (3,1), (3,4) of capacity 1 and (1,2) of capacity 2, lower bound 1: when the first search routes node 2's demand along 2 -> 3 -> 1, the second search finds nothing and the reported value is 0, although a feasible flow of value 1 exists | every residual capacity survives reseeding (capacity - flow on every arc) | not executed | `Findings.CycleFlowBlocks`, `Reconstruction.ReseedAsWritten` | `Reconstruction.Reseed`, `Correctness.FinalMaximal`, `Findings.CycleBestFeasible` |
| max_flow.py:49-71, 87-91, 104-111 | The source and the sink get no super arcs (the loop skips them), and the return arc runs only from the sink to the source. A feasible flow with a negative value, or one that needs a lower bound at the source or the sink, has no counterpart, so the test can fail with d = d'. | source 0, sink 3, edges (3, 2), (2, 1), (1, 0) of capacity 1, with lower bound 1 on (2, 1) only: one unit round 3 -> 2 -> 1 -> 0 is feasible with value -1, and d = d' = 1, but in the auxiliary network nothing with room leaves {0, 1, n}, so the first search carries 0 and the network is reported infeasible | every node, the source and the sink included, gets both super arcs, and the source and the sink are joined both ways by arcs wider than any flow's value; the test then passes whenever a feasible flow exists (proved here for simple networks) | not executed | `Findings.OneWayOutcome`, `Findings.OneWayRejected` | `Circulation.CirculationSearchResult`, `Findings.OneWayPassesCorrected` |
| max_flow.py:7, 87-91, 104-111 | The return arc (n-1, 0) has capacity INF_VALUE = 300. The comment calls it large enough never to limit flow, but all the flow the first search brings to the sink must leave through it. | source 0, sink 3, path 0 -> 1 -> 2 -> 3 of capacity 500 with lower bound 400 on (1, 2): 400 on every edge is feasible and d = d' = 400, but the first search carries at most 300 (node 2 can pass only to the sink, the sink only to the return arc), so the network is reported infeasible | the return arc is wider than any flow's value, for instance the network's total capacity | not executed | `Findings.TightReturnOutcome`, `Findings.TightReturnBlocked` | `Circulation.ValueWithinTotalCapacity`, `Circulation.CirculationSearchResult`, `Findings.TightReturnPassesCorrected` |
