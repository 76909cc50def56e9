/** The whole computation: build the auxiliary network, test feasibility with a
    first maximum-flow search from the super-source to the super-sink, record
    the baseline, reseed, run a second search from the source to the sink on
    what is left, and combine the two into a flow per original edge. */
module FlowWithDemands {
  import opened Sums
  import opened Network
  import opened Residual
  import opened Search
  import opened Reduction
  import opened Reconstruction
  import opened Phases
  import opened Cuts
  import opened Outcomes
  import opened Correctness

  /** A search on a network without flow: the library resets every flow to
      0 before searching, so every node other than the two ends stays
      balanced and the value leaves one end and enters the other. */
  method SearchFromZero(R: Arcs, s: int, t: int, m: int, inf: int) returns (out: Solve)
    requires Valid(R) && ZeroFlow(R)
    requires 0 <= s < m && 0 <= t < m && s != t && 0 < inf
    ensures out.Solved? ==> SearchResult(R, out, s, t, m)
    ensures out.Unbounded? ==> Refuses(R, m, inf)
    ensures NoAugmentingPath(R, s, t, m) ==> out.Solved? && out.value == 0
  {
    out := EdmondsKarp(R, s, t, m, inf);
    if out.Solved? {
      SearchBalances(R, out.residual, s, t, m, out.value);
    }
  }

  /** The feasibility test's search: the auxiliary network is built with
      the library's own "infinite" capacity, so this search never refuses a
      path. It leaves no augmenting path, so its value is the maximum flow
      of the auxiliary network, and that value is bounded by both demand
      totals. */
  method FirstPhase(G: Graph) returns (R1: Arcs, value: int)
    requires WellFormed(G) && 3 <= G.n
    ensures Valid(R1) && SameCapacities(Build(AuxCapacities(G)), R1)
    ensures NetOut(R1, G.n, AuxNodes(G)) == value && NetOut(R1, G.n + 1, AuxNodes(G)) == -value
    ensures forall x :: 0 <= x < G.n ==> NetOut(R1, x, AuxNodes(G)) == 0
    ensures 0 <= value <= TotalIn(G) && value <= TotalOut(G)
    ensures NoAugmentingPath(Build(AuxCapacities(G)), G.n, G.n + 1, AuxNodes(G)) ==> value == 0
    ensures NoAugmentingPath(R1, G.n, G.n + 1, AuxNodes(G))
    ensures forall R, v :: FirstSearched(G, R, v) ==> v <= value
  {
    var caps := AuxCapacities(G);
    var m := AuxNodes(G);
    var inf := LibraryInf(caps, m);
    LibraryInfPositive(caps, m);
    var first := SearchFromZero(Build(caps), G.n, G.n + 1, m, inf);
    FirstSearchResult(G, first);
    R1, value := first.residual, first.value;
    FirstSearchIsMaximum(G, first);
  }

  /** The second search from the source to the sink on the reseeded baseline,
      and the combination of both into one flow per original edge. */
  method SecondPhase(G: Graph, R1: Arcs) returns (r: Outcome)
    requires Phase1Passed(G, R1)
    ensures SecondPhaseOk(G, r)
  {
    SecondSearchReady(G, R1);
    var second := SearchFromZero(Reseed(Detach(R1, G.n)), 0, G.n - 1, G.n, INF_VALUE);
    CombineCorrect(G, R1, second);
    r := Combine(G, R1, second);
  }

  /** The maximum flow of a network with lower bounds, computed in two
      searches. MissingNode stands for the library's error when the source,
      the sink or a super node is not a node of the graph it is given. */
  method MaxFlow(G: Graph) returns (r: Outcome)
    requires WellFormed(G)
    ensures r.MissingNode? <==> G.n < 3
    ensures r.Infeasible? ==>
              && 0 <= r.achieved <= TotalIn(G) && r.achieved <= TotalOut(G)
              && (r.achieved < TotalIn(G) || r.achieved < TotalOut(G))
    ensures 3 <= G.n && TotalIn(G) != TotalOut(G) ==> r.Infeasible?
    ensures r.Feasible? ==> TotalIn(G) == TotalOut(G) && r.flows.Keys == G.edges.Keys
    ensures r.Unbounded? ==> WidePair(G)
    ensures 3 <= G.n && 0 < TotalIn(G) && NoAugmentingPath(Build(AuxCapacities(G)), G.n, G.n + 1, AuxNodes(G)) ==>
              r == Infeasible(0)
    ensures r.Feasible? && Simple(G) ==>
              && FeasibleFlow(G, r.flows)
              && forall F :: FeasibleFlow(G, F) ==> NetValue(F, G.n) <= NetValue(r.flows, G.n)
    ensures r.Feasible? && Simple(G) && NoEdgeIntoSource(G) ==> r.value == OutFlow(r.flows, 0, G.n)
    ensures r.Infeasible? ==> exists R1 :: FirstSearched(G, R1, r.achieved)
    ensures r.Infeasible? ==> forall R, v :: FirstSearched(G, R, v) ==> v <= r.achieved
    ensures 3 <= G.n && !r.Infeasible? ==> exists R1 :: FirstSearched(G, R1, TotalIn(G))
    ensures 3 <= G.n && TotalIn(G) == TotalOut(G) && (exists R :: FirstSearched(G, R, TotalIn(G))) ==> !r.Infeasible?
  {
    if G.n < 3 {
      return MissingNode;
    }
    var R1, value := FirstPhase(G);
    assert FirstSearched(G, R1, value);
    if value != TotalIn(G) || value != TotalOut(G) {
      return Infeasible(value);
    }
    r := SecondPhase(G, R1);
  }
}
