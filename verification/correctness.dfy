/** Why the two searches compute what they report: the feasibility test's
    search never gives up and is bounded by the demand totals, the reseeded
    second search keeps the baseline feasible, and its closing cut is tight
    for the combined flows, which makes them a maximum. */
module Correctness {
  import opened Sums
  import opened Network
  import opened Residual
  import opened Search
  import opened Reduction
  import opened Reconstruction
  import opened Phases
  import opened Cuts
  import opened Outcomes

  /** An arc leaving the second search's final cut is used up: the baseline
      plus the second flow reaches the detached arc's capacity. */
  lemma ForwardCutArc(D: Arcs, R2: Arcs, S: set<int>, m: int, u: int, v: int)
    requires Valid(D) && Valid(R2) && SameCapacities(Reseed(D), R2) && Closed(R2, S, m)
    requires u in S && 0 <= v < m && v !in S
    ensures CapOf(D, u, v) <= FlowOf(D, u, v) + FlowOf(R2, u, v)
  {
    SameCapOf(Reseed(D), R2, u, v);
    if (u, v) !in D {
      assert (u, v) !in R2;
    }
  }

  /** An arc entering the second search's final cut carries no more than its
      reverse arc forces: the baseline plus the second flow is at most minus
      the reverse capacity. */
  lemma BackwardCutArc(D: Arcs, R2: Arcs, S: set<int>, m: int, u: int, v: int)
    requires Valid(D) && Valid(R2) && SameCapacities(Reseed(D), R2) && Closed(R2, S, m)
    requires 0 <= u < m && u !in S && v in S
    ensures FlowOf(D, u, v) + FlowOf(R2, u, v) <= -CapOf(D, v, u)
  {
    SameCapOf(Reseed(D), R2, v, u);
    Skew(D, u, v);
    Skew(R2, u, v);
    if (v, u) !in D {
      assert (v, u) !in R2;
    }
  }

  /** The setting of the second search: a simple well-formed network, the
      first search's residual network over its auxiliary network, and the
      second search's residual network over the reseeded baseline. */
  ghost predicate Reseeded(G: Graph, R1: Arcs, R2: Arcs)
  {
    && WellFormed(G) && Simple(G) && Valid(R1) && SameCapacities(Build(AuxCapacities(G)), R1)
    && Valid(R2) && SameCapacities(Reseed(Detach(R1, G.n)), R2)
  }

  /** An original edge leaving the final cut carries its full capacity. */
  lemma ForwardCutEdge(G: Graph, R1: Arcs, R2: Arcs, S: set<int>, u: int, v: int)
    requires Reseeded(G, R1, R2) && Closed(R2, S, G.n)
    requires (u, v) in G.edges && u in S && v !in S
    ensures FlowAt(Recorded(G, Detach(R1, G.n)), u, v) + FlowOf(R2, u, v) == G.edges[(u, v)].capacity
  {
    var D := Detach(R1, G.n);
    EdgeArcCapacities(G, R1, u, v);
    if (u, v) in R1 {
      assert (u, v) in D;
    }
    FinalEdge(G, R1, R2, u, v);
    ForwardCutArc(D, R2, S, G.n, u, v);
  }

  /** An original edge entering the final cut carries only its lower bound. */
  lemma BackwardCutEdge(G: Graph, R1: Arcs, R2: Arcs, S: set<int>, u: int, v: int)
    requires Reseeded(G, R1, R2) && Closed(R2, S, G.n)
    requires (u, v) in G.edges && u !in S && v in S
    ensures FlowAt(Recorded(G, Detach(R1, G.n)), u, v) + FlowOf(R2, u, v) == G.edges[(u, v)].demand
  {
    var D := Detach(R1, G.n);
    EdgeArcCapacities(G, R1, u, v);
    if (v, u) in R1 {
      assert (v, u) in D;
    }
    FinalEdge(G, R1, R2, u, v);
    BackwardCutArc(D, R2, S, G.n, u, v);
  }

  /** Per-edge totals that fill every edge leaving S and hold every edge
      entering S at its lower bound make S tight for the combined flows. */
  lemma TightFromEdges(G: Graph, rec: map<(int, int), int>, R2: Arcs, S: set<int>)
    requires forall u, v | (u, v) in G.edges && u in S && v !in S ::
               FlowAt(rec, u, v) + FlowOf(R2, u, v) == G.edges[(u, v)].capacity
    requires forall u, v | (u, v) in G.edges && u !in S && v in S ::
               FlowAt(rec, u, v) + FlowOf(R2, u, v) == G.edges[(u, v)].demand
    ensures TightCut(G, FinalFlows(G, rec, R2), S)
  {
  }

  /** The final flows make the second search's closing cut tight. */
  lemma FinalTightCut(G: Graph, R1: Arcs, R2: Arcs, S: set<int>)
    requires Reseeded(G, R1, R2) && Closed(R2, S, G.n)
    ensures TightCut(G, FinalFlows(G, Recorded(G, Detach(R1, G.n)), R2), S)
  {
    var rec := Recorded(G, Detach(R1, G.n));
    forall u, v | (u, v) in G.edges && u in S && v !in S
      ensures FlowAt(rec, u, v) + FlowOf(R2, u, v) == G.edges[(u, v)].capacity
    {
      ForwardCutEdge(G, R1, R2, S, u, v);
    }
    forall u, v | (u, v) in G.edges && u !in S && v in S
      ensures FlowAt(rec, u, v) + FlowOf(R2, u, v) == G.edges[(u, v)].demand
    {
      BackwardCutEdge(G, R1, R2, S, u, v);
    }
    TightFromEdges(G, rec, R2, S);
  }

  /** The final flows are a maximum: no feasible flow sends more net flow out
      of the source. */
  lemma FinalMaximal(G: Graph, R1: Arcs, R2: Arcs, S: set<int>, F': map<(int, int), int>)
    requires Phase1Passed(G, R1) && Simple(G)
    requires Phase2Done(G, Reseed(Detach(R1, G.n)), R2)
    requires 0 in S && G.n - 1 !in S && Closed(R2, S, G.n)
    requires FeasibleFlow(G, F')
    ensures NetValue(F', G.n) <= NetValue(FinalFlows(G, Recorded(G, Detach(R1, G.n)), R2), G.n)
  {
    FinalFeasible(G, R1, R2);
    FinalTightCut(G, R1, R2, S);
    TightCutIsMaximum(G, FinalFlows(G, Recorded(G, Detach(R1, G.n)), R2), F', S);
  }

  /** A search started on a network without flow leaves every node other
      than its two ends balanced and moves its value from one end to the other. */
  lemma SearchBalances(R0: Arcs, R1: Arcs, s: int, t: int, m: int, value: int)
    requires ZeroFlow(R0)
    requires NetOut(R1, s, m) == NetOut(R0, s, m) + value
    requires NetOut(R1, t, m) == NetOut(R0, t, m) - value
    requires forall x :: 0 <= x < m && x != s && x != t ==> NetOut(R1, x, m) == NetOut(R0, x, m)
    ensures NetOut(R1, s, m) == value && NetOut(R1, t, m) == -value
    ensures forall x :: 0 <= x < m && x != s && x != t ==> NetOut(R1, x, m) == 0
  {
    NetOutZero(R0, s, m);
    NetOutZero(R0, t, m);
    forall x | 0 <= x < m && x != s && x != t
      ensures NetOut(R1, x, m) == 0
    {
      NetOutZero(R0, x, m);
    }
  }

  /** The value a first search can reach is bounded by what the super-source
      can send and what the super-sink can take. */
  lemma FirstValueBounded(G: Graph, R1: Arcs, value: int)
    requires WellFormed(G) && 3 <= G.n
    requires Valid(R1) && SameCapacities(Build(AuxCapacities(G)), R1)
    requires NetOut(R1, G.n, AuxNodes(G)) == value && NetOut(R1, G.n + 1, AuxNodes(G)) == -value
    ensures value <= TotalIn(G) && value <= TotalOut(G)
  {
    SuperArcCapacities(G, R1);
    SuperCapacityTotals(G);
    RowBelowCaps(R1, G.n, SourceCaps(G), G.n + 2);
    ColumnBelowCaps(R1, G.n + 1, SinkCaps(G), G.n + 2);
  }

  /** The second search runs on the baseline's residual network, whose pair
      capacities never exceed the original edges' capacities. */
  lemma SecondPairCapacity(G: Graph, R1: Arcs, u: int, v: int)
    requires WellFormed(G) && Valid(R1) && SameCapacities(Build(AuxCapacities(G)), R1)
    requires 0 <= u < G.n && 0 <= v < G.n
    ensures CapOf(Reseed(Detach(R1, G.n)), u, v) + CapOf(Reseed(Detach(R1, G.n)), v, u)
         <= Capacity(G, u, v) + Capacity(G, v, u)
  {
    ReseedKeepsPairs(Detach(R1, G.n), u, v);
    DetachedCapacity(G, R1, u, v);
    DetachedCapacity(G, R1, v, u);
  }

  /** The second search can only refuse a path when some pair of nodes has
      more than half the "infinite" value as capacity in the input. */
  lemma SecondUnbounded(G: Graph, R1: Arcs)
    requires WellFormed(G) && Valid(R1) && SameCapacities(Build(AuxCapacities(G)), R1)
    requires Refuses(Reseed(Detach(R1, G.n)), G.n, INF_VALUE)
    ensures WidePair(G)
  {
    var u, v :| 0 <= u < G.n && 0 <= v < G.n &&
                INF_VALUE < 2 * (CapOf(Reseed(Detach(R1, G.n)), u, v) + CapOf(Reseed(Detach(R1, G.n)), v, u));
    SecondPairCapacity(G, R1, u, v);
  }

  /** A search run with the library's own "infinite" capacity never gives
      up on the network built from the same capacities. */
  lemma LibraryNeverRefuses(caps: map<(int, int), int>, m: int)
    ensures !Refuses(Build(caps), m, LibraryInf(caps, m))
  {
    forall u, v | 0 <= u < m && 0 <= v < m
      ensures 2 * (CapOf(Build(caps), u, v) + CapOf(Build(caps), v, u)) <= LibraryInf(caps, m)
    {
      LibraryInfAbovePairs(caps, m, u, v);
    }
  }

  /** A finished search from s to t: a valid residual network with R's
      capacities, every node other than s and t balanced, the value leaving s
      and entering t, and a closed set of nodes holding s and not t. */
  ghost predicate SearchResult(R: Arcs, out: Solve, s: int, t: int, m: int)
  {
    && out.Solved?
    && Valid(out.residual)
    && SameCapacities(R, out.residual)
    && 0 <= out.value
    && NetOut(out.residual, s, m) == out.value
    && NetOut(out.residual, t, m) == -out.value
    && (forall x :: 0 <= x < m && x != s && x != t ==> NetOut(out.residual, x, m) == 0)
    && s in out.cut && t !in out.cut && Closed(out.residual, out.cut, m)
  }

  /** What the feasibility test's search returns, in the terms of the
      auxiliary network: it never gives up, and its value is bounded by both
      demand totals. */
  lemma FirstSearchResult(G: Graph, first: Solve)
    requires WellFormed(G) && 3 <= G.n
    requires first.Solved? ==> SearchResult(Build(AuxCapacities(G)), first, G.n, G.n + 1, AuxNodes(G))
    requires first.Unbounded? ==> Refuses(Build(AuxCapacities(G)), AuxNodes(G), LibraryInf(AuxCapacities(G), AuxNodes(G)))
    ensures first.Solved?
    ensures Valid(first.residual) && SameCapacities(Build(AuxCapacities(G)), first.residual)
    ensures NetOut(first.residual, G.n, AuxNodes(G)) == first.value
    ensures NetOut(first.residual, G.n + 1, AuxNodes(G)) == -first.value
    ensures forall x :: 0 <= x < G.n ==> NetOut(first.residual, x, AuxNodes(G)) == 0
    ensures 0 <= first.value <= TotalIn(G) && first.value <= TotalOut(G)
  {
    LibraryNeverRefuses(AuxCapacities(G), AuxNodes(G));
    assert first.Solved?;
    FirstValueBounded(G, first.residual, first.value);
  }

  /** The reseeded baseline is a valid network without flow. */
  lemma SecondSearchReady(G: Graph, R1: Arcs)
    requires Phase1Passed(G, R1)
    ensures Valid(Reseed(Detach(R1, G.n))) && ZeroFlow(Reseed(Detach(R1, G.n)))
  {
  }

  /** The combination meets SecondPhaseOk for every result the second search
      can give. */
  lemma CombineCorrect(G: Graph, R1: Arcs, second: Solve)
    requires Phase1Passed(G, R1)
    requires second.Solved? ==> SearchResult(Reseed(Detach(R1, G.n)), second, 0, G.n - 1, G.n)
    requires second.Unbounded? ==> Refuses(Reseed(Detach(R1, G.n)), G.n, INF_VALUE)
    ensures SecondPhaseOk(G, Combine(G, R1, second))
  {
    if second.Unbounded? {
      SecondUnbounded(G, R1);
      CombineUnbounded(G, R1, second);
    } else {
      SecondPhaseCorrect(G, R1, second);
      CombineFeasible(G, R1, second);
    }
  }

  lemma CombineUnbounded(G: Graph, R1: Arcs, second: Solve)
    requires second.Unbounded? && WidePair(G)
    ensures SecondPhaseOk(G, Combine(G, R1, second))
  {
  }

  lemma CombineFeasible(G: Graph, R1: Arcs, second: Solve)
    requires second.Solved?
    requires MaximumFound(G, second.value + OutFlow(Recorded(G, Detach(R1, G.n)), 0, G.n),
                          FinalFlows(G, Recorded(G, Detach(R1, G.n)), second.residual))
    ensures SecondPhaseOk(G, Combine(G, R1, second))
  {
  }

  /** What the second search's result guarantees about the final flows. */
  lemma SecondPhaseCorrect(G: Graph, R1: Arcs, second: Solve)
    requires Phase1Passed(G, R1)
    requires SearchResult(Reseed(Detach(R1, G.n)), second, 0, G.n - 1, G.n)
    ensures MaximumFound(G, second.value + OutFlow(Recorded(G, Detach(R1, G.n)), 0, G.n),
                         FinalFlows(G, Recorded(G, Detach(R1, G.n)), second.residual))
  {
    var R2, cut := second.residual, second.cut;
    var F := FinalFlows(G, Recorded(G, Detach(R1, G.n)), R2);
    assert Phase2Done(G, Reseed(Detach(R1, G.n)), R2);
    if Simple(G) {
      FinalFeasible(G, R1, R2);
      forall F' | FeasibleFlow(G, F')
        ensures NetValue(F', G.n) <= NetValue(F, G.n)
      {
        FinalMaximal(G, R1, R2, cut, F');
      }
      if NoEdgeIntoSource(G) {
        FinalValue(G, R1, R2);
      }
    }
  }

  /** The flows of a residual network that are positive, as an assignment:
      each unit of flow counted once, on the arc that carries it forward. */
  function Positive(R: Arcs): (P: map<(int, int), int>)
    ensures forall u, v :: FlowAt(P, u, v) == if FlowOf(R, u, v) < 0 then 0 else FlowOf(R, u, v)
  {
    map p | p in R :: if R[p].flow < 0 then 0 else R[p].flow
  }

  /** A node's net outflow in a valid residual network is the positive flow
      leaving it minus the positive flow entering it. */
  lemma PositiveNet(R: Arcs, u: int, m: int)
    requires Valid(R)
    ensures OutFlow(Positive(R), u, m) - InFlow(Positive(R), u, m) == NetOut(R, u, m)
  {
    var P := Positive(R);
    forall w | 0 <= w < m
      ensures FlowRow(R, u)(w) == OutFlowRow(P, u)(w) - InFlowCol(P, u)(w)
    {
      Skew(R, u, w);
    }
    SumSub(OutFlowRow(P, u), InFlowCol(P, u), FlowRow(R, u), 0, m);
  }

  /** For an assignment balanced at every node of [0, m) other than s and t,
      the net flow across a cut holding s and not t is s's net outflow. */
  lemma CutFlowIsSourceSurplus(F: map<(int, int), int>, S: set<int>, s: int, t: int, m: int)
    requires 0 <= s < m && s in S && t !in S
    requires forall x :: 0 <= x < m && x != s && x != t ==> OutFlow(F, x, m) == InFlow(F, x, m)
    ensures CutFlow(F, S, m) == OutFlow(F, s, m) - InFlow(F, s, m)
  {
    var surplus := Surplus(F, S, m);
    SurplusIsCrossing(F, S, m);
    SumZero(u => 0, 0, m);
    SumUpdate(u => 0, surplus, s, 0, m);
  }

  /** Across a closed cut, a flow within the capacities crosses forward no
      more than the residual network's flow, which fills every arc leaving
      the cut and empties every arc entering it. */
  lemma CrossingBelowClosed(R: Arcs, S: set<int>, g: map<(int, int), int>, m: int, u: int, v: int)
    requires Valid(R) && Closed(R, S, m) && 0 <= u < m && 0 <= v < m
    requires 0 <= FlowAt(g, u, v) <= CapOf(R, u, v)
    ensures Crossing(g, S)(u, v) <= Crossing(Positive(R), S)(u, v)
  {
    Skew(R, u, v);
  }

  /** R is a residual network over [0, m), balanced away from s and t,
      with a closed set S holding s and not t. */
  ghost predicate SeparatingCut(R: Arcs, S: set<int>, s: int, t: int, m: int)
  {
    && Valid(R) && Closed(R, S, m) && 0 <= s < m && s in S && t !in S
    && (forall x :: 0 <= x < m && x != s && x != t ==> NetOut(R, x, m) == 0)
  }

  /** g fits the residual network's capacities on [0, m), is balanced
      away from s and t, and sends a out of s. */
  ghost predicate FitsWithSurplus(R: Arcs, g: map<(int, int), int>, s: int, t: int, m: int, a: int)
  {
    && (forall u, v :: 0 <= u < m && 0 <= v < m ==> 0 <= FlowAt(g, u, v) <= CapOf(R, u, v))
    && (forall x :: 0 <= x < m && x != s && x != t ==> OutFlow(g, x, m) == InFlow(g, x, m))
    && OutFlow(g, s, m) - InFlow(g, s, m) == a
  }

  /** Weak duality on a residual network: once a closed set separates s
      from t, no assignment within the capacities that is balanced away from
      s and t sends more out of s than the residual network does. */
  lemma {:induction false} ClosedCutBoundsFlows(R: Arcs, S: set<int>, s: int, t: int, m: int, g: map<(int, int), int>, a: int)
    requires SeparatingCut(R, S, s, t, m) && FitsWithSurplus(R, g, s, t, m, a)
    ensures a <= NetOut(R, s, m)
  {
    var P := Positive(R);
    forall x | 0 <= x < m
      ensures OutFlow(P, x, m) - InFlow(P, x, m) == NetOut(R, x, m)
    {
      PositiveNet(R, x, m);
    }
    CutFlowIsSourceSurplus(P, S, s, t, m);
    CutFlowIsSourceSurplus(g, S, s, t, m);
    forall u | 0 <= u < m
      ensures RowSums(Crossing(g, S), 0, m)(u) <= RowSums(Crossing(P, S), 0, m)(u)
    {
      forall v | 0 <= v < m
        ensures Row(Crossing(g, S), u)(v) <= Row(Crossing(P, S), u)(v)
      {
        CrossingBelowClosed(R, S, g, m, u, v);
      }
      SumLe(Row(Crossing(g, S), u), Row(Crossing(P, S), u), 0, m);
    }
    SumLe(RowSums(Crossing(g, S), 0, m), RowSums(Crossing(P, S), 0, m), 0, m);
  }

  /** R1 is what a first search from the super-source to the super-sink of
      the auxiliary network can leave behind when it carries value: the
      auxiliary arcs and capacities, valid flows, value out of n, and
      balance at every original node. */
  ghost predicate FirstSearched(G: Graph, R1: Arcs, value: int)
  {
    && WellFormed(G)
    && Valid(R1) && SameCapacities(Build(AuxCapacities(G)), R1)
    && NetOut(R1, G.n, AuxNodes(G)) == value
    && forall x :: 0 <= x < G.n ==> NetOut(R1, x, AuxNodes(G)) == 0
  }

  /** A search that leaves a closed cut between s and t finds a maximum:
      no valid flow over the same arcs and capacities that is balanced away
      from s and t carries more out of s. */
  lemma SearchMaximal(B: Arcs, R1: Arcs, S: set<int>, R: Arcs, s: int, t: int, m: int, value: int)
    requires SameCapacities(B, R1) && SeparatingCut(R1, S, s, t, m)
    requires SameCapacities(B, R) && Valid(R) && NetOut(R, s, m) == value
    requires forall x :: 0 <= x < m && x != s && x != t ==> NetOut(R, x, m) == 0
    ensures value <= NetOut(R1, s, m)
  {
    var P := Positive(R);
    forall u, w | 0 <= u < m && 0 <= w < m
      ensures 0 <= FlowAt(P, u, w) <= CapOf(R1, u, w)
    {
      SameCapOf(B, R, u, w);
      SameCapOf(B, R1, u, w);
      if (u, w) in R {
        assert R[(u, w)].flow <= R[(u, w)].capacity;
      }
    }
    forall x | 0 <= x < m && x != s && x != t
      ensures OutFlow(P, x, m) == InFlow(P, x, m)
    {
      PositiveNet(R, x, m);
    }
    PositiveNet(R, s, m);
    ClosedCutBoundsFlows(R1, S, s, t, m, P, value);
  }

  /** No flow a first search could leave behind beats the one it left. */
  lemma FirstSearchMaximal(G: Graph, first: Solve, R: Arcs, value: int)
    requires WellFormed(G) && 3 <= G.n
    requires SearchResult(Build(AuxCapacities(G)), first, G.n, G.n + 1, AuxNodes(G))
    requires FirstSearched(G, R, value)
    ensures value <= first.value
  {
    var B, m := Build(AuxCapacities(G)), AuxNodes(G);
    assert SeparatingCut(first.residual, first.cut, G.n, G.n + 1, m);
    SearchMaximal(B, first.residual, first.cut, R, G.n, G.n + 1, m, value);
  }

  /** The feasibility test's search computes the maximum flow of the
      auxiliary network: it leaves no augmenting path, and no flow of the
      auxiliary network that is balanced at every original node carries
      more out of the super-source. */
  lemma FirstSearchIsMaximum(G: Graph, first: Solve)
    requires WellFormed(G) && 3 <= G.n
    requires SearchResult(Build(AuxCapacities(G)), first, G.n, G.n + 1, AuxNodes(G))
    ensures NoAugmentingPath(first.residual, G.n, G.n + 1, AuxNodes(G))
    ensures forall R, v :: FirstSearched(G, R, v) ==> v <= first.value
  {
    ClosedBlocksPaths(first.residual, first.cut, G.n, G.n + 1, AuxNodes(G));
    forall R, v | FirstSearched(G, R, v)
      ensures v <= first.value
    {
      FirstSearchMaximal(G, first, R, v);
    }
  }
}
