/** Five places where the source departs from its design, each shown on a
    small network. Three are in the reconstruction: the rest of the model
    uses the corrected definitions (Recorded and Reseed), about which the
    phases and the correctness lemmas prove the intended properties. The
    other two are in the reduction behind the feasibility test: MaxFlow
    keeps the test as written, and the Circulation module defines and
    proves the corrected one. */
module Findings {
  import opened Sums
  import opened Network
  import opened Residual
  import opened Search
  import opened Reduction
  import opened Reconstruction
  import opened Phases
  import opened Cuts
  import opened Correctness
  import opened Outcomes
  import opened FlowWithDemands
  import opened Circulation

  lemma SumThree(f: int -> int)
    ensures Sum(f, 0, 3) == f(0) + f(1) + f(2)
  {
    assert Sum(f, 2, 3) == f(2) + Sum(f, 3, 3);
  }

  lemma SumFive(f: int -> int)
    ensures Sum(f, 0, 5) == f(0) + f(1) + f(2) + f(3) + f(4)
  {
    assert Sum(f, 4, 5) == f(4) + Sum(f, 5, 5);
    assert Sum(f, 3, 5) == f(3) + Sum(f, 4, 5);
    assert Sum(f, 2, 5) == f(2) + Sum(f, 3, 5);
  }

  // Finding A: lower bounds on edges leaving the source are never recorded.

  /** The path 0 -> 1 -> 2 with lower bound 1 on both of its edges. */
  function SourceDemandGraph(): Graph
  {
    Graph(3, map[(0, 1) := Edge(5, 1), (1, 2) := Edge(5, 1)])
  }

  /** Node 1 of that path has inbound and outbound demand 1. */
  lemma SourceDemandTotals()
    ensures InDemand(SourceDemandGraph(), 1) == 1 && OutDemand(SourceDemandGraph(), 1) == 1
  {
    var G := SourceDemandGraph();
    SumThree(DemandInCol(G, 1));
    SumThree(DemandOutRow(G, 1));
  }

  lemma SourceDemandSimple(G: Graph)
    requires G == SourceDemandGraph()
    ensures WellFormed(G) && Simple(G) && (0, 1) in G.edges && (1, 2) in G.edges
  {
  }

  /** An internal node of a phase-1 outcome that passed the feasibility
      test sends out, over the original nodes, its inbound minus its
      outbound demand. */
  lemma PhaseOneSurplus(G: Graph, R1: Arcs, v: int)
    requires Phase1Passed(G, R1) && 0 < v < G.n - 1
    ensures NetOut(R1, v, G.n) == InDemand(G, v) - OutDemand(G, v)
  {
    SourceSaturated(G, R1);
    SinkSaturated(G, R1);
    assert FlowOf(R1, G.n, v) == SourceCaps(G)(v) == InDemand(G, v);
    assert FlowOf(R1, v, G.n + 1) == SinkCaps(G)(v) == OutDemand(G, v);
    DemandSurplus(G, R1, v);
  }

  /** The same for every internal node at once. */
  lemma PhaseOneSurpluses(G: Graph, R1: Arcs)
    requires Phase1Passed(G, R1)
    ensures forall v :: 0 < v < G.n - 1 ==> NetOut(R1, v, G.n) == InDemand(G, v) - OutDemand(G, v)
  {
    forall v | 0 < v < G.n - 1
      ensures NetOut(R1, v, G.n) == InDemand(G, v) - OutDemand(G, v)
    {
      PhaseOneSurplus(G, R1, v);
    }
  }

  /** Among three nodes, a balanced node 1 without a self-loop passes on what
      it receives from node 0. */
  lemma MiddleOfThree(R: Arcs)
    requires Valid(R) && (1, 1) !in R && NetOut(R, 1, 3) == 0
    ensures FlowOf(R, 1, 2) == FlowOf(R, 0, 1)
  {
    SumThree(FlowRow(R, 1));
    Skew(R, 0, 1);
    assert FlowOf(R, 1, 0) + FlowOf(R, 1, 1) + FlowOf(R, 1, 2) == 0;
  }

  /** In every phase-1 outcome that passes the feasibility test, the edges
      (0, 1) and (1, 2) carry the same non-negative flow: node 1 gets its
      unit of inbound demand from the super-source and sends its unit of
      outbound demand to the super-sink. */
  lemma {:induction false} SourceDemandPhase1(G: Graph, R1: Arcs)
    requires G == SourceDemandGraph() && Phase1Passed(G, R1)
    ensures (0, 1) in R1 && (1, 2) in R1 && (1, 1) !in R1
    ensures 0 <= FlowOf(R1, 0, 1) == FlowOf(R1, 1, 2)
  {
    SourceDemandTotals();
    SourceDemandSimple(G);
    PhaseOneSurplus(G, R1, 1);
    AuxArc(G, R1, 1, 1);
    AuxArc(G, R1, 0, 1);
    AuxArc(G, R1, 1, 2);
    MiddleOfThree(R1);
    BaselineEdge(G, R1, 0, 1);
  }

  /** On a detached network where (0, 1) and (1, 2) carry the same
      non-negative flow, the baseline as written puts one unit more on
      (1, 2) than on (0, 1), and adding any flow that keeps node 1 balanced
      leaves node 1 unbalanced. */
  lemma {:induction false} SourceDemandUnbalanced(D: Arcs, R2: Arcs)
    requires (0, 1) in D && (1, 2) in D && (1, 1) !in D
    requires 0 <= D[(0, 1)].flow == D[(1, 2)].flow
    requires Valid(R2) && R2.Keys == D.Keys && NetOut(R2, 1, 3) == 0
    ensures (0, 1) in RecordedAsWritten(SourceDemandGraph(), D)
    ensures (1, 2) in RecordedAsWritten(SourceDemandGraph(), D)
    ensures RecordedAsWritten(SourceDemandGraph(), D)[(1, 2)] == RecordedAsWritten(SourceDemandGraph(), D)[(0, 1)] + 1
    ensures !Conserves(SourceDemandGraph(), FinalFlows(SourceDemandGraph(), RecordedAsWritten(SourceDemandGraph(), D), R2))
  {
    var G := SourceDemandGraph();
    var F := FinalFlows(G, RecordedAsWritten(G, D), R2);
    SumThree(FlowRow(R2, 1));
    Skew(R2, 0, 1);
    SumThree(InFlowCol(F, 1));
    SumThree(OutFlowRow(F, 1));
    assert InFlow(F, 1, 3) != OutFlow(F, 1, 3);
  }

  /** Detaching keeps the arcs (0, 1) and (1, 2) of the path with their
      flows, and the intended baseline then records the same amount on both. */
  lemma SourceDemandDetached(R1: Arcs)
    requires (0, 1) in R1 && (1, 2) in R1 && (1, 1) !in R1
    requires 0 <= FlowOf(R1, 0, 1) == FlowOf(R1, 1, 2)
    ensures (0, 1) in Detach(R1, 3) && (1, 2) in Detach(R1, 3) && (1, 1) !in Detach(R1, 3)
    ensures 0 <= Detach(R1, 3)[(0, 1)].flow == Detach(R1, 3)[(1, 2)].flow
    ensures Recorded(SourceDemandGraph(), Detach(R1, 3))[(0, 1)] == Recorded(SourceDemandGraph(), Detach(R1, 3))[(1, 2)]
  {
  }

  /** Whatever phase-1 outcome passes the feasibility test, the baseline as
      written records the edge leaving the source without its lower bound
      and the next edge with it; the second search keeps node 1 balanced, so
      the reported flows, matched to the residual arcs by key, break
      conservation at node 1. */
  lemma {:induction false} SourceDemandLost(G: Graph, R1: Arcs, R2: Arcs)
    requires G == SourceDemandGraph() && Phase1Passed(G, R1)
    requires Phase2Done(G, ReseedAsWritten(Detach(R1, 3)), R2)
    ensures !Conserves(G, FinalFlows(G, RecordedAsWritten(G, Detach(R1, 3)), R2))
  {
    SourceDemandPhase1(G, R1);
    SourceDemandDetached(R1);
    assert NetOut(R2, 1, 3) == 0;
    SourceDemandUnbalanced(Detach(R1, 3), R2);
  }

  /** Two original nodes joined by no edge (and not the sink and the source)
      are joined by no arc in the first search's network. */
  lemma NoArcBetween(G: Graph, R1: Arcs, u: int, v: int)
    requires WellFormed(G) && SameCapacities(Build(AuxCapacities(G)), R1)
    requires 0 <= u < G.n && 0 <= v < G.n
    requires (u, v) !in G.edges && (v, u) !in G.edges && (u, v) != (G.n - 1, 0) && (v, u) != (G.n - 1, 0)
    ensures (u, v) !in R1
  {
    AuxArc(G, R1, u, v);
  }

  // Finding B: an edge whose capacity equals its lower bound has no arc.

  /** Source 0, sink 3 and an internal edge (1, 2) whose capacity equals its
      lower bound. */
  function TightEdgeGraph(): Graph
  {
    Graph(4, map[(0, 1) := Edge(2, 0), (1, 2) := Edge(1, 1), (2, 3) := Edge(2, 0)])
  }

  /** The tight edge (1, 2) is stripped to capacity 0, so the library builds
      no arc for it: whatever the two searches return, the baseline as
      written has no entry for it and the second search's network has no arc
      for it, so the final matching of edges to arcs finds nothing for it.
      The intended baseline gives it its lower bound. */
  lemma TightEdgeUnrecorded(G: Graph, R1: Arcs, R2: Arcs)
    requires G == TightEdgeGraph() && Phase1Passed(G, R1)
    requires Phase2Done(G, ReseedAsWritten(Detach(R1, 4)), R2)
    ensures (1, 2) !in RecordedAsWritten(G, Detach(R1, 4)) && (1, 2) !in R2
    ensures Recorded(G, Detach(R1, 4))[(1, 2)] == G.edges[(1, 2)].demand
  {
    TightShape(G);
    TightNoArc(G, R1, 1, 2);
  }

  lemma TightShape(G: Graph)
    requires G == TightEdgeGraph()
    ensures G.n == 4 && (1, 2) in G.edges && (2, 1) !in G.edges
    ensures G.edges[(1, 2)].capacity == G.edges[(1, 2)].demand == 1
  {
  }

  /** An edge whose capacity equals its lower bound, without an opposite
      edge, is joined by no arc in the first search's network. */
  lemma TightNoArc(G: Graph, R1: Arcs, u: int, v: int)
    requires WellFormed(G) && SameCapacities(Build(AuxCapacities(G)), R1)
    requires 0 <= u < G.n && 0 <= v < G.n
    requires (u, v) in G.edges && G.edges[(u, v)].capacity == G.edges[(u, v)].demand && (v, u) !in G.edges
    requires (u, v) != (G.n - 1, 0) && (v, u) != (G.n - 1, 0)
    ensures (u, v) !in R1
  {
    AuxArc(G, R1, u, v);
  }

  // Finding C: arcs with negative flow keep their capacity when reseeded.

  /** Source 0, sink 4, a cycle 1 -> 2 -> 3 -> 1 whose edge (1, 2) has lower
      bound 1, and the path 0 -> 1 -> 2 -> 3 -> 4 that carries the only unit
      of flow the source can send. */
  function CycleGraph(): Graph
  {
    Graph(5, map[(0, 1) := Edge(1, 0), (1, 2) := Edge(2, 1), (2, 3) := Edge(1, 0),
                 (3, 1) := Edge(1, 0), (3, 4) := Edge(1, 0)])
  }

  lemma CycleShape(G: Graph)
    requires G == CycleGraph()
    ensures G.n == 5 && WellFormed(G) && Simple(G)
    ensures (0, 1) in G.edges && (1, 2) in G.edges && (2, 3) in G.edges && (3, 1) in G.edges && (3, 4) in G.edges
    ensures G.edges[(0, 1)] == G.edges[(2, 3)] == G.edges[(3, 1)] == G.edges[(3, 4)] == Edge(1, 0)
    ensures G.edges[(1, 2)] == Edge(2, 1)
    ensures (0, 0) !in G.edges && (0, 2) !in G.edges && (2, 0) !in G.edges && (0, 3) !in G.edges
    ensures (3, 0) !in G.edges && (1, 1) !in G.edges && (1, 4) !in G.edges && (4, 1) !in G.edges
    ensures (2, 2) !in G.edges && (2, 4) !in G.edges && (4, 2) !in G.edges && (3, 3) !in G.edges
  {
  }

  /** Node 2 has inbound demand 1, node 1 outbound demand 1, and every
      other demand total of an internal node is 0. */
  lemma CycleDemands(G: Graph)
    requires G == CycleGraph()
    ensures InDemand(G, 1) == 0 && InDemand(G, 2) == 1 && InDemand(G, 3) == 0
    ensures OutDemand(G, 1) == 1 && OutDemand(G, 2) == 0 && OutDemand(G, 3) == 0
  {
    SumFive(DemandInCol(G, 1));
    SumFive(DemandInCol(G, 2));
    SumFive(DemandInCol(G, 3));
    SumFive(DemandOutRow(G, 1));
    SumFive(DemandOutRow(G, 2));
    SumFive(DemandOutRow(G, 3));
  }

  /** A node's net outflow over five nodes, term by term. */
  lemma RowOfFive(R: Arcs, v: int)
    ensures NetOut(R, v, 5) == FlowOf(R, v, 0) + FlowOf(R, v, 1) + FlowOf(R, v, 2) + FlowOf(R, v, 3) + FlowOf(R, v, 4)
  {
    SumFive(FlowRow(R, v));
  }

  /** The arcs of the first search's network among the original nodes of
      the cycle network that the argument below needs. */
  lemma CycleArcs(G: Graph, R1: Arcs)
    requires G == CycleGraph() && WellFormed(G) && Valid(R1) && SameCapacities(Build(AuxCapacities(G)), R1)
    ensures (0, 0) !in R1 && (0, 2) !in R1 && (0, 3) !in R1 && (1, 1) !in R1 && (1, 4) !in R1
    ensures (2, 0) !in R1 && (2, 2) !in R1 && (2, 4) !in R1 && (3, 0) !in R1 && (3, 3) !in R1
    ensures CapOf(R1, 0, 1) == 1 && CapOf(R1, 2, 3) == 1 && CapOf(R1, 3, 4) == 1
    ensures (1, 3) in R1 && CapOf(R1, 1, 3) == 0
  {
    CycleShape(G);
    CycleNoArcs(G, R1);
    CycleArcCapacities(G, R1);
  }

  lemma CycleNoArcs(G: Graph, R1: Arcs)
    requires G.n == 5 && WellFormed(G) && Valid(R1) && SameCapacities(Build(AuxCapacities(G)), R1)
    requires (0, 0) !in G.edges && (0, 2) !in G.edges && (0, 3) !in G.edges && (1, 1) !in G.edges && (1, 4) !in G.edges
    requires (2, 0) !in G.edges && (2, 2) !in G.edges && (2, 4) !in G.edges && (3, 0) !in G.edges && (3, 3) !in G.edges
    requires (4, 1) !in G.edges && (4, 2) !in G.edges
    ensures (0, 0) !in R1 && (0, 2) !in R1 && (0, 3) !in R1 && (1, 1) !in R1 && (1, 4) !in R1
    ensures (2, 0) !in R1 && (2, 2) !in R1 && (2, 4) !in R1 && (3, 0) !in R1 && (3, 3) !in R1
  {
    NoArcBetween(G, R1, 0, 0);
    NoArcBetween(G, R1, 0, 2);
    NoArcBetween(G, R1, 0, 3);
    NoArcBetween(G, R1, 1, 1);
    NoArcBetween(G, R1, 1, 4);
    NoArcBetween(G, R1, 2, 0);
    NoArcBetween(G, R1, 2, 2);
    NoArcBetween(G, R1, 2, 4);
    NoArcBetween(G, R1, 3, 0);
    NoArcBetween(G, R1, 3, 3);
  }

  lemma CycleArcCapacities(G: Graph, R1: Arcs)
    requires WellFormed(G) && Simple(G) && Valid(R1) && SameCapacities(Build(AuxCapacities(G)), R1)
    requires (0, 1) in G.edges && G.edges[(0, 1)] == Edge(1, 0)
    requires (2, 3) in G.edges && G.edges[(2, 3)] == Edge(1, 0)
    requires (3, 4) in G.edges && G.edges[(3, 4)] == Edge(1, 0)
    requires (3, 1) in G.edges && G.edges[(3, 1)] == Edge(1, 0)
    ensures CapOf(R1, 0, 1) == 1 && CapOf(R1, 2, 3) == 1 && CapOf(R1, 3, 4) == 1
    ensures (1, 3) in R1 && CapOf(R1, 1, 3) == 0
  {
    EdgeArcCapacities(G, R1, 0, 1);
    EdgeArcCapacities(G, R1, 2, 3);
    EdgeArcCapacities(G, R1, 3, 4);
    EdgeArcCapacities(G, R1, 3, 1);
    Skew(R1, 3, 1);
  }

  /** A phase-1 outcome in which every internal node sends out its inbound
      minus its outbound demand (as one that passes the feasibility test
      does) and which sends node 2's demand round the cycle 2 -> 3 -> 1 (the
      breadth-first search's shortest path from the super-source to the
      super-sink) carries nothing on (0, 1), (1, 2) and (3, 4). */
  lemma {:induction false} CyclePhase1(G: Graph, R1: Arcs)
    requires G.n == 5 && Valid(R1)
    requires InDemand(G, 1) == 0 && InDemand(G, 2) == 1 && InDemand(G, 3) == 0
    requires OutDemand(G, 1) == 1 && OutDemand(G, 2) == 0 && OutDemand(G, 3) == 0
    requires (1, 1) !in R1 && (1, 4) !in R1 && (2, 0) !in R1 && (2, 2) !in R1 && (2, 4) !in R1 && (3, 0) !in R1 && (3, 3) !in R1
    requires forall v :: 0 < v < G.n - 1 ==> NetOut(R1, v, G.n) == InDemand(G, v) - OutDemand(G, v)
    requires FlowOf(R1, 2, 3) == 1 && FlowOf(R1, 3, 1) == 1
    ensures FlowOf(R1, 0, 1) == 0 && FlowOf(R1, 1, 2) == 0 && FlowOf(R1, 3, 4) == 0
  {
    CycleSurpluses(G, R1);
    CycleBalances(R1);
  }

  /** Node 1 takes in one unit more than it sends over the original nodes,
      node 2 sends one unit more and node 3 is balanced. */
  lemma CycleSurpluses(G: Graph, R1: Arcs)
    requires G.n == 5
    requires InDemand(G, 1) == 0 && InDemand(G, 2) == 1 && InDemand(G, 3) == 0
    requires OutDemand(G, 1) == 1 && OutDemand(G, 2) == 0 && OutDemand(G, 3) == 0
    requires forall v :: 0 < v < G.n - 1 ==> NetOut(R1, v, G.n) == InDemand(G, v) - OutDemand(G, v)
    ensures NetOut(R1, 1, 5) == -1 && NetOut(R1, 2, 5) == 1 && NetOut(R1, 3, 5) == 0
  {
  }

  /** The node balances of the cycle network's phase-1 outcome, solved. */
  lemma CycleBalances(R1: Arcs)
    requires Valid(R1)
    requires (1, 1) !in R1 && (1, 4) !in R1 && (2, 0) !in R1 && (2, 2) !in R1 && (2, 4) !in R1 && (3, 0) !in R1 && (3, 3) !in R1
    requires NetOut(R1, 1, 5) == -1 && NetOut(R1, 2, 5) == 1 && NetOut(R1, 3, 5) == 0
    requires FlowOf(R1, 2, 3) == 1 && FlowOf(R1, 3, 1) == 1
    ensures FlowOf(R1, 0, 1) == 0 && FlowOf(R1, 1, 2) == 0 && FlowOf(R1, 3, 4) == 0
  {
    RowOfFive(R1, 1);
    RowOfFive(R1, 2);
    RowOfFive(R1, 3);
    Skew(R1, 0, 1);
    Skew(R1, 1, 2);
    Skew(R1, 1, 3);
    Skew(R1, 2, 3);
  }

  /** Arcs of the detached phase-1 residual around the source, as the cycle
      network leaves them: the arc (1, 3) that would cancel the cycle's flow
      has capacity 0. */
  ghost predicate CycleDetached(D: Arcs)
  {
    && (0, 0) !in D && (0, 2) !in D && (0, 3) !in D && (0, 4) !in D && (1, 4) !in D && (2, 4) !in D
    && (0, 1) in D && D[(0, 1)] == Arc(1, 0)
    && (1, 3) in D && D[(1, 3)] == Arc(0, -1)
    && (2, 3) in D && D[(2, 3)] == Arc(1, 1)
    && (3, 4) in D && D[(3, 4)] == Arc(1, 0)
  }

  lemma CycleDetachedFrom(R1: Arcs)
    requires Valid(R1)
    requires (0, 0) !in R1 && (0, 2) !in R1 && (0, 3) !in R1 && (1, 4) !in R1 && (2, 4) !in R1
    requires CapOf(R1, 0, 1) == 1 && CapOf(R1, 2, 3) == 1 && CapOf(R1, 3, 4) == 1
    requires (1, 3) in R1 && CapOf(R1, 1, 3) == 0
    requires FlowOf(R1, 0, 1) == 0 && FlowOf(R1, 2, 3) == 1 && FlowOf(R1, 3, 1) == 1 && FlowOf(R1, 3, 4) == 0
    ensures CycleDetached(Detach(R1, 5))
  {
    Skew(R1, 3, 1);
  }

  /** Reseeded as written, nothing leaves the nodes {0, 1, 2}. */
  lemma CycleBlocked(D: Arcs)
    requires CycleDetached(D)
    ensures NoAugmentingPath(ReseedAsWritten(D), 0, 4, 5)
  {
    var S := ReseedAsWritten(D);
    forall u, v | u in {0, 1, 2} && 0 <= v < 5 && Res(S, u, v) > 0
      ensures v in {0, 1, 2}
    {
    }
    ClosedBlocksPaths(S, {0, 1, 2}, 0, 4, 5);
  }

  /** Recorded as written, the source sends nothing. */
  lemma CycleRecordedZero(G: Graph, D: Arcs)
    requires G.n == 5 && CycleDetached(D)
    ensures OutFlow(RecordedAsWritten(G, D), 0, 5) == 0
  {
    SumFive(OutFlowRow(RecordedAsWritten(G, D), 0));
  }

  /** Reseeded as intended, 0 -> 1 -> 3 -> 4 has room. */
  lemma CycleIntendedPath(D: Arcs)
    requires CycleDetached(D)
    ensures IsAugmentingPath(Reseed(D), [0, 1, 3, 4], 0, 4, 5)
  {
  }

  /** What the argument below uses of the cycle network: its size, its
      demand totals and which pairs of nodes carry an edge. */
  ghost predicate CycleShaped(G: Graph)
  {
    && G.n == 5 && WellFormed(G) && Simple(G)
    && InDemand(G, 1) == 0 && InDemand(G, 2) == 1 && InDemand(G, 3) == 0
    && OutDemand(G, 1) == 1 && OutDemand(G, 2) == 0 && OutDemand(G, 3) == 0
    && (0, 1) in G.edges && (2, 3) in G.edges && (3, 1) in G.edges && (3, 4) in G.edges
    && G.edges[(0, 1)] == G.edges[(2, 3)] == G.edges[(3, 1)] == G.edges[(3, 4)] == Edge(1, 0)
    && (0, 0) !in G.edges && (0, 2) !in G.edges && (2, 0) !in G.edges && (0, 3) !in G.edges
    && (3, 0) !in G.edges && (1, 1) !in G.edges && (1, 4) !in G.edges && (4, 1) !in G.edges
    && (2, 2) !in G.edges && (2, 4) !in G.edges && (4, 2) !in G.edges && (3, 3) !in G.edges
  }

  /** The cycle network has that shape. */
  lemma CycleFacts(G: Graph)
    requires G == CycleGraph()
    ensures CycleShaped(G)
  {
    CycleShape(G);
    CycleDemands(G);
  }

  /** On the cycle network, or any network with the same shape, every
      phase-1 outcome that routes node 2's demand round the cycle leaves the
      second search, as written, nothing to find, while the intended
      reseeding lets it find the unit the source can send. */
  lemma {:induction false} CycleFlowBlocks(G: Graph, R1: Arcs)
    requires CycleShaped(G) && Phase1Passed(G, R1)
    requires FlowOf(R1, 2, 3) == 1 && FlowOf(R1, 3, 1) == 1
    ensures NoAugmentingPath(ReseedAsWritten(Detach(R1, 5)), 0, 4, 5)
    ensures OutFlow(RecordedAsWritten(G, Detach(R1, 5)), 0, 5) == 0
    ensures IsAugmentingPath(Reseed(Detach(R1, 5)), [0, 1, 3, 4], 0, 4, 5)
  {
    PhaseOneSurpluses(G, R1);
    CycleOutcome(G, R1);
  }

  /** The same on any network shaped like the cycle network. */
  lemma CycleOutcome(G: Graph, R1: Arcs)
    requires CycleShaped(G) && Valid(R1) && SameCapacities(Build(AuxCapacities(G)), R1)
    requires forall v :: 0 < v < G.n - 1 ==> NetOut(R1, v, G.n) == InDemand(G, v) - OutDemand(G, v)
    requires FlowOf(R1, 2, 3) == 1 && FlowOf(R1, 3, 1) == 1
    ensures NoAugmentingPath(ReseedAsWritten(Detach(R1, 5)), 0, 4, 5)
    ensures OutFlow(RecordedAsWritten(G, Detach(R1, 5)), 0, 5) == 0
    ensures IsAugmentingPath(Reseed(Detach(R1, 5)), [0, 1, 3, 4], 0, 4, 5)
  {
    CycleNoArcs(G, R1);
    CycleArcCapacities(G, R1);
    CyclePhase1(G, R1);
    CycleDetachedFrom(R1);
    var D := Detach(R1, 5);
    CycleBlocked(D);
    CycleRecordedZero(G, D);
    CycleIntendedPath(D);
  }

  /** The cycle network does admit a feasible flow of value 1: one unit along
      0 -> 1 -> 2 -> 3 -> 4, nothing on (3, 1). */
  function CycleBest(): map<(int, int), int>
  {
    map[(0, 1) := 1, (1, 2) := 1, (2, 3) := 1, (3, 1) := 0, (3, 4) := 1]
  }

  /** A node's inflow and outflow over five nodes, term by term. */
  lemma FlowsOfFive(F: map<(int, int), int>, v: int)
    ensures InFlow(F, v, 5) == FlowAt(F, 0, v) + FlowAt(F, 1, v) + FlowAt(F, 2, v) + FlowAt(F, 3, v) + FlowAt(F, 4, v)
    ensures OutFlow(F, v, 5) == FlowAt(F, v, 0) + FlowAt(F, v, 1) + FlowAt(F, v, 2) + FlowAt(F, v, 3) + FlowAt(F, v, 4)
  {
    SumFive(InFlowCol(F, v));
    SumFive(OutFlowRow(F, v));
  }

  lemma CycleBestNode1(F: map<(int, int), int>, v: int)
    requires F == CycleBest() && v == 1
    ensures InFlow(F, v, 5) == 1 == OutFlow(F, v, 5)
  {
    FlowsOfFive(F, 1);
  }

  lemma CycleBestNode2(F: map<(int, int), int>, v: int)
    requires F == CycleBest() && v == 2
    ensures InFlow(F, v, 5) == 1 == OutFlow(F, v, 5)
  {
    FlowsOfFive(F, 2);
  }

  lemma CycleBestNode3(F: map<(int, int), int>, v: int)
    requires F == CycleBest() && v == 3
    ensures InFlow(F, v, 5) == 1 == OutFlow(F, v, 5)
  {
    FlowsOfFive(F, 3);
  }

  lemma CycleBestConserves(G: Graph, F: map<(int, int), int>)
    requires G == CycleGraph() && F == CycleBest()
    ensures Conserves(G, F)
  {
    assert G.n == 5;
    forall v | 0 < v < G.n - 1
      ensures InFlow(F, v, G.n) == OutFlow(F, v, G.n)
    {
      if v == 1 {
        CycleBestNode1(F, v);
      } else if v == 2 {
        CycleBestNode2(F, v);
      } else {
        CycleBestNode3(F, v);
      }
    }
  }

  lemma CycleBestWithinBounds(G: Graph, F: map<(int, int), int>)
    requires G == CycleGraph() && F == CycleBest()
    ensures WithinBounds(G, F)
  {
    CycleShape(G);
    assert F.Keys == G.edges.Keys == {(0, 1), (1, 2), (2, 3), (3, 1), (3, 4)};
  }

  lemma CycleBestValue(F: map<(int, int), int>)
    requires F == CycleBest()
    ensures NetValue(F, 5) == 1
  {
    FlowsOfFive(F, 0);
  }

  /** That flow is feasible and sends one unit out of the source. */
  lemma CycleBestFeasible(G: Graph)
    requires G == CycleGraph()
    ensures FeasibleFlow(G, CycleBest()) && NetValue(CycleBest(), G.n) == 1
  {
    CycleBestConserves(G, CycleBest());
    CycleBestWithinBounds(G, CycleBest());
    CycleBestValue(CycleBest());
  }

  // Finding D: the return arc runs only from the sink to the source, and the
  // source and the sink get no super arcs.

  /** Source 0, sink 3, and the path 3 -> 2 -> 1 -> 0 from the sink back to
      the source, whose middle edge has lower bound 1. */
  function OneWayGraph(): Graph
  {
    Graph(4, map[(3, 2) := Edge(1, 0), (2, 1) := Edge(1, 1), (1, 0) := Edge(1, 0)])
  }

  lemma SumFour(f: int -> int)
    ensures Sum(f, 0, 4) == f(0) + f(1) + f(2) + f(3)
    ensures Sum(f, 1, 3) == f(1) + f(2)
  {
    assert Sum(f, 3, 4) == f(3) + Sum(f, 4, 4);
    assert Sum(f, 2, 3) == f(2) + Sum(f, 3, 3);
  }

  /** What the argument below uses of the one-way network: its size and
      its three edges. */
  ghost predicate OneWayShaped(G: Graph)
  {
    && G.n == 4 && WellFormed(G) && Simple(G)
    && (forall u, v :: (u, v) in G.edges <==> (u, v) == (3, 2) || (u, v) == (2, 1) || (u, v) == (1, 0))
    && G.edges[(3, 2)] == Edge(1, 0) && G.edges[(2, 1)] == Edge(1, 1) && G.edges[(1, 0)] == Edge(1, 0)
  }

  lemma OneWayShape(G: Graph)
    requires G == OneWayGraph()
    ensures OneWayShaped(G)
  {
  }

  /** Node 1 has inbound demand 1 and node 2 outbound demand 1. */
  lemma OneWayNodeDemands(G: Graph)
    requires OneWayShaped(G)
    ensures InDemand(G, 0) == 0 && InDemand(G, 1) == 1 && InDemand(G, 2) == 0 && InDemand(G, 3) == 0
    ensures OutDemand(G, 1) == 0 && OutDemand(G, 2) == 1
  {
    SumFour(DemandInCol(G, 0));
    SumFour(DemandInCol(G, 1));
    SumFour(DemandInCol(G, 2));
    SumFour(DemandInCol(G, 3));
    SumFour(DemandOutRow(G, 1));
    SumFour(DemandOutRow(G, 2));
  }

  /** So d and d' are both 1, and so is the demand total of all nodes. */
  lemma OneWayDemands(G: Graph)
    requires OneWayShaped(G)
    ensures TotalIn(G) == 1 && TotalOut(G) == 1 && AllIn(G) == 1
  {
    OneWayNodeDemands(G);
    SumFour(InDemands(G));
    SumFour(OutDemands(G));
  }

  /** The pairs of the auxiliary network that leave the nodes {0, 1, 4}
      toward the others: none of them has positive capacity. */
  ghost predicate OneWayCaps(caps: map<(int, int), int>)
  {
    && (0, 2) !in caps && (0, 3) !in caps && (0, 5) !in caps
    && (1, 2) !in caps && (1, 3) !in caps && (1, 5) in caps && caps[(1, 5)] == 0
    && (4, 2) in caps && caps[(4, 2)] == 0 && (4, 3) !in caps && (4, 5) !in caps
  }

  /** A pair that is no edge, no super arc of an inner node and not the
      return arc has no place in the auxiliary network. */
  lemma AuxAbsent(G: Graph, u: int, v: int)
    requires WellFormed(G) && (u, v) !in G.edges && (u, v) != (G.n - 1, 0)
    requires !(u == G.n && 1 <= v < G.n - 1) && !(v == G.n + 1 && 1 <= u < G.n - 1)
    ensures (u, v) !in AuxCapacities(G)
  {
    var caps := AuxCapacities(G);
    assert (u, v) in caps <==>
      || (u, v) in G.edges
      || (u == G.n && 1 <= v < G.n - 1)
      || (v == G.n + 1 && 1 <= u < G.n - 1)
      || (u, v) == (G.n - 1, 0);
  }

  /** The pairs the auxiliary network of the one-way network lacks: none
      from the source 0 into {2, 3, 5}, ... */
  lemma OneWayAuxAbsentFromSource(G: Graph)
    requires OneWayShaped(G)
    ensures (0, 2) !in AuxCapacities(G) && (0, 3) !in AuxCapacities(G) && (0, 5) !in AuxCapacities(G)
  {
    assert (0, 2) !in G.edges && (0, 3) !in G.edges && (0, 5) !in G.edges;
    AuxAbsent(G, 0, 2);
    AuxAbsent(G, 0, 3);
    AuxAbsent(G, 0, 5);
  }

  /** ... none from node 1 into {2, 3}, ... */
  lemma OneWayAuxAbsentFromOne(G: Graph)
    requires OneWayShaped(G)
    ensures (1, 2) !in AuxCapacities(G) && (1, 3) !in AuxCapacities(G)
  {
    assert (1, 2) !in G.edges && (1, 3) !in G.edges;
    AuxAbsent(G, 1, 2);
    AuxAbsent(G, 1, 3);
  }

  /** ... and none from the super-source 4 into {3, 5}. */
  lemma OneWayAuxAbsentFromSuper(G: Graph)
    requires OneWayShaped(G)
    ensures (4, 3) !in AuxCapacities(G) && (4, 5) !in AuxCapacities(G)
  {
    assert (4, 3) !in G.edges && (4, 5) !in G.edges;
    AuxAbsent(G, 4, 3);
    AuxAbsent(G, 4, 5);
  }

  /** Its super arcs (1, 5) and (4, 2) have capacity 0. */
  lemma OneWayAuxZero(G: Graph)
    requires OneWayShaped(G)
    ensures (1, 5) in AuxCapacities(G) && AuxCapacities(G)[(1, 5)] == 0
    ensures (4, 2) in AuxCapacities(G) && AuxCapacities(G)[(4, 2)] == 0
  {
    OneWayNodeDemands(G);
  }

  /** So the auxiliary network of the one-way network has those pairs. */
  lemma OneWayAux(G: Graph)
    requires OneWayShaped(G)
    ensures OneWayCaps(AuxCapacities(G))
  {
    OneWayAuxAbsentFromSource(G);
    OneWayAuxAbsentFromOne(G);
    OneWayAuxAbsentFromSuper(G);
    OneWayAuxZero(G);
  }

  /** On a residual network built from such capacities no arc with room
      leaves {0, 1, 4}: the super-source reaches 1 and 0 and stops there,
      since the return arc (3, 0) has no opposite arc with room. So the
      search from 4 to 5 has no augmenting path. */
  lemma OneWayClosed(caps: map<(int, int), int>)
    requires OneWayCaps(caps)
    ensures Closed(Build(caps), {0, 1, 4}, 6)
    ensures NoAugmentingPath(Build(caps), 4, 5, 6)
  {
    var R := Build(caps);
    forall u, v | u in {0, 1, 4} && 0 <= v < 6 && Res(R, u, v) > 0
      ensures v in {0, 1, 4}
    {
      BuiltRoom(caps, u, v);
      assert u == 0 || u == 1 || u == 4;
      assert v != 2 && v != 3 && v != 5;
    }
    ClosedBlocksPaths(R, {0, 1, 4}, 4, 5, 6);
  }

  /** A freshly built network has room on (u, v) exactly when the pair is
      kept. */
  lemma BuiltRoom(caps: map<(int, int), int>, u: int, v: int)
    ensures Res(Build(caps), u, v) > 0 <==> Kept(caps, u, v)
  {
    var R := Build(caps);
    if (u, v) in R {
      assert R[(u, v)].flow == 0;
    }
  }

  /** One unit round 3 -> 2 -> 1 -> 0: it meets the lower bound of (2, 1) and
      has value -1 (one unit enters the source). */
  function OneWayFlow(): map<(int, int), int>
  {
    map[(3, 2) := 1, (2, 1) := 1, (1, 0) := 1]
  }

  /** A node's inflow and outflow over four nodes, term by term. */
  lemma FlowsOfFour(F: map<(int, int), int>, v: int)
    ensures InFlow(F, v, 4) == FlowAt(F, 0, v) + FlowAt(F, 1, v) + FlowAt(F, 2, v) + FlowAt(F, 3, v)
    ensures OutFlow(F, v, 4) == FlowAt(F, v, 0) + FlowAt(F, v, 1) + FlowAt(F, v, 2) + FlowAt(F, v, 3)
  {
    SumFour(InFlowCol(F, v));
    SumFour(OutFlowRow(F, v));
  }

  lemma OneWayWithinBounds(G: Graph, F: map<(int, int), int>)
    requires OneWayShaped(G) && F == OneWayFlow()
    ensures WithinBounds(G, F)
  {
    forall p
      ensures p in F <==> p in G.edges
    {
      var u, v := p.0, p.1;
      assert p == (u, v);
      assert (u, v) in G.edges <==> (u, v) == (3, 2) || (u, v) == (2, 1) || (u, v) == (1, 0);
    }
  }

  lemma OneWayNode1(F: map<(int, int), int>)
    requires F == OneWayFlow()
    ensures InFlow(F, 1, 4) == 1 == OutFlow(F, 1, 4)
  {
    FlowsOfFour(F, 1);
  }

  lemma OneWayNode2(F: map<(int, int), int>)
    requires F == OneWayFlow()
    ensures InFlow(F, 2, 4) == 1 == OutFlow(F, 2, 4)
  {
    FlowsOfFour(F, 2);
  }

  lemma OneWayValue(F: map<(int, int), int>)
    requires F == OneWayFlow()
    ensures NetValue(F, 4) == -1
  {
    FlowsOfFour(F, 0);
  }

  /** That flow is feasible and has value -1. */
  lemma OneWayFeasible(G: Graph)
    requires OneWayShaped(G)
    ensures FeasibleFlow(G, OneWayFlow()) && NetValue(OneWayFlow(), G.n) == -1
  {
    var F := OneWayFlow();
    OneWayWithinBounds(G, F);
    forall v | 0 < v < G.n - 1
      ensures InFlow(F, v, G.n) == OutFlow(F, v, G.n)
    {
      if v == 1 {
        OneWayNode1(F);
      } else {
        OneWayNode2(F);
      }
    }
    OneWayValue(F);
  }

  /** The first search on the auxiliary network as written has no
      augmenting path: nothing leaves {0, 1, 4}. */
  lemma OneWayBlocked(G: Graph)
    requires OneWayShaped(G)
    ensures NoAugmentingPath(Build(AuxCapacities(G)), G.n, G.n + 1, AuxNodes(G))
  {
    OneWayAux(G);
    OneWayClosed(AuxCapacities(G));
  }

  /** The one-way network is simple, its demand totals d and d' agree, and
      it has a feasible flow; yet the first search as written finds no
      augmenting path, so it carries 0 < d and MaxFlow reports it
      infeasible (see MaxFlow's contract). */
  lemma OneWayRejected(G: Graph)
    requires G == OneWayGraph()
    ensures WellFormed(G) && Simple(G) && 3 <= G.n
    ensures TotalIn(G) == TotalOut(G) == 1
    ensures FeasibleFlow(G, OneWayFlow())
    ensures NoAugmentingPath(Build(AuxCapacities(G)), G.n, G.n + 1, AuxNodes(G))
  {
    OneWayShape(G);
    OneWayDemands(G);
    OneWayFeasible(G);
    OneWayBlocked(G);
  }

  /** MaxFlow as written, on the one-way network: infeasible, with nothing
      carried by the first search. */
  method OneWayOutcome() returns (r: Outcome)
    ensures r == Infeasible(0)
    ensures FeasibleFlow(OneWayGraph(), OneWayFlow())
  {
    OneWayRejected(OneWayGraph());
    r := MaxFlow(OneWayGraph());
  }

  /** The corrected test on the same network: whatever the search on the
      corrected auxiliary network returns, it carries the whole demand
      total 1 out of the super-source, so the test passes. */
  lemma OneWayPassesCorrected(G: Graph, out: Solve)
    requires G == OneWayGraph()
    ensures SearchResult(Build(CirculationCapacities(G)), out, G.n, G.n + 1, AuxNodes(G)) ==>
              out.Solved? && out.value == AllIn(G) == 1
  {
    OneWayShape(G);
    OneWayRejected(G);
    OneWayDemands(G);
    CirculationSearchResult(G, out);
  }

  // Finding E: the return arc holds only INF_VALUE, which a feasible flow
  // can exceed.

  /** Source 0, sink 3 and the path 0 -> 1 -> 2 -> 3 of capacity 500, whose
      middle edge has lower bound 400: every feasible flow sends at least
      400 from the sink back round to the source, more than the return arc
      (3, 0) of capacity 300 lets through. */
  function TightReturnGraph(): Graph
  {
    Graph(4, map[(0, 1) := Edge(500, 0), (1, 2) := Edge(500, 400), (2, 3) := Edge(500, 0)])
  }

  /** What the argument below uses of that network: its size and its three
      edges. */
  ghost predicate TightReturnShaped(G: Graph)
  {
    && G.n == 4 && WellFormed(G) && Simple(G)
    && (forall u, v :: (u, v) in G.edges <==> (u, v) == (0, 1) || (u, v) == (1, 2) || (u, v) == (2, 3))
    && G.edges[(0, 1)] == Edge(500, 0) && G.edges[(1, 2)] == Edge(500, 400) && G.edges[(2, 3)] == Edge(500, 0)
  }

  lemma TightReturnShape(G: Graph)
    requires G == TightReturnGraph()
    ensures TightReturnShaped(G)
  {
  }

  /** Node 2 has inbound demand 400 and node 1 outbound demand 400; every
      other total is 0. */
  lemma TightReturnNodeDemands(G: Graph)
    requires TightReturnShaped(G)
    ensures InDemand(G, 0) == 0 && InDemand(G, 1) == 0 && InDemand(G, 2) == 400 && InDemand(G, 3) == 0
    ensures OutDemand(G, 1) == 400 && OutDemand(G, 2) == 0
  {
    SumFour(DemandInCol(G, 0));
    SumFour(DemandInCol(G, 1));
    SumFour(DemandInCol(G, 2));
    SumFour(DemandInCol(G, 3));
    SumFour(DemandOutRow(G, 1));
    SumFour(DemandOutRow(G, 2));
  }

  /** So d, d' and the demand total of all nodes are 400. */
  lemma TightReturnDemands(G: Graph)
    requires TightReturnShaped(G)
    ensures TotalIn(G) == 400 && TotalOut(G) == 400 && AllIn(G) == 400
  {
    TightReturnNodeDemands(G);
    SumFour(InDemands(G));
    SumFour(OutDemands(G));
  }

  /** The pairs of its auxiliary network that the argument needs: the super
      arcs (4, 1) and (2, 5) have capacity 0, the return arc (3, 0) has
      capacity 300, and the other pairs around nodes 2, 3 and 4 are absent. */
  ghost predicate TightReturnCaps(caps: map<(int, int), int>)
  {
    && (4, 0) !in caps && (0, 4) !in caps && (1, 4) !in caps && (4, 3) !in caps && (3, 4) !in caps
    && (4, 5) !in caps && (5, 4) !in caps && (2, 0) !in caps && (0, 2) !in caps && (5, 2) !in caps
    && (3, 1) !in caps && (1, 3) !in caps && (3, 5) !in caps && (5, 3) !in caps && (2, 1) !in caps
    && (4, 1) in caps && caps[(4, 1)] == 0 && (2, 5) in caps && caps[(2, 5)] == 0
    && (3, 0) in caps && caps[(3, 0)] == INF_VALUE
  }

  lemma TightReturnAbsentAtSuper(G: Graph)
    requires TightReturnShaped(G)
    ensures && (4, 0) !in AuxCapacities(G) && (0, 4) !in AuxCapacities(G) && (1, 4) !in AuxCapacities(G)
            && (4, 3) !in AuxCapacities(G) && (3, 4) !in AuxCapacities(G)
  {
    assert (4, 0) !in G.edges && (0, 4) !in G.edges && (1, 4) !in G.edges;
    assert (4, 3) !in G.edges && (3, 4) !in G.edges;
    AuxAbsent(G, 4, 0);
    AuxAbsent(G, 0, 4);
    AuxAbsent(G, 1, 4);
    AuxAbsent(G, 4, 3);
    AuxAbsent(G, 3, 4);
  }

  lemma TightReturnAbsentAtSink(G: Graph)
    requires TightReturnShaped(G)
    ensures && (4, 5) !in AuxCapacities(G) && (5, 4) !in AuxCapacities(G) && (5, 2) !in AuxCapacities(G)
            && (3, 5) !in AuxCapacities(G) && (5, 3) !in AuxCapacities(G)
  {
    assert (4, 5) !in G.edges && (5, 4) !in G.edges && (5, 2) !in G.edges;
    assert (3, 5) !in G.edges && (5, 3) !in G.edges;
    AuxAbsent(G, 4, 5);
    AuxAbsent(G, 5, 4);
    AuxAbsent(G, 5, 2);
    AuxAbsent(G, 3, 5);
    AuxAbsent(G, 5, 3);
  }

  lemma TightReturnAbsentInside(G: Graph)
    requires TightReturnShaped(G)
    ensures && (2, 0) !in AuxCapacities(G) && (0, 2) !in AuxCapacities(G) && (3, 1) !in AuxCapacities(G)
            && (1, 3) !in AuxCapacities(G) && (2, 1) !in AuxCapacities(G)
  {
    assert (2, 0) !in G.edges && (0, 2) !in G.edges && (3, 1) !in G.edges;
    assert (1, 3) !in G.edges && (2, 1) !in G.edges;
    AuxAbsent(G, 2, 0);
    AuxAbsent(G, 0, 2);
    AuxAbsent(G, 3, 1);
    AuxAbsent(G, 1, 3);
    AuxAbsent(G, 2, 1);
  }

  lemma TightReturnPresent(G: Graph)
    requires TightReturnShaped(G)
    ensures (4, 1) in AuxCapacities(G) && AuxCapacities(G)[(4, 1)] == 0
    ensures (2, 5) in AuxCapacities(G) && AuxCapacities(G)[(2, 5)] == 0
    ensures (3, 0) in AuxCapacities(G) && AuxCapacities(G)[(3, 0)] == INF_VALUE
  {
    TightReturnNodeDemands(G);
  }

  lemma TightReturnAux(G: Graph)
    requires TightReturnShaped(G)
    ensures TightReturnCaps(AuxCapacities(G))
  {
    TightReturnAbsentAtSuper(G);
    TightReturnAbsentAtSink(G);
    TightReturnAbsentInside(G);
    TightReturnPresent(G);
  }

  /** The arcs of a residual network over such capacities that the argument
      needs: the super-source 4 has only the arc to 2; node 2 has no arc to
      0, 2 or 5 and no room towards 1; the sink 3 has only the arcs to 2
      and 0, and (3, 0) holds at most INF_VALUE. */
  ghost predicate TightReturnArcs(R: Arcs)
  {
    && (4, 0) !in R && (4, 1) !in R && (4, 3) !in R && (4, 4) !in R && (4, 5) !in R
    && (2, 0) !in R && (2, 2) !in R && (2, 5) !in R
    && (3, 1) !in R && (3, 3) !in R && (3, 4) !in R && (3, 5) !in R
    && CapOf(R, 2, 1) == 0 && CapOf(R, 3, 0) == INF_VALUE
  }

  lemma TightReturnBuilt(caps: map<(int, int), int>, R: Arcs)
    requires TightReturnCaps(caps) && SameCapacities(Build(caps), R)
    ensures TightReturnArcs(R)
  {
    var B := Build(caps);
    assert (4, 0) !in B && (4, 1) !in B && (4, 3) !in B && (4, 4) !in B && (4, 5) !in B;
    assert (2, 0) !in B && (2, 2) !in B && (2, 5) !in B;
    assert (3, 1) !in B && (3, 3) !in B && (3, 4) !in B && (3, 5) !in B;
    assert CapOf(B, 2, 1) == 0 && CapOf(B, 3, 0) == INF_VALUE;
    SameCapOf(B, R, 2, 1);
    SameCapOf(B, R, 3, 0);
  }

  lemma SumSix(f: int -> int)
    ensures Sum(f, 0, 6) == f(0) + f(1) + f(2) + f(3) + f(4) + f(5)
  {
    SumFive(f);
    assert Sum(f, 5, 6) == f(5) + Sum(f, 6, 6);
    SumSplit(f, 0, 5, 6);
  }

  /** Flow conservation pins the first search's value: all of it leaves 4
      towards 2, node 2 passes it on to the sink 3, and the sink's only
      outlet is the return arc. So the value is at most INF_VALUE. */
  lemma TightReturnBound(R: Arcs, value: int)
    requires Valid(R) && TightReturnArcs(R)
    requires NetOut(R, 4, 6) == value && NetOut(R, 2, 6) == 0 && NetOut(R, 3, 6) == 0
    ensures value <= INF_VALUE
  {
    SumSix(FlowRow(R, 4));
    SumSix(FlowRow(R, 2));
    SumSix(FlowRow(R, 3));
    Skew(R, 4, 2);
    Skew(R, 2, 3);
    assert FlowOf(R, 2, 1) <= 0 by {
      if (2, 1) in R {
      }
    }
    assert FlowOf(R, 3, 0) <= INF_VALUE by {
      if (3, 0) in R {
      }
    }
  }

  /** Whatever the first search on that network leaves behind, it carried
      at most INF_VALUE. */
  lemma TightReturnBlocked(G: Graph)
    requires TightReturnShaped(G)
    ensures forall R1, value :: FirstSearched(G, R1, value) ==> value <= INF_VALUE
  {
    forall R1, value | FirstSearched(G, R1, value)
      ensures value <= INF_VALUE
    {
      TightReturnBlockedAt(G, R1, value);
    }
  }

  lemma TightReturnBlockedAt(G: Graph, R1: Arcs, value: int)
    requires TightReturnShaped(G) && FirstSearched(G, R1, value)
    ensures value <= INF_VALUE
  {
    TightReturnAux(G);
    TightReturnBuilt(AuxCapacities(G), R1);
    assert NetOut(R1, 2, 6) == 0 && NetOut(R1, 3, 6) == 0;
    TightReturnBound(R1, value);
  }

  /** 400 units along the path: every bound met, value 400. */
  function TightReturnFlow(): map<(int, int), int>
  {
    map[(0, 1) := 400, (1, 2) := 400, (2, 3) := 400]
  }

  lemma TightReturnWithinBounds(G: Graph, F: map<(int, int), int>)
    requires TightReturnShaped(G) && F == TightReturnFlow()
    ensures WithinBounds(G, F)
  {
    forall p
      ensures p in F <==> p in G.edges
    {
      var u, v := p.0, p.1;
      assert p == (u, v);
      assert (u, v) in G.edges <==> (u, v) == (0, 1) || (u, v) == (1, 2) || (u, v) == (2, 3);
    }
  }

  lemma TightReturnNode(F: map<(int, int), int>, v: int)
    requires F == TightReturnFlow() && 0 <= v < 4
    ensures InFlow(F, v, 4) == (if v == 0 then 0 else 400)
    ensures OutFlow(F, v, 4) == (if v == 3 then 0 else 400)
  {
    FlowsOfFour(F, v);
  }

  /** That flow is feasible and has value 400. */
  lemma TightReturnFeasible(G: Graph)
    requires TightReturnShaped(G)
    ensures FeasibleFlow(G, TightReturnFlow()) && NetValue(TightReturnFlow(), G.n) == 400
  {
    var F := TightReturnFlow();
    TightReturnWithinBounds(G, F);
    forall v | 0 < v < G.n - 1
      ensures InFlow(F, v, G.n) == OutFlow(F, v, G.n)
    {
      TightReturnNode(F, v);
    }
    TightReturnNode(F, 0);
  }

  /** The network is simple, d = d' = 400, and it has a feasible flow; yet
      no first search on its auxiliary network as written carries more than
      INF_VALUE = 300 < d. */
  lemma TightReturnRejected(G: Graph)
    requires G == TightReturnGraph()
    ensures WellFormed(G) && Simple(G) && 3 <= G.n
    ensures TotalIn(G) == TotalOut(G) == 400
    ensures FeasibleFlow(G, TightReturnFlow())
    ensures forall R1, value :: FirstSearched(G, R1, value) ==> value <= INF_VALUE
  {
    TightReturnShape(G);
    TightReturnDemands(G);
    TightReturnFeasible(G);
    TightReturnBlocked(G);
  }

  /** MaxFlow as written, on that network: infeasible, with at most
      INF_VALUE carried by the first search. */
  method TightReturnOutcome() returns (r: Outcome)
    ensures r.Infeasible? && r.achieved <= INF_VALUE < TotalIn(TightReturnGraph())
    ensures FeasibleFlow(TightReturnGraph(), TightReturnFlow())
  {
    TightReturnRejected(TightReturnGraph());
    r := MaxFlow(TightReturnGraph());
  }

  /** The corrected test on the same network: its return arcs are as wide as
      the network's total capacity, and whatever the search on the corrected
      auxiliary network returns carries the whole demand total 400. */
  lemma TightReturnPassesCorrected(G: Graph, out: Solve)
    requires G == TightReturnGraph()
    ensures SearchResult(Build(CirculationCapacities(G)), out, G.n, G.n + 1, AuxNodes(G)) ==>
              out.Solved? && out.value == AllIn(G) == 400
  {
    TightReturnShape(G);
    TightReturnRejected(G);
    TightReturnDemands(G);
    CirculationSearchResult(G, out);
  }
}
