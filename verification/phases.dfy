/** What the two searches leave behind, and why it adds up: a phase-1 outcome
    that passes the feasibility test saturates every arc leaving the
    super-source and every arc entering the super-sink, so the recorded
    baseline meets every lower bound, every capacity and conservation; the
    second search keeps all three. */
module Phases {
  import opened Sums
  import opened Network
  import opened Residual
  import opened Reduction
  import opened Reconstruction

  /** R1 is what the first search returns on the auxiliary network when the
      feasibility test passes: a valid flow over the auxiliary arcs, d units
      out of the super-source, d' units into the super-sink and every other
      node balanced. */
  ghost predicate Phase1Passed(G: Graph, R1: Arcs)
  {
    && WellFormed(G) && 3 <= G.n
    && Valid(R1)
    && SameCapacities(Build(AuxCapacities(G)), R1)
    && NetOut(R1, G.n, AuxNodes(G)) == TotalIn(G)
    && NetOut(R1, G.n + 1, AuxNodes(G)) == -TotalOut(G)
    && forall x :: 0 <= x < G.n ==> NetOut(R1, x, AuxNodes(G)) == 0
  }

  /** R2 is what the second search returns on the reseeded network S: a valid
      flow over the same arcs, balanced at every internal node. */
  ghost predicate Phase2Done(G: Graph, S: Arcs, R2: Arcs)
  {
    && Valid(R2)
    && SameCapacities(S, R2)
    && forall x :: 0 < x < G.n - 1 ==> NetOut(R2, x, G.n) == 0
  }

  /** Capacity of the super-source's arc towards w. */
  function SourceCaps(G: Graph): int -> int
  {
    w => if 1 <= w < G.n - 1 then InDemand(G, w) else 0
  }

  /** Capacity of w's arc towards the super-sink. */
  function SinkCaps(G: Graph): int -> int
  {
    w => if 1 <= w < G.n - 1 then OutDemand(G, w) else 0
  }

  /** Which arcs the first search can use and with what capacity. */
  lemma AuxArc(G: Graph, R1: Arcs, u: int, v: int)
    requires WellFormed(G) && SameCapacities(Build(AuxCapacities(G)), R1)
    ensures (u, v) in R1 <==> Kept(AuxCapacities(G), u, v) || Kept(AuxCapacities(G), v, u)
    ensures CapOf(R1, u, v) == PairCapacity(AuxCapacities(G))(u, v)
  {
    SameCapOf(Build(AuxCapacities(G)), R1, u, v);
  }

  /** The super-source's arcs have the inbound demands as capacities. */
  lemma SourceArcCapacity(G: Graph, R1: Arcs, w: int)
    requires WellFormed(G) && 3 <= G.n && SameCapacities(Build(AuxCapacities(G)), R1)
    ensures CapOf(R1, G.n, w) == SourceCaps(G)(w)
  {
    AuxArc(G, R1, G.n, w);
    if 1 <= w < G.n - 1 {
      DemandsNonNegative(G, w);
    } else {
      assert (G.n, w) !in AuxCapacities(G);
    }
  }

  /** The super-sink's arcs have the outbound demands as capacities. */
  lemma SinkArcCapacity(G: Graph, R1: Arcs, w: int)
    requires WellFormed(G) && 3 <= G.n && SameCapacities(Build(AuxCapacities(G)), R1)
    ensures CapOf(R1, w, G.n + 1) == SinkCaps(G)(w)
  {
    AuxArc(G, R1, w, G.n + 1);
    if 1 <= w < G.n - 1 {
      DemandsNonNegative(G, w);
    } else {
      assert (w, G.n + 1) !in AuxCapacities(G);
    }
  }

  /** The capacities out of the super-source add up to d, those into the
      super-sink to d'. */
  lemma SuperCapacityTotals(G: Graph)
    requires 3 <= G.n
    ensures Sum(SourceCaps(G), 0, AuxNodes(G)) == TotalIn(G)
    ensures Sum(SinkCaps(G), 0, AuxNodes(G)) == TotalOut(G)
  {
    var n := G.n;
    SumSplit(SourceCaps(G), 0, 1, n + 2);
    SumSplit(SourceCaps(G), 1, n - 1, n + 2);
    SumZero(SourceCaps(G), n - 1, n + 2);
    SumExt(SourceCaps(G), InDemands(G), 1, n - 1);
    SumSplit(SinkCaps(G), 0, 1, n + 2);
    SumSplit(SinkCaps(G), 1, n - 1, n + 2);
    SumZero(SinkCaps(G), n - 1, n + 2);
    SumExt(SinkCaps(G), OutDemands(G), 1, n - 1);
  }

  /** A row of arcs carries at most the row's total capacity. */
  lemma RowBelowCaps(R: Arcs, u: int, caps: int -> int, m: int)
    requires Valid(R)
    requires forall w :: 0 <= w < m ==> CapOf(R, u, w) == caps(w)
    ensures NetOut(R, u, m) <= Sum(caps, 0, m)
  {
    forall w | 0 <= w < m
      ensures FlowRow(R, u)(w) <= caps(w)
    {
    }
    SumLe(FlowRow(R, u), caps, 0, m);
  }

  /** A column of arcs takes in at most the column's total capacity. */
  lemma ColumnBelowCaps(R: Arcs, v: int, caps: int -> int, m: int)
    requires Valid(R)
    requires forall w :: 0 <= w < m ==> CapOf(R, w, v) == caps(w)
    ensures -NetOut(R, v, m) <= Sum(caps, 0, m)
  {
    var inflow := w => -FlowOf(R, v, w);
    forall w | 0 <= w < m
      ensures inflow(w) <= caps(w)
    {
      Skew(R, w, v);
    }
    SumZero(w => 0, 0, m);
    SumSub(w => 0, FlowRow(R, v), inflow, 0, m);
    SumLe(inflow, caps, 0, m);
  }

  /** An arc row whose flows add up to the row's total capacity is full. */
  lemma {:induction false} FullRow(R: Arcs, u: int, caps: int -> int, m: int)
    requires Valid(R)
    requires forall w :: 0 <= w < m ==> CapOf(R, u, w) == caps(w)
    requires NetOut(R, u, m) == Sum(caps, 0, m)
    ensures forall w :: 0 <= w < m ==> FlowOf(R, u, w) == caps(w)
  {
    forall w | 0 <= w < m
      ensures FlowRow(R, u)(w) <= caps(w)
    {
    }
    SumTight(FlowRow(R, u), caps, 0, m);
  }

  /** An arc column whose flows add up to the column's total capacity is full. */
  lemma {:induction false} FullColumn(R: Arcs, v: int, caps: int -> int, m: int)
    requires Valid(R)
    requires forall w :: 0 <= w < m ==> CapOf(R, w, v) == caps(w)
    requires -NetOut(R, v, m) == Sum(caps, 0, m)
    ensures forall w :: 0 <= w < m ==> FlowOf(R, w, v) == caps(w)
  {
    var inflow := w => -FlowOf(R, v, w);
    forall w | 0 <= w < m
      ensures inflow(w) <= caps(w)
    {
      Skew(R, w, v);
    }
    SumZero(w => 0, 0, m);
    SumSub(w => 0, FlowRow(R, v), inflow, 0, m);
    SumTight(inflow, caps, 0, m);
    forall w | 0 <= w < m
      ensures FlowOf(R, w, v) == caps(w)
    {
      Skew(R, w, v);
    }
  }

  /** The capacities of the super-source's and super-sink's arcs. */
  lemma SuperArcCapacities(G: Graph, R1: Arcs)
    requires WellFormed(G) && 3 <= G.n && SameCapacities(Build(AuxCapacities(G)), R1)
    ensures forall w :: 0 <= w < AuxNodes(G) ==> CapOf(R1, G.n, w) == SourceCaps(G)(w)
    ensures forall w :: 0 <= w < AuxNodes(G) ==> CapOf(R1, w, G.n + 1) == SinkCaps(G)(w)
  {
    forall w | 0 <= w < AuxNodes(G)
      ensures CapOf(R1, G.n, w) == SourceCaps(G)(w) && CapOf(R1, w, G.n + 1) == SinkCaps(G)(w)
    {
      SourceArcCapacity(G, R1, w);
      SinkArcCapacity(G, R1, w);
    }
  }

  /** A phase-1 outcome whose value is d fills every arc leaving the
      super-source to capacity. */
  lemma SourceSaturated(G: Graph, R1: Arcs)
    requires Phase1Passed(G, R1)
    ensures forall w :: 0 <= w < AuxNodes(G) ==> FlowOf(R1, G.n, w) == SourceCaps(G)(w)
  {
    SuperArcCapacities(G, R1);
    SuperCapacityTotals(G);
    FullRow(R1, G.n, SourceCaps(G), AuxNodes(G));
  }

  /** A phase-1 outcome whose value is d' fills every arc entering the
      super-sink to capacity. */
  lemma SinkSaturated(G: Graph, R1: Arcs)
    requires Phase1Passed(G, R1)
    ensures forall w :: 0 <= w < AuxNodes(G) ==> FlowOf(R1, w, G.n + 1) == SinkCaps(G)(w)
  {
    SuperArcCapacities(G, R1);
    SuperCapacityTotals(G);
    FullColumn(R1, G.n + 1, SinkCaps(G), AuxNodes(G));
  }

  /** On an original edge the first search has the stripped capacity forwards
      and nothing backwards. */
  lemma EdgeArcCapacities(G: Graph, R1: Arcs, u: int, v: int)
    requires WellFormed(G) && Simple(G) && SameCapacities(Build(AuxCapacities(G)), R1)
    requires (u, v) in G.edges
    ensures CapOf(R1, u, v) == G.edges[(u, v)].capacity - G.edges[(u, v)].demand
    ensures CapOf(R1, v, u) == 0
  {
    AuxArc(G, R1, u, v);
    AuxArc(G, R1, v, u);
    assert (v, u) !in AuxCapacities(G);
  }

  /** Between two original nodes, the detached network only has the arcs of
      original edges and their reverses. */
  lemma DetachedShape(G: Graph, R1: Arcs, v: int, w: int)
    requires WellFormed(G) && SameCapacities(Build(AuxCapacities(G)), R1)
    requires 0 <= v < G.n && 0 <= w < G.n
    requires (v, w) in Detach(R1, G.n)
    ensures (v, w) in G.edges || (w, v) in G.edges
  {
    AuxArc(G, R1, v, w);
  }

  /** Row-wise form of DetachedShape. */
  lemma DetachedRowShape(G: Graph, R1: Arcs, v: int)
    requires WellFormed(G) && SameCapacities(Build(AuxCapacities(G)), R1)
    requires 0 <= v < G.n
    ensures forall w :: 0 <= w < G.n && (v, w) in Detach(R1, G.n) ==> (v, w) in G.edges || (w, v) in G.edges
  {
    forall w | 0 <= w < G.n && (v, w) in Detach(R1, G.n)
      ensures (v, w) in G.edges || (w, v) in G.edges
    {
      DetachedShape(G, R1, v, w);
    }
  }

  /** The detached network agrees with the phase-1 network on a row of an
      internal node. */
  lemma DetachedRow(G: Graph, R1: Arcs, v: int)
    requires 0 < v < G.n - 1
    ensures NetOut(Detach(R1, G.n), v, G.n) == NetOut(R1, v, G.n)
  {
    var D := Detach(R1, G.n);
    forall w | 0 <= w < G.n
      ensures FlowRow(D, v)(w) == FlowRow(R1, v)(w)
    {
      if (v, w) in R1 {
        assert (v, w) in D;
      }
    }
    SumExt(FlowRow(D, v), FlowRow(R1, v), 0, G.n);
  }

  /** When a node's arcs towards original nodes all belong to original edges
      (either way round), its net outflow is the flow on its outgoing edges
      minus the flow on its incoming edges. */
  lemma NetOutByEdges(G: Graph, R: Arcs, v: int)
    requires Valid(R) && Simple(G)
    requires forall w :: 0 <= w < G.n && (v, w) in R ==> (v, w) in G.edges || (w, v) in G.edges
    ensures NetOut(R, v, G.n) == OutFlow(EdgeFlows(G, R), v, G.n) - InFlow(EdgeFlows(G, R), v, G.n)
  {
    var E := EdgeFlows(G, R);
    forall w | 0 <= w < G.n
      ensures FlowRow(R, v)(w) == OutFlowRow(E, v)(w) - InFlowCol(E, v)(w)
    {
      Skew(R, v, w);
    }
    SumSub(OutFlowRow(E, v), InFlowCol(E, v), FlowRow(R, v), 0, G.n);
  }

  /** The recorded baseline's outflow and inflow at v are the demand totals
      plus the phase-1 flow on v's outgoing and incoming edges. */
  lemma RecordedTotals(G: Graph, D: Arcs, v: int)
    ensures OutFlow(Recorded(G, D), v, G.n) == OutDemand(G, v) + OutFlow(EdgeFlows(G, D), v, G.n)
    ensures InFlow(Recorded(G, D), v, G.n) == InDemand(G, v) + InFlow(EdgeFlows(G, D), v, G.n)
  {
    var rec := Recorded(G, D);
    var E := EdgeFlows(G, D);
    SumAdd(DemandOutRow(G, v), OutFlowRow(E, v), OutFlowRow(rec, v), 0, G.n);
    SumAdd(DemandInCol(G, v), InFlowCol(E, v), InFlowCol(rec, v), 0, G.n);
  }

  /** Each original edge carries between 0 and its stripped capacity in the
      phase-1 flow. */
  lemma BaselineEdge(G: Graph, R1: Arcs, u: int, v: int)
    requires WellFormed(G) && Simple(G) && Valid(R1) && SameCapacities(Build(AuxCapacities(G)), R1)
    requires (u, v) in G.edges
    ensures FlowOf(Detach(R1, G.n), u, v) == FlowOf(R1, u, v)
    ensures 0 <= FlowOf(R1, u, v) <= G.edges[(u, v)].capacity - G.edges[(u, v)].demand
  {
    EdgeArcCapacities(G, R1, u, v);
    Skew(R1, u, v);
    DetachedEdgeFlow(G, R1, u, v);
  }

  /** Detaching keeps the arc of every original edge of a simple network. */
  lemma DetachedEdgeFlow(G: Graph, R1: Arcs, u: int, v: int)
    requires WellFormed(G) && Simple(G) && (u, v) in G.edges
    ensures FlowOf(Detach(R1, G.n), u, v) == FlowOf(R1, u, v)
  {
    DetachKeeps(R1, G.n, u, v);
  }

  /** A node's net outflow over the auxiliary nodes is its net outflow over
      the original nodes plus its flows towards the two super nodes. */
  lemma SuperColumns(R: Arcs, v: int, n: int)
    requires 0 <= n
    ensures NetOut(R, v, n + 2) == NetOut(R, v, n) + FlowOf(R, v, n) + FlowOf(R, v, n + 1)
  {
    SumSplit(FlowRow(R, v), 0, n, n + 2);
    assert Sum(FlowRow(R, v), n + 1, n + 2) == FlowOf(R, v, n + 1) + Sum(FlowRow(R, v), n + 2, n + 2);
  }

  /** Over the original nodes, an internal node v that receives its inbound
      demand from the super-source, sends its outbound demand to the
      super-sink and is balanced in the phase-1 flow sends out exactly its
      inbound demand minus its outbound demand. */
  lemma DemandSurplus(G: Graph, R1: Arcs, v: int)
    requires Valid(R1) && 0 <= G.n
    requires FlowOf(R1, G.n, v) == InDemand(G, v) && FlowOf(R1, v, G.n + 1) == OutDemand(G, v)
    requires NetOut(R1, v, AuxNodes(G)) == 0
    ensures NetOut(R1, v, G.n) == InDemand(G, v) - OutDemand(G, v)
  {
    Skew(R1, G.n, v);
    SuperColumns(R1, v, G.n);
  }

  /** The recorded baseline balances an internal node whose arcs in the
      detached network all belong to original edges and whose phase-1 surplus
      over the original nodes is its inbound minus its outbound demand. */
  lemma BaselineConserves(G: Graph, R1: Arcs, v: int)
    requires Simple(G) && Valid(R1) && 0 < v < G.n - 1
    requires forall w :: 0 <= w < G.n && (v, w) in Detach(R1, G.n) ==> (v, w) in G.edges || (w, v) in G.edges
    requires NetOut(R1, v, G.n) == InDemand(G, v) - OutDemand(G, v)
    ensures InFlow(Recorded(G, Detach(R1, G.n)), v, G.n) == OutFlow(Recorded(G, Detach(R1, G.n)), v, G.n)
  {
    var D := Detach(R1, G.n);
    DetachedRow(G, R1, v);
    NetOutByEdges(G, D, v);
    RecordedTotals(G, D, v);
  }

  lemma BaselineConservesAt(G: Graph, R1: Arcs, v: int)
    requires Phase1Passed(G, R1) && Simple(G) && 0 < v < G.n - 1
    ensures InFlow(Recorded(G, Detach(R1, G.n)), v, G.n) == OutFlow(Recorded(G, Detach(R1, G.n)), v, G.n)
  {
    SourceSaturated(G, R1);
    SinkSaturated(G, R1);
    assert FlowOf(R1, G.n, v) == SourceCaps(G)(v) == InDemand(G, v);
    assert FlowOf(R1, v, G.n + 1) == SinkCaps(G)(v) == OutDemand(G, v);
    DemandSurplus(G, R1, v);
    DetachedRowShape(G, R1, v);
    BaselineConserves(G, R1, v);
  }

  /** Lower bounds, capacities and conservation all hold for the recorded
      baseline of a phase-1 outcome that passed the feasibility test. */
  lemma BaselineFeasible(G: Graph, R1: Arcs)
    requires Phase1Passed(G, R1) && Simple(G)
    ensures FeasibleFlow(G, Recorded(G, Detach(R1, G.n)))
  {
    var rec := Recorded(G, Detach(R1, G.n));
    forall u, v | (u, v) in G.edges
      ensures G.edges[(u, v)].demand <= rec[(u, v)] <= G.edges[(u, v)].capacity
    {
      BaselineEdge(G, R1, u, v);
    }
    forall v | 0 < v < G.n - 1
      ensures InFlow(rec, v, G.n) == OutFlow(rec, v, G.n)
    {
      BaselineConservesAt(G, R1, v);
    }
  }

  /** An arc the detachment keeps between original nodes has at most the
      capacity of the original edge it came from. */
  lemma DetachedCapacity(G: Graph, R1: Arcs, u: int, v: int)
    requires WellFormed(G) && SameCapacities(Build(AuxCapacities(G)), R1)
    requires 0 <= u < G.n && 0 <= v < G.n
    ensures 0 <= CapOf(Detach(R1, G.n), u, v) <= Capacity(G, u, v)
  {
    var D := Detach(R1, G.n);
    if (u, v) in D {
      AuxArc(G, R1, u, v);
      assert (u, v) != (G.n - 1, 0);
    }
  }

  /** Baseline plus second-search flow stays within the detached network's
      capacities in both directions: the second search runs on the baseline's
      residual network. */
  lemma Composed(D: Arcs, R2: Arcs, u: int, v: int)
    requires Valid(D) && Valid(R2) && SameCapacities(Reseed(D), R2)
    ensures FlowOf(D, u, v) + FlowOf(R2, u, v) <= CapOf(D, u, v)
    ensures -CapOf(D, v, u) <= FlowOf(D, u, v) + FlowOf(R2, u, v)
  {
    SameCapOf(Reseed(D), R2, u, v);
    SameCapOf(Reseed(D), R2, v, u);
    Skew(D, u, v);
    Skew(R2, u, v);
    if (u, v) !in D {
      assert (u, v) !in R2;
    }
    if (v, u) !in D {
      assert (v, u) !in R2;
    }
  }

  /** Detaching keeps the capacities of an original edge's two arcs. */
  lemma DetachedEdgeCapacities(G: Graph, R1: Arcs, u: int, v: int)
    requires WellFormed(G) && Simple(G) && SameCapacities(Build(AuxCapacities(G)), R1)
    requires (u, v) in G.edges
    ensures CapOf(Detach(R1, G.n), u, v) == G.edges[(u, v)].capacity - G.edges[(u, v)].demand
    ensures CapOf(Detach(R1, G.n), v, u) == 0
  {
    EdgeArcCapacities(G, R1, u, v);
    DetachKeeps(R1, G.n, u, v);
    DetachKeeps(R1, G.n, v, u);
  }

  /** An edge whose arc has the stripped capacity forwards and none backwards
      ends up between its lower bound and its capacity once the baseline and
      the second flow are added. */
  lemma EdgeWithinBounds(G: Graph, D: Arcs, R2: Arcs, u: int, v: int)
    requires Valid(D) && Valid(R2) && SameCapacities(Reseed(D), R2)
    requires (u, v) in G.edges
    requires CapOf(D, u, v) == G.edges[(u, v)].capacity - G.edges[(u, v)].demand && CapOf(D, v, u) == 0
    ensures G.edges[(u, v)].demand <= FlowAt(Recorded(G, D), u, v) + FlowOf(R2, u, v) <= G.edges[(u, v)].capacity
  {
    Composed(D, R2, u, v);
  }

  /** Every original edge ends up between its lower bound and its capacity. */
  lemma FinalEdge(G: Graph, R1: Arcs, R2: Arcs, u: int, v: int)
    requires WellFormed(G) && Simple(G) && Valid(R1) && SameCapacities(Build(AuxCapacities(G)), R1)
    requires Valid(R2) && SameCapacities(Reseed(Detach(R1, G.n)), R2)
    requires (u, v) in G.edges
    ensures G.edges[(u, v)].demand <= FlowAt(Recorded(G, Detach(R1, G.n)), u, v) + FlowOf(R2, u, v) <= G.edges[(u, v)].capacity
  {
    DetachedEdgeCapacities(G, R1, u, v);
    EdgeWithinBounds(G, Detach(R1, G.n), R2, u, v);
  }

  /** The second search's network has the same arcs as the detached one, so
      its arcs out of an original node also follow original edges. */
  lemma SecondRowShape(G: Graph, R1: Arcs, R2: Arcs, v: int)
    requires WellFormed(G) && SameCapacities(Build(AuxCapacities(G)), R1)
    requires SameCapacities(Reseed(Detach(R1, G.n)), R2)
    requires 0 <= v < G.n
    ensures forall w :: 0 <= w < G.n && (v, w) in R2 ==> (v, w) in G.edges || (w, v) in G.edges
  {
    DetachedRowShape(G, R1, v);
    assert R2.Keys == Detach(R1, G.n).Keys;
  }

  /** Adding a balanced residual flow to a balanced baseline keeps an internal
      node balanced. */
  lemma SumConserves(G: Graph, rec: map<(int, int), int>, R2: Arcs, v: int)
    requires Simple(G) && Valid(R2)
    requires forall w :: 0 <= w < G.n && (v, w) in R2 ==> (v, w) in G.edges || (w, v) in G.edges
    requires NetOut(R2, v, G.n) == 0
    requires rec.Keys == G.edges.Keys
    requires InFlow(rec, v, G.n) == OutFlow(rec, v, G.n)
    ensures InFlow(FinalFlows(G, rec, R2), v, G.n) == OutFlow(FinalFlows(G, rec, R2), v, G.n)
  {
    var E2 := EdgeFlows(G, R2);
    NetOutByEdges(G, R2, v);
    FlowsAdd(FinalFlows(G, rec, R2), rec, E2, v, G.n);
  }

  /** The final flows balance every internal node. */
  lemma FinalConserves(G: Graph, R1: Arcs, R2: Arcs, v: int)
    requires Phase1Passed(G, R1) && Simple(G)
    requires Phase2Done(G, Reseed(Detach(R1, G.n)), R2)
    requires 0 < v < G.n - 1
    ensures InFlow(FinalFlows(G, Recorded(G, Detach(R1, G.n)), R2), v, G.n)
         == OutFlow(FinalFlows(G, Recorded(G, Detach(R1, G.n)), R2), v, G.n)
  {
    BaselineConservesAt(G, R1, v);
    SecondRowShape(G, R1, R2, v);
    SumConserves(G, Recorded(G, Detach(R1, G.n)), R2, v);
  }

  /** The final flows satisfy every lower bound and every capacity. */
  lemma FinalWithinBounds(G: Graph, R1: Arcs, R2: Arcs)
    requires WellFormed(G) && Simple(G) && Valid(R1) && SameCapacities(Build(AuxCapacities(G)), R1)
    requires Valid(R2) && SameCapacities(Reseed(Detach(R1, G.n)), R2)
    ensures WithinBounds(G, FinalFlows(G, Recorded(G, Detach(R1, G.n)), R2))
  {
    var rec := Recorded(G, Detach(R1, G.n));
    forall u, v | (u, v) in G.edges
      ensures G.edges[(u, v)].demand <= FlowAt(rec, u, v) + FlowOf(R2, u, v) <= G.edges[(u, v)].capacity
    {
      FinalEdge(G, R1, R2, u, v);
    }
    SumsWithinBounds(G, rec, R2);
  }

  /** Edge by edge bounds on baseline plus second flow are the bounds of the
      final flows. */
  lemma SumsWithinBounds(G: Graph, rec: map<(int, int), int>, R2: Arcs)
    requires forall u, v | (u, v) in G.edges ::
               G.edges[(u, v)].demand <= FlowAt(rec, u, v) + FlowOf(R2, u, v) <= G.edges[(u, v)].capacity
    ensures WithinBounds(G, FinalFlows(G, rec, R2))
  {
    var F := FinalFlows(G, rec, R2);
    forall p | p in G.edges
      ensures G.edges[p].demand <= F[p] <= G.edges[p].capacity
    {
      assert F[p] == FlowAt(F, p.0, p.1);
    }
  }

  /** The final flows are conserved at every internal node. */
  lemma FinalConservesAll(G: Graph, R1: Arcs, R2: Arcs)
    requires Phase1Passed(G, R1) && Simple(G)
    requires Phase2Done(G, Reseed(Detach(R1, G.n)), R2)
    ensures Conserves(G, FinalFlows(G, Recorded(G, Detach(R1, G.n)), R2))
  {
    var F := FinalFlows(G, Recorded(G, Detach(R1, G.n)), R2);
    forall v | 0 < v < G.n - 1
      ensures InFlow(F, v, G.n) == OutFlow(F, v, G.n)
    {
      FinalConserves(G, R1, R2, v);
    }
  }

  /** The final flows satisfy every lower bound, every capacity and
      conservation. */
  lemma FinalFeasible(G: Graph, R1: Arcs, R2: Arcs)
    requires Phase1Passed(G, R1) && Simple(G)
    requires Phase2Done(G, Reseed(Detach(R1, G.n)), R2)
    ensures FeasibleFlow(G, FinalFlows(G, Recorded(G, Detach(R1, G.n)), R2))
  {
    FinalWithinBounds(G, R1, R2);
    FinalConservesAll(G, R1, R2);
  }

  /** With no edge into the source, the residual flow leaving the source plus
      the baseline leaving it is the final flow leaving it. */
  lemma SumValue(G: Graph, rec: map<(int, int), int>, R2: Arcs)
    requires Simple(G) && NoEdgeIntoSource(G) && Valid(R2) && 1 <= G.n
    requires forall w :: 0 <= w < G.n && (0, w) in R2 ==> (0, w) in G.edges || (w, 0) in G.edges
    requires rec.Keys == G.edges.Keys
    ensures NetOut(R2, 0, G.n) + OutFlow(rec, 0, G.n) == OutFlow(FinalFlows(G, rec, R2), 0, G.n)
  {
    var E2 := EdgeFlows(G, R2);
    NetOutByEdges(G, R2, 0);
    SumZero(InFlowCol(E2, 0), 0, G.n);
    FlowsAdd(FinalFlows(G, rec, R2), rec, E2, 0, G.n);
  }

  /** The reported value: the second search's value plus the baseline leaving
      the source is the final flow leaving the source. */
  lemma FinalValue(G: Graph, R1: Arcs, R2: Arcs)
    requires Phase1Passed(G, R1) && Simple(G) && NoEdgeIntoSource(G)
    requires Phase2Done(G, Reseed(Detach(R1, G.n)), R2)
    ensures NetOut(R2, 0, G.n) + OutFlow(Recorded(G, Detach(R1, G.n)), 0, G.n)
         == OutFlow(FinalFlows(G, Recorded(G, Detach(R1, G.n)), R2), 0, G.n)
  {
    SecondRowShape(G, R1, R2, 0);
    SumValue(G, Recorded(G, Detach(R1, G.n)), R2);
  }
}
