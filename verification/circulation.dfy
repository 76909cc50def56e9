/** The feasibility test as the design describes it: a network has a feasible
    flow exactly when a search from the super-source saturates every arc
    leaving it. The classical reduction that makes this true gives every
    node, the source and the sink included, an arc from the super-source
    carrying its inbound demand total and an arc to the super-sink carrying
    its outbound one, and joins the source and the sink in both directions
    by arcs wide enough for the value of any flow. This module defines that
    corrected auxiliary network and its test, and proves that every feasible
    flow of a simple network makes the test pass. */
module Circulation {
  import opened Sums
  import opened Network
  import opened Residual
  import opened Search
  import opened Reduction
  import opened Cuts
  import opened Phases
  import opened Correctness
  import opened FlowWithDemands

  /** Capacity as a function of both endpoints. */
  function CapacityFn(G: Graph): (int, int) -> int
  {
    (u, v) => Capacity(G, u, v)
  }

  /** The capacities of all edges added up: no flow's value exceeds it. */
  function TotalCapacity(G: Graph): int
  {
    Sum(RowSums(CapacityFn(G), 0, G.n), 0, G.n)
  }

  /** The inbound demand totals of all nodes, the source and the sink included. */
  function AllIn(G: Graph): int
  {
    Sum(InDemands(G), 0, G.n)
  }

  /** The outbound demand totals of all nodes. */
  function AllOut(G: Graph): int
  {
    Sum(OutDemands(G), 0, G.n)
  }

  /** The pairs the corrected auxiliary network has an arc for. */
  predicate CirculationPair(G: Graph, u: int, v: int)
  {
    || (u, v) in G.edges
    || (u == G.n && 0 <= v < G.n)
    || (v == G.n + 1 && 0 <= u < G.n)
    || (u, v) == (G.n - 1, 0)
    || (u, v) == (0, G.n - 1)
  }

  /** The capacity the corrected auxiliary network gives a pair: the return
      arcs are as wide as the whole network, a super arc carries its node's
      demand total, and an original edge its capacity minus its lower bound. */
  function CirculationCapacity(G: Graph, u: int, v: int): int
  {
    if (u, v) == (G.n - 1, 0) || (u, v) == (0, G.n - 1) then TotalCapacity(G)
    else if u == G.n then InDemand(G, v)
    else if v == G.n + 1 then OutDemand(G, u)
    else if (u, v) in G.edges then G.edges[(u, v)].capacity - G.edges[(u, v)].demand
    else 0
  }

  /** The corrected auxiliary network: every original edge stripped of its
      lower bound, super arcs for every node, the source and the sink
      included, and return arcs (n-1, 0) and (0, n-1) whose capacity is the
      total capacity of the network. */
  function CirculationCapacities(G: Graph): (caps: map<(int, int), int>)
    requires WellFormed(G) && 1 <= G.n
    ensures forall u, v :: (u, v) in caps <==> CirculationPair(G, u, v)
    ensures forall u, v | (u, v) in caps :: caps[(u, v)] == CirculationCapacity(G, u, v)
  {
    map u, v | 0 <= u < G.n + 2 && 0 <= v < G.n + 2 && CirculationPair(G, u, v) :: (u, v) := CirculationCapacity(G, u, v)
  }

  function Max0(x: int): int
  {
    if x < 0 then 0 else x
  }

  /** What the return arcs carry for a flow F: its value back from the sink
      to the source, or from the source to the sink when the value is
      negative. */
  function ReturnAt(G: Graph, F: map<(int, int), int>, u: int, v: int): int
  {
    (if (u, v) == (G.n - 1, 0) then Max0(NetValue(F, G.n)) else 0)
    + (if (u, v) == (0, G.n - 1) then Max0(-NetValue(F, G.n)) else 0)
  }

  /** What the super arcs carry: each node's demand totals. */
  function SuperAt(G: Graph, u: int, v: int): int
  {
    (if u == G.n && 0 <= v < G.n then InDemand(G, v) else 0)
    + (if v == G.n + 1 && 0 <= u < G.n then OutDemand(G, u) else 0)
  }

  /** What a flow F of G induces on the pair (u, v) of the corrected
      auxiliary network: an original edge carries its flow minus its lower
      bound, a super arc its node's demand total, and a return arc F's value. */
  function InducedAt(G: Graph, F: map<(int, int), int>, u: int, v: int): int
  {
    FlowAt(F, u, v) - Demand(G, u, v) + SuperAt(G, u, v) + ReturnAt(G, F, u, v)
  }

  /** The induced assignment over the nodes of the auxiliary network. */
  function Induced(G: Graph, F: map<(int, int), int>): (g: map<(int, int), int>)
    ensures forall u, v | 0 <= u < G.n + 2 && 0 <= v < G.n + 2 :: FlowAt(g, u, v) == InducedAt(G, F, u, v)
  {
    map u, v | 0 <= u < G.n + 2 && 0 <= v < G.n + 2 :: (u, v) := InducedAt(G, F, u, v)
  }

  /** What the return arcs add to the outflow of node x. */
  function ReturnOut(G: Graph, F: map<(int, int), int>, x: int): int
  {
    (if x == G.n - 1 then Max0(NetValue(F, G.n)) else 0) + (if x == 0 then Max0(-NetValue(F, G.n)) else 0)
  }

  /** What the return arcs add to the inflow of node x. */
  function ReturnIn(G: Graph, F: map<(int, int), int>, x: int): int
  {
    (if x == 0 then Max0(NetValue(F, G.n)) else 0) + (if x == G.n - 1 then Max0(-NetValue(F, G.n)) else 0)
  }

  function ReturnRow(G: Graph, F: map<(int, int), int>, x: int): int -> int
  {
    w => ReturnAt(G, F, x, w)
  }

  function ReturnCol(G: Graph, F: map<(int, int), int>, x: int): int -> int
  {
    w => ReturnAt(G, F, w, x)
  }

  /** Among the original nodes, the return arcs leave x with ReturnOut. */
  lemma ReturnRowSum(G: Graph, F: map<(int, int), int>, x: int)
    requires 3 <= G.n && 0 <= x < G.n
    ensures Sum(ReturnRow(G, F, x), 0, G.n) == ReturnOut(G, F, x)
  {
    var n, row := G.n, ReturnRow(G, F, x);
    SumZero(w => 0, 0, n);
    if x == n - 1 {
      SumUpdate(w => 0, row, 0, 0, n);
    } else if x == 0 {
      SumUpdate(w => 0, row, n - 1, 0, n);
    } else {
      SumZero(row, 0, n);
    }
  }

  /** Among the original nodes, the return arcs enter x with ReturnIn. */
  lemma ReturnColSum(G: Graph, F: map<(int, int), int>, x: int)
    requires 3 <= G.n && 0 <= x < G.n
    ensures Sum(ReturnCol(G, F, x), 0, G.n) == ReturnIn(G, F, x)
  {
    var n, col := G.n, ReturnCol(G, F, x);
    SumZero(w => 0, 0, n);
    if x == 0 {
      SumUpdate(w => 0, col, n - 1, 0, n);
    } else if x == n - 1 {
      SumUpdate(w => 0, col, 0, 0, n);
    } else {
      SumZero(col, 0, n);
    }
  }

  /** Beyond the original nodes, x sends only its outbound demand, to the
      super-sink. */
  lemma InducedRowTail(G: Graph, F: map<(int, int), int>, x: int)
    requires WellFormed(G) && 3 <= G.n && WithinBounds(G, F) && 0 <= x < G.n
    ensures Sum(OutFlowRow(Induced(G, F), x), G.n, G.n + 2) == OutDemand(G, x)
  {
    var n, row := G.n, OutFlowRow(Induced(G, F), x);
    assert (x, n) !in G.edges && (x, n + 1) !in G.edges;
    assert row(n) == InducedAt(G, F, x, n) == 0;
    assert row(n + 1) == InducedAt(G, F, x, n + 1) == OutDemand(G, x);
    assert Sum(row, n + 1, n + 2) == row(n + 1) + Sum(row, n + 2, n + 2);
  }

  /** Beyond the original nodes, x receives only its inbound demand, from
      the super-source. */
  lemma InducedColTail(G: Graph, F: map<(int, int), int>, x: int)
    requires WellFormed(G) && 3 <= G.n && WithinBounds(G, F) && 0 <= x < G.n
    ensures Sum(InFlowCol(Induced(G, F), x), G.n, G.n + 2) == InDemand(G, x)
  {
    var n, col := G.n, InFlowCol(Induced(G, F), x);
    InducedAtSuperSource(G, F, x);
    assert (n + 1, x) !in F;
    assert Sum(col, n + 1, n + 2) == col(n + 1) + Sum(col, n + 2, n + 2);
  }

  /** Among the original nodes, the induced row of x is F's row without the
      lower bounds, plus the return arcs. */
  function EdgeRow(G: Graph, F: map<(int, int), int>, x: int): int -> int
  {
    w => FlowAt(F, x, w) - Demand(G, x, w)
  }

  function EdgeCol(G: Graph, F: map<(int, int), int>, x: int): int -> int
  {
    w => FlowAt(F, w, x) - Demand(G, w, x)
  }

  lemma InducedRowHead(G: Graph, F: map<(int, int), int>, x: int)
    requires 3 <= G.n && 0 <= x < G.n
    ensures Sum(OutFlowRow(Induced(G, F), x), 0, G.n) == OutFlow(F, x, G.n) - OutDemand(G, x) + ReturnOut(G, F, x)
  {
    var n, row := G.n, OutFlowRow(Induced(G, F), x);
    forall w | 0 <= w < n
      ensures row(w) == EdgeRow(G, F, x)(w) + ReturnRow(G, F, x)(w)
    {
      assert row(w) == InducedAt(G, F, x, w);
    }
    SumAdd(EdgeRow(G, F, x), ReturnRow(G, F, x), row, 0, n);
    SumSub(OutFlowRow(F, x), DemandOutRow(G, x), EdgeRow(G, F, x), 0, n);
    ReturnRowSum(G, F, x);
  }

  lemma InducedColHead(G: Graph, F: map<(int, int), int>, x: int)
    requires 3 <= G.n && 0 <= x < G.n
    ensures Sum(InFlowCol(Induced(G, F), x), 0, G.n) == InFlow(F, x, G.n) - InDemand(G, x) + ReturnIn(G, F, x)
  {
    var n, col := G.n, InFlowCol(Induced(G, F), x);
    forall w | 0 <= w < n
      ensures col(w) == EdgeCol(G, F, x)(w) + ReturnCol(G, F, x)(w)
    {
      assert col(w) == InducedAt(G, F, w, x);
    }
    SumAdd(EdgeCol(G, F, x), ReturnCol(G, F, x), col, 0, n);
    SumSub(InFlowCol(F, x), DemandInCol(G, x), EdgeCol(G, F, x), 0, n);
    ReturnColSum(G, F, x);
  }

  /** An original node's outflow in the induced assignment: its outflow in
      F, plus what the return arcs carry out of it (its outbound demand
      moves from the edges to its arc to the super-sink). */
  lemma InducedRow(G: Graph, F: map<(int, int), int>, x: int)
    requires WellFormed(G) && 3 <= G.n && WithinBounds(G, F) && 0 <= x < G.n
    ensures OutFlow(Induced(G, F), x, G.n + 2) == OutFlow(F, x, G.n) + ReturnOut(G, F, x)
  {
    SumSplit(OutFlowRow(Induced(G, F), x), 0, G.n, G.n + 2);
    InducedRowHead(G, F, x);
    InducedRowTail(G, F, x);
  }

  /** An original node's inflow in the induced assignment: its inflow in F,
      plus what the return arcs carry into it. */
  lemma InducedCol(G: Graph, F: map<(int, int), int>, x: int)
    requires WellFormed(G) && 3 <= G.n && WithinBounds(G, F) && 0 <= x < G.n
    ensures InFlow(Induced(G, F), x, G.n + 2) == InFlow(F, x, G.n) + ReturnIn(G, F, x)
  {
    SumSplit(InFlowCol(Induced(G, F), x), 0, G.n, G.n + 2);
    InducedColHead(G, F, x);
    InducedColTail(G, F, x);
  }

  /** Flow as a function of both endpoints. */
  function FlowFn(F: map<(int, int), int>): (int, int) -> int
  {
    (u, v) => FlowAt(F, u, v)
  }

  /** Net outflow of each node. */
  function NetFlows(F: map<(int, int), int>, n: int): int -> int
  {
    x => OutFlow(F, x, n) - InFlow(F, x, n)
  }

  /** Every unit that leaves a node enters one: the net outflows of all
      nodes add up to 0. */
  lemma NetFlowsCancel(F: map<(int, int), int>, n: int)
    ensures Sum(NetFlows(F, n), 0, n) == 0
  {
    var f := FlowFn(F);
    SumSwap(f, 0, n, 0, n);
    forall x | 0 <= x < n
      ensures RowSums(f, 0, n)(x) == OutFlow(F, x, n) && ColSums(f, 0, n)(x) == InFlow(F, x, n)
    {
      SumExt(Row(f, x), OutFlowRow(F, x), 0, n);
      SumExt(Col(f, x), InFlowCol(F, x), 0, n);
    }
    SumExt(RowSums(f, 0, n), x => OutFlow(F, x, n), 0, n);
    SumExt(ColSums(f, 0, n), x => InFlow(F, x, n), 0, n);
    SumSub(x => OutFlow(F, x, n), x => InFlow(F, x, n), NetFlows(F, n), 0, n);
  }

  /** What a conserving flow sends out of the source, the sink takes in. */
  lemma SinkTakesValue(G: Graph, F: map<(int, int), int>)
    requires Conserves(G, F) && 2 <= G.n
    ensures OutFlow(F, G.n - 1, G.n) - InFlow(F, G.n - 1, G.n) == -NetValue(F, G.n)
  {
    var n, net := G.n, NetFlows(F, G.n);
    NetFlowsCancel(F, n);
    SumSplit(net, 0, 1, n);
    SumSplit(net, 1, n - 1, n);
    SumZero(net, 1, n - 1);
    assert Sum(net, n - 1, n) == net(n - 1) + Sum(net, n, n);
  }

  /** The induced assignment is balanced at every original node: the return
      arcs carry the source's surplus back to it from the sink. */
  lemma InducedConserves(G: Graph, F: map<(int, int), int>, x: int)
    requires WellFormed(G) && 3 <= G.n && FeasibleFlow(G, F) && 0 <= x < G.n
    ensures OutFlow(Induced(G, F), x, G.n + 2) == InFlow(Induced(G, F), x, G.n + 2)
  {
    InducedRow(G, F, x);
    InducedCol(G, F, x);
    if x == G.n - 1 {
      SinkTakesValue(G, F);
    }
  }

  /** The pairs at the super-source carry the inbound demand totals out of
      it and nothing into it. */
  lemma InducedAtSuperSource(G: Graph, F: map<(int, int), int>, w: int)
    requires WellFormed(G) && 3 <= G.n && WithinBounds(G, F) && 0 <= w < G.n + 2
    ensures InducedAt(G, F, G.n, w) == if w < G.n then InDemand(G, w) else 0
    ensures InducedAt(G, F, w, G.n) == 0
  {
    assert (G.n, w) !in F && (w, G.n) !in F;
  }

  /** The super-source's row and column of the induced flow. */
  lemma InducedSourceRow(G: Graph, F: map<(int, int), int>)
    requires WellFormed(G) && 3 <= G.n && WithinBounds(G, F)
    ensures forall w | 0 <= w < G.n + 2 ::
              && OutFlowRow(Induced(G, F), G.n)(w) == (if w < G.n then InDemands(G)(w) else 0)
              && InFlowCol(Induced(G, F), G.n)(w) == 0
  {
    forall w | 0 <= w < G.n + 2
      ensures OutFlowRow(Induced(G, F), G.n)(w) == (if w < G.n then InDemands(G)(w) else 0)
      ensures InFlowCol(Induced(G, F), G.n)(w) == 0
    {
      InducedAtSuperSource(G, F, w);
    }
  }

  /** The super-source sends every node its inbound demand total and
      receives nothing. */
  lemma InducedSource(G: Graph, F: map<(int, int), int>)
    requires WellFormed(G) && 3 <= G.n && WithinBounds(G, F)
    ensures OutFlow(Induced(G, F), G.n, AuxNodes(G)) - InFlow(Induced(G, F), G.n, AuxNodes(G)) == AllIn(G)
  {
    var n, g := G.n, Induced(G, F);
    var row, col := OutFlowRow(g, n), InFlowCol(g, n);
    InducedSourceRow(G, F);
    SumRowOfDemands(row, InDemands(G), n);
    SumZero(col, 0, n + 2);
  }

  /** Outflow along a row is bounded by the row's capacities. */
  lemma OutFlowBelowCapacity(G: Graph, F: map<(int, int), int>, x: int)
    requires WithinBounds(G, F)
    ensures OutFlow(F, x, G.n) <= RowSums(CapacityFn(G), 0, G.n)(x)
  {
    SumLe(OutFlowRow(F, x), Row(CapacityFn(G), x), 0, G.n);
  }

  /** Inflow along a column is bounded by the column's capacities. */
  lemma InFlowBelowCapacity(G: Graph, F: map<(int, int), int>, x: int)
    requires WithinBounds(G, F)
    ensures InFlow(F, x, G.n) <= ColSums(CapacityFn(G), 0, G.n)(x)
  {
    SumLe(InFlowCol(F, x), Col(CapacityFn(G), x), 0, G.n);
  }

  /** No flow of a well-formed network has a value, in either direction,
      larger than the network's total capacity. */
  lemma ValueWithinTotalCapacity(G: Graph, F: map<(int, int), int>)
    requires WellFormed(G) && 1 <= G.n && WithinBounds(G, F)
    ensures -TotalCapacity(G) <= NetValue(F, G.n) <= TotalCapacity(G)
  {
    var n, c := G.n, CapacityFn(G);
    forall x | 0 <= x < n
      ensures 0 <= RowSums(c, 0, n)(x) && 0 <= ColSums(c, 0, n)(x)
    {
      SumNonNegative(Row(c, x), 0, n);
      SumNonNegative(Col(c, x), 0, n);
    }
    SumNonNegative(OutFlowRow(F, 0), 0, n);
    SumNonNegative(InFlowCol(F, 0), 0, n);
    OutFlowBelowCapacity(G, F, 0);
    InFlowBelowCapacity(G, F, 0);
    SumBoundsTerm(RowSums(c, 0, n), 0, 0, n);
    SumBoundsTerm(ColSums(c, 0, n), 0, 0, n);
    SumSwap(c, 0, n, 0, n);
  }

  /** The library's view of the corrected auxiliary network: an arc of the
      pair's capacity when that is positive and the pair is not a loop. */
  lemma CirculationCapOf(G: Graph, u: int, v: int)
    requires WellFormed(G) && 1 <= G.n
    ensures CapOf(Build(CirculationCapacities(G)), u, v) ==
              if u != v && CirculationPair(G, u, v) && CirculationCapacity(G, u, v) > 0 then CirculationCapacity(G, u, v) else 0
  {
  }

  /** Any amount between 0 and a pair's capacity fits on the library's arc
      for that pair. */
  lemma FitsPair(G: Graph, u: int, v: int, x: int)
    requires WellFormed(G) && 1 <= G.n && u != v && CirculationPair(G, u, v)
    requires 0 <= x <= CirculationCapacity(G, u, v)
    ensures x <= CapOf(Build(CirculationCapacities(G)), u, v)
  {
    CirculationCapOf(G, u, v);
  }

  /** An original edge carries its flow minus its lower bound, within
      [0, capacity - lower bound]. */
  lemma InducedOnEdge(G: Graph, F: map<(int, int), int>, u: int, v: int)
    requires WellFormed(G) && Simple(G) && 3 <= G.n && WithinBounds(G, F) && (u, v) in G.edges
    ensures 0 <= InducedAt(G, F, u, v) <= CapOf(Build(CirculationCapacities(G)), u, v)
  {
    assert InducedAt(G, F, u, v) == F[(u, v)] - G.edges[(u, v)].demand;
    assert CirculationCapacity(G, u, v) == G.edges[(u, v)].capacity - G.edges[(u, v)].demand;
    FitsPair(G, u, v, InducedAt(G, F, u, v));
  }

  /** The return arcs carry the value, which the total capacity bounds. */
  lemma InducedOnReturn(G: Graph, F: map<(int, int), int>, u: int, v: int)
    requires WellFormed(G) && Simple(G) && 3 <= G.n && WithinBounds(G, F)
    requires (u, v) == (G.n - 1, 0) || (u, v) == (0, G.n - 1)
    ensures 0 <= InducedAt(G, F, u, v) <= CapOf(Build(CirculationCapacities(G)), u, v)
  {
    assert (u, v) !in G.edges;
    ValueWithinTotalCapacity(G, F);
    FitsPair(G, u, v, InducedAt(G, F, u, v));
  }

  /** A super arc carries exactly its capacity. */
  lemma InducedOnSuper(G: Graph, F: map<(int, int), int>, u: int, v: int)
    requires WellFormed(G) && 3 <= G.n && WithinBounds(G, F)
    requires (u == G.n && 0 <= v < G.n) || (v == G.n + 1 && 0 <= u < G.n)
    ensures 0 <= InducedAt(G, F, u, v) <= CapOf(Build(CirculationCapacities(G)), u, v)
  {
    assert (u, v) !in G.edges;
    DemandsNonNegative(G, u);
    DemandsNonNegative(G, v);
    FitsPair(G, u, v, InducedAt(G, F, u, v));
  }

  /** Every other pair carries nothing. */
  lemma InducedElsewhere(G: Graph, F: map<(int, int), int>, u: int, v: int)
    requires WellFormed(G) && 3 <= G.n && WithinBounds(G, F)
    requires !CirculationPair(G, u, v)
    ensures InducedAt(G, F, u, v) == 0 <= CapOf(Build(CirculationCapacities(G)), u, v)
  {
    assert (u, v) !in F;
  }

  /** The induced assignment stays within the corrected auxiliary network's
      capacities on every pair. */
  lemma InducedWithinAt(G: Graph, F: map<(int, int), int>, u: int, v: int)
    requires WellFormed(G) && Simple(G) && 3 <= G.n && WithinBounds(G, F)
    ensures 0 <= InducedAt(G, F, u, v) <= CapOf(Build(CirculationCapacities(G)), u, v)
  {
    if (u, v) in G.edges {
      InducedOnEdge(G, F, u, v);
    } else if (u == G.n && 0 <= v < G.n) || (v == G.n + 1 && 0 <= u < G.n) {
      InducedOnSuper(G, F, u, v);
    } else if (u, v) == (G.n - 1, 0) || (u, v) == (0, G.n - 1) {
      InducedOnReturn(G, F, u, v);
    } else {
      InducedElsewhere(G, F, u, v);
    }
  }

  /** The super-source's arc towards w has w's inbound demand total as
      capacity. */
  lemma SuperSourceArc(G: Graph, w: int)
    requires WellFormed(G) && 3 <= G.n && 0 <= w < G.n + 2
    ensures CapOf(Build(CirculationCapacities(G)), G.n, w) == if w < G.n then InDemand(G, w) else 0
  {
    CirculationCapOf(G, G.n, w);
    DemandsNonNegative(G, w);
  }

  /** The arcs out of the super-source add up to the demand total of all
      nodes. */
  lemma SuperSourceCapOut(G: Graph)
    requires WellFormed(G) && 3 <= G.n
    ensures CapOut(Build(CirculationCapacities(G)), G.n, AuxNodes(G)) == AllIn(G)
  {
    var n, row := G.n, CapRow(Build(CirculationCapacities(G)), G.n);
    SuperSourceRow(G);
    SumRowOfDemands(row, InDemands(G), n);
  }

  lemma SuperSourceRow(G: Graph)
    requires WellFormed(G) && 3 <= G.n
    ensures forall w | 0 <= w < G.n + 2 ::
              CapRow(Build(CirculationCapacities(G)), G.n)(w) == if w < G.n then InDemands(G)(w) else 0
  {
    forall w | 0 <= w < G.n + 2
      ensures CapRow(Build(CirculationCapacities(G)), G.n)(w) == if w < G.n then InDemands(G)(w) else 0
    {
      SuperSourceArc(G, w);
    }
  }

  /** A row that agrees with d on [0, n) and is 0 on n and n+1 sums to d's
      sum. */
  lemma SumRowOfDemands(row: int -> int, d: int -> int, n: int)
    requires 0 <= n
    requires forall w | 0 <= w < n + 2 :: row(w) == if w < n then d(w) else 0
    ensures Sum(row, 0, n + 2) == Sum(d, 0, n)
  {
    SumSplit(row, 0, n, n + 2);
    SumExt(row, d, 0, n);
    SumZero(row, n, n + 2);
  }

  /** The residual network of a search on the corrected auxiliary network
      from the super-source n to the super-sink n+1: valid, over the same
      arcs, balanced at every original node, with a closed cut separating
      the two super nodes. */
  ghost predicate CirculationSearched(G: Graph, R: Arcs, S: set<int>)
  {
    && WellFormed(G) && 3 <= G.n
    && SameCapacities(Build(CirculationCapacities(G)), R)
    && SeparatingCut(R, S, G.n, G.n + 1, AuxNodes(G))
  }

  /** The induced assignment fits a residual network over the corrected
      auxiliary network. */
  lemma InducedFits(G: Graph, F: map<(int, int), int>, R: Arcs)
    requires WellFormed(G) && Simple(G) && 3 <= G.n && WithinBounds(G, F)
    requires SameCapacities(Build(CirculationCapacities(G)), R)
    ensures forall u, v :: 0 <= u < AuxNodes(G) && 0 <= v < AuxNodes(G) ==> 0 <= FlowAt(Induced(G, F), u, v) <= CapOf(R, u, v)
  {
    forall u, v | 0 <= u < AuxNodes(G) && 0 <= v < AuxNodes(G)
      ensures 0 <= FlowAt(Induced(G, F), u, v) <= CapOf(R, u, v)
    {
      InducedWithinAt(G, F, u, v);
      SameCapOf(Build(CirculationCapacities(G)), R, u, v);
    }
  }

  /** The induced assignment is balanced everywhere but at the super nodes. */
  lemma InducedBalanced(G: Graph, F: map<(int, int), int>)
    requires WellFormed(G) && 3 <= G.n && FeasibleFlow(G, F)
    ensures forall x :: 0 <= x < AuxNodes(G) && x != G.n && x != G.n + 1 ==>
              OutFlow(Induced(G, F), x, AuxNodes(G)) == InFlow(Induced(G, F), x, AuxNodes(G))
  {
    forall x | 0 <= x < AuxNodes(G) && x != G.n && x != G.n + 1
      ensures OutFlow(Induced(G, F), x, AuxNodes(G)) == InFlow(Induced(G, F), x, AuxNodes(G))
    {
      InducedConserves(G, F, x);
    }
  }

  /** No search sends more out of the super-source than its arcs hold. */
  lemma SearchBelowDemands(G: Graph, R: Arcs)
    requires WellFormed(G) && 3 <= G.n
    requires Valid(R) && SameCapacities(Build(CirculationCapacities(G)), R)
    ensures NetOut(R, G.n, AuxNodes(G)) <= AllIn(G)
  {
    NetOutBelowCapOut(R, G.n, AuxNodes(G));
    CapOutSame(Build(CirculationCapacities(G)), R, G.n, AuxNodes(G));
    SuperSourceCapOut(G);
  }

  /** g fits R, is balanced at every original node and sends every lower
      bound's worth out of the super-source. */
  ghost predicate SaturatesSuperSource(G: Graph, R: Arcs, g: map<(int, int), int>)
  {
    FitsWithSurplus(R, g, G.n, G.n + 1, AuxNodes(G), AllIn(G))
  }

  /** The assignment a feasible flow induces saturates the super-source
      within the capacities of any residual network over the corrected
      auxiliary network. */
  lemma InducedSaturates(G: Graph, F: map<(int, int), int>, R: Arcs) returns (g: map<(int, int), int>)
    requires WellFormed(G) && Simple(G) && 3 <= G.n && FeasibleFlow(G, F)
    requires SameCapacities(Build(CirculationCapacities(G)), R)
    ensures SaturatesSuperSource(G, R, g)
  {
    g := Induced(G, F);
    InducedFits(G, F, R);
    InducedBalanced(G, F);
    InducedSource(G, F);
  }

  /** Every feasible flow of a simple network makes the corrected test pass:
      the flow it induces on the corrected auxiliary network saturates the
      super-source, and no flow beats the search's across its closed cut. */
  lemma FeasibleSaturates(G: Graph, F: map<(int, int), int>, R: Arcs, S: set<int>)
    requires CirculationSearched(G, R, S) && Simple(G) && FeasibleFlow(G, F)
    ensures NetOut(R, G.n, AuxNodes(G)) == AllIn(G)
  {
    var g := InducedSaturates(G, F, R);
    ClosedCutBoundsFlows(R, S, G.n, G.n + 1, AuxNodes(G), g, AllIn(G));
    SearchBelowDemands(G, R);
  }

  /** Every lower bound leaves one node and enters another, so the inbound
      and outbound demand totals of all nodes agree. */
  lemma AllInIsAllOut(G: Graph)
    ensures AllIn(G) == AllOut(G)
  {
    var f, n := DemandFn(G), G.n;
    SumSwap(f, 0, n, 0, n);
    forall x | 0 <= x < n
      ensures RowSums(f, 0, n)(x) == OutDemands(G)(x) && ColSums(f, 0, n)(x) == InDemands(G)(x)
    {
      SumExt(Row(f, x), DemandOutRow(G, x), 0, n);
      SumExt(Col(f, x), DemandInCol(G, x), 0, n);
    }
    SumExt(RowSums(f, 0, n), OutDemands(G), 0, n);
    SumExt(ColSums(f, 0, n), InDemands(G), 0, n);
  }

  /** A search on a network the library builds itself, with its own
      "infinite" capacity: it never gives up. */
  method LibrarySearch(caps: map<(int, int), int>, s: int, t: int, m: int) returns (out: Solve)
    requires 0 <= s < m && 0 <= t < m && s != t
    ensures SearchResult(Build(caps), out, s, t, m)
  {
    var inf := LibraryInf(caps, m);
    LibraryInfPositive(caps, m);
    LibraryNeverRefuses(caps, m);
    out := SearchFromZero(Build(caps), s, t, m, inf);
  }

  /** The corrected feasibility test, run on whatever the library's search
      from the super-source to the super-sink of the corrected network
      returns: the search always solves, carries at most the demand total
      out of the super-source, and carries all of it whenever the network is
      simple and has a feasible flow. The test passes when it carries all of
      it (the outbound total is the same number, see AllInIsAllOut). */
  lemma CirculationSearchResult(G: Graph, out: Solve)
    requires WellFormed(G) && 3 <= G.n
    ensures SearchResult(Build(CirculationCapacities(G)), out, G.n, G.n + 1, AuxNodes(G)) ==>
              && out.Solved? && 0 <= out.value <= AllIn(G)
              && (Simple(G) ==> forall F :: FeasibleFlow(G, F) ==> out.value == AllIn(G))
  {
    if !SearchResult(Build(CirculationCapacities(G)), out, G.n, G.n + 1, AuxNodes(G)) {
      return;
    }
    assert CirculationSearched(G, out.residual, out.cut);
    SearchBelowDemands(G, out.residual);
    forall F | Simple(G) && FeasibleFlow(G, F)
      ensures out.value == AllIn(G)
    {
      FeasibleSaturates(G, F, out.residual, out.cut);
    }
  }
}
