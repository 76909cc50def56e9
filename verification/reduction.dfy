/** The lower-bound elimination: per-node demand totals, the auxiliary
    network with super-source n and super-sink n+1, stripped capacities and
    the return arc from the sink to the source. */
module Reduction {
  import opened Sums
  import opened Network
  import opened Residual

  /** Lower bound as a function of both endpoints. */
  function DemandFn(G: Graph): (int, int) -> int
  {
    (u, v) => Demand(G, u, v)
  }

  function DemandInCol(G: Graph, v: int): int -> int
  {
    u => Demand(G, u, v)
  }

  function DemandOutRow(G: Graph, u: int): int -> int
  {
    v => Demand(G, u, v)
  }

  /** Sum of the lower bounds of the edges entering v. */
  function InDemand(G: Graph, v: int): int
  {
    Sum(DemandInCol(G, v), 0, G.n)
  }

  /** Sum of the lower bounds of the edges leaving v. */
  function OutDemand(G: Graph, v: int): int
  {
    Sum(DemandOutRow(G, v), 0, G.n)
  }

  function InDemands(G: Graph): int -> int
  {
    v => InDemand(G, v)
  }

  function OutDemands(G: Graph): int -> int
  {
    v => OutDemand(G, v)
  }

  /** d: the inbound demand totals of the internal nodes 1 .. n-2 added up. */
  function TotalIn(G: Graph): int
  {
    Sum(InDemands(G), 1, G.n - 1)
  }

  /** d': the outbound demand totals of the internal nodes added up. */
  function TotalOut(G: Graph): int
  {
    Sum(OutDemands(G), 1, G.n - 1)
  }

  /** Lower bounds on edges from the source or the sink into internal nodes. */
  function FromEnds(G: Graph): int
  {
    Sum(v => Demand(G, 0, v) + Demand(G, G.n - 1, v), 1, G.n - 1)
  }

  /** Lower bounds on edges from internal nodes into the source or the sink. */
  function IntoEnds(G: Graph): int
  {
    Sum(u => Demand(G, u, 0) + Demand(G, u, G.n - 1), 1, G.n - 1)
  }

  /** Demand totals of a well-formed network are non-negative. */
  lemma DemandsNonNegative(G: Graph, v: int)
    requires WellFormed(G)
    ensures 0 <= InDemand(G, v) && 0 <= OutDemand(G, v)
  {
    SumNonNegative(DemandInCol(G, v), 0, G.n);
    SumNonNegative(DemandOutRow(G, v), 0, G.n);
  }

  /** An internal node's inbound demand splits into the part coming from the
      two ends and the part coming from internal nodes. */
  lemma InDemandSplit(G: Graph, v: int)
    requires 2 <= G.n
    ensures InDemand(G, v) == Demand(G, 0, v) + Demand(G, G.n - 1, v) + ColSums(DemandFn(G), 1, G.n - 1)(v)
  {
    var col := Col(DemandFn(G), v);
    SumExt(DemandInCol(G, v), col, 0, G.n);
    SumSplit(col, 0, 1, G.n);
    SumSplit(col, 1, G.n - 1, G.n);
  }

  /** An internal node's outbound demand splits the same way. */
  lemma OutDemandSplit(G: Graph, u: int)
    requires 2 <= G.n
    ensures OutDemand(G, u) == Demand(G, u, 0) + Demand(G, u, G.n - 1) + RowSums(DemandFn(G), 1, G.n - 1)(u)
  {
    var row := Row(DemandFn(G), u);
    SumExt(DemandOutRow(G, u), row, 0, G.n);
    SumSplit(row, 0, 1, G.n);
    SumSplit(row, 1, G.n - 1, G.n);
  }

  /** Double counting: each lower bound between two internal nodes is counted
      once in d and once in d'; the two totals differ exactly by the lower
      bounds on edges between an internal node and the source or sink. */
  lemma DemandBalance(G: Graph)
    requires 2 <= G.n
    ensures TotalIn(G) - TotalOut(G) == FromEnds(G) - IntoEnds(G)
  {
    var n := G.n;
    var f := DemandFn(G);
    var fromEnds := v => Demand(G, 0, v) + Demand(G, n - 1, v);
    var intoEnds := u => Demand(G, u, 0) + Demand(G, u, n - 1);
    forall v | 1 <= v < n - 1
      ensures InDemands(G)(v) == fromEnds(v) + ColSums(f, 1, n - 1)(v)
    {
      InDemandSplit(G, v);
    }
    SumAdd(fromEnds, ColSums(f, 1, n - 1), InDemands(G), 1, n - 1);
    forall u | 1 <= u < n - 1
      ensures OutDemands(G)(u) == intoEnds(u) + RowSums(f, 1, n - 1)(u)
    {
      OutDemandSplit(G, u);
    }
    SumAdd(intoEnds, RowSums(f, 1, n - 1), OutDemands(G), 1, n - 1);
    SumSwap(f, 1, n - 1, 1, n - 1);
  }

  /** Without lower bounds on the edges that touch the source or the sink,
      the feasibility test's two totals agree. */
  lemma BalancedWithoutEndDemands(G: Graph)
    requires 2 <= G.n
    requires forall v :: 0 <= v < G.n ==>
               Demand(G, 0, v) == 0 && Demand(G, G.n - 1, v) == 0 && Demand(G, v, 0) == 0 && Demand(G, v, G.n - 1) == 0
    ensures TotalIn(G) == TotalOut(G)
  {
    DemandBalance(G);
    SumZero(v => Demand(G, 0, v) + Demand(G, G.n - 1, v), 1, G.n - 1);
    SumZero(u => Demand(G, u, 0) + Demand(G, u, G.n - 1), 1, G.n - 1);
  }

  /** The auxiliary network's nodes: the original 0 .. n-1, the super-source
      n and the super-sink n+1. */
  function AuxNodes(G: Graph): int
  {
    G.n + 2
  }

  /** Every original edge with its lower bound taken off its capacity. */
  function Stripped(G: Graph): (r: map<(int, int), int>)
    ensures r.Keys == G.edges.Keys
    ensures forall u, v | (u, v) in G.edges :: r[(u, v)] == G.edges[(u, v)].capacity - G.edges[(u, v)].demand
  {
    map p | p in G.edges :: G.edges[p].capacity - G.edges[p].demand
  }

  /** An arc (n, v) carrying v's inbound demand, for every internal node v. */
  function FromSuperSource(G: Graph): (r: map<(int, int), int>)
    ensures forall u, v :: (u, v) in r <==> u == G.n && 1 <= v < G.n - 1
    ensures forall v | 1 <= v < G.n - 1 :: r[(G.n, v)] == InDemand(G, v)
  {
    map v | 1 <= v < G.n - 1 :: (G.n, v) := InDemand(G, v)
  }

  /** An arc (v, n+1) carrying v's outbound demand, for every internal node v. */
  function ToSuperSink(G: Graph): (r: map<(int, int), int>)
    ensures forall u, v :: (u, v) in r <==> v == G.n + 1 && 1 <= u < G.n - 1
    ensures forall u | 1 <= u < G.n - 1 :: r[(u, G.n + 1)] == OutDemand(G, u)
  {
    map u | 1 <= u < G.n - 1 :: (u, G.n + 1) := OutDemand(G, u)
  }

  /** The auxiliary network's capacities: every original edge stripped of its
      lower bound, the arcs from the super-source and into the super-sink for
      the internal nodes (the source 0 and the sink n-1 get none), and the
      return arc (n-1, 0) with the "infinite" capacity, which replaces any
      original edge from the sink to the source. */
  function AuxCapacities(G: Graph): (caps: map<(int, int), int>)
    requires WellFormed(G)
    ensures forall u, v :: (u, v) in caps <==>
              || (u, v) in G.edges
              || (u == G.n && 1 <= v < G.n - 1)
              || (v == G.n + 1 && 1 <= u < G.n - 1)
              || (u, v) == (G.n - 1, 0)
    ensures forall u, v | (u, v) in G.edges && (u, v) != (G.n - 1, 0) ::
              caps[(u, v)] == G.edges[(u, v)].capacity - G.edges[(u, v)].demand
    ensures forall v | 1 <= v < G.n - 1 ::
              caps[(G.n, v)] == InDemand(G, v) && caps[(v, G.n + 1)] == OutDemand(G, v)
    ensures caps[(G.n - 1, 0)] == INF_VALUE
  {
    var pieces := Stripped(G) + FromSuperSource(G) + ToSuperSink(G);
    pieces[(G.n - 1, 0) := INF_VALUE]
  }

  /** Under the source's precondition 0 <= demand <= capacity every auxiliary
      capacity is non-negative. */
  lemma AuxCapacitiesNonNegative(G: Graph)
    requires WellFormed(G)
    ensures forall p | p in AuxCapacities(G) :: 0 <= AuxCapacities(G)[p]
  {
    var caps := AuxCapacities(G);
    forall p | p in caps
      ensures 0 <= caps[p]
    {
      var u, v := p.0, p.1;
      assert p == (u, v);
      if (u, v) == (G.n - 1, 0) {
      } else if u == G.n {
        DemandsNonNegative(G, v);
      } else if v == G.n + 1 {
        DemandsNonNegative(G, u);
      }
    }
  }

  /** Capacity of the pair (u, v) as the library counts it: self-loops and
      pairs without positive capacity count 0. */
  function PairCapacity(caps: map<(int, int), int>): (int, int) -> int
  {
    (u, v) => if Kept(caps, u, v) then caps[(u, v)] else 0
  }

  /** The library's own "infinite" capacity for a network it builds itself:
      three times the total kept capacity, or 1 when that total is 0. */
  function LibraryInf(caps: map<(int, int), int>, m: int): int
  {
    var total := Sum(RowSums(PairCapacity(caps), 0, m), 0, m);
    if total == 0 then 1 else 3 * total
  }

  /** The library's default "infinite" capacity is at least twice the capacity
      of any pair of nodes in both directions, so it never refuses a path in
      a network it built itself. */
  lemma LibraryInfAbovePairs(caps: map<(int, int), int>, m: int, u: int, v: int)
    requires 0 <= u < m && 0 <= v < m
    ensures 2 * (CapOf(Build(caps), u, v) + CapOf(Build(caps), v, u)) <= LibraryInf(caps, m)
  {
    var f := PairCapacity(caps);
    var rows := RowSums(f, 0, m);
    forall i | 0 <= i < m
      ensures 0 <= rows(i)
    {
      SumNonNegative(Row(f, i), 0, m);
    }
    SumNonNegative(rows, 0, m);
    if u != v {
      SumBoundsTerm(Row(f, u), v, 0, m);
      SumBoundsTerm(Row(f, v), u, 0, m);
      SumBoundsTwoTerms(rows, u, v, 0, m);
    }
  }

  /** The library's "infinite" capacity is positive: kept capacities are. */
  lemma LibraryInfPositive(caps: map<(int, int), int>, m: int)
    ensures 0 < LibraryInf(caps, m)
  {
    var f := PairCapacity(caps);
    var rows := RowSums(f, 0, m);
    forall i | 0 <= i < m
      ensures 0 <= rows(i)
    {
      SumNonNegative(Row(f, i), 0, m);
    }
    SumNonNegative(rows, 0, m);
  }
}
