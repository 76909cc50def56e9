/** Cuts of the input network: a set of nodes holding the source and not the
    sink. The net flow a conserving assignment sends out of the source equals
    the net flow it sends across any such cut, which bounds every feasible flow
    by a flow that fills the cut's forward edges and holds its backward edges
    at their lower bounds. */
module Cuts {
  import opened Sums
  import opened Network

  /** Flow on (u, v) counted positively when it leaves S, negatively when it
      enters S, and not at all when it stays on one side. */
  function Crossing(F: map<(int, int), int>, S: set<int>): (int, int) -> int
  {
    (u, v) => if u in S && v !in S then FlowAt(F, u, v)
              else if u !in S && v in S then -FlowAt(F, u, v)
              else 0
  }

  /** Flow on (u, v) when u lies in S. */
  function FromSet(F: map<(int, int), int>, S: set<int>): (int, int) -> int
  {
    (u, v) => if u in S then FlowAt(F, u, v) else 0
  }

  /** Flow on (u, v) when v lies in S. */
  function IntoSet(F: map<(int, int), int>, S: set<int>): (int, int) -> int
  {
    (u, v) => if v in S then FlowAt(F, u, v) else 0
  }

  /** Net flow leaving each node of S; 0 outside S. */
  function Surplus(F: map<(int, int), int>, S: set<int>, n: int): int -> int
  {
    u => if u in S then OutFlow(F, u, n) - InFlow(F, u, n) else 0
  }

  /** Net flow across the cut S among the nodes 0 .. n-1. */
  function CutFlow(F: map<(int, int), int>, S: set<int>, n: int): int
  {
    Sum(RowSums(Crossing(F, S), 0, n), 0, n)
  }

  /** Net flow out of the source: what leaves it minus what enters it. */
  function NetValue(F: map<(int, int), int>, n: int): int
  {
    OutFlow(F, 0, n) - InFlow(F, 0, n)
  }

  /** S separates the source from the sink. */
  ghost predicate SourceSide(G: Graph, S: set<int>)
  {
    0 in S && G.n - 1 !in S
  }

  /** F fills every edge leaving S and holds every edge entering S at its
      lower bound. */
  ghost predicate TightCut(G: Graph, F: map<(int, int), int>, S: set<int>)
  {
    && (forall u, v | (u, v) in G.edges && u in S && v !in S :: FlowAt(F, u, v) == G.edges[(u, v)].capacity)
    && (forall u, v | (u, v) in G.edges && u !in S && v in S :: FlowAt(F, u, v) == G.edges[(u, v)].demand)
  }

  /** Adding up the surplus of the nodes of S: each edge inside S cancels, so
      the total is the net flow across the cut. */
  lemma {:induction false} SurplusIsCrossing(F: map<(int, int), int>, S: set<int>, n: int)
    ensures Sum(Surplus(F, S, n), 0, n) == CutFlow(F, S, n)
  {
    var cross, from, into := Crossing(F, S), FromSet(F, S), IntoSet(F, S);
    forall u | 0 <= u < n
      ensures RowSums(cross, 0, n)(u) == RowSums(from, 0, n)(u) - RowSums(into, 0, n)(u)
    {
      SumSub(Row(from, u), Row(into, u), Row(cross, u), 0, n);
    }
    SumSub(RowSums(from, 0, n), RowSums(into, 0, n), RowSums(cross, 0, n), 0, n);
    SumSwap(into, 0, n, 0, n);
    forall u | 0 <= u < n
      ensures Surplus(F, S, n)(u) == RowSums(from, 0, n)(u) - ColSums(into, 0, n)(u)
    {
      if u in S {
        SumExt(Row(from, u), OutFlowRow(F, u), 0, n);
        SumExt(Col(into, u), InFlowCol(F, u), 0, n);
      } else {
        SumZero(Row(from, u), 0, n);
        SumZero(Col(into, u), 0, n);
      }
    }
    SumSub(RowSums(from, 0, n), ColSums(into, 0, n), Surplus(F, S, n), 0, n);
  }

  /** For a conserving assignment, the net flow out of the source equals the
      net flow across any cut separating the source from the sink. */
  lemma {:induction false} ValueCrossesCut(G: Graph, F: map<(int, int), int>, S: set<int>)
    requires Conserves(G, F) && SourceSide(G, S)
    ensures NetValue(F, G.n) == CutFlow(F, S, G.n)
  {
    var n := G.n;
    var surplus := Surplus(F, S, n);
    SurplusIsCrossing(F, S, n);
    if n <= 0 {
      SumZero(OutFlowRow(F, 0), 0, n);
      SumZero(InFlowCol(F, 0), 0, n);
    } else {
      forall u | 1 <= u < n
        ensures surplus(u) == 0
      {
        if u in S {
          assert u != n - 1;
        }
      }
      SumZero(surplus, 1, n);
      SumSplit(surplus, 0, 1, n);
      assert Sum(surplus, 0, 1) == surplus(0) + Sum(surplus, 1, 1);
    }
  }

  /** Edge by edge, a feasible flow crosses a tight cut no more than the flow
      that makes it tight. */
  lemma CrossingBelowTight(G: Graph, F: map<(int, int), int>, F': map<(int, int), int>, S: set<int>, u: int, v: int)
    requires WithinBounds(G, F) && WithinBounds(G, F') && TightCut(G, F, S)
    ensures Crossing(F', S)(u, v) <= Crossing(F, S)(u, v)
  {
  }

  /** Weak duality for flows with lower bounds: no feasible flow sends more
      net flow out of the source than a feasible flow that makes some cut
      tight. */
  lemma {:induction false} TightCutIsMaximum(G: Graph, F: map<(int, int), int>, F': map<(int, int), int>, S: set<int>)
    requires FeasibleFlow(G, F) && FeasibleFlow(G, F')
    requires SourceSide(G, S) && TightCut(G, F, S)
    ensures NetValue(F', G.n) <= NetValue(F, G.n)
  {
    var n := G.n;
    ValueCrossesCut(G, F, S);
    ValueCrossesCut(G, F', S);
    forall u | 0 <= u < n
      ensures RowSums(Crossing(F', S), 0, n)(u) <= RowSums(Crossing(F, S), 0, n)(u)
    {
      forall v | 0 <= v < n
        ensures Row(Crossing(F', S), u)(v) <= Row(Crossing(F, S), u)(v)
      {
        CrossingBelowTight(G, F, F', S, u, v);
      }
      SumLe(Row(Crossing(F', S), u), Row(Crossing(F, S), u), 0, n);
    }
    SumLe(RowSums(Crossing(F', S), 0, n), RowSums(Crossing(F, S), 0, n), 0, n);
  }

  /** Without edges into the source, the net value is what leaves it. */
  lemma NetValueWithoutInflow(G: Graph, F: map<(int, int), int>)
    requires WithinBounds(G, F) && NoEdgeIntoSource(G)
    ensures NetValue(F, G.n) == OutFlow(F, 0, G.n)
  {
    SumZero(InFlowCol(F, 0), 0, G.n);
  }
}
