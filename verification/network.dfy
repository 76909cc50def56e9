/** The input flow network: nodes 0 .. n-1 (0 is the source s, n-1 the sink t)
    and directed edges keyed by their ordered endpoint pair, each with a
    capacity and a lower bound ("demand"). A flow assignment maps each edge to
    the flow it carries. */
module Network {
  import opened Sums

  datatype Edge = Edge(capacity: int, demand: int)

  datatype Graph = Graph(n: int, edges: map<(int, int), Edge>)

  /** The "infinite" capacity of the return arc and of the second search. */
  const INF_VALUE: int := 300

  /** Some pair of nodes has, in its two directions together, more than half
      INF_VALUE as capacity. */
  ghost predicate WidePair(G: Graph)
  {
    exists u, v :: 0 <= u < G.n && 0 <= v < G.n && INF_VALUE < 2 * (Capacity(G, u, v) + Capacity(G, v, u))
  }

  /** Endpoints are nodes of the graph and 0 <= demand <= capacity on every edge. */
  ghost predicate WellFormed(G: Graph)
  {
    && 0 <= G.n
    && forall u, v | (u, v) in G.edges ::
         && 0 <= u < G.n && 0 <= v < G.n
         && 0 <= G.edges[(u, v)].demand <= G.edges[(u, v)].capacity
  }

  /** No self-loops, no pair of opposite edges, and no edge joining the source
      and the sink: the networks on which the reduction loses no information. */
  ghost predicate Simple(G: Graph)
  {
    forall u, v | (u, v) in G.edges ::
      && u != v
      && (v, u) !in G.edges
      && (u, v) != (0, G.n - 1)
      && (u, v) != (G.n - 1, 0)
  }

  /** No edge enters the source. */
  ghost predicate NoEdgeIntoSource(G: Graph)
  {
    forall u | 0 <= u < G.n :: (u, 0) !in G.edges
  }

  /** Capacity of edge (u, v); 0 when there is no such edge. */
  function Capacity(G: Graph, u: int, v: int): int
  {
    if (u, v) in G.edges then G.edges[(u, v)].capacity else 0
  }

  /** Lower bound of edge (u, v); 0 when there is no such edge. */
  function Demand(G: Graph, u: int, v: int): int
  {
    if (u, v) in G.edges then G.edges[(u, v)].demand else 0
  }

  /** Flow that the assignment F puts on edge (u, v); 0 when unassigned. */
  function FlowAt(F: map<(int, int), int>, u: int, v: int): int
  {
    if (u, v) in F then F[(u, v)] else 0
  }

  function OutFlowRow(F: map<(int, int), int>, v: int): int -> int
  {
    w => FlowAt(F, v, w)
  }

  function InFlowCol(F: map<(int, int), int>, v: int): int -> int
  {
    w => FlowAt(F, w, v)
  }

  /** Total flow leaving v. */
  function OutFlow(F: map<(int, int), int>, v: int, n: int): int
  {
    Sum(OutFlowRow(F, v), 0, n)
  }

  /** Total flow entering v. */
  function InFlow(F: map<(int, int), int>, v: int, n: int): int
  {
    Sum(InFlowCol(F, v), 0, n)
  }

  /** F assigns every edge, and only edges, a flow between its lower bound and
      its capacity. */
  ghost predicate WithinBounds(G: Graph, F: map<(int, int), int>)
  {
    && F.Keys == G.edges.Keys
    && forall p | p in G.edges :: G.edges[p].demand <= F[p] <= G.edges[p].capacity
  }

  /** Inflow equals outflow at every node other than the source and the sink. */
  ghost predicate Conserves(G: Graph, F: map<(int, int), int>)
  {
    forall v :: 0 < v < G.n - 1 ==> InFlow(F, v, G.n) == OutFlow(F, v, G.n)
  }

  /** A flow that satisfies every lower bound, every capacity and conservation. */
  ghost predicate FeasibleFlow(G: Graph, F: map<(int, int), int>)
  {
    WithinBounds(G, F) && Conserves(G, F)
  }

  /** Outflow and inflow are additive in the flow assignment. */
  lemma FlowsAdd(F: map<(int, int), int>, A: map<(int, int), int>, B: map<(int, int), int>, v: int, n: int)
    requires forall u, w :: FlowAt(F, u, w) == FlowAt(A, u, w) + FlowAt(B, u, w)
    ensures OutFlow(F, v, n) == OutFlow(A, v, n) + OutFlow(B, v, n)
    ensures InFlow(F, v, n) == InFlow(A, v, n) + InFlow(B, v, n)
  {
    SumAdd(OutFlowRow(A, v), OutFlowRow(B, v), OutFlowRow(F, v), 0, n);
    SumAdd(InFlowCol(A, v), InFlowCol(B, v), InFlowCol(F, v), 0, n);
  }
}
