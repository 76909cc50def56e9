/** What happens to the auxiliary residual network once the feasibility test
    has passed: the super nodes and the arcs between source and sink are
    removed, the phase-1 flow is recorded as the baseline and the network is
    reseeded so that the second search starts from that baseline. */
module Reconstruction {
  import opened Network
  import opened Residual

  /** Removes the super-source n, the super-sink n+1 (with every arc touching
      them) and the two arcs joining the sink n-1 and the source 0. */
  function Detach(R: Arcs, n: int): (D: Arcs)
    ensures forall u, v :: (u, v) in D <==>
              && (u, v) in R
              && u != n && u != n + 1 && v != n && v != n + 1
              && (u, v) != (n - 1, 0) && (u, v) != (0, n - 1)
    ensures forall u, v | (u, v) in D :: D[(u, v)] == R[(u, v)]
    ensures Valid(R) ==> Valid(D)
  {
    map p | p in R && p.0 != n && p.0 != n + 1 && p.1 != n && p.1 != n + 1
                   && p != (n - 1, 0) && p != (0, n - 1) :: R[p]
  }

  /** Detaching keeps every arc between two original nodes other than the
      two arcs joining the source and the sink. */
  lemma DetachKeeps(R: Arcs, n: int, u: int, v: int)
    requires 0 <= u < n && 0 <= v < n && (u, v) != (n - 1, 0) && (u, v) != (0, n - 1)
    ensures CapOf(Detach(R, n), u, v) == CapOf(R, u, v) && FlowOf(Detach(R, n), u, v) == FlowOf(R, u, v)
  {
    if (u, v) in R {
      assert (u, v) in Detach(R, n);
    }
  }

  /** The reseeding as the source writes it: an arc whose flow is
      non-negative gets its capacity lowered by that flow; an arc with
      negative flow keeps its capacity; every flow goes back to 0. */
  function ReseedAsWritten(D: Arcs): (S: Arcs)
    ensures S.Keys == D.Keys && ZeroFlow(S)
    ensures forall u, v | (u, v) in D && D[(u, v)].flow >= 0 :: Res(S, u, v) == Res(D, u, v)
    ensures forall u, v | (u, v) in D && D[(u, v)].flow < 0 :: Res(S, u, v) == Res(D, u, v) + D[(u, v)].flow
    ensures Valid(D) ==> Valid(S)
  {
    map p | p in D :: if D[p].flow >= 0 then Arc(D[p].capacity - D[p].flow, 0) else Arc(D[p].capacity, 0)
  }

  /** The reseeding the source's own comment describes: every arc's capacity
      becomes its residual capacity (capacity minus flow) and its flow goes
      back to 0, so the second search sees exactly the residual network of the
      baseline and may also cancel baseline flow down to the lower bounds. */
  function Reseed(D: Arcs): (S: Arcs)
    ensures S.Keys == D.Keys && ZeroFlow(S)
    ensures forall u, v :: Res(S, u, v) == Res(D, u, v)
    ensures Valid(D) ==> Valid(S)
  {
    map p | p in D :: Arc(D[p].capacity - D[p].flow, 0)
  }

  /** The recorded baseline as the source writes it: one entry per arc with
      non-negative flow, holding that flow plus the edge's lower bound only
      when the edge leaves an internal node and has a positive lower bound. */
  function RecordedAsWritten(G: Graph, D: Arcs): (rec: map<(int, int), int>)
    ensures forall u, v :: (u, v) in rec <==> (u, v) in D && D[(u, v)].flow >= 0
    ensures forall u, v | (u, v) in rec && (u, v) in G.edges && 1 <= u < G.n - 1 && 0 <= G.edges[(u, v)].demand ::
              rec[(u, v)] == D[(u, v)].flow + G.edges[(u, v)].demand
    ensures forall u, v | (u, v) in rec && ((u, v) !in G.edges || u == 0 || u == G.n - 1) ::
              rec[(u, v)] == D[(u, v)].flow
  {
    map p | p in D && D[p].flow >= 0 ::
      D[p].flow + (if p in G.edges && G.edges[p].demand > 0 && 1 <= p.0 < G.n - 1 then G.edges[p].demand else 0)
  }

  /** The recorded baseline as intended: every original edge carries its
      lower bound plus the phase-1 flow on its arc (0 when the library left
      the arc out because its stripped capacity was 0). */
  function Recorded(G: Graph, D: Arcs): (rec: map<(int, int), int>)
    ensures rec.Keys == G.edges.Keys
    ensures forall u, v | (u, v) in G.edges :: rec[(u, v)] - G.edges[(u, v)].demand == FlowOf(D, u, v)
  {
    map p | p in G.edges :: G.edges[p].demand + FlowOf(D, p.0, p.1)
  }

  /** The flow a residual network carries on each original edge. */
  function EdgeFlows(G: Graph, R: Arcs): (F: map<(int, int), int>)
    ensures F.Keys == G.edges.Keys
    ensures forall u, v :: FlowAt(F, u, v) == if (u, v) in G.edges then FlowOf(R, u, v) else 0
  {
    map p | p in G.edges :: FlowOf(R, p.0, p.1)
  }

  /** Each original edge's final flow: its recorded baseline plus the flow the
      second search put on its arc. */
  function FinalFlows(G: Graph, rec: map<(int, int), int>, R2: Arcs): (F: map<(int, int), int>)
    ensures F.Keys == G.edges.Keys
    ensures forall u, v :: FlowAt(F, u, v) == if (u, v) in G.edges then FlowAt(rec, u, v) + FlowOf(R2, u, v) else 0
  {
    map p | p in G.edges :: FlowAt(rec, p.0, p.1) + FlowOf(R2, p.0, p.1)
  }

  /** Reseeding keeps the total capacity of every pair of opposite arcs:
      what one direction loses to the baseline the other gains. */
  lemma ReseedKeepsPairs(D: Arcs, u: int, v: int)
    requires Valid(D)
    ensures CapOf(Reseed(D), u, v) + CapOf(Reseed(D), v, u) == CapOf(D, u, v) + CapOf(D, v, u)
  {
    var S := Reseed(D);
    assert CapOf(S, u, v) == Res(S, u, v) == Res(D, u, v);
    assert CapOf(S, v, u) == Res(S, v, u) == Res(D, v, u);
    Skew(D, u, v);
  }
}
