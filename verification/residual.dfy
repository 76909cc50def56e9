/** The residual network in the representation the max-flow library uses:
    every arc (u, v) carries a capacity and a flow, the reverse arc (v, u)
    is always present, flows are skew-symmetric, and the residual capacity
    of an arc is its capacity minus its flow. */
module Residual {
  import opened Sums

  datatype Arc = Arc(capacity: int, flow: int)

  type Arcs = map<(int, int), Arc>

  /** Flow on arc (u, v); 0 when the arc is absent. */
  function FlowOf(R: Arcs, u: int, v: int): int
  {
    if (u, v) in R then R[(u, v)].flow else 0
  }

  /** Capacity of arc (u, v); 0 when the arc is absent. */
  function CapOf(R: Arcs, u: int, v: int): int
  {
    if (u, v) in R then R[(u, v)].capacity else 0
  }

  /** Residual capacity of arc (u, v); 0 when the arc is absent. */
  function Res(R: Arcs, u: int, v: int): int
  {
    CapOf(R, u, v) - FlowOf(R, u, v)
  }

  /** The library's invariant: reverse arcs exist, flows are skew-symmetric,
      capacities are non-negative and no arc carries more than its capacity. */
  ghost predicate Valid(R: Arcs)
  {
    forall u, v | (u, v) in R ::
      && (v, u) in R
      && R[(v, u)].flow == -R[(u, v)].flow
      && 0 <= R[(u, v)].capacity
      && R[(u, v)].flow <= R[(u, v)].capacity
  }

  /** Every arc joins two nodes of [0, m). */
  ghost predicate InRange(R: Arcs, m: int)
  {
    forall u, v | (u, v) in R :: 0 <= u < m && 0 <= v < m
  }

  /** R' has the same arcs with the same capacities as R (only flows may differ). */
  ghost predicate SameCapacities(R: Arcs, R': Arcs)
  {
    R'.Keys == R.Keys && forall p | p in R :: R'[p].capacity == R[p].capacity
  }

  /** No arc carries flow. */
  ghost predicate ZeroFlow(R: Arcs)
  {
    forall p | p in R :: R[p].flow == 0
  }

  function FlowRow(R: Arcs, u: int): int -> int
  {
    v => FlowOf(R, u, v)
  }

  function CapRow(R: Arcs, u: int): int -> int
  {
    v => CapOf(R, u, v)
  }

  /** Net flow leaving u towards the nodes [0, m) (flows into u count negatively
      through skew symmetry). */
  function NetOut(R: Arcs, u: int, m: int): int
  {
    Sum(FlowRow(R, u), 0, m)
  }

  /** Total capacity of the arcs leaving u towards the nodes [0, m). */
  function CapOut(R: Arcs, u: int, m: int): int
  {
    Sum(CapRow(R, u), 0, m)
  }

  /** The pairs the library keeps from a capacity map: no self-loops and only
      positive capacities. */
  predicate Kept(caps: map<(int, int), int>, u: int, v: int)
  {
    u != v && (u, v) in caps && caps[(u, v)] > 0
  }

  /** The library's residual network for a capacity map: one arc per kept pair
      and a reverse arc of capacity 0 unless the reverse pair is kept too;
      self-loops and pairs of capacity 0 are left out; every flow starts at 0. */
  function Build(caps: map<(int, int), int>): (R: Arcs)
    ensures forall u, v :: (u, v) in R <==> Kept(caps, u, v) || Kept(caps, v, u)
    ensures forall u, v :: CapOf(R, u, v) == if Kept(caps, u, v) then caps[(u, v)] else 0
    ensures ZeroFlow(R) && Valid(R)
  {
    var forward := set p | p in caps && p.0 != p.1 && caps[p] > 0;
    var backward := set p | p in caps && p.0 != p.1 && caps[p] > 0 :: (p.1, p.0);
    map p | p in forward + backward :: Arc(if p in forward then caps[p] else 0, 0)
  }

  /** Flows are skew-symmetric also on absent pairs (both read 0 there). */
  lemma Skew(R: Arcs, u: int, v: int)
    requires Valid(R)
    ensures FlowOf(R, v, u) == -FlowOf(R, u, v)
  {
    if (u, v) !in R {
      assert (v, u) !in R;
    }
  }

  /** Networks with the same arcs and capacities read the same capacity
      everywhere. */
  lemma SameCapOf(R: Arcs, R': Arcs, u: int, v: int)
    requires SameCapacities(R, R')
    ensures CapOf(R', u, v) == CapOf(R, u, v)
  {
    if (u, v) in R {
      assert R'[(u, v)].capacity == R[(u, v)].capacity;
    }
  }

  /** With no flow on any arc, every node's net outflow is 0. */
  lemma NetOutZero(R: Arcs, u: int, m: int)
    requires ZeroFlow(R)
    ensures NetOut(R, u, m) == 0
  {
    SumZero(FlowRow(R, u), 0, m);
  }

  /** In a valid network no arc carries more than its capacity, so a node's net
      outflow never exceeds the capacity leaving it. */
  lemma NetOutBelowCapOut(R: Arcs, u: int, m: int)
    requires Valid(R)
    ensures NetOut(R, u, m) <= CapOut(R, u, m)
  {
    SumLe(FlowRow(R, u), CapRow(R, u), 0, m);
  }

  /** The residual capacity of an arc never exceeds the capacities of the pair
      in both directions (a reverse arc's residual is the forward flow). */
  lemma ResBelowPairCapacity(R: Arcs, u: int, v: int)
    requires Valid(R)
    ensures Res(R, u, v) <= CapOf(R, u, v) + CapOf(R, v, u)
  {
  }

  /** Pushes a units along arc (u, v): its flow grows by a and the reverse
      arc's flow shrinks by a. */
  function Push(R: Arcs, u: int, v: int, a: int): (R': Arcs)
    requires (u, v) in R && (v, u) in R && u != v
    ensures SameCapacities(R, R')
    ensures FlowOf(R', u, v) == FlowOf(R, u, v) + a
    ensures FlowOf(R', v, u) == FlowOf(R, v, u) - a
    ensures forall x, y :: (x, y) != (u, v) && (x, y) != (v, u) ==> FlowOf(R', x, y) == FlowOf(R, x, y)
  {
    var fwd := R[(u, v)];
    var bwd := R[(v, u)];
    R[(u, v) := Arc(fwd.capacity, fwd.flow + a)][(v, u) := Arc(bwd.capacity, bwd.flow - a)]
  }

  /** Consecutive nodes of p are joined by arcs present in both directions. */
  ghost predicate ArcsPresent(R: Arcs, p: seq<int>)
  {
    forall i :: 0 <= i < |p| - 1 ==> (p[i], p[i + 1]) in R && (p[i + 1], p[i]) in R && p[i] != p[i + 1]
  }

  /** No node repeats on p. */
  ghost predicate Distinct(p: seq<int>)
  {
    forall i, j :: 0 <= i < j < |p| ==> p[i] != p[j]
  }

  /** Pushes a units along every arc of the path p. */
  function Augment(R: Arcs, p: seq<int>, a: int): Arcs
    requires ArcsPresent(R, p)
    decreases |p|
  {
    if |p| < 2 then R
    else Augment(Push(R, p[0], p[1], a), p[1..], a)
  }

  /** Augmenting changes flows only: the arcs and their capacities stay. */
  lemma {:induction false} AugmentKeepsCapacities(R: Arcs, p: seq<int>, a: int)
    requires ArcsPresent(R, p)
    ensures SameCapacities(R, Augment(R, p, a))
    decreases |p|
  {
    if |p| >= 2 {
      AugmentKeepsCapacities(Push(R, p[0], p[1], a), p[1..], a);
    }
  }

  /** Pushing along one arc moves a units of net outflow from v to u. */
  lemma PushNetOut(R: Arcs, u: int, v: int, a: int, m: int)
    requires (u, v) in R && (v, u) in R && u != v
    requires 0 <= u < m && 0 <= v < m
    ensures forall x :: NetOut(Push(R, u, v, a), x, m) ==
                        NetOut(R, x, m) + (if x == u then a else 0) - (if x == v then a else 0)
  {
    var R' := Push(R, u, v, a);
    forall x
      ensures NetOut(R', x, m) == NetOut(R, x, m) + (if x == u then a else 0) - (if x == v then a else 0)
    {
      if x == u {
        SumUpdate(FlowRow(R, x), FlowRow(R', x), v, 0, m);
      } else if x == v {
        SumUpdate(FlowRow(R, x), FlowRow(R', x), u, 0, m);
      } else {
        SumExt(FlowRow(R, x), FlowRow(R', x), 0, m);
      }
    }
  }

  /** Augmenting a path by a adds a to the net outflow of its first node,
      removes a from that of its last node and leaves every other node
      balanced as before (flow conservation is preserved). */
  lemma {:induction false} AugmentNetOut(R: Arcs, p: seq<int>, a: int, m: int)
    requires ArcsPresent(R, p) && |p| >= 2
    requires forall i :: 0 <= i < |p| ==> 0 <= p[i] < m
    ensures forall x :: NetOut(Augment(R, p, a), x, m) ==
                        NetOut(R, x, m) + (if x == p[0] then a else 0) - (if x == p[|p| - 1] then a else 0)
    decreases |p|
  {
    var R' := Push(R, p[0], p[1], a);
    PushNetOut(R, p[0], p[1], a, m);
    if |p| > 2 {
      AugmentNetOut(R', p[1..], a, m);
    }
  }

  /** Pushing at most the residual capacity keeps the network valid. */
  lemma PushValid(R: Arcs, u: int, v: int, a: int)
    requires Valid(R) && (u, v) in R && u != v
    requires 0 <= a <= Res(R, u, v)
    ensures Valid(Push(R, u, v, a))
  {
  }

  /** Augmenting a path without repeated nodes by an amount no larger than any
      of its residual capacities keeps the network valid. */
  lemma {:induction false} AugmentValid(R: Arcs, p: seq<int>, a: int)
    requires Valid(R) && ArcsPresent(R, p) && Distinct(p) && 0 <= a
    requires forall i :: 0 <= i < |p| - 1 ==> a <= Res(R, p[i], p[i + 1])
    ensures Valid(Augment(R, p, a))
    decreases |p|
  {
    if |p| >= 2 {
      var R' := Push(R, p[0], p[1], a);
      PushValid(R, p[0], p[1], a);
      var q := p[1..];
      forall i | 0 <= i < |q| - 1
        ensures a <= Res(R', q[i], q[i + 1])
      {
        assert q[i] == p[i + 1] && q[i + 1] == p[i + 2];
        assert p[i + 2] != p[0];
      }
      AugmentValid(R', q, a);
    }
  }
}
