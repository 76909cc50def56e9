/** Edmonds–Karp: repeated breadth-first search for an augmenting path in the
    residual network, each found path augmented by its bottleneck, until the
    sink is unreachable. The library's guard against "infinite" capacity paths
    is part of the model: a bottleneck more than half of `inf` is refused. */
module Search {
  import opened Sums
  import opened Residual

  /** p is a path from s to t over nodes of [0, m), without repeated nodes,
      whose every arc has positive residual capacity. */
  ghost predicate IsAugmentingPath(R: Arcs, p: seq<int>, s: int, t: int, m: int)
  {
    && |p| >= 2
    && p[0] == s
    && p[|p| - 1] == t
    && (forall i :: 0 <= i < |p| ==> 0 <= p[i] < m)
    && Distinct(p)
    && (forall i :: 0 <= i < |p| - 1 ==> Res(R, p[i], p[i + 1]) > 0)
  }

  ghost predicate NoAugmentingPath(R: Arcs, s: int, t: int, m: int)
  {
    forall p :: !IsAugmentingPath(R, p, s, t, m)
  }

  /** No arc with positive residual capacity leaves the node set S. */
  ghost predicate Closed(R: Arcs, S: set<int>, m: int)
  {
    forall u, v :: u in S && 0 <= v < m && Res(R, u, v) > 0 ==> v in S
  }

  /** A path that starts inside a closed set and follows positive residual
      arcs never leaves it. */
  lemma {:induction false} PathStaysInside(R: Arcs, S: set<int>, p: seq<int>, m: int, k: int)
    requires Closed(R, S, m)
    requires 0 <= k < |p| && p[0] in S
    requires forall i :: 0 <= i < |p| ==> 0 <= p[i] < m
    requires forall i :: 0 <= i < |p| - 1 ==> Res(R, p[i], p[i + 1]) > 0
    ensures p[k] in S
    decreases k
  {
    if k > 0 {
      PathStaysInside(R, S, p, m, k - 1);
    }
  }

  /** A closed set holding the source but not the sink is a cut that no
      augmenting path crosses: the flow is maximum. */
  lemma ClosedBlocksPaths(R: Arcs, S: set<int>, s: int, t: int, m: int)
    requires Closed(R, S, m) && s in S && t !in S
    ensures NoAugmentingPath(R, s, t, m)
  {
    forall p | |p| >= 2 && p[0] == s && (forall i :: 0 <= i < |p| ==> 0 <= p[i] < m)
                 && (forall i :: 0 <= i < |p| - 1 ==> Res(R, p[i], p[i + 1]) > 0)
      ensures p[|p| - 1] != t
    {
      PathStaysInside(R, S, p, m, |p| - 1);
    }
  }

  /** The breadth-first search tree: every reached node other than s has a
      reached parent one level closer to s, joined by a positive residual arc. */
  ghost predicate BfsTree(R: Arcs, s: int, m: int, reach: set<int>, parent: map<int, int>, dist: map<int, nat>)
  {
    && s in reach
    && (forall x :: x in reach ==> 0 <= x < m)
    && dist.Keys == reach
    && dist[s] == 0
    && (forall x :: x in reach && x != s ==>
          && x in parent
          && parent[x] in reach
          && dist[x] == dist[parent[x]] + 1
          && Res(R, parent[x], x) > 0)
  }

  /** Reaching a new node v from a reached node u over a positive residual arc
      extends the tree by one level below u. */
  lemma BfsTreeExtend(R: Arcs, s: int, m: int, reach: set<int>, parent: map<int, int>, dist: map<int, nat>, u: int, v: int)
    requires BfsTree(R, s, m, reach, parent, dist)
    requires u in reach && v !in reach && 0 <= v < m && Res(R, u, v) > 0
    ensures BfsTree(R, s, m, reach + {v}, parent[v := u], dist[v := dist[u] + 1])
  {
  }

  /** Follows parent pointers from v back to s; the node at position i of the
      result is at distance i from s. */
  function PathTo(R: Arcs, s: int, m: int, reach: set<int>, parent: map<int, int>, dist: map<int, nat>, v: int): (p: seq<int>)
    requires BfsTree(R, s, m, reach, parent, dist) && v in reach
    ensures |p| == dist[v] + 1 && p[0] == s && p[|p| - 1] == v
    ensures forall i :: 0 <= i < |p| ==> p[i] in reach && dist[p[i]] == i
    ensures forall i :: 0 <= i < |p| - 1 ==> Res(R, p[i], p[i + 1]) > 0
    decreases dist[v]
  {
    if v == s then [s]
    else PathTo(R, s, m, reach, parent, dist, parent[v]) + [v]
  }

  /** Scans the neighbours of the reached node u in node order, adding every
      unreached node joined to u by a positive residual arc to the tree and to
      the back of the queue. Stops as soon as t is reached (hit). */
  method ScanNeighbours(R: Arcs, s: int, t: int, m: int, u: int,
                        reach: set<int>, parent: map<int, int>, dist: map<int, nat>, queue: seq<int>)
    returns (hit: bool, reach': set<int>, parent': map<int, int>, dist': map<int, nat>, queue': seq<int>)
    requires BfsTree(R, s, m, reach, parent, dist)
    requires u in reach && t !in reach
    ensures BfsTree(R, s, m, reach', parent', dist')
    ensures reach <= reach'
    ensures hit <==> t in reach'
    ensures !hit ==> forall w :: 0 <= w < m && Res(R, u, w) > 0 ==> w in reach'
    ensures forall x :: x in queue ==> x in queue'
    ensures forall x :: x in reach' && x !in reach ==> x in queue'
    ensures forall x :: x in queue' ==> x in queue || x in reach'
    ensures |reach'| - |reach| == |queue'| - |queue| >= 0
  {
    reach', parent', dist', queue' := reach, parent, dist, queue;
    var v := 0;
    while v < m
      invariant 0 <= v <= m
      invariant BfsTree(R, s, m, reach', parent', dist')
      invariant t !in reach' && reach <= reach'
      invariant forall w :: 0 <= w < v && Res(R, u, w) > 0 ==> w in reach'
      invariant forall x :: x in queue ==> x in queue'
      invariant forall x :: x in reach' && x !in reach ==> x in queue'
      invariant forall x :: x in queue' ==> x in queue || x in reach'
      invariant |reach'| - |reach| == |queue'| - |queue| >= 0
    {
      if Res(R, u, v) > 0 && v !in reach' {
        BfsTreeExtend(R, s, m, reach', parent', dist', u, v);
        parent' := parent'[v := u];
        dist' := dist'[v := dist'[u] + 1];
        reach' := reach' + {v};
        queue' := queue' + [v];
        if v == t {
          hit := true;
          return;
        }
      }
      v := v + 1;
    }
    hit := false;
  }

  /** A set of nodes drawn from [lo, hi) has at most hi - lo elements. */
  lemma {:induction false} RangeBoundsCardinality(S: set<int>, lo: int, hi: int)
    requires lo <= hi
    requires forall x :: x in S ==> lo <= x < hi
    ensures |S| <= hi - lo
    decreases hi - lo
  {
    if lo < hi {
      var S' := S - {hi - 1};
      RangeBoundsCardinality(S', lo, hi - 1);
      assert S <= S' + {hi - 1};
    } else {
      assert S == {};
    }
  }

  /** The queue discipline of the search: queued nodes are reached, every
      reached node is either processed (done) or still queued, and every
      processed node has all its positive-residual neighbours reached. */
  ghost predicate Frontier(R: Arcs, m: int, reach: set<int>, queue: seq<int>, done: set<int>)
  {
    && (forall x :: x in queue ==> x in reach)
    && (forall x :: x in reach ==> x in done || x in queue)
    && (forall u, v :: u in done && 0 <= v < m && Res(R, u, v) > 0 ==> v in reach)
  }

  /** Processing the head u of the queue keeps the queue discipline. */
  lemma FrontierStep(R: Arcs, m: int, reach: set<int>, queue: seq<int>, done: set<int>,
                     reach': set<int>, queue': seq<int>)
    requires Frontier(R, m, reach, queue, done) && |queue| > 0
    requires reach <= reach'
    requires forall w :: 0 <= w < m && Res(R, queue[0], w) > 0 ==> w in reach'
    requires forall x :: x in queue[1..] ==> x in queue'
    requires forall x :: x in reach' && x !in reach ==> x in queue'
    requires forall x :: x in queue' ==> x in queue[1..] || x in reach'
    ensures Frontier(R, m, reach', queue', done + {queue[0]})
  {
    assert forall x :: x in queue ==> x == queue[0] || x in queue[1..];
  }

  /** The tree path to t is an augmenting path. */
  lemma TreePathAugments(R: Arcs, s: int, t: int, m: int, reach: set<int>, parent: map<int, int>, dist: map<int, nat>)
    requires BfsTree(R, s, m, reach, parent, dist) && t in reach && t != s
    ensures IsAugmentingPath(R, PathTo(R, s, m, reach, parent, dist, t), s, t, m)
  {
    var p := PathTo(R, s, m, reach, parent, dist, t);
    forall i, j | 0 <= i < j < |p|
      ensures p[i] != p[j]
    {
      assert dist[p[i]] == i && dist[p[j]] == j;
    }
  }

  /** Breadth-first search from s over arcs with positive residual capacity.
      Either returns an augmenting path to t, or the set of nodes reachable
      from s, which is closed and does not contain t. */
  method Bfs(R: Arcs, s: int, t: int, m: int) returns (found: bool, path: seq<int>, reach: set<int>)
    requires 0 <= s < m && 0 <= t < m && s != t
    ensures found ==> IsAugmentingPath(R, path, s, t, m)
    ensures !found ==> s in reach && t !in reach && Closed(R, reach, m)
  {
    var parent: map<int, int> := map[];
    var dist: map<int, nat> := map[s := 0];
    var queue: seq<int> := [s];
    ghost var done: set<int> := {};
    reach := {s};
    RangeBoundsCardinality(reach, 0, m);
    while |queue| > 0
      invariant BfsTree(R, s, m, reach, parent, dist)
      invariant t !in reach
      invariant Frontier(R, m, reach, queue, done)
      invariant |reach| <= m
      decreases m - |reach|, |queue|
    {
      var u := queue[0];
      var rest := queue[1..];
      var hit, reach', parent', dist', queue' := ScanNeighbours(R, s, t, m, u, reach, parent, dist, rest);
      if hit {
        TreePathAugments(R, s, t, m, reach', parent', dist');
        path := PathTo(R, s, m, reach', parent', dist', t);
        found := true;
        reach := reach';
        return;
      }
      FrontierStep(R, m, reach, queue, done, reach', queue');
      RangeBoundsCardinality(reach', 0, m);
      assert |reach| < |reach'| || |queue'| < |queue|;
      reach, parent, dist, queue := reach', parent', dist', queue';
      done := done + {u};
    }
    found := false;
    path := [];
  }

  /** The smallest residual capacity along the path (its bottleneck). */
  function MinResidual(R: Arcs, p: seq<int>): (r: int)
    requires |p| >= 2
    ensures forall i :: 0 <= i < |p| - 1 ==> r <= Res(R, p[i], p[i + 1])
    ensures exists i :: 0 <= i < |p| - 1 && r == Res(R, p[i], p[i + 1])
    decreases |p|
  {
    if |p| == 2 then Res(R, p[0], p[1])
    else
      var rest := MinResidual(R, p[1..]);
      if Res(R, p[0], p[1]) <= rest then Res(R, p[0], p[1]) else rest
  }

  /** The outcome of a search: the final residual network, the flow value
      gained and the set of nodes the last search reached (a cut separating
      s from t), or the library's refusal of a path whose bottleneck exceeds
      half of its "infinite" capacity. */
  datatype Solve = Solved(residual: Arcs, value: int, cut: set<int>) | Unbounded

  /** Some pair of nodes has, in its two directions together, more than half
      the "infinite" capacity inf: the only reason a search gives up. */
  ghost predicate Refuses(R: Arcs, m: int, inf: int)
  {
    exists u, v :: 0 <= u < m && 0 <= v < m && inf < 2 * (CapOf(R, u, v) + CapOf(R, v, u))
  }

  lemma CapOutSame(R: Arcs, R': Arcs, u: int, m: int)
    requires SameCapacities(R, R')
    ensures CapOut(R, u, m) == CapOut(R', u, m)
  {
    SumExt(CapRow(R, u), CapRow(R', u), 0, m);
  }

  /** An augmenting path has both arcs of each consecutive pair present. */
  lemma AugmentingArcsPresent(R: Arcs, p: seq<int>, s: int, t: int, m: int)
    requires Valid(R) && IsAugmentingPath(R, p, s, t, m)
    ensures ArcsPresent(R, p)
  {
    forall i | 0 <= i < |p| - 1
      ensures (p[i], p[i + 1]) in R && (p[i + 1], p[i]) in R && p[i] != p[i + 1]
    {
      assert Res(R, p[i], p[i + 1]) > 0;
    }
  }

  /** A path whose bottleneck exceeds half of inf crosses a pair of nodes
      with more than inf/2 capacity in its two directions. */
  lemma WidePathRefuses(R: Arcs, cur: Arcs, p: seq<int>, s: int, t: int, m: int, inf: int)
    requires Valid(cur) && SameCapacities(R, cur) && IsAugmentingPath(cur, p, s, t, m)
    requires inf < 2 * MinResidual(cur, p)
    ensures Refuses(R, m, inf)
  {
    var i :| 0 <= i < |p| - 1 && MinResidual(cur, p) == Res(cur, p[i], p[i + 1]);
    ResBelowPairCapacity(cur, p[i], p[i + 1]);
    SameCapOf(R, cur, p[i], p[i + 1]);
    SameCapOf(R, cur, p[i + 1], p[i]);
    assert inf < 2 * (CapOf(R, p[i], p[i + 1]) + CapOf(R, p[i + 1], p[i]));
  }

  /** Edmonds–Karp from s to t on a (possibly pre-populated) residual network.
      On success the network is still valid with the same arcs and capacities,
      the value pushed is the growth of s's net outflow and the drop of t's,
      every other node keeps its balance, and no augmenting path remains:
      the nodes the last search reached are closed under positive residual
      capacity and do not include t.
      The library refuses (Unbounded) only when some pair of nodes has more
      than inf/2 capacity in its two directions. A network that has no
      augmenting path to start with comes back unchanged, with value 0. */
  method EdmondsKarp(R: Arcs, s: int, t: int, m: int, inf: int) returns (out: Solve)
    requires Valid(R)
    requires 0 <= s < m && 0 <= t < m && s != t && 0 < inf
    ensures out.Solved? ==>
      && Valid(out.residual)
      && SameCapacities(R, out.residual)
      && 0 <= out.value
      && NetOut(out.residual, s, m) == NetOut(R, s, m) + out.value
      && NetOut(out.residual, t, m) == NetOut(R, t, m) - out.value
      && (forall x :: 0 <= x < m && x != s && x != t ==> NetOut(out.residual, x, m) == NetOut(R, x, m))
      && NoAugmentingPath(out.residual, s, t, m)
      && s in out.cut && t !in out.cut && Closed(out.residual, out.cut, m)
    ensures out.Unbounded? ==> Refuses(R, m, inf)
    ensures NoAugmentingPath(R, s, t, m) ==> out.Solved? && out.residual == R && out.value == 0
  {
    var cur := R;
    var value := 0;
    NetOutBelowCapOut(cur, s, m);
    while true
      invariant Valid(cur) && SameCapacities(R, cur) && 0 <= value
      invariant NetOut(cur, s, m) == NetOut(R, s, m) + value
      invariant NetOut(cur, t, m) == NetOut(R, t, m) - value
      invariant forall x :: 0 <= x < m && x != s && x != t ==> NetOut(cur, x, m) == NetOut(R, x, m)
      invariant NetOut(cur, s, m) <= CapOut(R, s, m)
      invariant NoAugmentingPath(R, s, t, m) ==> cur == R && value == 0
      decreases CapOut(R, s, m) - NetOut(cur, s, m)
    {
      var found, path, reach := Bfs(cur, s, t, m);
      if !found {
        ClosedBlocksPaths(cur, reach, s, t, m);
        return Solved(cur, value, reach);
      }
      var bottleneck := MinResidual(cur, path);
      var amount := if inf < bottleneck then inf else bottleneck;
      if amount * 2 > inf {
        WidePathRefuses(R, cur, path, s, t, m, inf);
        return Unbounded;
      }
      AugmentingArcsPresent(cur, path, s, t, m);
      AugmentValid(cur, path, amount);
      AugmentKeepsCapacities(cur, path, amount);
      AugmentNetOut(cur, path, amount, m);
      var next := Augment(cur, path, amount);
      NetOutBelowCapOut(next, s, m);
      CapOutSame(R, next, s, m);
      cur := next;
      value := value + amount;
    }
  }
}
