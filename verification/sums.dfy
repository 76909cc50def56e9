/** Finite sums over an integer range, used for node-indexed totals
    (demand totals, net outflow of a node, capacity out of a node). */
module Sums {

  /** The sum of f(i) for lo <= i < hi (0 when the range is empty). */
  function Sum(f: int -> int, lo: int, hi: int): int
    decreases hi - lo
  {
    if lo >= hi then 0 else f(lo) + Sum(f, lo + 1, hi)
  }

  /** Sums of functions that agree on the range are equal. */
  lemma {:induction false} SumExt(f: int -> int, g: int -> int, lo: int, hi: int)
    requires forall i :: lo <= i < hi ==> f(i) == g(i)
    ensures Sum(f, lo, hi) == Sum(g, lo, hi)
    decreases hi - lo
  {
    if lo < hi {
      SumExt(f, g, lo + 1, hi);
    }
  }

  /** A function that is zero on the range sums to zero. */
  lemma {:induction false} SumZero(f: int -> int, lo: int, hi: int)
    requires forall i :: lo <= i < hi ==> f(i) == 0
    ensures Sum(f, lo, hi) == 0
    decreases hi - lo
  {
    if lo < hi {
      SumZero(f, lo + 1, hi);
    }
  }

  /** Sums are monotone in the summand. */
  lemma {:induction false} SumLe(f: int -> int, g: int -> int, lo: int, hi: int)
    requires forall i :: lo <= i < hi ==> f(i) <= g(i)
    ensures Sum(f, lo, hi) <= Sum(g, lo, hi)
    decreases hi - lo
  {
    if lo < hi {
      SumLe(f, g, lo + 1, hi);
    }
  }

  /** A sum of non-negative terms is non-negative. */
  lemma {:induction false} SumNonNegative(f: int -> int, lo: int, hi: int)
    requires forall i :: lo <= i < hi ==> 0 <= f(i)
    ensures 0 <= Sum(f, lo, hi)
    decreases hi - lo
  {
    if lo < hi {
      SumNonNegative(f, lo + 1, hi);
    }
  }

  /** If f never exceeds g and both have the same sum, they agree everywhere:
      this is how a saturated set of arcs is recognised from a total. */
  lemma {:induction false} SumTight(f: int -> int, g: int -> int, lo: int, hi: int)
    requires forall i :: lo <= i < hi ==> f(i) <= g(i)
    requires Sum(f, lo, hi) == Sum(g, lo, hi)
    ensures forall i :: lo <= i < hi ==> f(i) == g(i)
    decreases hi - lo
  {
    if lo < hi {
      SumLe(f, g, lo + 1, hi);
      SumTight(f, g, lo + 1, hi);
    }
  }

  /** Sum distributes over pointwise addition. */
  lemma {:induction false} SumAdd(f: int -> int, g: int -> int, h: int -> int, lo: int, hi: int)
    requires forall i :: lo <= i < hi ==> h(i) == f(i) + g(i)
    ensures Sum(h, lo, hi) == Sum(f, lo, hi) + Sum(g, lo, hi)
    decreases hi - lo
  {
    if lo < hi {
      SumAdd(f, g, h, lo + 1, hi);
    }
  }

  /** Sum distributes over pointwise subtraction. */
  lemma {:induction false} SumSub(f: int -> int, g: int -> int, h: int -> int, lo: int, hi: int)
    requires forall i :: lo <= i < hi ==> h(i) == f(i) - g(i)
    ensures Sum(h, lo, hi) == Sum(f, lo, hi) - Sum(g, lo, hi)
    decreases hi - lo
  {
    if lo < hi {
      SumSub(f, g, h, lo + 1, hi);
    }
  }

  /** A range sum splits at any intermediate point. */
  lemma {:induction false} SumSplit(f: int -> int, lo: int, mid: int, hi: int)
    requires lo <= mid <= hi
    ensures Sum(f, lo, hi) == Sum(f, lo, mid) + Sum(f, mid, hi)
    decreases mid - lo
  {
    if lo < mid {
      SumSplit(f, lo + 1, mid, hi);
    }
  }

  /** Changing a summand at one index k changes the sum by exactly that difference. */
  lemma {:induction false} SumUpdate(f: int -> int, g: int -> int, k: int, lo: int, hi: int)
    requires lo <= k < hi
    requires forall i :: lo <= i < hi && i != k ==> f(i) == g(i)
    ensures Sum(g, lo, hi) == Sum(f, lo, hi) + (g(k) - f(k))
    decreases hi - lo
  {
    if lo < k {
      SumUpdate(f, g, k, lo + 1, hi);
    } else {
      SumExt(f, g, lo + 1, hi);
    }
  }

  /** A sum of non-negative terms bounds each term. */
  lemma {:induction false} SumBoundsTerm(f: int -> int, k: int, lo: int, hi: int)
    requires lo <= k < hi
    requires forall i :: lo <= i < hi ==> 0 <= f(i)
    ensures f(k) <= Sum(f, lo, hi)
    decreases hi - lo
  {
    if lo < k {
      SumBoundsTerm(f, k, lo + 1, hi);
    } else {
      SumLe(i => 0, f, lo + 1, hi);
      SumZero(i => 0, lo + 1, hi);
    }
  }

  /** A sum of non-negative terms bounds the sum of any two distinct terms. */
  lemma {:induction false} SumBoundsTwoTerms(f: int -> int, j: int, k: int, lo: int, hi: int)
    requires lo <= j < hi && lo <= k < hi && j != k
    requires forall i :: lo <= i < hi ==> 0 <= f(i)
    ensures f(j) + f(k) <= Sum(f, lo, hi)
    decreases hi - lo
  {
    if lo == j {
      SumBoundsTerm(f, k, lo + 1, hi);
    } else if lo == k {
      SumBoundsTerm(f, j, lo + 1, hi);
    } else {
      SumBoundsTwoTerms(f, j, k, lo + 1, hi);
    }
  }

  /** Row i of a two-argument function, as a one-argument function. */
  function Row(f: (int, int) -> int, i: int): int -> int
  {
    j => f(i, j)
  }

  /** Column j of a two-argument function, as a one-argument function. */
  function Col(f: (int, int) -> int, j: int): int -> int
  {
    i => f(i, j)
  }

  /** Row totals over columns [c, d). */
  function RowSums(f: (int, int) -> int, c: int, d: int): int -> int
  {
    i => Sum(Row(f, i), c, d)
  }

  /** Column totals over rows [a, b). */
  function ColSums(f: (int, int) -> int, a: int, b: int): int -> int
  {
    j => Sum(Col(f, j), a, b)
  }

  /** A double sum over a rectangle may be taken row-first or column-first. */
  lemma {:induction false} SumSwap(f: (int, int) -> int, a: int, b: int, c: int, d: int)
    ensures Sum(RowSums(f, c, d), a, b) == Sum(ColSums(f, a, b), c, d)
    decreases b - a
  {
    if a >= b {
      SumZero(ColSums(f, a, b), c, d);
    } else {
      SumSwap(f, a + 1, b, c, d);
      SumAdd(Row(f, a), ColSums(f, a + 1, b), ColSums(f, a, b), c, d);
    }
  }
}
