/** Finite sums of reals over a range of indices and over a rectangle. */
module Sums {

  function Sum(w: int -> real, lo: int, hi: int): real
    decreases hi - lo
  {
    if hi <= lo then 0.0 else Sum(w, lo, hi - 1) + w(hi - 1)
  }

  lemma {:induction false} SumSplits(w: int -> real, lo: int, mid: int, hi: int)
    requires lo <= mid <= hi
    ensures Sum(w, lo, hi) == Sum(w, lo, mid) + Sum(w, mid, hi)
    decreases hi - mid
  {
    if mid < hi {
      SumSplits(w, lo, mid, hi - 1);
    }
  }

  ghost predicate IsCombination(h: int -> real, f: int -> real, c: real, g: int -> real, lo: int, hi: int) {
    forall i :: lo <= i < hi ==> h(i) == f(i) + c * g(i)
  }

  /** A sum of multiples added to a sum. */
  lemma {:induction false} SumLinear(h: int -> real, f: int -> real, c: real, g: int -> real, lo: int, hi: int)
    requires IsCombination(h, f, c, g, lo, hi)
    ensures Sum(h, lo, hi) == Sum(f, lo, hi) + c * Sum(g, lo, hi)
    decreases hi - lo
  {
    if lo < hi {
      SumLinear(h, f, c, g, lo, hi - 1);
      assert c * (Sum(g, lo, hi - 1) + g(hi - 1)) == c * Sum(g, lo, hi - 1) + c * g(hi - 1);
    }
  }

  /** Differences of neighbours add up to the difference of the ends. */
  lemma {:induction false} Telescopes(d: int -> real, x: int -> real, lo: int, hi: int)
    requires lo <= hi && forall i :: lo <= i < hi ==> d(i) == x(i + 1) - x(i)
    ensures Sum(d, lo, hi) == x(hi) - x(lo)
    decreases hi - lo
  {
    if lo < hi {
      Telescopes(d, x, lo, hi - 1);
    }
  }

  /** Around a ring they cancel. */
  lemma RingCancels(d: int -> real, x: int -> real, n: int)
    requires n >= 1 && forall i :: 0 <= i < n ==> d(i) == x(if i + 1 == n then 0 else i + 1) - x(i)
    ensures Sum(d, 0, n) == 0.0
  {
    Telescopes(d, x, 0, n - 1);
  }

  // ----- Rectangles -----

  function Row(f: (int, int) -> real, j: int): int -> real { (i: int) => f(j, i) }

  function RowSums(f: (int, int) -> real, nx: int): int -> real { (j: int) => Sum(Row(f, j), 0, nx) }

  function Total(f: (int, int) -> real, ny: int, nx: int): real { Sum(RowSums(f, nx), 0, ny) }

  lemma TotalLinear(h: (int, int) -> real, f: (int, int) -> real, c: real, g: (int, int) -> real, ny: int, nx: int)
    requires forall j, i :: 0 <= j < ny && 0 <= i < nx ==> h(j, i) == f(j, i) + c * g(j, i)
    ensures Total(h, ny, nx) == Total(f, ny, nx) + c * Total(g, ny, nx)
  {
    forall j | 0 <= j < ny ensures RowSums(h, nx)(j) == RowSums(f, nx)(j) + c * RowSums(g, nx)(j) {
      SumLinear(Row(h, j), Row(f, j), c, Row(g, j), 0, nx);
    }
    SumLinear(RowSums(h, nx), RowSums(f, nx), c, RowSums(g, nx), 0, ny);
  }

  lemma {:induction false} SumZero(w: int -> real, lo: int, hi: int)
    requires forall i :: lo <= i < hi ==> w(i) == 0.0
    ensures Sum(w, lo, hi) == 0.0
    decreases hi - lo
  {
    if lo < hi {
      SumZero(w, lo, hi - 1);
    }
  }
}
