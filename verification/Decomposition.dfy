/** The base-plus-remainder split of a horizontal axis over a row or column of ranks, and the
    construction of a rank's local grid. */
module Decomposition {
  import opened HaloFaces

  /** First global index of block c when n points are split over p blocks. */
  function StartOf(n: nat, p: nat, c: nat): nat
    requires p >= 1
  {
    c * (n / p) + (if c < n % p then c else n % p)
  }

  function SizeOf(n: nat, p: nat, c: nat): nat
    requires p >= 1
  {
    n / p + (if c < n % p then 1 else 0)
  }

  /** Consecutive blocks touch, the first starts at 0 and the block after the last would start at n. */
  lemma BlocksTouch(n: nat, p: nat, c: nat)
    requires p >= 1
    ensures StartOf(n, p, 0) == 0
    ensures StartOf(n, p, c + 1) == StartOf(n, p, c) + SizeOf(n, p, c)
    ensures StartOf(n, p, p) == n
  {
    var base, rem := n / p, n % p;
    assert (c + 1) * base == c * base + base;
    assert n == p * base + rem;
  }

  lemma {:induction false} StartsAscend(n: nat, p: nat, c: nat, c': nat)
    requires p >= 1 && c <= c'
    ensures StartOf(n, p, c) <= StartOf(n, p, c')
    decreases c'
  {
    if c < c' {
      StartsAscend(n, p, c, c' - 1);
      BlocksTouch(n, p, c' - 1);
    }
  }

  ghost predicate Owns(n: nat, p: nat, c: nat, g: int)
    requires p >= 1
  {
    StartOf(n, p, c) <= g < StartOf(n, p, c) + SizeOf(n, p, c)
  }

  lemma {:induction false} OwnerBelow(n: nat, p: nat, g: nat, hi: nat) returns (c: nat)
    requires p >= 1 && g < StartOf(n, p, hi)
    ensures c < hi && Owns(n, p, c, g)
    decreases hi
  {
    BlocksTouch(n, p, 0);
    BlocksTouch(n, p, hi - 1);
    if StartOf(n, p, hi - 1) <= g { c := hi - 1; } else { c := OwnerBelow(n, p, g, hi - 1); }
  }

  /** The blocks tile the axis: every global index belongs to exactly one block. */
  lemma BlocksTile(n: nat, p: nat, g: nat)
    requires p >= 1 && g < n
    ensures exists c: nat :: c < p && Owns(n, p, c, g)
    ensures forall c: nat, c': nat :: c < p && c' < p && Owns(n, p, c, g) && Owns(n, p, c', g) ==> c == c'
  {
    BlocksTouch(n, p, 0);
    var o := OwnerBelow(n, p, g, p);
    assert o < p && Owns(n, p, o, g);
    forall c: nat, c': nat | c < c' < p && Owns(n, p, c, g) && Owns(n, p, c', g) ensures false {
      BlocksTouch(n, p, c);
      StartsAscend(n, p, c + 1, c');
    }
  }

  // ----- The only balanced split -----

  /** Starts of blocks that cover n points in order, none smaller than the next and none larger by more
      than one point. */
  ghost predicate Balanced(s: seq<nat>, n: nat) {
    && |s| >= 2 && s[0] == 0 && s[|s| - 1] == n
    && (forall c :: 0 <= c < |s| - 1 ==> s[c] <= s[c + 1])
    && (forall c, d :: 0 <= c <= d < |s| - 1 ==> BlockOf(s, d) <= BlockOf(s, c) <= BlockOf(s, d) + 1)
  }

  function BlockOf(s: seq<nat>, c: nat): int
    requires c + 1 < |s|
  {
    s[c + 1] as int - s[c]
  }

  /** How many blocks are larger than the last. */
  function Larger(s: seq<nat>, hi: nat): nat
    requires hi < |s|
  {
    if hi == 0 then 0 else Larger(s, hi - 1) + if BlockOf(s, hi - 1) > BlockOf(s, |s| - 2) then 1 else 0
  }

  lemma {:induction false} StartsFromLarger(s: seq<nat>, n: nat, c: nat)
    requires Balanced(s, n) && c < |s|
    ensures s[c] == c * BlockOf(s, |s| - 2) + Larger(s, c)
    ensures Larger(s, c) <= c && (Larger(s, c) < c ==> forall d :: c <= d < |s| ==> Larger(s, d) == Larger(s, c))
    decreases c
  {
    var b := BlockOf(s, |s| - 2);
    if c > 0 {
      StartsFromLarger(s, n, c - 1);
      assert c * b == (c - 1) * b + b;
      if Larger(s, c) < c { NoneLarger(s, n, c - 1, |s| - 1); }
    }
  }

  lemma {:induction false} NoneLarger(s: seq<nat>, n: nat, c: nat, hi: nat)
    requires Balanced(s, n) && c < hi < |s|
    requires BlockOf(s, c) <= BlockOf(s, |s| - 2) || Larger(s, c) < c
    requires Larger(s, c) < c ==> forall d :: c <= d < |s| ==> Larger(s, d) == Larger(s, c)
    ensures forall d :: c < d <= hi ==> Larger(s, d) == Larger(s, c)
    decreases hi
  {
    if Larger(s, c) >= c && hi > c + 1 {
      NoneLarger(s, n, c, hi - 1);
      assert BlockOf(s, hi - 1) <= BlockOf(s, c);
    }
  }

  /** The quotient and the remainder are the size of the last block and the number of larger ones. */
  lemma LastAndLarger(n: nat, p: nat, s: seq<nat>)
    requires p >= 1 && |s| == p + 1 && Balanced(s, n)
    ensures BlockOf(s, p - 1) == n / p && Larger(s, p) == n % p
  {
    var b, r := BlockOf(s, p - 1), Larger(s, p);
    StartsFromLarger(s, n, p);
    StartsFromLarger(s, n, p - 1);
    DivMod(b, r, p);
    assert n == b * p + r;
  }

  lemma LargerFirst(s: seq<nat>, n: nat, c: nat)
    requires Balanced(s, n) && c < |s|
    ensures Larger(s, c) == if c < Larger(s, |s| - 1) then c else Larger(s, |s| - 1)
  {
    StartsFromLarger(s, n, c);
    LargerGrows(s, c, |s| - 1);
    if Larger(s, c) < c { assert Larger(s, |s| - 1) == Larger(s, c); }
  }

  lemma BalancedIsSplit(n: nat, p: nat, s: seq<nat>, c: nat)
    requires p >= 1 && |s| == p + 1 && Balanced(s, n) && c <= p
    ensures s[c] == StartOf(n, p, c)
  {
    StartsFromLarger(s, n, c);
    LargerFirst(s, n, c);
    LastAndLarger(n, p, s);
  }

  lemma SplitIsBalanced(n: nat, p: nat, s: seq<nat>)
    requires p >= 1 && |s| == p + 1 && forall c: nat :: c <= p ==> s[c] == StartOf(n, p, c)
    ensures Balanced(s, n)
  {
    BlocksTouch(n, p, 0);
    forall c: nat | c < p ensures BlockOf(s, c) == SizeOf(n, p, c) { BlocksTouch(n, p, c); }
    forall c | 0 <= c < |s| - 1 ensures s[c] <= s[c + 1] { assert BlockOf(s, c) == SizeOf(n, p, c); }
  }

  /** The split is balanced, and no other split over as many blocks is. */
  lemma OnlyBalancedSplit(n: nat, p: nat, s: seq<nat>)
    requires p >= 1 && |s| == p + 1
    ensures Balanced(s, n) <==> forall c: nat :: c <= p ==> s[c] == StartOf(n, p, c)
  {
    if Balanced(s, n) {
      forall c: nat | c <= p ensures s[c] == StartOf(n, p, c) { BalancedIsSplit(n, p, s, c); }
    } else if forall c: nat :: c <= p ==> s[c] == StartOf(n, p, c) {
      SplitIsBalanced(n, p, s);
    }
  }

  lemma {:induction false} LargerGrows(s: seq<nat>, c: nat, d: nat)
    requires c <= d < |s| && |s| >= 2
    ensures Larger(s, c) <= Larger(s, d)
    decreases d
  {
    if c < d { LargerGrows(s, c, d - 1); }
  }
}
