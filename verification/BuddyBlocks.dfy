/**
  The abstraction behind the buddy allocator: a set of free blocks, each an aligned
  power-of-two range of page frames, given as a map from the first frame to the order.

  A block set is canonical when no two free buddies of equal order below the top order
  coexist.  The main result, CanonicalUnique, is that a canonical block set is determined
  by the set of frames it covers.
 */
module BuddyBlocks {
  import opened Powers

  type Blocks = map<nat, nat>

  // ---- Frame-number bit operations ----

  /** Bitwise exclusive or of two non-negative integers. */
  function Xor(a: nat, b: nat): nat
  {
    if a == 0 && b == 0 then 0
    else (a % 2 + b % 2) % 2 + 2 * Xor(a / 2, b / 2)
  }

  /** The buddy of the block of the given order that starts at p. */
  function FindBuddy(p: nat, order: nat): nat
  {
    Xor(p, Pow2(order))
  }

  lemma {:induction false} XorZero(a: nat)
    ensures Xor(a, 0) == a
  {
    if a != 0 { XorZero(a / 2); }
  }

  /** What relates an aligned block, its buddy and the union of the two. */
  ghost predicate AreBuddies(p: nat, b: nat, order: nat)
  {
    && Aligned(b, order)
    && Aligned(And(b, p), order + 1)
    && And(b, p) == (if p < b then p else b)
    && (if p < b then b == p + Pow2(order) else p == b + Pow2(order))
  }

  lemma BuddyOfPage(p: nat)
    ensures AreBuddies(p, FindBuddy(p, 0), 0) && FindBuddy(FindBuddy(p, 0), 0) == p
  {
    XorZero(p / 2);
    AndSelf(p / 2);
    var b := FindBuddy(p, 0);
    assert b == (p % 2 + 1) % 2 + 2 * (p / 2);
    assert b / 2 == p / 2;
    assert FindBuddy(b, 0) == (b % 2 + 1) % 2 + 2 * (b / 2);
    assert And(b, p) == (if b % 2 == 1 && p % 2 == 1 then 1 else 0) + 2 * And(b / 2, p / 2) || b == 0 || p == 0;
  }

  lemma BuddyOfDouble(h: nat, order: nat)
    requires order > 0
    ensures FindBuddy(2 * h, order) == 2 * FindBuddy(h, order - 1)
  {
  }

  /**
    An aligned block and its buddy are adjacent halves of the block of the next order that
    starts at the conjunction of their frame numbers, and each is the other's buddy.
   */
  lemma {:induction false} BuddyFacts(p: nat, order: nat)
    requires Aligned(p, order)
    ensures AreBuddies(p, FindBuddy(p, order), order)
    ensures FindBuddy(FindBuddy(p, order), order) == p
    decreases order
  {
    if order == 0 {
      BuddyOfPage(p);
    } else {
      var h := p / 2;
      BuddyFacts(h, order - 1);
      var b := FindBuddy(h, order - 1);
      BuddyOfDouble(h, order);
      BuddyOfDouble(b, order);
      AndOfDoubles(b, h);
    }
  }

  /** The lower half of a block of the next order has the upper half as its buddy. */
  lemma {:induction false} HalvesAreBuddies(p: nat, order: nat)
    requires Aligned(p, order + 1)
    ensures Aligned(p, order) && Aligned(p + Pow2(order), order)
    ensures FindBuddy(p, order) == p + Pow2(order)
    ensures FindBuddy(p + Pow2(order), order) == p
  {
    AlignedDown(p, order, order + 1);
    BuddyFacts(p, order);
    LowerHalfBelowBuddy(p, order);
  }

  lemma {:induction false} LowerHalfBelowBuddy(p: nat, order: nat)
    requires Aligned(p, order + 1)
    ensures p < FindBuddy(p, order)
  {
    if order == 0 {
      XorZero(p / 2);
      assert FindBuddy(p, 0) == (p % 2 + 1) % 2 + 2 * Xor(p / 2, 0);
    } else {
      LowerHalfBelowBuddy(p / 2, order - 1);
      assert FindBuddy(p, order) == 2 * FindBuddy(p / 2, order - 1);
    }
  }

  // ---- Block sets ----

  predicate Contains(F: Blocks, p: nat, x: int)
  {
    p in F && p <= x < p + Pow2(F[p])
  }

  /** Frame x belongs to some block of F. */
  ghost predicate Covered(F: Blocks, x: int)
  {
    exists p :: Contains(F, p, x)
  }

  /** The frames of [lo, hi) that the blocks of F cover. */
  ghost function FreePages(F: Blocks, lo: nat, hi: nat): set<int>
  {
    set x: int | lo <= x < hi && Covered(F, x)
  }

  /** No frame of [p, p + 2^order) is covered. */
  ghost predicate Uncovered(F: Blocks, p: nat, order: nat)
  {
    forall x: int :: p <= x < p + Pow2(order) ==> !Covered(F, x)
  }

  ghost predicate BlockOk(F: Blocks, p: nat, lo: nat, hi: nat, top: nat)
    requires p in F
  {
    F[p] <= top && Aligned(p, F[p]) && lo <= p && p + Pow2(F[p]) <= hi
  }

  /** Every block is aligned, within [lo, hi) and of order at most top; blocks are disjoint. */
  ghost predicate WellFormed(F: Blocks, lo: nat, hi: nat, top: nat)
  {
    && (forall p :: p in F ==> BlockOk(F, p, lo, hi, top))
    && (forall p, q :: p in F && q in F && p < q ==> p + Pow2(F[p]) <= q)
  }

  predicate IsFreeBuddy(F: Blocks, p: nat, order: nat)
  {
    FindBuddy(p, order) in F && F[FindBuddy(p, order)] == order
  }

  /** No two free buddies of equal order below the top order coexist. */
  ghost predicate NoBuddyPairs(F: Blocks, top: nat)
  {
    forall p :: p in F && F[p] < top ==> !IsFreeBuddy(F, p, F[p])
  }

  ghost predicate Canonical(F: Blocks, lo: nat, hi: nat, top: nat)
  {
    WellFormed(F, lo, hi, top) && NoBuddyPairs(F, top)
  }

  /** Two aligned blocks are nested or disjoint. */
  lemma {:induction false} NestedOrDisjoint(p: nat, m: nat, q: nat, n: nat)
    requires Aligned(p, m) && Aligned(q, n) && m <= n
    ensures (q <= p && p + Pow2(m) <= q + Pow2(n)) || p + Pow2(m) <= q || q + Pow2(n) <= p
  {
    if m != 0 { NestedOrDisjoint(p / 2, m - 1, q / 2, n - 1); }
  }

  /** In a canonical block set, an aligned range that is wholly free lies inside one block. */
  lemma {:induction false} FreeRangeInsideBlock(F: Blocks, lo: nat, hi: nat, top: nat, p: nat, order: nat)
    returns (q: nat)
    requires Canonical(F, lo, hi, top)
    requires Aligned(p, order) && order <= top
    requires forall x: int :: p <= x < p + Pow2(order) ==> Covered(F, x)
    ensures q in F && q <= p && p + Pow2(order) <= q + Pow2(F[q])
    decreases order
  {
    if order == 0 {
      assert Covered(F, p);
      q :| Contains(F, q, p);
    } else {
      HalvesAreBuddies(p, order - 1);
      var mid := p + Pow2(order - 1);
      q := FreeRangeInsideBlock(F, lo, hi, top, p, order - 1);
      if F[q] >= order {
        NestedOrDisjoint(p, order, q, F[q]);
      } else {
        if F[q] < order - 1 { Pow2Monotone(F[q], order - 1); }
        assert q == p && F[q] == order - 1;
        var r := FreeRangeInsideBlock(F, lo, hi, top, mid, order - 1);
        if F[r] >= order {
          NestedOrDisjoint(p, order, r, F[r]);
          q := r;
        } else {
          if F[r] < order - 1 { Pow2Monotone(F[r], order - 1); }
          assert false;
        }
      }
    }
  }

  lemma SameCoverSubset(F: Blocks, G: Blocks, lo: nat, hi: nat, top: nat, p: nat)
    requires Canonical(F, lo, hi, top) && Canonical(G, lo, hi, top)
    requires FreePages(F, lo, hi) == FreePages(G, lo, hi)
    requires p in F
    ensures p in G && G[p] == F[p]
  {
    assert BlockOk(F, p, lo, hi, top);
    forall x: int | p <= x < p + Pow2(F[p])
      ensures Covered(G, x)
    {
      assert Contains(F, p, x);
      assert x in FreePages(F, lo, hi);
    }
    var q := FreeRangeInsideBlock(G, lo, hi, top, p, F[p]);
    assert BlockOk(G, q, lo, hi, top);
    forall x: int | q <= x < q + Pow2(G[q])
      ensures Covered(F, x)
    {
      assert Contains(G, q, x);
      assert x in FreePages(G, lo, hi);
    }
    var r := FreeRangeInsideBlock(F, lo, hi, top, q, G[q]);
    assert r == p && q == p;
    Pow2Injective(G[q], F[p]);
  }

  /**
    The free block set depends only on which frames are free: two canonical block sets
    that cover the same frames are equal, whatever was split, merged or stolen on the way.
   */
  lemma CanonicalUnique(F: Blocks, G: Blocks, lo: nat, hi: nat, top: nat)
    requires Canonical(F, lo, hi, top) && Canonical(G, lo, hi, top)
    requires FreePages(F, lo, hi) == FreePages(G, lo, hi)
    ensures F == G
  {
    forall p | p in F ensures p in G && G[p] == F[p] { SameCoverSubset(F, G, lo, hi, top, p); }
    forall p | p in G ensures p in F { SameCoverSubset(G, F, lo, hi, top, p); }
    assert F.Keys == G.Keys;
  }

  // ---- Adding and removing one block ----

  predicate Between(lo: int, x: int, hi: int)
  {
    lo <= x < hi
  }

  ghost function Interval(lo: int, hi: int): (s: set<int>)
    ensures forall x :: x in s <==> lo <= x < hi
  {
    set x: int | lo <= x < hi && Between(lo, x, hi)
  }

  /** The frames of the block of the given order that starts at p. */
  ghost function Range(p: nat, order: nat): set<int>
  {
    Interval(p, p + Pow2(order))
  }

  lemma {:induction false} IntervalSize(lo: int, hi: int)
    requires lo <= hi
    ensures |Interval(lo, hi)| == hi - lo
    decreases hi - lo
  {
    if lo < hi {
      IntervalSize(lo, hi - 1);
      assert Interval(lo, hi) == Interval(lo, hi - 1) + {hi - 1};
    }
  }

  lemma CoveredWithout(F: Blocks, p: nat, lo: nat, hi: nat, top: nat, x: int)
    requires WellFormed(F, lo, hi, top) && p in F
    ensures Covered(F - {p}, x) <==> Covered(F, x) && !(p <= x < p + Pow2(F[p]))
  {
    var G := F - {p};
    if Covered(G, x) {
      var q: nat :| Contains(G, q, x);
      assert Contains(F, q, x);
      assert p < q ==> p + Pow2(F[p]) <= q;
      assert q < p ==> q + Pow2(F[q]) <= p;
    }
    if Covered(F, x) && !(p <= x < p + Pow2(F[p])) {
      var q: nat :| Contains(F, q, x);
      assert Contains(G, q, x);
    }
  }

  /** Removing a block of a well-formed set uncovers exactly its frames. */
  lemma RemoveCover(F: Blocks, p: nat, lo: nat, hi: nat, top: nat)
    requires WellFormed(F, lo, hi, top) && p in F
    ensures WellFormed(F - {p}, lo, hi, top)
    ensures Uncovered(F - {p}, p, F[p])
    ensures Range(p, F[p]) <= FreePages(F, lo, hi)
    ensures FreePages(F - {p}, lo, hi) == FreePages(F, lo, hi) - Range(p, F[p])
  {
    var G := F - {p};
    forall q | q in G ensures BlockOk(G, q, lo, hi, top) { assert BlockOk(F, q, lo, hi, top); }
    assert BlockOk(F, p, lo, hi, top);
    forall x: int
      ensures Covered(F - {p}, x) <==> Covered(F, x) && !(p <= x < p + Pow2(F[p]))
    {
      CoveredWithout(F, p, lo, hi, top, x);
    }
    forall x | x in Range(p, F[p]) ensures Covered(F, x) { assert Contains(F, p, x); }
  }

  lemma RemoveBlock(F: Blocks, p: nat, lo: nat, hi: nat, top: nat)
    requires Canonical(F, lo, hi, top) && p in F
    ensures Canonical(F - {p}, lo, hi, top)
    ensures Uncovered(F - {p}, p, F[p])
    ensures Range(p, F[p]) <= FreePages(F, lo, hi)
    ensures FreePages(F - {p}, lo, hi) == FreePages(F, lo, hi) - Range(p, F[p])
  {
    RemoveCover(F, p, lo, hi, top);
    var G := F - {p};
    forall q | q in G && G[q] < top ensures !IsFreeBuddy(G, q, G[q]) { assert !IsFreeBuddy(F, q, F[q]); }
  }

  lemma CoveredWith(F: Blocks, p: nat, order: nat, x: int)
    requires p !in F
    ensures Covered(F[p := order], x) <==> Covered(F, x) || p <= x < p + Pow2(order)
  {
    var G := F[p := order];
    if Covered(G, x) {
      var q: nat :| Contains(G, q, x);
      if q != p { assert Contains(F, q, x); }
    }
    if Covered(F, x) {
      var q: nat :| Contains(F, q, x);
      assert Contains(G, q, x);
    }
    if p <= x < p + Pow2(order) { assert Contains(G, p, x); }
  }

  lemma HeadIsCovered(F: Blocks, p: nat)
    ensures p in F ==> Covered(F, p)
  {
    if p in F { assert Contains(F, p, p); }
  }

  /** Adding an uncovered block covers exactly its frames in addition. */
  lemma AddCover(F: Blocks, p: nat, order: nat, lo: nat, hi: nat)
    requires Uncovered(F, p, order) && lo <= p && p + Pow2(order) <= hi
    ensures p !in F
    ensures Range(p, order) !! FreePages(F, lo, hi)
    ensures FreePages(F[p := order], lo, hi) == FreePages(F, lo, hi) + Range(p, order)
  {
    HeadIsCovered(F, p);
    assert !Covered(F, p);
    forall x: int
      ensures Covered(F[p := order], x) <==> Covered(F, x) || p <= x < p + Pow2(order)
    {
      CoveredWith(F, p, order, x);
    }
  }

  lemma UncoveredApart(F: Blocks, p: nat, order: nat, q: nat)
    requires Uncovered(F, p, order) && q in F
    ensures if q < p then q + Pow2(F[q]) <= p else p + Pow2(order) <= q
  {
    HeadIsCovered(F, q);
    assert Contains(F, q, p) ==> Covered(F, p);
    assert !Covered(F, p);
  }

  lemma AddKeepsWellFormed(F: Blocks, p: nat, order: nat, lo: nat, hi: nat, top: nat)
    requires WellFormed(F, lo, hi, top)
    requires Aligned(p, order) && order <= top && lo <= p && p + Pow2(order) <= hi
    requires Uncovered(F, p, order)
    ensures WellFormed(F[p := order], lo, hi, top)
  {
    var G := F[p := order];
    forall q | q in G ensures BlockOk(G, q, lo, hi, top) { if q != p { assert BlockOk(F, q, lo, hi, top); } }
    forall q, r | q in G && r in G && q < r
      ensures q + Pow2(G[q]) <= r
    {
      if q == p { UncoveredApart(F, p, order, r); }
      if r == p { UncoveredApart(F, p, order, q); }
    }
  }

  /** Adding an uncovered aligned block whose buddy is not free keeps the set canonical. */
  lemma AddBlock(F: Blocks, p: nat, order: nat, lo: nat, hi: nat, top: nat)
    requires Canonical(F, lo, hi, top)
    requires Aligned(p, order) && order <= top && lo <= p && p + Pow2(order) <= hi
    requires Uncovered(F, p, order)
    requires order < top ==> !IsFreeBuddy(F, p, order)
    ensures Canonical(F[p := order], lo, hi, top)
  {
    var G := F[p := order];
    AddKeepsWellFormed(F, p, order, lo, hi, top);
    forall q | q in G && G[q] < top
      ensures !IsFreeBuddy(G, q, G[q])
    {
      assert BlockOk(G, q, lo, hi, top);
      BuddyFacts(q, G[q]);
      if q != p { assert !IsFreeBuddy(F, q, F[q]); }
    }
  }
}
