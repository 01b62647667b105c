/**
  The dynamic per-CPU allocator: 16-byte units marked in a bitmap, with the length of each
  allocation kept at its first unit.
 */
module Percpu {
  import opened Machine
  import opened Options
  import opened Powers
  import opened Bitmap

  const UNIT: nat := 16

  /** The number of units of a byte count, as computed in 64 bits and cut off to 32. */
  function Units32(size: nat): (n: nat)
    ensures n < 0x1_0000_0000 && (size == 0 ==> n == 0)
  {
    (size + 15) % U64 / UNIT % 0x1_0000_0000
  }

  /** The alignment in units. */
  function AlignUnits(align: nat): nat
  {
    if Units32(align) == 0 then 1 else Units32(align)
  }

  /** No aligned run of nr clear units begins below b. */
  ghost predicate NoRunBelow(words: seq<set<nat>>, nrBits: nat, k: nat, nr: nat, b: nat)
    requires nrBits <= BITS * |words|
  {
    forall s: nat :: s < b && Aligned(s, k) ==> !FreeRun(words, nrBits, s, nr)
  }

  /** The first clear unit, rounded up as the search does it; at least nrBits if there is none. */
  ghost function Rounded(words: seq<set<nat>>, nrBits: nat, align: nat): nat
    requires nrBits <= BITS * |words|
  {
    var z := FirstClear(words, nrBits, 0);
    if z < nrBits then AlignUp(z, AlignUnits(align) - 1) else nrBits
  }

  /** The computed units hold the bytes exactly if their number fits 32 bits. */
  lemma UnitsHoldSize(size: nat)
    requires size < U64
    ensures size <= UNIT * Units32(size) <==> (size + 15) / UNIT < 0x1_0000_0000
  {
  }

  /** Unit i belongs to the allocation that begins at b. */
  predicate Owns(live: map<nat, nat>, b: nat, i: nat)
  {
    b in live && b <= i < b + live[b]
  }

  ghost predicate Owned(live: map<nat, nat>, i: nat)
  {
    exists b :: Owns(live, b, i)
  }

  /** The live allocations are disjoint and inside the area. */
  ghost predicate Separate(live: map<nat, nat>, nrBits: nat)
  {
    && (forall b :: b in live ==> live[b] > 0 && b + live[b] <= nrBits)
    && (forall a, b :: a in live && b in live && a < b ==> a + live[a] <= b)
  }

  /** The set bits are exactly the units of live allocations. */
  ghost predicate Covers(words: seq<set<nat>>, live: map<nat, nat>, nrBits: nat)
    requires nrBits <= BITS * |words|
  {
    forall i :: 0 <= i < nrBits ==> (Test(words, i) <==> Owned(live, i))
  }

  lemma AllocCovers(words: seq<set<nat>>, words': seq<set<nat>>, live: map<nat, nat>, nrBits: nat, b: nat, n: nat)
    requires nrBits <= BITS * |words| && Separate(live, nrBits) && Covers(words, live, nrBits) && n > 0
    requires FreeRun(words, nrBits, b, n) && Ranged(words, words', b, b + n, true)
    ensures b !in live && Separate(live[b := n], nrBits) && Covers(words', live[b := n], nrBits)
  {
    var live' := live[b := n];
    forall i | b <= i < b + n ensures !Owned(live, i) { assert !Test(words, i); }
    assert b in live ==> Owns(live, b, b);
    forall a | a in live ensures a + live[a] <= b || b + n <= a {
      assert Owns(live, a, a) && Owned(live, a);
      assert a < b < a + live[a] ==> Owns(live, a, b) && Owned(live, b);
    }
    forall i | 0 <= i < nrBits ensures Test(words', i) <==> Owned(live', i) {
      if b <= i < b + n { assert Owns(live', b, i); }
      assert forall a :: a != b ==> (Owns(live', a, i) <==> Owns(live, a, i));
    }
  }

  lemma FreeCovers(words: seq<set<nat>>, words': seq<set<nat>>, live: map<nat, nat>, nrBits: nat, b: nat)
    requires nrBits <= BITS * |words| && Separate(live, nrBits) && Covers(words, live, nrBits) && b in live
    requires Ranged(words, words', b, b + live[b], false)
    ensures Separate(live - {b}, nrBits) && Covers(words', live - {b}, nrBits)
  {
    var live' := live - {b};
    forall i | 0 <= i < nrBits ensures Test(words', i) <==> Owned(live', i) {
      assert forall a :: Owns(live', a, i) <==> Owns(live, a, i) && a != b;
      if b <= i < b + live[b] {
        assert forall a :: a in live && a != b ==> !Owns(live, a, i);
      } else {
        assert !Owns(live, b, i);
      }
    }
  }

  class Area {
    const bitmap: array<set<nat>>
    const counts: array<nat>
    const start: nat
    const chunk: nat
    ghost var live: map<nat, nat>

    /** The number of units; it fits the 16-bit counts. */
    function NrBits(): nat
    {
      if chunk < start then 0 else (chunk - start) / UNIT
    }

    ghost predicate Valid()
      reads this, bitmap, counts
    {
      && start % UNIT == 0 && chunk % UNIT == 0 && start <= chunk && NrBits() < 65536
      && NrBits() <= BITS * bitmap.Length && counts.Length == NrBits() && Words(bitmap[..])
      && Separate(live, NrBits()) && Covers(bitmap[..], live, NrBits())
      && (forall b :: 0 <= b < counts.Length ==> counts[b] == if b in live then live[b] else 0)
    }

    constructor (start: nat, chunk: nat)
      requires start % UNIT == 0 && chunk % UNIT == 0 && start <= chunk && (chunk - start) / UNIT < 65536
      ensures Valid() && live == map[] && this.start == start && this.chunk == chunk && fresh(bitmap) && fresh(counts)
    {
      this.start, this.chunk := start, chunk;
      var n := (chunk - start) / UNIT;
      bitmap := new set<nat>[(n + BITS - 1) / BITS](_ => {});
      counts := new nat[n](_ => 0);
      live := map[];
    }

    /**
      Allocate `size` bytes: pcpu_alloc.  Unit counts are kept in an int.  Unless the count of the size is cut off
      to zero, the area stays valid and a new allocation overlaps no live one; if the alignment is 2^k units, it is
      the lowest aligned run that is free, and there is none exactly if it fails.  If the count is cut off to zero, the
      first clear unit, rounded up, is returned and not taken, and the count kept there is lost.
     */
    method Alloc(size: nat, align: nat, ghost k: nat) returns (r: Option<nat>)
      requires Valid() && size < U64 && align < U64 && Units32(align) < 0x8000_0000
      modifies bitmap, counts, this`live
      ensures r.Some? ==> size > 0 && start <= r.value < chunk && (r.value - start) % UNIT == 0
      ensures r.None? ==>
                Valid() && live == old(live) && bitmap[..] == old(bitmap[..]) && counts[..] == old(counts[..])
      ensures var nr := Units32(size);
              nr > 0 ==>
                match r
                case None => AlignUnits(align) == Pow2(k) ==> NoRunBelow(old(bitmap[..]), NrBits(), k, nr, NrBits())
                case Some(offset) =>
                  var b := (offset - start) / UNIT;
                  && Valid() && b !in old(live) && live == old(live)[b := nr]
                  && FreeRun(old(bitmap[..]), NrBits(), b, nr)
                  && (AlignUnits(align) == Pow2(k) ==>
                        Aligned(b, k) && NoRunBelow(old(bitmap[..]), NrBits(), k, nr, b))
      ensures size > 0 && Units32(size) == 0 ==>
                var b := Rounded(old(bitmap[..]), NrBits(), align);
                && live == old(live) && bitmap[..] == old(bitmap[..])
                && r == (if b < NrBits() then Some(start + b * UNIT) else None)
                && (r.Some? ==> counts[..] == old(counts[..])[b := 0] && (Valid() <==> b !in old(live)))
    {
      hide Units32, AlignUp, FirstClear, Aligned, Pow2, Covers, Separate, FreeRun, Test;
      if size == 0 { return None; }
      var nr := Units32(size);
      var units := Units32(align);
      if units == 0 { units := 1; }
      var bit := FindNextZeroArea(bitmap[..], NrBits(), 0, nr, units - 1, k);
      if bit >= NrBits() { return None; }
      Mark(bit, nr);
      return Some(start + bit * UNIT);
    }

    /** Take a run of units; nothing is taken, but a count may be lost, if there are none. */
    method Mark(bit: nat, nr: nat)
      requires Valid() && bit < NrBits() && FreeRun(bitmap[..], NrBits(), bit, nr)
      modifies bitmap, counts, this`live
      ensures nr > 0 ==> Valid() && bit !in old(live) && live == old(live)[bit := nr]
      ensures nr == 0 ==> live == old(live) && bitmap[..] == old(bitmap[..]) && counts[..] == old(counts[..])[bit := 0]
      ensures nr == 0 ==> (Valid() <==> bit !in old(live))
    {
      ghost var words := bitmap[..];
      assert bit + nr <= NrBits();
      assert bit in live ==> live[bit] > 0;
      hide Covers, Separate, Ranged, FreeRun, NrBits;
      SetRange(bitmap, bit, nr);
      RangedWords(words, bitmap[..], bit, bit + nr, true);
      counts[bit] := nr % 65536;
      if nr > 0 {
        AllocCovers(words, bitmap[..], live, NrBits(), bit, nr);
        live := live[bit := nr];
      } else {
        NothingChanged(words, bitmap[..], bit, true);
      }
    }

    /** Free by pointer: pcpu_free.  Only the pointer to the first unit of a live allocation frees anything. */
    method Free(offset: nat)
      requires Valid()
      modifies bitmap, counts, this`live
      ensures Valid()
      ensures var hit := start <= offset < chunk && (offset - start) / UNIT in old(live);
              if hit then live == old(live) - {(offset - start) / UNIT}
              else live == old(live) && bitmap[..] == old(bitmap[..]) && counts[..] == old(counts[..])
    {
      if offset < start || offset >= chunk { return; }
      var bit := (offset - start) / UNIT;
      LiveIsSet(bitmap[..], live, NrBits(), bit);
      if !Test(bitmap[..], bit) { return; }
      hide Covers, Separate, Test;
      Unmark(bit);
    }

    /** Clear the units recorded at a unit, none if no allocation begins there. */
    method Unmark(bit: nat)
      requires Valid() && bit < NrBits()
      modifies bitmap, counts, this`live
      ensures Valid()
      ensures if bit in old(live) then live == old(live) - {bit}
              else live == old(live) && bitmap[..] == old(bitmap[..]) && counts[..] == old(counts[..])
    {
      ghost var words := bitmap[..];
      assert bit in live ==> bit + live[bit] <= NrBits();
      hide Covers, Separate, Ranged, NrBits;
      var nr := counts[bit];
      ClearRange(bitmap, bit, nr);
      RangedWords(words, bitmap[..], bit, bit + nr, false);
      counts[bit] := 0;
      if bit in live {
        FreeCovers(words, bitmap[..], live, NrBits(), bit);
        live := live - {bit};
      } else {
        NothingChanged(words, bitmap[..], bit, false);
        assert counts[..] == old(counts[..]);
      }
    }
  }

  lemma LiveIsSet(words: seq<set<nat>>, live: map<nat, nat>, nrBits: nat, b: nat)
    requires nrBits <= BITS * |words| && Separate(live, nrBits) && Covers(words, live, nrBits) && b < nrBits
    ensures b in live ==> Test(words, b)
  {
    assert b in live ==> Owns(live, b, b);
  }

  lemma RangedWords(words: seq<set<nat>>, words': seq<set<nat>>, lo: nat, hi: nat, b: bool)
    requires Ranged(words, words', lo, hi, b)
    ensures Words(words') && |words'| == |words|
  {
  }

  lemma NothingChanged(words: seq<set<nat>>, words': seq<set<nat>>, b: nat, v: bool)
    requires Words(words) && Ranged(words, words', b, b, v)
    ensures words' == words
  {
    forall p | 0 <= p < |words| ensures words'[p] == words[p] {
      forall x: nat ensures x in words'[p] <==> x in words[p] {
        if x < BITS {
          assert (BITS * p + x) / BITS == p && (BITS * p + x) % BITS == x;
          assert Test(words', BITS * p + x) <==> Test(words, BITS * p + x);
        }
      }
    }
  }

  // ---- Sizes that are cut off ----

  lemma SomeUnits()
    ensures Units32(16) == 1 && Units32(32) == 2 && Units32(0x10_0000_0000) == 0
  {
  }

  lemma SomeRounding(zero: nat, one: nat)
    requires zero == 0 && one == 1
    ensures AlignUp(zero, zero) == 0 && AlignUp(one, one) == 2
  {
    hide AlignUp;
    AlignUpNone(zero);
    AlignUpNone(one);
    AlignUpHalf(one, zero);
  }

  /** A size of 2^36 bytes gets a unit that is not taken: the next request gets the same one. */
  method NothingTaken() returns (a: Area, p: Option<nat>, q: Option<nat>)
    ensures fresh(a) && a.Valid() && a.live == map[] && p == q == Some(0)
  {
    hide Units32, AlignUnits, Rounded, Covers, Separate, Words;
    a := new Area(0, 16);
    SomeUnits();
    FirstUnit(a.bitmap[..], a.live);
    p := a.Alloc(0x10_0000_0000, 16, 0);
    q := a.Alloc(0x10_0000_0000, 16, 0);
  }

  lemma FirstUnit(words: seq<set<nat>>, live: map<nat, nat>)
    requires 1 <= BITS * |words| && live == map[] && Covers(words, live, 1)
    ensures Rounded(words, 1, 16) == 0
  {
    hide Units32, AlignUp;
    SomeUnits();
    SomeRounding(0, 1);
    assert !Owned(live, 0);
    FirstClearIs(words, 1, 0, 0);
  }

  /** One unit each for the first n units of an area. */
  function Row(n: nat): (m: map<nat, nat>)
    ensures forall i: nat :: i in m <==> i < n
    ensures forall i: nat :: i < n ==> m[i] == 1
  {
    if n == 0 then map[] else Row(n - 1)[n - 1 := 1]
  }

  lemma NextInRow(words: seq<set<nat>>, n: nat, b: nat)
    requires 3 <= BITS * |words| && n < 3 && Covers(words, Row(n), 3) && b <= 3
    ensures FreeRun(words, 3, n, 1) && Aligned(n, 0)
    ensures FreeRun(words, 3, b, 1) ==> b >= n
    ensures NoRunBelow(words, 3, 0, 1, b) ==> b <= n
    ensures Row(n)[n := 1] == Row(n + 1)
  {
    assert !Owned(Row(n), n);
    assert FreeRun(words, 3, n, 1) && Aligned(n, 0);
    if b < n { assert Owns(Row(n), b, b) && Owned(Row(n), b) && Test(words, b); }
  }

  /** Take the next unit of a row. */
  method TakeNext(a: Area, ghost n: nat)
    requires a.Valid() && a.start == 0 && a.chunk == 48 && n < 3 && a.live == Row(n)
    modifies a.bitmap, a.counts, a`live
    ensures a.Valid() && a.live == Row(n + 1)
  {
    hide Units32, Covers, Separate, Words, FreeRun, NoRunBelow;
    SomeUnits();
    ghost var words := a.bitmap[..];
    NextInRow(words, n, 3);
    var r := a.Alloc(16, 16, 0);
    if r.Some? { NextInRow(words, n, r.value / UNIT); }
  }

  /** With units 0 and 2 of three in use, a size of 2^36 bytes aligned to 32 loses the count of the one at unit 2. */
  method CountLost() returns (a: Area, r: Option<nat>)
    ensures fresh(a) && !a.Valid() && r == Some(32) && a.live == map[0 := 1, 2 := 1] && a.counts[..] == [1, 0, 0]
  {
    hide Units32, AlignUnits, Covers, Separate, Words, Rounded;
    a := new Area(0, 48);
    assert a.live == Row(0);
    TakeNext(a, 0);
    TakeNext(a, 1);
    TakeNext(a, 2);
    a.Free(16);
    SomeUnits();
    assert a.live == map[0 := 1, 2 := 1];
    TwoOfThree(a.bitmap[..], a.live);
    assert a.counts[..] == [1, 0, 1];
    r := a.Alloc(0x10_0000_0000, 32, 1);
  }

  lemma TwoOfThree(words: seq<set<nat>>, live: map<nat, nat>)
    requires 3 <= BITS * |words| && live == map[0 := 1, 2 := 1] && Covers(words, live, 3)
    ensures Rounded(words, 3, 32) == 2
  {
    hide Units32, AlignUp;
    SomeUnits();
    SomeRounding(0, 1);
    assert Owns(live, 0, 0) && !Owned(live, 1);
    assert Test(words, 0) && !Test(words, 1);
    FirstClearIs(words, 3, 0, 1);
  }
}
