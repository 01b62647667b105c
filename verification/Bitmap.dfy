/**
  Word-level bitmaps.  A word is the set of its one bits: or is union, and is intersection, and
  complement is taken within the 64 bits of a word.
 */
module Bitmap {
  import opened Machine
  import opened Powers

  /** All ones, shifted left by o. */
  function From(o: nat): (s: set<nat>)
    ensures forall b: nat :: b in s <==> o <= b < BITS
  {
    LowBits(BITS) - LowBits(o)
  }

  function Not(w: set<nat>): set<nat>
  {
    From(0) - w
  }

  /** Count trailing zeros: the lowest one bit. */
  function Lowest(w: set<nat>, b: nat): (r: nat)
    requires exists x :: x in w && x >= b
    requires forall x :: x in w ==> x < BITS
    ensures r in w && r >= b && forall x :: b <= x < r ==> x !in w
    decreases BITS - b
  {
    if b in w then b else Lowest(w, b + 1)
  }

  /** A bitmap: words with bits below 64. */
  predicate Words(words: seq<set<nat>>)
  {
    forall i, b :: 0 <= i < |words| && b in words[i] ==> b < BITS
  }

  /** Bit i. */
  predicate Test(words: seq<set<nat>>, i: nat)
    requires i < BITS * |words|
  {
    i % BITS in words[i / BITS]
  }

  /** What the clear bits of a word from offset o on say. */
  lemma ClearBits(w: set<nat>, o: nat)
    requires o <= BITS && forall b :: b in w ==> b < BITS
    ensures var tmp := Not(w) * From(o);
            if tmp == {} then forall b: nat :: o <= b < BITS ==> b in w
            else && (exists x :: x in tmp && x >= 0) && (forall x :: x in tmp ==> x < BITS)
                 && var r := Lowest(tmp, 0); o <= r < BITS && r !in w && forall b: nat :: o <= b < r ==> b in w
  {
    var tmp := Not(w) * From(o);
    if tmp == {} {
      forall b: nat | o <= b < BITS ensures b in w { assert b !in tmp; }
    } else {
      var x: nat :| x in tmp;
      var r := Lowest(tmp, 0);
      forall b: nat | o <= b < r ensures b in w { assert b !in tmp; }
    }
  }

  /** The bits of one word, tested by their position in the bitmap. */
  lemma WordBits(words: seq<set<nat>>, word: nat, o: nat, end: nat)
    requires word < |words| && o <= end <= BITS && forall b: nat :: o <= b < end ==> b in words[word]
    ensures forall i :: BITS * word + o <= i < BITS * word + end ==> Test(words, i)
  {
    forall i | BITS * word + o <= i < BITS * word + end ensures Test(words, i) {
      assert i / BITS == word && i % BITS == i - BITS * word;
    }
  }

  /** The first clear bit from start on, or at least nbits if there is none: bitmap_find_next_zero_bit. */
  method FindNextZeroBit(words: seq<set<nat>>, nbits: nat, start: nat) returns (r: nat)
    requires Words(words) && nbits <= BITS * |words|
    ensures (r >= start || r >= nbits) && r < nbits + BITS
    ensures r < nbits ==> !Test(words, r)
    ensures forall i :: start <= i < nbits && i < r ==> Test(words, i)
  {
    hide Not, From, Lowest, Test;
    if start >= nbits { return nbits; }
    var word, offset := start / BITS, start % BITS;
    ClearBits(words[word], offset);
    var tmp := Not(words[word]) * From(offset);
    if tmp == {} {
      WordBits(words, word, offset, BITS);
      offset := 0;
      word := word + 1;
      while word < (nbits + BITS - 1) / BITS
        invariant start < BITS * word && (forall i :: start <= i < BITS * word && i < nbits ==> Test(words, i))
        decreases (nbits + BITS - 1) / BITS - word
      {
        ClearBits(words[word], 0);
        tmp := Not(words[word]);
        WholeWord(words[word]);
        if tmp != {} { break; }
        WordBits(words, word, 0, BITS);
        word := word + 1;
      }
      if word >= (nbits + BITS - 1) / BITS { return nbits; }
    }
    var low := Lowest(tmp, 0);
    WordBits(words, word, offset, low);
    r := word * BITS + low;
    ClearAt(words, word, low);
  }

  lemma WholeWord(w: set<nat>)
    ensures Not(w) * From(0) == Not(w)
  {
  }

  lemma ClearAt(words: seq<set<nat>>, word: nat, b: nat)
    requires word < |words| && b < BITS && b !in words[word]
    ensures !Test(words, word * BITS + b)
  {
    assert (word * BITS + b) / BITS == word && (word * BITS + b) % BITS == b;
  }

  // ---- Areas ----

  lemma {:induction false} AndSmall(a: nat, m: nat)
    ensures And(a, m) <= m && And(a, m) <= a
  {
    if a > 0 && m > 0 { AndSmall(a / 2, m / 2); }
  }

  /** Rounding up as the code does it: add the mask, then clear its bits. */
  function AlignUp(i: nat, mask: nat): (r: nat)
    ensures r >= i
  {
    AndSmall(i + mask, mask);
    i + mask - And(i + mask, mask)
  }

  /** For a mask of ones the result is the least multiple of the alignment that is not below i. */
  lemma {:induction false} AlignUpLeast(i: nat, k: nat, j: nat)
    ensures Aligned(AlignUp(i, Pow2(k) - 1), k)
    ensures j >= i && Aligned(j, k) ==> j >= AlignUp(i, Pow2(k) - 1)
  {
    if k > 0 {
      var m := Pow2(k - 1) - 1;
      assert Pow2(k) - 1 == 2 * m + 1;
      AlignUpLeast((i + 1) / 2, k - 1, j / 2);
      AlignUpHalf(i, m);
    } else {
      AndSmall(i, 0);
    }
  }

  lemma AlignUpNone(i: nat)
    ensures AlignUp(i, 0) == i
  {
    AndSmall(i, 0);
  }

  lemma AlignUpHalf(i: nat, m: nat)
    ensures AlignUp(i, 2 * m + 1) == 2 * AlignUp((i + 1) / 2, m)
  {
    var a := i + (2 * m + 1);
    assert a / 2 == (i + 1) / 2 + m && (2 * m + 1) / 2 == m;
    assert And(a, 2 * m + 1) == (if a % 2 == 1 then 1 else 0) + 2 * And(a / 2, m);
  }

  /** nr clear bits in a row from s on, inside the bitmap. */
  ghost predicate FreeRun(words: seq<set<nat>>, size: nat, s: nat, nr: nat)
    requires size <= BITS * |words|
  {
    s + nr <= size && forall i :: s <= i < s + nr ==> !Test(words, i)
  }

  /** The lowest clear bit from start on, or size if there is none. */
  ghost function FirstClear(words: seq<set<nat>>, size: nat, start: nat): (z: nat)
    requires size <= BITS * |words|
    ensures z <= size && (z < size ==> start <= z && !Test(words, z))
    ensures forall i :: start <= i < z ==> Test(words, i)
    decreases size - start
  {
    if start >= size then size else if Test(words, start) then FirstClear(words, size, start + 1) else start
  }

  /**
    The area search: bitmap_find_next_zero_area.  With an alignment of 2^k and at least one bit wanted, it returns the
    lowest aligned free run from start on, and size exactly if there is none.  With no bit wanted, it returns the first
    clear bit rounded up, whatever that bit is.
   */
  method FindNextZeroArea(words: seq<set<nat>>, size: nat, start0: nat, nr: nat, mask: nat, ghost k: nat)
      returns (r: nat)
    requires Words(words) && size <= BITS * |words| && size + BITS + mask + nr <= U64
    ensures r == size || (start0 <= r && FreeRun(words, size, r, nr))
    ensures nr > 0 && mask == Pow2(k) - 1 ==>
              && (r < size ==> Aligned(r, k))
              && (forall s :: start0 <= s < r && Aligned(s, k) ==> !FreeRun(words, size, s, nr))
    ensures nr == 0 ==>
              var z := FirstClear(words, size, start0);
              r == if z < size && AlignUp(z, mask) < size then AlignUp(z, mask) else size
  {
    var start := start0;
    while true
      invariant start0 <= start && (nr == 0 ==> start == start0)
      invariant nr > 0 && mask == Pow2(k) - 1 ==> forall s :: start0 <= s < start && Aligned(s, k) ==>
                !FreeRun(words, size, s, nr)
      decreases size - start
    {
      var zero := FindNextZeroBit(words, size, start);
      var index := AlignUp(zero, mask);
      // neither sum of the source leaves 64 bits
      assert zero + mask < U64 && index + nr < U64;
      if nr > 0 && mask == Pow2(k) - 1 { NoRunBefore(words, size, start, zero, nr, k); }
      if zero < size { FirstClearIs(words, size, start, zero); }
      var end := index + nr;
      if end > size { return size; }
      var i := index;
      while i < end && !Test(words, i)
        invariant index <= i <= end && forall j :: index <= j < i ==> !Test(words, j)
      {
        i := i + 1;
      }
      if i == end { return index; }
      forall s | index <= s <= i ensures !FreeRun(words, size, s, nr) { assert s <= i < s + nr; }
      start := i + 1;
    }
  }

  lemma FirstClearIs(words: seq<set<nat>>, size: nat, start: nat, z: nat)
    requires size <= BITS * |words| && start <= z < size && !Test(words, z)
    requires forall i :: start <= i < z ==> Test(words, i)
    ensures FirstClear(words, size, start) == z
  {
  }

  /** No run begins between the start and the rounded-up first clear bit. */
  lemma NoRunBefore(words: seq<set<nat>>, size: nat, start: nat, zero: nat, nr: nat, k: nat)
    requires size <= BITS * |words| && nr > 0 && (zero >= start || zero >= size)
    requires forall i :: start <= i < size && i < zero ==> Test(words, i)
    ensures forall s :: start <= s < AlignUp(zero, Pow2(k) - 1) && Aligned(s, k) ==> !FreeRun(words, size, s, nr)
    ensures Aligned(AlignUp(zero, Pow2(k) - 1), k)
  {
    AlignUpLeast(zero, k, zero);
    forall s | start <= s < AlignUp(zero, Pow2(k) - 1) && Aligned(s, k) ensures !FreeRun(words, size, s, nr) {
      AlignUpLeast(zero, k, s);
      if s < size { assert Test(words, s); }
    }
  }

  // ---- Setting and clearing ranges ----

  /** The bitmap after a range is set or cleared. */
  ghost predicate Ranged(before: seq<set<nat>>, after: seq<set<nat>>, lo: nat, hi: nat, b: bool)
  {
    && |after| == |before| && Words(after)
    && forall i :: 0 <= i < BITS * |before| ==> (Test(after, i) <==> if lo <= i < hi then b else Test(before, i))
  }

  lemma NoRange(words: seq<set<nat>>, lo: nat, b: bool)
    requires Words(words)
    ensures Ranged(words, words, lo, lo, b)
  {
  }

  /** Masking one word extends the range to the mask's end. */
  lemma MaskWord(before: seq<set<nat>>, now: seq<set<nat>>, lo: nat, at: nat, hi: nat, b: bool, mask: set<nat>)
    requires lo <= at <= hi <= BITS * |before| && Ranged(before, now, lo, at, b) && at < BITS * |before|
    requires hi <= BITS * (at / BITS) + BITS
    requires forall x: nat :: x in mask <==> at % BITS <= x < hi - BITS * (at / BITS)
    ensures Ranged(before, now[at / BITS := if b then now[at / BITS] + mask else now[at / BITS] - mask], lo, hi, b)
  {
    var p := at / BITS;
    var after := now[p := if b then now[p] + mask else now[p] - mask];
    forall i | 0 <= i < BITS * |before| ensures Test(after, i) <==> if lo <= i < hi then b else Test(before, i) {
      assert Test(now, i) <==> if lo <= i < at then b else Test(before, i);
      if i / BITS == p { assert i == BITS * p + i % BITS; }
    }
  }

  /** The end of the word that position `at` is in. */
  lemma WordEnd(at: nat)
    ensures var e := at + (BITS - at % BITS);
            e == BITS * (at / BITS) + BITS && e / BITS == at / BITS + 1 && e % BITS == 0
  {
  }

  /** The mask of a range that ends inside the word it begins in. */
  lemma LastMask(at: nat, size: nat)
    requires at < size < at + (BITS - at % BITS)
    ensures size % BITS == size - BITS * (at / BITS)
    ensures forall x: nat :: x in From(at % BITS) * Not(From(size % BITS)) <==>
            at % BITS <= x < size - BITS * (at / BITS)
  {
    assert size / BITS == at / BITS;
  }

  method OrWord(words: array<set<nat>>, p: nat, mask: set<nat>, ghost before: seq<set<nat>>, ghost lo: nat,
      ghost at: nat, ghost hi: nat)
    requires p == at / BITS && lo <= at < hi <= BITS * words.Length && |before| == words.Length
             && Ranged(before, words[..], lo, at, true)
    requires hi <= BITS * p + BITS && forall x: nat :: x in mask <==> at % BITS <= x < hi - BITS * p
    modifies words
    ensures Ranged(before, words[..], lo, hi, true)
  {
    hide Ranged;
    ghost var now := words[..];
    MaskWord(before, now, lo, at, hi, true, mask);
    words[p] := words[p] + mask;
    assert words[..] == now[p := now[p] + mask];
  }

  method AndNotWord(words: array<set<nat>>, p: nat, mask: set<nat>, ghost before: seq<set<nat>>, ghost lo: nat,
      ghost at: nat, ghost hi: nat)
    requires p == at / BITS && lo <= at < hi <= BITS * words.Length && |before| == words.Length
             && Ranged(before, words[..], lo, at, false)
    requires hi <= BITS * p + BITS && forall x: nat :: x in mask <==> at % BITS <= x < hi - BITS * p
    modifies words
    ensures Ranged(before, words[..], lo, hi, false)
  {
    hide Ranged;
    ghost var now := words[..];
    MaskWord(before, now, lo, at, hi, false, mask);
    words[p] := words[p] - mask;
    assert words[..] == now[p := now[p] - mask];
  }

  /** Set a range of bits: bitmap_set. */
  method SetRange(words: array<set<nat>>, start: nat, len0: nat)
    requires Words(words[..]) && start + len0 <= BITS * words.Length
    modifies words
    ensures Ranged(old(words[..]), words[..], start, start + len0, true)
  {
    ghost var before, at := words[..], start;
    NoRange(before, start, true);
    hide Ranged, From, Test, Not;
    var p, len, size := start / BITS, len0, start + len0;
    var bits := BITS - start % BITS;
    var mask := From(start % BITS);
    while len >= bits
      invariant 0 <= len && at + len == size && p == at / BITS && bits == BITS - at % BITS && mask == From(at % BITS)
                && start <= at
      invariant Ranged(before, words[..], start, at, true)
      decreases len
    {
      WordEnd(at);
      OrWord(words, p, mask, before, start, at, at + bits);
      at := at + bits;
      len := len - bits;
      bits, mask, p := BITS, From(0), p + 1;
    }
    if len > 0 {
      LastMask(at, size);
      mask := mask * Not(From(size % BITS));
      OrWord(words, p, mask, before, start, at, size);
    }
  }

  /** Clear a range of bits: bitmap_clear. */
  method ClearRange(words: array<set<nat>>, start: nat, len0: nat)
    requires Words(words[..]) && start + len0 <= BITS * words.Length
    modifies words
    ensures Ranged(old(words[..]), words[..], start, start + len0, false)
  {
    ghost var before, at := words[..], start;
    NoRange(before, start, false);
    hide Ranged, From, Test, Not;
    var p, len, size := start / BITS, len0, start + len0;
    var bits := BITS - start % BITS;
    var mask := From(start % BITS);
    while len >= bits
      invariant 0 <= len && at + len == size && p == at / BITS && bits == BITS - at % BITS && mask == From(at % BITS)
                && start <= at
      invariant Ranged(before, words[..], start, at, false)
      decreases len
    {
      WordEnd(at);
      AndNotWord(words, p, mask, before, start, at, at + bits);
      at := at + bits;
      len := len - bits;
      bits, mask, p := BITS, From(0), p + 1;
    }
    if len > 0 {
      LastMask(at, size);
      mask := mask * Not(From(size % BITS));
      AndNotWord(words, p, mask, before, start, at, size);
    }
  }
}
