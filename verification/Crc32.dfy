/**
  CRC-32: the table-driven computation against the bit-serial division register of section 8.1.1.6.2
  of ITU-T V.42 in its reflected form (sample code in section 8 of RFC 1952).
 */
module Crc32 {

  const POLYNOMIAL: bv32 := 0xEDB8_8320
  const ONES: bv32 := 0xFFFF_FFFF

  // ---- The bit-serial register ----

  /** One step of the register without input. */
  function Shift(c: bv32): bv32
  {
    if c & 1 == 1 then POLYNOMIAL ^ (c >> 1) else c >> 1
  }

  /** One step with an input bit: it is added to the bit that leaves the register. */
  function Step(c: bv32, bit: bool): bv32
  {
    if (c & 1 == 1) != bit then POLYNOMIAL ^ (c >> 1) else c >> 1
  }

  function Register(c: bv32, bits: seq<bool>): bv32
    decreases |bits|
  {
    if bits == [] then c else Register(Step(c, bits[0]), bits[1..])
  }

  /** The n lowest bits of b, lowest first. */
  function BitsOf(b: bv32, n: nat): (r: seq<bool>)
    ensures |r| == n
  {
    if n == 0 then [] else [b & 1 == 1] + BitsOf(b >> 1, n - 1)
  }

  /** A message as bits: each byte lowest bit first. */
  function MessageBits(msg: seq<bv8>): seq<bool>
  {
    if msg == [] then [] else BitsOf(msg[0] as bv32, 8) + MessageBits(msg[1..])
  }

  /** The checksum: start with ones, run the register over the message, complement. */
  function Checksum(msg: seq<bv8>): bv32
  {
    Register(ONES, MessageBits(msg)) ^ ONES
  }

  lemma {:induction false} RegisterAppend(c: bv32, a: seq<bool>, b: seq<bool>)
    ensures Register(c, a + b) == Register(Register(c, a), b)
    decreases |a|
  {
    if a == [] {
      assert a + b == b;
    } else {
      assert (a + b)[1..] == a[1..] + b;
      RegisterAppend(Step(c, a[0]), a[1..], b);
    }
  }

  // ---- Linearity ----

  function Add(a: bv32, b: bv32): bv32
  {
    a ^ b
  }

  lemma LowBit(a: bv32, b: bv32)
    ensures ((a ^ b) & 1 == 1) <==> ((a & 1 == 1) != (b & 1 == 1))
  {
  }

  lemma XorBoth(p: bv32, a: bv32, b: bv32)
    ensures (a ^ b) >> 1 == (p ^ (a >> 1)) ^ (p ^ (b >> 1))
  {
  }

  lemma XorLeft(p: bv32, a: bv32, b: bv32)
    ensures p ^ ((a ^ b) >> 1) == (p ^ (a >> 1)) ^ (b >> 1)
  {
  }

  lemma XorRight(p: bv32, a: bv32, b: bv32)
    ensures p ^ ((a ^ b) >> 1) == (a >> 1) ^ (p ^ (b >> 1))
  {
  }

  lemma XorNeither(a: bv32, b: bv32)
    ensures (a ^ b) >> 1 == (a >> 1) ^ (b >> 1)
  {
  }

  lemma ShiftXor(a: bv32, b: bv32)
    ensures Shift(a ^ b) == Shift(a) ^ Shift(b)
  {
    LowBit(a, b);
    if a & 1 == 1 {
      if b & 1 == 1 { XorBoth(POLYNOMIAL, a, b); } else { XorLeft(POLYNOMIAL, a, b); }
    } else {
      if b & 1 == 1 { XorRight(POLYNOMIAL, a, b); } else { XorNeither(a, b); }
    }
  }

  /** The register step is linear. */
  lemma ShiftAdd(a: bv32, b: bv32)
    ensures Shift(Add(a, b)) == Add(Shift(a), Shift(b))
  {
    hide Shift;
    ShiftXor(a, b);
  }

  lemma StepXor(c: bv32, b: bv32)
    ensures Shift(c ^ b) == Step(c, b & 1 == 1) ^ (b >> 1)
  {
    LowBit(c, b);
    if (c & 1 == 1) != (b & 1 == 1) { XorLeft(POLYNOMIAL, c, b); } else { XorNeither(c, b); }
  }

  /** An input bit may be added to the register before the step. */
  lemma InputFirst(c: bv32, b: bv32)
    ensures Shift(Add(c, b)) == Add(Step(c, b & 1 == 1), b >> 1)
  {
    hide Shift, Step;
    StepXor(c, b);
  }

  function Times(c: bv32, n: nat): bv32
    decreases n
  {
    if n == 0 then c else Times(Shift(c), n - 1)
  }

  lemma {:induction false} TimesAdd(a: bv32, b: bv32, n: nat)
    ensures Times(Add(a, b), n) == Add(Times(a, n), Times(b, n))
    decreases n
  {
    hide Add, Shift;
    if n > 0 {
      ShiftAdd(a, b);
      TimesAdd(Shift(a), Shift(b), n - 1);
    }
  }

  function Halved(b: bv32, n: nat): bv32
    decreases n
  {
    if n == 0 then b else Halved(b >> 1, n - 1)
  }

  /** Feeding n bits one at a time, or adding them all first and stepping n times. */
  lemma {:induction false} BitsAtOnce(c: bv32, b: bv32, n: nat)
    ensures Times(Add(c, b), n) == Add(Register(c, BitsOf(b, n)), Halved(b, n))
    decreases n
  {
    hide Add, Shift, Step;
    if n > 0 {
      InputFirst(c, b);
      BitsAtOnce(Step(c, b & 1 == 1), b >> 1, n - 1);
      assert BitsOf(b, n)[1..] == BitsOf(b >> 1, n - 1);
    }
  }

  /** The n lowest bits are zero. */
  predicate LowZero(y: bv32, n: nat)
    decreases n
  {
    n == 0 || (y & 1 == 0 && LowZero(y >> 1, n - 1))
  }

  lemma {:induction false} ZerosShiftOut(y: bv32, n: nat)
    requires LowZero(y, n)
    ensures Times(y, n) == Halved(y, n)
    decreases n
  {
    if n > 0 {
      assert Shift(y) == y >> 1;
      hide Shift;
      ZerosShiftOut(y >> 1, n - 1);
    }
  }

  lemma EightZeros(x: bv32)
    ensures LowZero(x & 0xFFFF_FF00, 8)
  {
    var y := x & 0xFFFF_FF00;
    assert y & 1 == 0 && (y >> 1) & 1 == 0 && (y >> 2) & 1 == 0 && (y >> 3) & 1 == 0;
    assert (y >> 4) & 1 == 0 && (y >> 5) & 1 == 0 && (y >> 6) & 1 == 0 && (y >> 7) & 1 == 0;
    NestedShifts(y);
  }

  lemma NestedShifts(y: bv32)
    ensures (y >> 1) >> 1 == y >> 2 && (y >> 2) >> 1 == y >> 3 && (y >> 3) >> 1 == y >> 4 && (y >> 4) >> 1 == y >> 5
    ensures (y >> 5) >> 1 == y >> 6 && (y >> 6) >> 1 == y >> 7 && (y >> 7) >> 1 == y >> 8
  {
  }

  lemma HalvedEight(y: bv32)
    ensures Halved(y, 8) == y >> 8
  {
    NestedShifts(y);
  }

  lemma ByteParts(crc: bv32, b: bv32)
    requires b <= 0xFF
    ensures crc ^ b == ((crc ^ b) & 0xFF) ^ ((crc ^ b) & 0xFFFF_FF00)
    ensures ((crc ^ b) & 0xFFFF_FF00) >> 8 == crc >> 8 && b >> 8 == 0
  {
  }

  lemma AddZero(x: bv32)
    ensures Add(x, 0) == x
  {
  }

  lemma AddParts(crc: bv32, b: bv32)
    requires b <= 0xFF
    ensures Add(crc, b) == Add((crc ^ b) & 0xFF, (crc ^ b) & 0xFFFF_FF00)
  {
    ByteParts(crc, b);
  }

  lemma SplitSteps(crc: bv32, b: bv32, low: bv32, rest: bv32, top: bv32)
    requires Add(crc, b) == Add(low, rest) && LowZero(rest, 8) && rest >> 8 == top && b >> 8 == 0
    ensures Add(Times(low, 8), top) == Register(crc, BitsOf(b, 8))
  {
    hide Add, Times, Register, BitsOf, LowZero, Halved;
    TimesAdd(low, rest, 8);
    ZerosShiftOut(rest, 8);
    HalvedEight(rest);
    HalvedEight(b);
    BitsAtOnce(crc, b, 8);
    AddZero(Register(crc, BitsOf(b, 8)));
  }

  /** The register and a byte, cut into the table index and what stays. */
  predicate Parts(crc: bv32, b: bv32, low: bv32, rest: bv32, top: bv32)
  {
    low == (crc ^ b) & 0xFF && rest == (crc ^ b) & 0xFFFF_FF00 && top == crc >> 8
  }

  lemma PartsOk(crc: bv32, b: bv32, low: bv32, rest: bv32, top: bv32)
    requires b <= 0xFF && Parts(crc, b, low, rest, top)
    ensures Add(crc, b) == Add(low, rest) && LowZero(rest, 8)
  {
    AddParts(crc, b);
    EightZeros(crc ^ b);
  }

  lemma PartsShift(crc: bv32, b: bv32, low: bv32, rest: bv32, top: bv32)
    requires b <= 0xFF && Parts(crc, b, low, rest, top)
    ensures rest >> 8 == top && b >> 8 == 0
  {
    ByteParts(crc, b);
  }

  /** One table step does what the register does with the eight bits of a byte. */
  lemma TableStep(crc: bv32, b: bv32, low: bv32, rest: bv32, top: bv32)
    requires b <= 0xFF && Parts(crc, b, low, rest, top)
    ensures Add(Times(low, 8), top) == Register(crc, BitsOf(b, 8))
  {
    hide Add, Times, Register, BitsOf, LowZero, Halved, Parts;
    PartsOk(crc, b, low, rest, top);
    PartsShift(crc, b, low, rest, top);
    SplitSteps(crc, b, low, rest, top);
  }

  /** The state after a message is the sum of what the start value and the message alone would give. */
  lemma {:induction false} RemaindersAdd(c: bv32, d: bv32, bits: seq<bool>)
    ensures Register(Add(c, d), bits) == Add(Register(c, seq(|bits|, _ => false)), Register(d, bits))
    decreases |bits|
  {
    hide Add, Step;
    if bits != [] {
      var zeros := seq(|bits|, _ => false);
      assert zeros[1..] == seq(|bits| - 1, _ => false) && !zeros[0];
      StepAdd(c, d, bits[0]);
      RemaindersAdd(Step(c, false), Step(d, bits[0]), bits[1..]);
    }
  }

  lemma StepIsShift(c: bv32, bit: bool)
    ensures Step(c, bit) == Shift(Add(c, if bit then 1 else 0))
  {
    LowBit(c, if bit then 1 else 0);
    assert (c ^ 1) >> 1 == c >> 1 && c ^ 0 == c;
  }

  lemma AddMiddle(c: bv32, d: bv32, b: bv32)
    ensures Add(Add(c, d), b) == Add(c, Add(d, b))
  {
  }

  lemma StepAdd(c: bv32, d: bv32, bit: bool)
    ensures Step(Add(c, d), bit) == Add(Step(c, false), Step(d, bit))
  {
    hide Add, Step, Shift;
    var b: bv32 := if bit then 1 else 0;
    StepIsShift(Add(c, d), bit);
    StepIsShift(c, false);
    StepIsShift(d, bit);
    AddMiddle(c, d, b);
    AddZero(c);
    ShiftAdd(c, Add(d, b));
  }

  // ---- The table and its users ----

  /** Entry i of the table: eight steps of the register from i. */
  function EntryOf(i: nat): bv32
    requires i < 256
  {
    Times(i as bv32, 8)
  }

  class Table {
    const entries: array<bv32>

    ghost predicate Valid()
      reads entries
    {
      entries.Length == 256 && forall i: nat :: i < 256 ==> entries[i] == EntryOf(i)
    }

    /** crc32_init. */
    constructor ()
      ensures Valid() && fresh(entries)
    {
      entries := new bv32[256];
      new;
      FillTable(entries);
    }

    method Entry(low: bv32) returns (r: bv32)
      requires Valid() && low <= 0xFF
      ensures r == Times(low, 8)
    {
      hide Times;
      IndexRoundTrip(low);
      r := entries[low as int];
      assert r == EntryOf(low as int);
    }

    /** One byte through the table. */
    method Feed(crc: bv32, b: bv8) returns (r: bv32)
      requires Valid()
      ensures r == Register(crc, BitsOf(b as bv32, 8))
    {
      hide Times, Register, BitsOf;
      var wide := b as bv32;
      var low, top := (crc ^ wide) & 0xFF, crc >> 8;
      ByteFits(b);
      LowByte(crc ^ wide);
      TableStep(crc, wide, low, (crc ^ wide) & 0xFFFF_FF00, top);
      var entry := Entry(low);
      r := Add(entry, top);
    }

    /** One byte after another: the loop of crc32 and of crypto_crc32_update. */
    method FeedAll(crc0: bv32, data: seq<bv8>) returns (crc: bv32)
      requires Valid()
      ensures crc == Register(crc0, MessageBits(data))
    {
      hide Register, BitsOf, MessageBits;
      crc := crc0;
      RegisterNone(crc0);
      for i := 0 to |data|
        invariant crc == Register(crc0, MessageBits(data[..i]))
      {
        ghost var before := crc;
        crc := Feed(crc, data[i]);
        NextByte(crc0, data, i);
      }
      assert data[..|data|] == data;
    }

    /** The one-shot checksum: crc32. */
    method Compute(data: seq<bv8>) returns (crc: bv32)
      requires Valid()
      ensures crc == Checksum(data)
    {
      crc := FeedAll(ONES, data);
      crc := crc ^ ONES;
    }
  }

  /** The running checksum of the crypto interface. */
  class Hash {
    const table: Table
    var crc: bv32
    ghost var fed: seq<bv8>

    ghost predicate Valid()
      reads this, table.entries
    {
      table.Valid() && crc == Register(ONES, MessageBits(fed))
    }

    /** crypto_crc32_init. */
    constructor (table: Table)
      requires table.Valid()
      ensures Valid() && fed == [] && this.table == table
    {
      this.table, crc, fed := table, ONES, [];
    }

    /** crypto_crc32_update. */
    method Update(data: seq<bv8>)
      requires Valid()
      modifies this
      ensures Valid() && fed == old(fed) + data
    {
      hide Register, MessageBits;
      MessageAppend(fed, data);
      RegisterAppend(ONES, MessageBits(fed), MessageBits(data));
      crc := table.FeedAll(crc, data);
      fed := fed + data;
    }

    /** crypto_crc32_final: however the message was cut into pieces, the result is its checksum. */
    method Final() returns (out: bv32)
      requires Valid()
      ensures out == Checksum(fed)
    {
      out := crc ^ ONES;
    }
  }

  /** Any way of feeding a message piece by piece. */
  method Chunked(table: Table, chunks: seq<seq<bv8>>) returns (out: bv32)
    requires table.Valid()
    ensures out == Checksum(Joined(chunks))
  {
    var h := new Hash(table);
    assert chunks[..0] == [];
    for i := 0 to |chunks|
      invariant h.Valid() && h.table == table && fresh(h) && h.fed == Joined(chunks[..i])
    {
      h.Update(chunks[i]);
      JoinedNext(chunks, i);
    }
    assert chunks[..|chunks|] == chunks;
    out := h.Final();
  }

  function Joined(chunks: seq<seq<bv8>>): seq<bv8>
  {
    if chunks == [] then [] else Joined(chunks[..|chunks| - 1]) + chunks[|chunks| - 1]
  }

  lemma JoinedNext(chunks: seq<seq<bv8>>, i: nat)
    requires i < |chunks|
    ensures Joined(chunks[..i + 1]) == Joined(chunks[..i]) + chunks[i]
  {
    assert chunks[..i + 1][..i] == chunks[..i];
  }

  method FillTable(entries: array<bv32>)
    requires entries.Length == 256
    modifies entries
    ensures forall i: nat :: i < 256 ==> entries[i] == EntryOf(i)
  {
    hide EntryOf;
    for i := 0 to 256
      invariant forall k: nat :: k < i ==> entries[k] == EntryOf(k)
    {
      entries[i] := MakeEntry(i);
    }
  }

  /** The eight steps that make a table entry. */
  method MakeEntry(i: nat) returns (c: bv32)
    requires i < 256
    ensures c == EntryOf(i)
  {
    hide Times;
    c := i as bv32;
    var left := 8;
    while left > 0
      invariant 0 <= left && Times(c, left) == EntryOf(i)
    {
      TimesStep(c, left);
      if c & 1 == 1 { c := POLYNOMIAL ^ (c >> 1); } else { c := c >> 1; }
      left := left - 1;
    }
    TimesNone(c);
  }

  lemma TimesStep(c: bv32, n: nat)
    requires n > 0
    ensures Times(c, n) == Times(if c & 1 == 1 then POLYNOMIAL ^ (c >> 1) else c >> 1, n - 1)
  {
  }

  lemma TimesNone(c: bv32)
    ensures Times(c, 0) == c
  {
  }

  lemma IndexRoundTrip(low: bv32)
    requires low <= 0xFF
    ensures 0 <= low as int < 256 && (low as int) as bv32 == low
  {
  }

  lemma ByteFits(b: bv8)
    ensures b as bv32 <= 0xFF
  {
  }

  lemma LowByte(x: bv32)
    ensures x & 0xFF <= 0xFF
  {
  }

  lemma RegisterNone(c: bv32)
    ensures Register(c, MessageBits([])) == c
  {
  }

  lemma {:induction false} MessageAppend(a: seq<bv8>, b: seq<bv8>)
    ensures MessageBits(a + b) == MessageBits(a) + MessageBits(b)
  {
    if a == [] {
      assert a + b == b;
    } else {
      assert (a + b)[1..] == a[1..] + b;
      MessageAppend(a[1..], b);
      assert MessageBits(a + b) == BitsOf(a[0] as bv32, 8) + (MessageBits(a[1..]) + MessageBits(b));
    }
  }

  lemma NextByte(c: bv32, data: seq<bv8>, i: nat)
    requires i < |data|
    ensures Register(c, MessageBits(data[..i + 1])) == Register(Register(c, MessageBits(data[..i])),
            BitsOf(data[i] as bv32, 8))
  {
    assert data[..i + 1] == data[..i] + [data[i]];
    MessageAppend(data[..i], [data[i]]);
    assert MessageBits([data[i]]) == BitsOf(data[i] as bv32, 8) + MessageBits([]) == BitsOf(data[i] as bv32, 8);
    RegisterAppend(c, MessageBits(data[..i]), BitsOf(data[i] as bv32, 8));
  }
}
