/**
  The kernel log: records framed in a byte ring.  A write drops whole old records until the new one
  fits; a read takes the oldest record.
 */
module Log {
  import opened Options
  import opened RingBuf

  const RING_SIZE: nat := 4096
  const HEADER: nat := 12
  const MAX_PAYLOAD: nat := RING_SIZE - HEADER - 1

  datatype Record = Record(level: Byte, flags: Byte, ts: nat, payload: seq<Byte>)

  predicate RecordOk(r: Record)
  {
    |r.payload| <= MAX_PAYLOAD && r.ts < Power(8)
  }

  // ---- Framing ----

  function Power(k: nat): nat
  {
    if k == 0 then 1 else 256 * Power(k - 1)
  }

  /** The k lowest bytes of n, lowest first. */
  function Little(n: nat, k: nat): (s: seq<Byte>)
    ensures |s| == k
  {
    if k == 0 then [] else [n % 256] + Little(n / 256, k - 1)
  }

  function FromLittle(s: seq<Byte>): nat
  {
    if s == [] then 0 else s[0] + 256 * FromLittle(s[1..])
  }

  lemma {:induction false} LittleRoundTrip(n: nat, k: nat)
    requires n < Power(k)
    ensures FromLittle(Little(n, k)) == n
  {
    if k > 0 {
      LittleRoundTrip(n / 256, k - 1);
      assert Little(n, k)[1..] == Little(n / 256, k - 1);
    }
  }

  /** The packed header: level, flags, payload length in two bytes, timestamp in eight. */
  function Header(r: Record): (h: seq<Byte>)
    ensures |h| == HEADER
  {
    [r.level, r.flags] + Little(|r.payload|, 2) + Little(r.ts, 8)
  }

  function Encode(r: Record): seq<Byte>
  {
    Header(r) + r.payload
  }

  function EncodeAll(rs: seq<Record>): seq<Byte>
  {
    if rs == [] then [] else Encode(rs[0]) + EncodeAll(rs[1..])
  }

  /** The payload length in a header. */
  function LengthIn(h: seq<Byte>): nat
    requires |h| >= 4
  {
    FromLittle(h[2..4])
  }

  function Decode(bytes: seq<Byte>): Option<seq<Record>>
    decreases |bytes|
  {
    if bytes == [] then Some([])
    else if |bytes| < HEADER || |bytes| < HEADER + LengthIn(bytes) then None
    else
      var end := HEADER + LengthIn(bytes);
      match Decode(bytes[end..])
      case None => None
      case Some(rs) => Some([Record(bytes[0], bytes[1], FromLittle(bytes[4..12]), bytes[HEADER..end])] + rs)
  }

  lemma HeaderLength(r: Record, rest: seq<Byte>)
    requires RecordOk(r)
    ensures LengthIn(Header(r) + rest) == |r.payload|
  {
    assert Power(1) == 256 && Power(2) == 65536;
    LittleRoundTrip(|r.payload|, 2);
    assert (Header(r) + rest)[2..4] == Little(|r.payload|, 2);
  }

  /** Whole records decode to themselves. */
  lemma {:induction false} DecodeEncode(rs: seq<Record>)
    requires forall i :: 0 <= i < |rs| ==> RecordOk(rs[i])
    ensures Decode(EncodeAll(rs)) == Some(rs)
  {
    if rs != [] {
      DecodeEncode(rs[1..]);
      DecodeFirst(rs[0], EncodeAll(rs[1..]));
      assert [rs[0]] + rs[1..] == rs;
    }
  }

  /** Decoding takes the first record off and goes on with the rest. */
  lemma DecodeFirst(r: Record, rest: seq<Byte>)
    requires RecordOk(r)
    ensures Decode(Encode(r) + rest) == if Decode(rest) == None then None else Some([r] + Decode(rest).value)
  {
    var bytes := Encode(r) + rest;
    HeaderLength(r, r.payload + rest);
    assert bytes == Header(r) + (r.payload + rest);
    LittleRoundTrip(r.ts, 8);
    assert bytes[4..12] == Little(r.ts, 8);
    assert bytes[HEADER..HEADER + |r.payload|] == r.payload && bytes[HEADER + |r.payload|..] == rest;
    assert bytes[0] == r.level && bytes[1] == r.flags;
    hide Encode, Header, Little;
  }

  lemma {:induction false} EncodeAppend(rs: seq<Record>, r: Record)
    ensures EncodeAll(rs + [r]) == EncodeAll(rs) + Encode(r)
  {
    if rs == [] {
      assert rs + [r] == [r] && EncodeAll([r]) == Encode(r) + EncodeAll([]);
    } else {
      assert (rs + [r])[1..] == rs[1..] + [r];
      EncodeAppend(rs[1..], r);
    }
  }

  /** The first record of an encoded sequence. */
  lemma FirstRecord(log: seq<Record>, first: nat)
    requires first < |log| && RecordOk(log[first])
    ensures EncodeAll(log[first..]) == Header(log[first]) + log[first].payload + EncodeAll(log[first + 1..])
    ensures |EncodeAll(log[first..])| >= HEADER && LengthIn(EncodeAll(log[first..])[..HEADER]) == |log[first].payload|
  {
    var rs := log[first..];
    assert rs[0] == log[first] && rs[1..] == log[first + 1..];
    HeaderLength(log[first], []);
    assert EncodeAll(rs)[..HEADER] == Header(log[first]) == Header(log[first]) + [];
  }

  lemma LoggedNext(log: seq<Record>, first: nat, r: Record)
    requires first <= |log|
    ensures EncodeAll((log + [r])[first..]) == EncodeAll(log[first..]) + Encode(r)
    ensures Encode(r) == [r.level, r.flags] + Little(|r.payload|, 2) + Little(r.ts, 8) + r.payload
            && |Encode(r)| == HEADER + |r.payload|
  {
    EncodeAppend(log[first..], r);
    assert (log + [r])[first..] == log[first..] + [r];
  }

  lemma NothingLeft(log: seq<Record>, first: nat)
    requires first <= |log| && forall i :: 0 <= i < |log| ==> RecordOk(log[i])
    ensures EncodeAll(log[first..]) == [] <==> first == |log|
  {
    if first < |log| { FirstRecord(log, first); }
  }

  class Log {
    const ring: Ring
    ghost var logged: seq<Record>
    ghost var first: nat

    /** The ring holds whole records: those logged from number `first` on. */
    ghost predicate Valid()
      reads this, ring, ring.data
    {
      && ring.Valid() && ring.data.Length == RING_SIZE && first <= |logged|
      && (forall i :: 0 <= i < |logged| ==> RecordOk(logged[i]))
      && ring.Contents() == EncodeAll(logged[first..])
    }

    constructor ()
      ensures Valid() && logged == [] && fresh(ring) && fresh(ring.data)
    {
      ring := new Ring(RING_SIZE);
      logged, first := [], 0;
    }

    /** Drop whole records, oldest first, until `need` bytes fit: drop_oldest. */
    method DropOldest(need: nat)
      requires Valid() && need < RING_SIZE
      modifies ring`tail, this`first
      ensures Valid() && old(first) <= first && ring.Space() >= need
      ensures first > old(first) ==> RING_SIZE - 1 - |EncodeAll(logged[first - 1..])| < need
    {
      hide Header, LengthIn, EncodeAll;
      while ring.Space() < need
        invariant Valid() && old(first) <= first
        invariant first > old(first) ==> RING_SIZE - 1 - |EncodeAll(logged[first - 1..])| < need
        decreases |logged| - first
      {
        NothingLeft(logged, first);
        FirstRecord(logged, first);
        ghost var all := ring.Contents();
        var hdr := ring.Peek(HEADER);
        if |hdr| < HEADER { break; }
        var drop := HEADER + LengthIn(hdr);
        ring.Skip(drop);
        assert all[drop..] == EncodeAll(logged[first + 1..]);
        first := first + 1;
      }
    }

    /**
      Log a message: the ring part of log_write_str.  The newest record is stored whole up to the payload limit, and no
      more old records are dropped than it needs.
     */
    method Write(level: Byte, flags: Byte, ts: nat, msg: seq<Byte>)
      requires Valid() && ts < Power(8)
      modifies ring`head, ring`tail, ring.data, this
      ensures Valid() && old(first) <= first < |logged|
      ensures logged == old(logged) + [Record(level, flags, ts,
              msg[..if |msg| > MAX_PAYLOAD then MAX_PAYLOAD else |msg|])]
      ensures first > old(first) ==>
              |EncodeAll(old(logged)[first - 1..])| + |Encode(logged[|logged| - 1])| > RING_SIZE - 1
    {
      hide EncodeAll, Encode, Little;
      var len := if |msg| > MAX_PAYLOAD then MAX_PAYLOAD else |msg|;
      var need := HEADER + len;
      if ring.Space() < need { DropOldest(need); }
      ghost var r := Record(level, flags, ts, msg[..len]);
      LoggedNext(logged, first, r);
      Append([level, flags] + Little(len, 2) + Little(ts, 8), msg[..len]);
      logged := logged + [r];
    }

    /** The two ring writes of a record for which there is room. */
    method Append(hdr: seq<Byte>, payload: seq<Byte>)
      requires ring.Valid() && ring.Space() >= |hdr| + |payload|
      modifies ring`head, ring.data
      ensures ring.Valid() && ring.Contents() == old(ring.Contents()) + (hdr + payload)
    {
      var n := ring.Write(hdr);
      n := ring.Write(payload);
      assert hdr[..|hdr|] == hdr && payload[..|payload|] == payload;
    }

    /**
      Read the oldest record into a buffer: log_read.  What did not fit of the payload stays in front of the later
      records, so afterwards the ring holds whole records, or any suffix of what was logged, exactly if the buffer had
      room for the payload and a terminating byte.
     */
    method Read(outLen: int) returns (out: seq<Byte>, level: Byte)
      requires Valid()
      modifies ring`tail, this`first
      ensures outLen <= 0 || old(first) == |logged| ==> out == [] && first == old(first) && Valid()
      ensures outLen > 0 && old(first) < |logged| ==>
                var r := logged[old(first)];
                && level == r.level && first == old(first) + 1
                && out == r.payload[..if |r.payload| < outLen then |r.payload| else outLen - 1]
                && ring.Valid() && ring.Contents() == r.payload[|out|..] + EncodeAll(logged[first..])
                && (Valid() <==> |r.payload| < outLen)
                && ((exists f :: 0 <= f <= |logged| && ring.Contents() == EncodeAll(logged[f..])) <==>
                   |r.payload| < outLen)
    {
      out, level := [], 0;
      if outLen <= 0 { return; }
      NothingLeft(logged, first);
      if ring.IsEmpty() { return; }
      ghost var r, rest := logged[first], EncodeAll(logged[first + 1..]);
      FirstRecord(logged, first);
      assert ring.Contents() == Header(r) + (r.payload + rest);
      hide EncodeAll, Header;
      var hdr := TakeHeader(r, r.payload + rest);
      HeaderLength(r, []);
      assert hdr + [] == hdr;
      var len := LengthIn(hdr);
      var toCopy := if len > outLen - 1 then outLen - 1 else len;
      out := ring.Read(toCopy);
      TakenPrefix(out, ring.Contents(), r.payload, rest);
      // the guard of the skip that follows in the source never holds: the ring always has the bytes asked for
      assert !(|out| < toCopy && len > toCopy);
      level := hdr[0];
      first := first + 1;
      Remains(logged, first, |out|, ring.Contents());
    }

    method TakeHeader(ghost r: Record, ghost rest: seq<Byte>) returns (hdr: seq<Byte>)
      requires ring.Valid() && ring.Contents() == Header(r) + rest
      modifies ring`tail
      ensures ring.Valid() && hdr == Header(r) && hdr[0] == r.level && ring.Contents() == rest
    {
      ghost var all := ring.Contents();
      hdr := ring.Read(HEADER);
      assert hdr == all[..HEADER] && ring.Contents() == all[HEADER..];
    }
  }

  lemma {:induction false} FewerBytes(log: seq<Record>, f: nat, g: nat)
    requires f <= g <= |log|
    ensures |EncodeAll(log[g..])| <= |EncodeAll(log[f..])|
    decreases g - f
  {
    if f < g {
      assert log[f..][1..] == log[f + 1..];
      FewerBytes(log, f + 1, g);
    }
  }

  /**
    The bytes after a read of n bytes of the payload before `first` are a suffix of the log exactly if n is all of it.
   */
  lemma Remains(log: seq<Record>, first: nat, n: nat, left: seq<Byte>)
    requires 0 < first <= |log| && RecordOk(log[first - 1]) && n <= |log[first - 1].payload|
    requires left == log[first - 1].payload[n..] + EncodeAll(log[first..])
    ensures (exists f :: 0 <= f <= |log| && left == EncodeAll(log[f..])) <==> n == |log[first - 1].payload|
  {
    var p := log[first - 1].payload;
    if n == |p| {
      assert left == EncodeAll(log[first..]);
    } else {
      FirstRecord(log, first - 1);
      forall f | 0 <= f <= |log| ensures left != EncodeAll(log[f..]) {
        if f < first { FewerBytes(log, f, first - 1); } else { FewerBytes(log, first, f); }
      }
    }
  }

  /** A record of two bytes read into a buffer of two leaves its second byte, which is no record. */
  method ShortRead() returns (log: Log)
    ensures fresh(log) && log.ring.Valid() && !log.Valid()
    ensures log.logged == [Record(6, 0, 0, [65, 66])] && log.ring.Contents() == [66] && Decode([66]) == None
  {
    log := new Log();
    var msg: seq<Byte> := [65, 66];
    log.Write(6, 0, 0, msg);
    assert msg[..2] == msg;
    var out, level := log.Read(2);
    assert log.logged[1..] == [] && msg[1..] == [66];
  }

  lemma TakenPrefix(out: seq<Byte>, left: seq<Byte>, payload: seq<Byte>, rest: seq<Byte>)
    requires out + left == payload + rest && |out| <= |payload|
    ensures out == payload[..|out|] && left == payload[|out|..] + rest && (left == rest <==> |out| == |payload|)
  {
    var all := payload + rest;
    assert out == all[..|out|] && left == all[|out|..];
  }
}
