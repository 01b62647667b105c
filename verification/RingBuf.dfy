/**
  A byte ring: a fixed buffer with a write position (head) and a read position (tail), one byte
  kept free so that equal positions mean empty.
 */
module RingBuf {

  type Byte = x: nat | x < 256

  // ---- Views of a buffer ----

  /** Position i after t in a buffer of n bytes, around the end. */
  function Around(n: nat, t: nat, i: nat): nat
  {
    if t + i < n then t + i else t + i - n
  }

  /** The u bytes from position t on, around the end of the buffer. */
  function View(buf: seq<Byte>, t: nat, u: nat): (s: seq<Byte>)
    requires t < |buf| && u <= |buf|
    ensures |s| == u && forall i :: 0 <= i < u ==> s[i] == buf[Around(|buf|, t, i)]
  {
    seq(u, i requires 0 <= i < u => buf[Around(|buf|, t, i)])
  }

  lemma AroundIsModulo(n: nat, t: nat, k: nat)
    requires t < n && k <= n
    ensures t + k < 2 * n && Around(n, t, k) == (t + k) % n
  {
    if t + k >= n { ModuloOnce(t + k, n); }
  }

  lemma ModuloOnce(x: nat, n: nat)
    requires n <= x < 2 * n
    ensures x % n == x - n
  {
    var q := x / n;
    assert x == q * n + x % n;
    assert q >= 2 ==> q * n >= 2 * n;
    assert q <= 0 ==> q * n <= 0;
  }

  lemma ViewSkip(buf: seq<Byte>, t: nat, u: nat, k: nat)
    requires t < |buf| && k <= u < |buf|
    ensures Around(|buf|, t, k) == (t + k) % |buf| < |buf|
    ensures View(buf, (t + k) % |buf|, u - k) == View(buf, t, u)[k..]
  {
    AroundIsModulo(|buf|, t, k);
  }

  lemma ViewPrefix(buf: seq<Byte>, t: nat, u: nat, k: nat)
    requires t < |buf| && k <= u < |buf|
    ensures View(buf, t, u)[..k] == if k <= |buf| - t then buf[t..t + k] else buf[t..] + buf[..k - (|buf| - t)]
  {
  }

  /** Writing src right after the view extends it. */
  lemma ViewAppend(buf: seq<Byte>, buf': seq<Byte>, t: nat, u: nat, src: seq<Byte>)
    requires t < |buf| == |buf'| && u + |src| < |buf|
    requires Stored(buf, buf', Around(|buf|, t, u), src)
    ensures View(buf', t, u + |src|) == View(buf, t, u) + src
  {
    var n, h := |buf|, Around(|buf|, t, u);
    forall i | 0 <= i < u + |src| ensures View(buf', t, u + |src|)[i] == (View(buf, t, u) + src)[i] {
      if i >= u {
        assert Around(n, t, i) == Around(n, h, i - u);
      } else {
        assert !Between(n, h, |src|, Around(n, t, i));
      }
    }
  }

  /** Position p is among the k positions from h on. */
  predicate Between(n: nat, h: nat, k: nat, p: nat)
  {
    h <= p < h + k || p < h + k - n
  }

  /** buf' is buf with src stored from position h on, around the end. */
  predicate Stored(buf: seq<Byte>, buf': seq<Byte>, h: nat, src: seq<Byte>)
  {
    && |buf'| == |buf| && h < |buf| && |src| < |buf|
    && (forall i :: 0 <= i < |src| ==> buf'[Around(|buf|, h, i)] == src[i])
    && (forall p :: 0 <= p < |buf| && !Between(|buf|, h, |src|, p) ==> buf'[p] == buf[p])
  }

  class Ring {
    const data: array<Byte>
    var head: nat
    var tail: nat

    ghost predicate Valid()
      reads this
    {
      head < data.Length && tail < data.Length
    }

    function Space(): (n: nat)
      reads this
      requires Valid()
    {
      if head >= tail then data.Length - (head - tail) - 1 else tail - head - 1
    }

    function Used(): (n: nat)
      reads this
      requires Valid()
      ensures n + Space() + 1 == data.Length
    {
      if head >= tail then head - tail else data.Length - (tail - head)
    }

    /** The bytes written and not yet read, oldest first. */
    ghost function Contents(): (s: seq<Byte>)
      reads this, data
      requires Valid()
      ensures |s| == Used()
    {
      View(data[..], tail, Used())
    }

    constructor (size: nat)
      requires size > 0
      ensures Valid() && fresh(data) && data.Length == size && Contents() == []
    {
      data := new Byte[size](_ => 0);
      head, tail := 0, 0;
    }

    predicate IsEmpty()
      reads this
      requires Valid()
      ensures IsEmpty() <==> Used() == 0
    {
      head == tail
    }

    /** A block copy into the buffer. */
    method CopyIn(at: nat, src: seq<Byte>)
      requires at + |src| <= data.Length
      modifies data
      ensures forall i :: 0 <= i < data.Length ==> data[i] == if at <= i < at + |src| then src[i - at] else old(data[i])
    {
      forall i | 0 <= i < |src| { data[at + i] := src[i]; }
    }

    /** The bytes of a write, in one piece or two. */
    method Store(src: seq<Byte>)
      requires Valid() && |src| < data.Length
      modifies data
      ensures Stored(old(data[..]), data[..], head, src)
    {
      var toEnd := data.Length - head;
      if |src| <= toEnd {
        CopyIn(head, src);
      } else {
        CopyIn(head, src[..toEnd]);
        CopyIn(0, src[toEnd..]);
      }
    }

    /** Append as many of the bytes as fit: ringbuf_write. */
    method Write(src: seq<Byte>) returns (n: nat)
      requires Valid()
      modifies this`head, data
      ensures Valid() && n == (if |src| > old(Space()) then old(Space()) else |src|)
      ensures Contents() == old(Contents()) + src[..n]
    {
      n := if |src| > Space() then Space() else |src|;
      if n == 0 { return; }
      ghost var buf, used := data[..], Used();
      Store(src[..n]);
      AroundIsModulo(data.Length, tail, used);
      AroundIsModulo(data.Length, head, n);
      ViewAppend(buf, data[..], tail, used, src[..n]);
      head := if n <= data.Length - head then (head + n) % data.Length else n - (data.Length - head);
      assert Used() == used + n;
    }

    /** The oldest bytes, left in place: ringbuf_peek. */
    method Peek(len: nat) returns (s: seq<Byte>)
      requires Valid()
      ensures s == Contents()[..if len > Used() then Used() else len]
    {
      var n := if len > Used() then Used() else len;
      ViewPrefix(data[..], tail, Used(), n);
      var toEnd := data.Length - tail;
      s := if n <= toEnd then data[tail..tail + n] else data[tail..] + data[..n - toEnd];
    }

    /** Drop the oldest bytes: ringbuf_skip. */
    method Skip(len: nat)
      requires Valid()
      modifies this`tail
      ensures Valid() && Contents() == old(Contents())[if len > old(Used()) then old(Used()) else len..]
    {
      var n := if len > Used() then Used() else len;
      ViewSkip(data[..], tail, Used(), n);
      tail := (tail + n) % data.Length;
    }

    /** Take the oldest bytes: ringbuf_read. */
    method Read(len: nat) returns (s: seq<Byte>)
      requires Valid()
      modifies this`tail
      ensures Valid() && |s| == (if len > old(Used()) then old(Used()) else len)
      ensures old(Contents()) == s + Contents()
    {
      var n := if len > Used() then Used() else len;
      ghost var all, left := Contents(), Used() - n;
      s := Peek(n);
      hide View;
      ViewSkip(data[..], tail, Used(), n);
      ghost var next := Around(data.Length, tail, n);
      AroundIsModulo(data.Length, tail, n);
      var toEnd := data.Length - tail;
      tail := if n <= toEnd then (tail + n) % data.Length else n - toEnd;
      assert tail == next;
      assert Used() == left;
      assert all == all[..n] + all[n..];
    }
  }
}
