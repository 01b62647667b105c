/**
  Stores into one maple tree leaf: locating the range, widening a null store, choosing the
  strategy, and the four strategies that stay inside the leaf.  Each strategy writes pivots,
  slots and metadata in place and is proved to be the one splice of the leaf's runs.
 */
module MapleLeaf {
  import opened Machine
  import opened MapleRuns

  const SLOTS: nat := 16
  const PIVOTS: nat := 15
  const MIN_SLOTS: nat := 6

  /** The storage of one slot.  The last slot's storage doubles as the metadata. */
  datatype Cell = Ent(e: Entry) | Meta(end: nat)

  datatype StoreType = ExactFit | NewRoot | Rebalance | NodeStore | SplitStore | Append | SlotStore | SpanningStore

  /** The strategies that write this leaf only. */
  predicate InLeaf(t: StoreType)
  {
    t in {ExactFit, Append, SlotStore, NodeStore}
  }

  predicate Sized(pivots: seq<nat>, slots: seq<Cell>)
  {
    |pivots| == PIVOTS && |slots| == SLOTS && (forall i :: 0 <= i < PIVOTS ==> slots[i].Ent?)
  }

  /** The runs that pivots and slots stand for when the data end is `end`. */
  function RunsOf(pivots: seq<nat>, slots: seq<Cell>, end: nat, max: nat): (r: seq<Run>)
    requires Sized(pivots, slots) && end < SLOTS && slots[end].Ent?
    ensures |r| == end + 1
  {
    seq(end + 1, i requires 0 <= i <= end => Run(if i < end then pivots[i] else max, slots[i].e))
  }

  /** Pivots past the data end are as a well-formed leaf has them. */
  predicate Padded(pivots: seq<nat>, slots: seq<Cell>, end: nat, max: nat)
    requires Sized(pivots, slots)
  {
    end < PIVOTS ==>
      slots[PIVOTS] == Meta(end) && pivots[end] == max && (forall i :: end < i < PIVOTS ==> pivots[i] == 0)
  }

  /**
    A well-formed leaf: ordered runs, the node's maximum after the last pivot, then zeros, and the data end recorded.
   */
  predicate LeafOk(pivots: seq<nat>, slots: seq<Cell>, end: nat, min: nat, max: nat)
  {
    && Sized(pivots, slots) && end < SLOTS && slots[end].Ent? && max <= ULONG_MAX
    && Ordered(RunsOf(pivots, slots, end, max), min, max)
    && Padded(pivots, slots, end, max)
  }

  /** The data end, decoded from the last pivot and the metadata. */
  function DataEnd(pivots: seq<nat>, slots: seq<Cell>, max: nat): nat
    requires Sized(pivots, slots)
  {
    var offset := PIVOTS - 1;
    if pivots[offset] == 0 then (if slots[PIVOTS].Meta? then slots[PIVOTS].end else 0)
    else if pivots[offset] == max then offset
    else PIVOTS
  }

  lemma {:induction false} PivotsGrow(runs: seq<Run>, min: nat, max: nat, i: nat)
    requires Ordered(runs, min, max) && i < |runs|
    ensures runs[i].last >= i
  {
    if i > 0 { PivotsGrow(runs, min, max, i - 1); }
  }

  /** The decoded data end is the data end, and the metadata is read only where it is stored. */
  lemma DataEndCorrect(pivots: seq<nat>, slots: seq<Cell>, end: nat, min: nat, max: nat)
    requires LeafOk(pivots, slots, end, min, max)
    ensures DataEnd(pivots, slots, max) == end
    ensures pivots[PIVOTS - 1] == 0 ==> slots[PIVOTS].Meta?
  {
    var runs := RunsOf(pivots, slots, end, max);
    PivotsGrow(runs, min, max, end);
    if end == PIVOTS {
      PivotsGrow(runs, min, max, PIVOTS - 1);
      assert runs[PIVOTS - 1].last == pivots[PIVOTS - 1];
    }
  }

  /**
    The leaf invariant of the tree: no neighbouring empty runs, and an empty last run only at the end of the index
    space.
   */
  predicate Settled(runs: seq<Run>, max: nat)
    requires |runs| > 0
  {
    NoAdjacentNulls(runs) && (runs[|runs| - 1].entry == NULL ==> max == ULONG_MAX)
  }

  // ---- Widening a null store ----

  function WidenEnd(runs: seq<Run>, p: Place): (nat, nat)
    requires p.final < |runs|
  {
    if runs[p.final].entry == NULL then (p.final, runs[p.final].last)
    else if p.last == runs[p.final].last && p.final + 1 < |runs| && runs[p.final + 1].entry == NULL then
      (p.final + 1, runs[p.final + 1].last)
    else (p.final, p.last)
  }

  function WidenStart(runs: seq<Run>, min: nat, p: Place): (nat, nat)
    requires p.first < |runs|
  {
    if runs[p.first].entry == NULL then (p.first, Start(runs, min, p.first))
    else if p.index == Start(runs, min, p.first) && p.first > 0 && runs[p.first - 1].entry == NULL then
      (p.first - 1, Start(runs, min, p.first - 1))
    else (p.first, p.index)
  }

  /** The range of a null store, widened over the empty runs it touches. */
  function Widen(runs: seq<Run>, min: nat, p: Place): Place
    requires p.first < |runs| && p.final < |runs|
  {
    Place(WidenStart(runs, min, p).0, WidenEnd(runs, p).0, WidenStart(runs, min, p).1, WidenEnd(runs, p).1)
  }

  lemma WidenStartSame(runs: seq<Run>, min: nat, p: Place, q: Place)
    requires p.first == q.first < |runs| && p.index == q.index
    ensures WidenStart(runs, min, p) == WidenStart(runs, min, q)
  {
  }

  lemma WidenLocated(runs: seq<Run>, min: nat, max: nat, p: Place)
    requires Ordered(runs, min, max) && Located(runs, min, p)
    ensures Located(runs, min, Widen(runs, min, p))
  {
  }

  /** The widened range reaches runs that hold entries, and adds only indices that were empty. */
  lemma WidenOk(runs: seq<Run>, min: nat, max: nat, p: Place, x: nat)
    requires Ordered(runs, min, max) && Located(runs, min, p) && NoAdjacentNulls(runs)
    ensures var q := Widen(runs, min, p);
            && q.index <= p.index && p.last <= q.last
            && LeftHolds(runs, min, q) && RightHolds(runs, q)
            && (q.index <= x <= q.last && !(p.index <= x <= p.last) ==> Lookup(runs, x) == NULL)
  {
    var q := Widen(runs, min, p);
    if q.index <= x < p.index { LookupIs(runs, min, q.first, x); }
    if p.last < x <= q.last { LookupIs(runs, min, q.final, x); }
  }

  /** Where a store really writes: a null store is widened first. */
  function Target(runs: seq<Run>, min: nat, p: Place, entry: Entry): Place
    requires p.first < |runs| && p.final < |runs|
  {
    if entry == NULL then Widen(runs, min, p) else p
  }

  /** The store leaves only an allowed empty last run. */
  lemma TargetEnd(runs: seq<Run>, min: nat, max: nat, p: Place, entry: Entry)
    requires Ordered(runs, min, max) && Located(runs, min, p) && Settled(runs, max)
    requires entry == NULL && p.last == max ==> max == ULONG_MAX
    ensures var q := Target(runs, min, p, entry);
            q.first <= q.final && var s := Splice(runs, min, q, entry); s[|s| - 1].entry == NULL ==> max == ULONG_MAX
  {
    WidenLocated(runs, min, max, p);
    var q := Target(runs, min, p, entry);
    SpliceAt(runs, min, q, entry);
    var s, d := Splice(runs, min, q, entry), Shift(runs, min, q);
    hide Splice, Shift, NewAt;
    if q.final == |runs| - 1 {
      assert |s| - 1 == q.final + d;
    } else {
      assert s[|s| - 1] == runs[|runs| - 1];
    }
  }

  /** s holds the entry at every index from first to last, and what r holds everywhere else. */
  predicate Overwrites(s: seq<Run>, r: seq<Run>, min: nat, max: nat, first: nat, last: nat, entry: Entry)
    requires |s| > 0 && |r| > 0
  {
    forall x :: min <= x <= max ==> Lookup(s, x) == if first <= x <= last then entry else Lookup(r, x)
  }

  /** The splice at the target overwrites exactly the range that was asked for, and settles the leaf. */
  lemma TargetSplice(runs: seq<Run>, min: nat, max: nat, p: Place, entry: Entry)
    requires Ordered(runs, min, max) && Located(runs, min, p) && Settled(runs, max)
    requires entry == NULL && p.last == max ==> max == ULONG_MAX
    ensures var q := Target(runs, min, p, entry);
            && Located(runs, min, q)
            && var s := Splice(runs, min, q, entry);
               && |s| > 0 && Settled(s, max)
               && Overwrites(s, runs, min, max, p.index, p.last, entry)
  {
    WidenLocated(runs, min, max, p);
    TargetEnd(runs, min, max, p, entry);
    var q := Target(runs, min, p, entry);
    if entry == NULL { WidenOk(runs, min, max, p, 0); }
    SpliceNulls(runs, min, max, q, entry);
    hide Splice, Located, WidenStart, WidenEnd, LeftHolds, RightHolds, NoAdjacentNulls, Ordered, Lookup;
    forall x | min <= x <= max
      ensures Lookup(Splice(runs, min, q, entry), x) == if p.index <= x <= p.last then entry else Lookup(runs, x)
    {
      SpliceLookup(runs, min, max, q, entry, x);
      if entry == NULL { WidenOk(runs, min, max, p, x); }
    }
  }

  /** The same indices are empty. */
  predicate SameNulls(r: seq<Run>, q: seq<Run>, min: nat, max: nat)
    requires |r| > 0 && |q| > 0
  {
    forall x :: min <= x <= max ==> (Lookup(r, x) == NULL <==> Lookup(q, x) == NULL)
  }

  /** Every run the range touches is empty exactly if the entry is. */
  predicate NullsMatch(runs: seq<Run>, p: Place, entry: Entry)
    requires p.final < |runs|
  {
    forall i :: p.first <= i <= p.final ==> (runs[i].entry == NULL <==> entry == NULL)
  }

  lemma KeepsNulls(runs: seq<Run>, min: nat, max: nat, p: Place, entry: Entry)
    requires Ordered(runs, min, max) && Located(runs, min, p)
    ensures |Splice(runs, min, p, entry)| > 0
    ensures NullsMatch(runs, p, entry) ==> SameNulls(Splice(runs, min, p, entry), runs, min, max)
  {
    forall x | min <= x <= max && NullsMatch(runs, p, entry)
      ensures Lookup(Splice(runs, min, p, entry), x) == NULL <==> Lookup(runs, x) == NULL
    {
      SpliceLookup(runs, min, max, p, entry, x);
      var i := FindRun(runs, min, max, x);
      LookupIs(runs, min, i, x);
    }
  }

  predicate IsNull(slots: seq<Cell>, i: nat)
  {
    i < |slots| && slots[i] == Ent(NULL)
  }

  // ---- Each strategy is the splice ----

  /** Position k of the new run and displacement d of the runs after the range, as numbers. */
  predicate Displaced(runs: seq<Run>, min: nat, p: Place, k: nat, d: int)
    requires p.first <= p.final < |runs|
  {
    && k == p.first + (if Start(runs, min, p.first) < p.index then 1 else 0)
    && p.final + d == k + (if p.last < runs[p.final].last then 1 else 0)
  }

  /** Runs that agree position by position with the splice are the splice. */
  lemma IsSplice(r: seq<Run>, runs: seq<Run>, min: nat, p: Place, entry: Entry, k: nat, d: int)
    requires p.first <= p.final < |runs| && Displaced(runs, min, p, k, d) && |r| == |runs| + d
    requires forall i :: 0 <= i < p.first ==> r[i] == runs[i]
    requires r[k] == Run(p.last, entry)
    requires k > p.first ==> r[p.first] == Run(p.index - 1, runs[p.first].entry)
    requires p.last < runs[p.final].last ==> r[k + 1] == runs[p.final]
    requires forall i :: p.final + d < i < |r| ==> r[i] == runs[i - d]
    ensures r == Splice(runs, min, p, entry)
  {
    SpliceAt(runs, min, p, entry);
    var s := Splice(runs, min, p, entry);
    assert k == NewAt(runs, min, p) && d == Shift(runs, min, p);
    hide Splice, NewAt, Shift;
    forall i | 0 <= i < |s| ensures r[i] == s[i] {
      if i > p.final + d { assert s[i] == runs[i - d]; }
    }
  }

  lemma ExactRuns(pivots: seq<nat>, slots: seq<Cell>, end: nat, min: nat, max: nat, p: Place, entry: Entry)
    requires LeafOk(pivots, slots, end, min, max)
    requires var runs := RunsOf(pivots, slots, end, max);
             Located(runs, min, p) && p.index == Start(runs, min, p.first) && p.last == runs[p.first].last
    ensures var slots' := slots[p.first := Ent(entry)];
            && LeafOk(pivots, slots', end, min, max)
            && RunsOf(pivots, slots', end, max) == Splice(RunsOf(pivots, slots, end, max), min, p, entry)
  {
    var runs := RunsOf(pivots, slots, end, max);
    assert p.final == p.first;
    var slots' := slots[p.first := Ent(entry)];
    var r := RunsOf(pivots, slots', end, max);
    SpliceOrdered(runs, min, max, p, entry);
    IsSplice(r, runs, min, p, entry, p.first, 0);
  }

  lemma StoredRuns(pivots: seq<nat>, slots: seq<Cell>, end: nat, min: nat, max: nat, p: Place, entry: Entry,
                       P: seq<nat>, S: seq<Cell>, n: nat, k: nat, d: int)
    requires LeafOk(pivots, slots, end, min, max)
    requires Located(RunsOf(pivots, slots, end, max), min, p)
             && Displaced(RunsOf(pivots, slots, end, max), min, p, k, d)
    requires Sized(P, S) && n == end + d < SLOTS && S[n].Ent?
    requires forall i :: 0 <= i < p.first ==> P[i] == pivots[i] && S[i] == slots[i]
    requires k <= n && S[k] == Ent(entry) && (if k < n then P[k] == p.last else p.last == max)
    requires k > p.first ==> P[p.first] == p.index - 1 && S[p.first] == slots[p.first]
    requires p.final + d > k ==> S[k + 1] == slots[p.final] && (k + 1 < n ==> P[k + 1] == pivots[p.final])
    requires forall i :: p.final + d < i <= n ==> S[i] == slots[i - d] && (i < n ==> P[i] == pivots[i - d])
    ensures RunsOf(P, S, n, max) == Splice(RunsOf(pivots, slots, end, max), min, p, entry)
  {
    var runs := RunsOf(pivots, slots, end, max);
    var r := RunsOf(P, S, n, max);
    hide Splice, Ordered, Located;
    assert p.final + d > k ==> r[k + 1] == runs[p.final];
    IsSplice(r, runs, min, p, entry, k, d);
  }

  /** New pivots P and slots S of data end n are the splice if they agree with it position by position. */
  lemma StoredIsSplice(pivots: seq<nat>, slots: seq<Cell>, end: nat, min: nat, max: nat, p: Place, entry: Entry,
                       P: seq<nat>, S: seq<Cell>, n: nat, k: nat, d: int)
    requires LeafOk(pivots, slots, end, min, max)
    requires Located(RunsOf(pivots, slots, end, max), min, p)
             && Displaced(RunsOf(pivots, slots, end, max), min, p, k, d)
    requires Sized(P, S) && n == end + d < SLOTS && S[n].Ent? && Padded(P, S, n, max)
    requires forall i :: 0 <= i < p.first ==> P[i] == pivots[i] && S[i] == slots[i]
    requires k <= n && S[k] == Ent(entry) && (if k < n then P[k] == p.last else p.last == max)
    requires k > p.first ==> P[p.first] == p.index - 1 && S[p.first] == slots[p.first]
    requires p.final + d > k ==> S[k + 1] == slots[p.final] && (k + 1 < n ==> P[k + 1] == pivots[p.final])
    requires forall i :: p.final + d < i <= n ==> S[i] == slots[i - d] && (i < n ==> P[i] == pivots[i - d])
    ensures LeafOk(P, S, n, min, max)
    ensures RunsOf(P, S, n, max) == Splice(RunsOf(pivots, slots, end, max), min, p, entry)
  {
    StoredRuns(pivots, slots, end, min, max, p, entry, P, S, n, k, d);
    SpliceOrdered(RunsOf(pivots, slots, end, max), min, max, p, entry);
    hide Splice, Ordered, Located, Displaced, RunsOf;
  }

  /** Pivots and slots after an append at the end of the data: the range begins or ends inside the last run. */
  function Appended(pivots: seq<nat>, slots: seq<Cell>, end: nat, n: nat, p: Place, head: bool,
      entry: Entry): (seq<nat>, seq<Cell>)
    requires Sized(pivots, slots) && end < n < SLOTS && slots[end].Ent? && n <= end + 2
             && (head || n == end + 2 ==> p.index > 0)
  {
    var ps := if n < PIVOTS then pivots[n := pivots[end]] else pivots;
    var ss := if n < PIVOTS then slots[PIVOTS := Meta(n)] else slots;
    if n == end + 1 then
      if head then (ps[end := p.index - 1], ss[n := Ent(entry)])
      else (ps[end := p.last], ss[n := slots[end]][end := Ent(entry)])
    else
      (ps[end + 1 := p.last][end := p.index - 1], ss[n := slots[end]][end + 1 := Ent(entry)])
  }

  lemma AppendIsSplice(pivots: seq<nat>, slots: seq<Cell>, end: nat, min: nat, max: nat, p: Place, entry: Entry)
    requires LeafOk(pivots, slots, end, min, max)
    requires Located(RunsOf(pivots, slots, end, max), min, p) && p.first == end
    ensures Sized(pivots, slots) && end < SLOTS && slots[end].Ent? && (end < PIVOTS ==> pivots[end] == max)
    ensures var runs := RunsOf(pivots, slots, end, max);
            var head := Start(runs, min, end) < p.index;
            var n := end + (if head then 1 else 0) + (if p.last < max then 1 else 0);
            && p.final == end && p.last <= max && (head ==> p.index > 0)
            && (end < n < SLOTS ==>
                 var (P, S) := Appended(pivots, slots, end, n, p, head, entry);
                 LeafOk(P, S, n, min, max) && RunsOf(P, S, n, max) == Splice(runs, min, p, entry))
  {
    var runs := RunsOf(pivots, slots, end, max);
    var head := Start(runs, min, end) < p.index;
    var n := end + (if head then 1 else 0) + (if p.last < max then 1 else 0);
    if end < n < SLOTS {
      var (P, S) := Appended(pivots, slots, end, n, p, head, entry);
      StoredIsSplice(pivots, slots, end, min, max, p, entry, P, S, n, end + (if head then 1 else 0), n - end);
    }
  }

  /** Pivots and slots after a store that moves run boundaries only. */
  function Slotted(pivots: seq<nat>, slots: seq<Cell>, p: Place, head: bool, entry: Entry): (seq<nat>, seq<Cell>)
    requires Sized(pivots, slots) && p.first < p.final < SLOTS && p.final <= p.first + 2
             && (head || p.final - p.first == 2 ==> p.index > 0)
  {
    if p.final - p.first == 1 then
      if !head then (pivots[p.first := p.last], slots[p.first := Ent(entry)])
      else (pivots[p.first := p.index - 1], slots[p.first + 1 := Ent(entry)])
    else
      (pivots[p.first := p.index - 1][p.first + 1 := p.last], slots[p.first + 1 := Ent(entry)])
  }

  lemma SlotIsSplice(pivots: seq<nat>, slots: seq<Cell>, end: nat, min: nat, max: nat, p: Place, entry: Entry)
    requires LeafOk(pivots, slots, end, min, max)
    requires Located(RunsOf(pivots, slots, end, max), min, p) && p.first < p.final
    requires Displaced(RunsOf(pivots, slots, end, max), min, p,
                       p.first + (if Start(RunsOf(pivots, slots, end, max), min, p.first) < p.index then 1 else 0), 0)
    ensures var runs := RunsOf(pivots, slots, end, max);
            var head := Start(runs, min, p.first) < p.index;
            && (head || p.final - p.first == 2 ==> p.index > 0) && p.final <= p.first + 2
            && var (P, S) := Slotted(pivots, slots, p, head, entry);
               LeafOk(P, S, end, min, max) && RunsOf(P, S, end, max) == Splice(runs, min, p, entry)
  {
    var runs := RunsOf(pivots, slots, end, max);
    var head := Start(runs, min, p.first) < p.index;
    var (P, S) := Slotted(pivots, slots, p, head, entry);
    StoredIsSplice(pivots, slots, end, min, max, p, entry, P, S, end, p.first + (if head then 1 else 0), 0);
  }

  /** Pivots and slots of the rebuilt leaf: what precedes the range, the new run at k, what follows it, then padding. */
  function RebuiltPivots(pivots: seq<nat>, p: Place, k: nat, n: nat, d: int, max: nat): (r: seq<nat>)
    requires |pivots| == PIVOTS && p.first <= k <= n < SLOTS && (k > p.first ==> p.index > 0)
    requires 0 <= k + 1 - d && n - d <= PIVOTS
    ensures |r| == PIVOTS
  {
    seq<nat>(PIVOTS, i requires 0 <= i < PIVOTS =>
      if i < p.first then pivots[i] else if i < k then p.index - 1 else if i == k then p.last
      else if i < n then pivots[i - d] else if i == n then max else 0)
  }

  function RebuiltSlots(slots: seq<Cell>, p: Place, k: nat, n: nat, d: int, content: Entry,
      entry: Entry): (r: seq<Cell>)
    requires |slots| == SLOTS && p.first <= k <= n < SLOTS
    requires 0 <= k + 1 - d && n - d <= PIVOTS
    ensures |r| == SLOTS
  {
    seq(SLOTS, i requires 0 <= i < SLOTS =>
      if i < p.first then slots[i] else if i < k then Ent(content) else if i == k then Ent(entry)
      else if i <= n then slots[i - d] else if i == PIVOTS then Meta(n) else Ent(NULL))
  }

  lemma RebuiltSized(pivots: seq<nat>, slots: seq<Cell>, end: nat, max: nat, p: Place, content: Entry, entry: Entry,
      k: nat, n: nat)
    requires Sized(pivots, slots) && end < SLOTS && slots[end].Ent? && p.first <= end
    requires p.first <= k <= n < SLOTS && (k > p.first ==> p.index > 0) && 0 <= k + 1 - (n - end)
             && (k == n ==> p.last == max)
    ensures var P, S := RebuiltPivots(pivots, p, k, n, n - end, max),
            RebuiltSlots(slots, p, k, n, n - end, content, entry);
            Sized(P, S) && S[n].Ent? && Padded(P, S, n, max)
  {
  }

  lemma RebuiltAgrees(pivots: seq<nat>, slots: seq<Cell>, end: nat, max: nat, p: Place, content: Entry, entry: Entry,
      k: nat, n: nat)
    requires |pivots| == PIVOTS && |slots| == SLOTS && p.first <= p.final <= end < SLOTS
    requires p.first <= k <= p.first + 1 && k <= p.final + (n - end) <= k + 1 && n < SLOTS
             && (k > p.first ==> p.index > 0)
    requires k > p.first ==> Ent(content) == slots[p.first]
    ensures k <= n && 0 <= k + 1 - (n - end)
    ensures var d := n - end;
            var P, S := RebuiltPivots(pivots, p, k, n, d, max), RebuiltSlots(slots, p, k, n, d, content, entry);
            && (forall i :: 0 <= i < p.first ==> P[i] == pivots[i] && S[i] == slots[i])
            && S[k] == Ent(entry) && (k < n ==> P[k] == p.last)
            && (k > p.first ==> P[p.first] == p.index - 1 && S[p.first] == slots[p.first])
            && (p.final + d > k ==> S[k + 1] == slots[p.final] && (k + 1 < n ==> P[k + 1] == pivots[p.final]))
            && (forall i :: p.final + d < i <= n ==> S[i] == slots[i - d] && (i < n ==> P[i] == pivots[i - d]))
  {
  }

  lemma RebuiltIsSplice(pivots: seq<nat>, slots: seq<Cell>, end: nat, min: nat, max: nat, p: Place, content: Entry,
      entry: Entry, k: nat, n: nat)
    requires LeafOk(pivots, slots, end, min, max) && n < SLOTS
    requires Located(RunsOf(pivots, slots, end, max), min, p)
             && Displaced(RunsOf(pivots, slots, end, max), min, p, k, n - end)
    requires k > p.first ==> Ent(content) == slots[p.first]
    ensures p.first <= k <= n && (k > p.first ==> p.index > 0) && 0 <= k + 1 - (n - end) && end <= PIVOTS
    ensures var P, S := RebuiltPivots(pivots, p, k, n, n - end, max),
            RebuiltSlots(slots, p, k, n, n - end, content, entry);
            LeafOk(P, S, n, min, max) && RunsOf(P, S, n, max) == Splice(RunsOf(pivots, slots, end, max), min, p, entry)
  {
    hide Splice, RebuiltPivots, RebuiltSlots, Padded, DataEnd, Ordered, Located, Displaced, RunsOf;
    RebuiltBounds(pivots, slots, end, min, max, p, k, n);
    RebuiltAgrees(pivots, slots, end, max, p, content, entry, k, n);
    RebuiltSized(pivots, slots, end, max, p, content, entry, k, n);
    var P, S := RebuiltPivots(pivots, p, k, n, n - end, max), RebuiltSlots(slots, p, k, n, n - end, content, entry);
    hide Sized;
    StoredIsSplice(pivots, slots, end, min, max, p, entry, P, S, n, k, n - end);
  }

  lemma RebuiltBounds(pivots: seq<nat>, slots: seq<Cell>, end: nat, min: nat, max: nat, p: Place, k: nat, n: nat)
    requires LeafOk(pivots, slots, end, min, max) && n < SLOTS
    requires Located(RunsOf(pivots, slots, end, max), min, p)
             && Displaced(RunsOf(pivots, slots, end, max), min, p, k, n - end)
    ensures p.first <= p.final <= end && p.first <= k <= p.first + 1 && (k > p.first ==> p.index > 0)
    ensures k <= p.final + (n - end) <= k + 1 && (k == n ==> p.last == max)
  {
    hide Padded;
  }

  /** Where the new run goes and the new data end of a rebuilt leaf. */
  function NodeAt(runs: seq<Run>, min: nat, p: Place): nat
    requires p.first < |runs|
  {
    if Start(runs, min, p.first) < p.index then p.first + 1 else p.first
  }

  function NodeEnd(runs: seq<Run>, min: nat, p: Place): int
    requires p.first < |runs| && p.final < |runs|
  {
    |runs| + 1 - (p.final - p.first) - (if Start(runs, min, p.first) == p.index then 1
        else 0) - (if runs[p.final].last == p.last then 1 else 0)
  }

  lemma NodePlaced(runs: seq<Run>, min: nat, max: nat, p: Place)
    requires Ordered(runs, min, max) && Located(runs, min, p)
    ensures Displaced(runs, min, p, NodeAt(runs, min, p), NodeEnd(runs, min, p) - |runs| + 1)
            && NodeEnd(runs, min, p) >= 0
    ensures p.last == runs[p.final].last && p.final == |runs| - 1 ==> p.last == max
  {
  }

  lemma NodeIsSplice(pivots: seq<nat>, slots: seq<Cell>, end: nat, min: nat, max: nat, p: Place, content: Entry,
      entry: Entry, n: nat)
    requires LeafOk(pivots, slots, end, min, max) && Located(RunsOf(pivots, slots, end, max), min, p)
    requires n == NodeEnd(RunsOf(pivots, slots, end, max), min, p) < SLOTS
    requires NodeAt(RunsOf(pivots, slots, end, max), min, p) > p.first ==>
             content == RunsOf(pivots, slots, end, max)[p.first].entry
    ensures var runs := RunsOf(pivots, slots, end, max);
            var k := NodeAt(runs, min, p);
            && p.first <= p.final <= end <= PIVOTS && Start(runs, min, p.first) <= p.index
            && p.first <= k <= n && (k > p.first ==> p.index > 0) && 0 <= k + 1 - (n - end)
            && (p.last == runs[p.final].last && p.final == end ==> p.last == max)
            && var P, S := RebuiltPivots(pivots, p, k, n, n - end, max),
               RebuiltSlots(slots, p, k, n, n - end, content, entry);
               LeafOk(P, S, n, min, max) && RunsOf(P, S, n, max) == Splice(runs, min, p, entry)
  {
    var runs := RunsOf(pivots, slots, end, max);
    NodePlaced(runs, min, max, p);
    assert NodeAt(runs, min, p) > p.first ==> Ent(content) == slots[p.first];
    hide Ordered, Displaced, NodeEnd, RebuiltPivots, RebuiltSlots, Splice;
    RebuiltIsSplice(pivots, slots, end, min, max, p, content, entry, NodeAt(runs, min, p), n);
  }

  /** A block copy: `size` elements of src from position `from` to position `at` of dst. */
  function Copied<T>(dst: seq<T>, at: nat, src: seq<T>, from: nat, size: nat): (r: seq<T>)
    requires at + size <= |dst| && from + size <= |src|
    ensures |r| == |dst|
    ensures forall i :: 0 <= i < |r| ==> r[i] == if at <= i < at + size then src[i - at + from] else dst[i]
  {
    dst[..at] + src[from..from + size] + dst[at + size..]
  }

  class LeafWrite {
    // the leaf
    var pivots: seq<nat>
    var slots: seq<Cell>
    const min: nat
    const max: nat
    const inRcu: bool
    const isRoot: bool
    // the write
    const entry: Entry
    var index: nat
    var last: nat
    var end: nat
    var offset: nat
    var offsetEnd: nat
    var rMin: nat
    var rMax: nat
    var endPiv: nat
    var content: Entry

    constructor (pivots: seq<nat>, slots: seq<Cell>, min: nat, max: nat, inRcu: bool, isRoot: bool, entry: Entry,
        index: nat, last: nat)
      ensures this.pivots == pivots && this.slots == slots && this.min == min && this.max == max
      ensures this.inRcu == inRcu && this.isRoot == isRoot && this.entry == entry && this.index == index
              && this.last == last
    {
      this.pivots, this.slots, this.min, this.max := pivots, slots, min, max;
      this.inRcu, this.isRoot, this.entry, this.index, this.last := inRcu, isRoot, entry, index, last;
      end, offset, offsetEnd, rMin, rMax, endPiv, content := 0, 0, 0, 0, 0, 0, NULL;
    }

    ghost predicate Valid()
      reads this
    {
      LeafOk(pivots, slots, end, min, max)
    }

    ghost function Runs(): seq<Run>
      reads this
      requires Valid()
    {
      RunsOf(pivots, slots, end, max)
    }

    ghost function At(): Place
      reads this
    {
      Place(offset, offsetEnd, index, last)
    }

    /** The write state describes where the range lies in the leaf. */
    ghost predicate Walked()
      reads this
      requires Valid()
    {
      && Located(Runs(), min, At())
      && rMin == Start(Runs(), min, offset) && endPiv == Runs()[offsetEnd].last && rMax == Runs()[offset].last
      && (rMin < index || offset == end || last <= rMax ==> content == Runs()[offset].entry)
    }

    /** Locate the index: mas_wr_node_walk, and the content of the slot it is in. */
    method NodeWalk(ghost dataEnd: nat)
      requires LeafOk(pivots, slots, dataEnd, min, max) && min <= index <= max
      modifies this`end, this`offset, this`offsetEnd, this`rMin, this`rMax, this`content
      ensures end == dataEnd && offset == offsetEnd <= end && InRun(Runs(), min, offset, index)
      ensures rMin == Start(Runs(), min, offset) && rMax == Runs()[offset].last && content == Runs()[offset].entry
    {
      DataEndCorrect(pivots, slots, dataEnd, min, max);
      var count := DataEnd(pivots, slots, max);
      var o: nat := 0;
      while o < count && index > pivots[o]
        invariant o <= count
        invariant o > 0 ==> pivots[o - 1] < index
      {
        o := o + 1;
      }
      end := count;
      rMax := if o < count then pivots[o] else max;
      rMin := if o != 0 then pivots[o - 1] + 1 else min;
      offsetEnd, offset := o, o;
      content := slots[o].e;
    }

    /** Locate the end of the range: mas_wr_end_piv. */
    method FindEnd()
      requires Valid() && offset == offsetEnd <= end && InRun(Runs(), min, offset, index) && index <= last <= max
      modifies this`offsetEnd, this`endPiv
      ensures offset <= offsetEnd <= end && Located(Runs(), min, At()) && endPiv == Runs()[offsetEnd].last
    {
      while offsetEnd < end && last > pivots[offsetEnd]
        invariant offset <= offsetEnd <= end
        invariant offsetEnd > offset ==> pivots[offsetEnd - 1] < last
      {
        offsetEnd := offsetEnd + 1;
      }
      endPiv := if offsetEnd < end then pivots[offsetEnd] else max;
    }

    method ExtendNullEnd()
      requires Valid() && offsetEnd <= end && endPiv == Runs()[offsetEnd].last
      modifies this`last, this`offsetEnd, this`endPiv
      ensures (offsetEnd, last) == WidenEnd(Runs(), old(At())) && endPiv == Runs()[offsetEnd].last
    {
      hide Ordered;
      if slots[offsetEnd].e == NULL {
        last := endPiv;
      } else if last == endPiv && end != offsetEnd && slots[offsetEnd + 1].e == NULL {
        offsetEnd := offsetEnd + 1;
        last := if offsetEnd == end then max else pivots[offsetEnd];
        endPiv := last;
      }
    }

    method ExtendNullStart()
      requires Valid() && offset <= end && rMin == Start(Runs(), min, offset) && rMax == Runs()[offset].last
      requires content == Runs()[offset].entry
      modifies this`index, this`offset, this`rMin, this`rMax
      ensures (offset, index) == WidenStart(Runs(), min, old(At()))
      ensures rMin == Start(Runs(), min, offset) && rMax == Runs()[offset].last
      ensures offset == old(offset) || (rMin == index && offset < end && rMax < old(index))
    {
      hide Ordered;
      if content == NULL {
        index := rMin;
      } else if index == rMin && offset != 0 && slots[offset - 1].e == NULL {
        offset := offset - 1;
        rMin := if offset != 0 then pivots[offset - 1] + 1 else min;
        index := rMin;
        rMax := pivots[offset];
      }
    }

    /** Widen a null store over neighbouring empty runs: mas_wr_extend_null. */
    method ExtendNull()
      requires Valid() && Walked() && content == Runs()[offset].entry && NoAdjacentNulls(Runs())
      modifies this`index, this`last, this`offset, this`offsetEnd, this`rMin, this`rMax, this`endPiv
      ensures At() == Widen(Runs(), min, old(At())) && Walked()
    {
      ghost var runs, p := Runs(), At();
      WidenLocated(runs, min, max, p);
      assert p.first <= p.final < |runs|;
      hide LeafOk, RunsOf, Located, NoAdjacentNulls, WidenStart, WidenEnd;
      ExtendNullEnd();
      assert WidenStart(runs, min, At()) == WidenStart(runs, min, p) by { WidenStartSame(runs, min, At(), p); }
      ExtendNullStart();
    }

    /** The data end after the store: mas_wr_new_end. */
    function NewEnd(): int
      reads this
    {
      end + 2 - (offsetEnd - offset) - (if rMin == index then 1 else 0) - (if endPiv == last then 1 else 0)
    }

    /** The strategy: mas_wr_store_type, from the leaf on. */
    function ChooseType(): (t: StoreType)
      reads this
      ensures t != SpanningStore
    {
      if rMin == index && rMax == last then ExactFit
      else if index == 0 && last == ULONG_MAX then NewRoot
      else if NewEnd() < MIN_SLOTS then (if !isRoot then Rebalance else NodeStore)
      else if NewEnd() >= SLOTS then SplitStore
      else if !inRcu && offset == end then Append
      else if NewEnd() == end && (!inRcu || offsetEnd - offset == 1) then SlotStore
      else NodeStore
    }

    /**
      The data end computed for the choice is the one the store will have, so the write stays in this leaf exactly if it
      replaces one run, or if the resulting runs fit the node without leaving a node below the root too empty.
     */
    lemma StrategyBySize()
      requires Valid() && Walked()
      ensures NewEnd() + 1 == |Splice(Runs(), min, At(), entry)|
      ensures var size := |Splice(Runs(), min, At(), entry)|;
              InLeaf(ChooseType()) <==>
                || (index == Start(Runs(), min, offset) && last == Runs()[offset].last)
                || (!(index == 0 && last == ULONG_MAX) && size <= SLOTS && (isRoot || size > MIN_SLOTS))
    {
      SpliceOrdered(Runs(), min, max, At(), entry);
    }

    /** What every in-leaf strategy achieves. */
    twostate predicate Spliced()
      requires old(Valid()) && old(Walked())
      reads this
    {
      && Valid()
      && Runs() == Splice(old(Runs()), min, old(At()), entry)
    }

    method StoreExact()
      requires Valid() && Walked() && ChooseType() == ExactFit
      modifies this`slots
      ensures Spliced()
    {
      ExactRuns(pivots, slots, end, min, max, At(), entry);
      slots := slots[offset := Ent(entry)];
    }

    method AppendWrites(newEnd: nat)
      requires Sized(pivots, slots) && end < newEnd < SLOTS && newEnd <= end + 2 && slots[end] == Ent(content)
      requires newEnd == end + 2 || last == rMax ==> index > 0
      modifies this`pivots, this`slots, this`offset
      ensures (pivots, slots) == Appended(old(pivots), old(slots), end, newEnd, old(At()), last == rMax, entry)
    {
      if newEnd < PIVOTS {
        pivots := pivots[newEnd := pivots[end]];
        slots := slots[PIVOTS := Meta(newEnd)];
      }
      if newEnd == end + 1 {
        if last == rMax {
          slots := slots[newEnd := Ent(entry)];
          pivots := pivots[end := index - 1];
          offset := newEnd;
        } else {
          slots := slots[newEnd := Ent(content)];
          pivots := pivots[end := last];
          slots := slots[end := Ent(entry)];
        }
      } else {
        slots := slots[newEnd := Ent(content)];
        pivots := pivots[end + 1 := last];
        slots := slots[end + 1 := Ent(entry)];
        pivots := pivots[end := index - 1];
        offset := end + 1;
      }
    }

    /** Write past the end of the data: mas_wr_append. */
    method StoreAppend()
      requires Valid() && Walked() && ChooseType() == Append
      modifies this`pivots, this`slots, this`end, this`offset
      ensures end == old(NewEnd()) && Spliced()
    {
      hide Splice, Padded;
      AppendIsSplice(pivots, slots, end, min, max, At(), entry);
      hide Ordered, Appended;
      var newEnd := NewEnd();
      AppendWrites(newEnd);
      end := newEnd;
    }

    method SlotWrites()
      requires Sized(pivots, slots) && offset < offsetEnd < SLOTS && offsetEnd <= offset + 2
      requires index != rMin || offsetEnd - offset == 2 ==> index > 0
      modifies this`pivots, this`slots, this`offset
      ensures (pivots, slots) == Slotted(old(pivots), old(slots), old(At()), index != rMin, entry)
    {
      if offsetEnd - offset == 1 {
        if index == rMin {
          slots := slots[offset := Ent(entry)];
          pivots := pivots[offset := last];
        } else {
          slots := slots[offset + 1 := Ent(entry)];
          pivots := pivots[offset := index - 1];
          offset := offset + 1;
        }
      } else {
        slots := slots[offset + 1 := Ent(entry)];
        pivots := pivots[offset := index - 1];
        pivots := pivots[offset + 1 := last];
        offset := offset + 1;
      }
    }

    /** Move run boundaries only: mas_wr_slot_store. */
    method StoreSlot()
      requires Valid() && Walked() && ChooseType() == SlotStore
      modifies this`pivots, this`slots, this`offset
      ensures end == old(NewEnd()) && Spliced()
    {
      SlotPlaced(Runs(), min, max, At());
      SlotIsSplice(pivots, slots, end, min, max, At(), entry);
      hide Ordered, Splice, Slotted, Displaced;
      SlotWrites();
    }

    /** The pivots of the rebuilt leaf, copied as mas_wr_node_store copies them; o is where the new run goes. */
    method CopyPivots(o: nat, oe: nat, newEnd: nat) returns (ps: seq<nat>)
      requires |pivots| == PIVOTS && offset <= offsetEnd <= end < SLOTS && newEnd < SLOTS
      requires o == offset + (if rMin < index then 1 else 0) <= newEnd && offsetEnd <= oe <= offsetEnd + 1
               && newEnd == o + 1 + end - oe
      requires oe == end + 1 ==> last == max
      ensures ps == RebuiltPivots(pivots, At(), o, newEnd, newEnd - end, max)
    {
      hide Copied;
      ps := Copied(seq(PIVOTS, _ => 0), 0, pivots, 0, offset);
      if rMin < index { ps := ps[offset := index - 1]; }
      if o < PIVOTS { ps := ps[o := last]; }
      if oe <= end {
        ps := Copied(ps, o + 1, pivots, oe, end - oe);
        if newEnd < PIVOTS { ps := ps[newEnd := max]; }
      }
    }

    method CopySlots(o: nat, oe: nat, newEnd: nat) returns (ss: seq<Cell>)
      requires |slots| == SLOTS && offset <= offsetEnd <= end < SLOTS && newEnd < SLOTS
      requires o == offset + (if rMin < index then 1 else 0) <= newEnd && offsetEnd <= oe <= offsetEnd + 1
               && newEnd == o + 1 + end - oe
      ensures ss == RebuiltSlots(slots, At(), o, newEnd, newEnd - end, content, entry)
    {
      hide Copied;
      ss := Copied(seq(SLOTS, _ => Ent(NULL)), 0, slots, 0, offset);
      if rMin < index { ss := ss[offset := Ent(content)]; }
      ss := ss[o := Ent(entry)];
      if oe <= end { ss := Copied(ss, o + 1, slots, oe, end - oe + 1); }
      if newEnd < SLOTS - 1 { ss := ss[PIVOTS := Meta(newEnd)]; }
    }

    method NodeWrites(newEnd: nat)
      requires Sized(pivots, slots) && offset <= offsetEnd <= end < SLOTS && newEnd == NewEnd() < SLOTS && rMin <= index
      requires offset + (if rMin < index then 1 else 0) <= newEnd
               && (last == endPiv && offsetEnd == end ==> last == max)
      modifies this`pivots, this`slots, this`offset, this`end
      ensures offset == old(offset) + (if rMin < index then 1 else 0) && end == newEnd
      ensures pivots == RebuiltPivots(old(pivots), old(At()), offset, newEnd, newEnd - old(end), max)
      ensures slots == RebuiltSlots(old(slots), old(At()), offset, newEnd, newEnd - old(end), content, entry)
    {
      hide RebuiltPivots, RebuiltSlots;
      var o := if rMin < index then offset + 1 else offset;
      var oe := if last == endPiv then offsetEnd + 1 else offsetEnd;
      var ps := CopyPivots(o, oe, newEnd);
      var ss := CopySlots(o, oe, newEnd);
      pivots, slots, offset, end := ps, ss, o, newEnd;
    }

    /** Rebuild the leaf: mas_wr_node_store. */
    method StoreNode()
      requires Valid() && Walked() && ChooseType() == NodeStore
      modifies this`pivots, this`slots, this`offset, this`end
      ensures end == old(NewEnd()) && Spliced()
    {
      hide RebuiltPivots, RebuiltSlots, Splice, Ordered;
      assert NewEnd() == NodeEnd(Runs(), min, At());
      hide Located, ChooseType, LeafOk;
      NodeIsSplice(pivots, slots, end, min, max, At(), content, entry, NewEnd());
      NodeWrites(NewEnd());
    }

    /** Carry out the chosen strategy where it stays in the leaf: mas_wr_store_entry. */
    method StoreEntry(t: StoreType) returns (gaps: bool)
      requires Valid() && Walked() && t == ChooseType()
      modifies this`pivots, this`slots, this`offset, this`end
      ensures if InLeaf(t) then Spliced() else pivots == old(pivots) && slots == old(slots) && end == old(end)
      ensures InLeaf(t) && !gaps ==> NullsMatch(old(Runs()), old(At()), entry)
      ensures InLeaf(t) && !isRoot && old(end) > 0 ==> end > 0
    {
      assert InLeaf(t) && !isRoot && t != ExactFit ==> NewEnd() > 0;
      gaps := UpdatesGaps(t);
      GapSkip(t);
      hide LeafOk, Located, Splice, ChooseType, NewEnd, UpdatesGaps, NullsMatch;
      if t == ExactFit {
        StoreExact();
      } else if t == Append {
        StoreAppend();
      } else if t == SlotStore {
        StoreSlot();
      } else if t == NodeStore {
        StoreNode();
      }
    }

    /** Whether the store is followed by a gap update, as each strategy decides it from the slots it touches. */
    function UpdatesGaps(t: StoreType): bool
      reads this
      requires Sized(pivots, slots)
    {
      match t
      case ExactFit => (entry != NULL) != (content != NULL)
      case Append => content == NULL || entry == NULL
      case SlotStore =>
        entry == NULL || IsNull(slots, offset) || IsNull(slots, offset + 1)
            || (offsetEnd - offset != 1 && IsNull(slots, offset + 2))
      case _ => true
    }

    lemma GapSkip(t: StoreType)
      requires Valid() && Walked() && t == ChooseType()
      ensures InLeaf(t) && !UpdatesGaps(t) ==> NullsMatch(Runs(), At(), entry)
    {
      if t == SlotStore { SlotPlaced(Runs(), min, max, At()); }
    }

    /** Walk the leaf, widen, choose: mas_wr_store_type from the leaf on. */
    method Prepare(ghost dataEnd: nat) returns (t: StoreType)
      requires LeafOk(pivots, slots, dataEnd, min, max) && NoAdjacentNulls(RunsOf(pivots, slots, dataEnd, max))
      requires min <= index <= last <= max
      modifies this`index, this`last, this`end, this`offset, this`offsetEnd, this`rMin, this`rMax, this`endPiv,
          this`content
      ensures end == dataEnd && Walked() && t == ChooseType() && t != SpanningStore
      ensures exists p ::
                Located(Runs(), min, p) && p.index == old(index) && p.last == old(last)
                && At() == Target(Runs(), min, p, entry)
    {
      hide ChooseType;
      NodeWalk(dataEnd);
      FindEnd();
      hide LeafOk, RunsOf, Located, WidenStart, WidenEnd, NoAdjacentNulls;
      ghost var p := At();
      if entry == NULL { ExtendNull(); }
      t := ChooseType();
    }

    /**
      Store `entry` over [index, last], a range that does not span leaves.  If the strategy stays in the leaf, then
      every lookup in the leaf changes exactly as asked, and the leaf is well formed with its data end decodable.
      The gap update is skipped only if no index became empty or stopped being empty.
     */
    method Store(ghost dataEnd: nat) returns (t: StoreType, gaps: bool)
      requires LeafOk(pivots, slots, dataEnd, min, max) && Settled(RunsOf(pivots, slots, dataEnd, max), max)
      requires min <= index <= last <= max && (entry == NULL && last == max ==> max == ULONG_MAX)
      modifies this
      ensures t != SpanningStore
      ensures InLeaf(t) ==>
                && Valid() && Settled(Runs(), max) && DataEnd(pivots, slots, max) == end
                && Overwrites(Runs(), old(RunsOf(pivots, slots, dataEnd, max)), min, max, old(index), old(last), entry)
      ensures InLeaf(t) && !isRoot && dataEnd > 0 ==> end > 0
      ensures InLeaf(t) && !gaps ==> SameNulls(Runs(), old(RunsOf(pivots, slots, dataEnd, max)), min, max)
      ensures !InLeaf(t) ==> pivots == old(pivots) && slots == old(slots) && end == dataEnd
    {
      hide ChooseType, NewEnd, Splice, Overwrites, SameNulls, NullsMatch, Target;
      t := Prepare(dataEnd);
      ghost var p :| Located(Runs(), min, p) && p.index == old(index) && p.last == old(last)
          && At() == Target(Runs(), min, p, entry);
      TargetSplice(Runs(), min, max, p, entry);
      KeepsNulls(Runs(), min, max, At(), entry);
      hide Located, Settled, Ordered, RunsOf;
      gaps := StoreEntry(t);
      if InLeaf(t) { DataEndCorrect(pivots, slots, end, min, max); }
    }
  }

  lemma SlotPlaced(runs: seq<Run>, min: nat, max: nat, p: Place)
    requires Ordered(runs, min, max) && Located(runs, min, p)
    requires p.final - p.first + (if Start(runs, min, p.first) == p.index then 1
             else 0) + (if runs[p.final].last == p.last then 1 else 0) == 2
    requires !(Start(runs, min, p.first) == p.index && runs[p.first].last == p.last)
    ensures p.first < p.final
    ensures Displaced(runs, min, p, p.first + (if Start(runs, min, p.first) < p.index then 1 else 0), 0)
  {
  }
}
