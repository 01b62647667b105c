/**
  The meaning of a maple tree node's pivots and slots: a sequence of runs, each run giving the
  entry for the indices after the previous run up to its own last index.  Overwriting a range
  of indices is one splice of the run sequence.
 */
module MapleRuns {

  type Entry = nat

  const NULL: Entry := 0

  datatype Run = Run(last: nat, entry: Entry)

  /** First index of run i. */
  function Start(runs: seq<Run>, min: nat, i: nat): nat
    requires i < |runs|
  {
    if i == 0 then min else runs[i - 1].last + 1
  }

  /** The runs partition [min, max]. */
  predicate Ordered(runs: seq<Run>, min: nat, max: nat)
  {
    && |runs| > 0 && runs[|runs| - 1].last == max && min <= runs[0].last
    && (forall i, j :: 0 <= i < j < |runs| ==> runs[i].last < runs[j].last)
  }

  predicate InRun(runs: seq<Run>, min: nat, i: nat, x: nat)
    requires i < |runs|
  {
    Start(runs, min, i) <= x <= runs[i].last
  }

  /** The entry for index x: that of the first run that reaches x. */
  function Lookup(runs: seq<Run>, x: nat): Entry
    requires |runs| > 0
  {
    if |runs| == 1 || x <= runs[0].last then runs[0].entry else Lookup(runs[1..], x)
  }

  lemma {:induction false} LookupIs(runs: seq<Run>, min: nat, i: nat, x: nat)
    requires i < |runs| && InRun(runs, min, i, x)
    requires forall j, k :: 0 <= j < k < |runs| ==> runs[j].last < runs[k].last
    ensures Lookup(runs, x) == runs[i].entry
  {
    if i > 0 { LookupIs(runs[1..], runs[0].last + 1, i - 1, x); }
  }

  lemma {:induction false} FindRun(runs: seq<Run>, min: nat, max: nat, x: nat) returns (i: nat)
    requires Ordered(runs, min, max) && min <= x <= max
    ensures i < |runs| && InRun(runs, min, i, x)
  {
    if x <= runs[0].last {
      i := 0;
    } else {
      i := FindRun(runs[1..], runs[0].last + 1, max, x);
      i := i + 1;
    }
  }

  /** No two neighbouring runs are both empty. */
  predicate NoAdjacentNulls(runs: seq<Run>)
  {
    forall i :: 0 < i < |runs| ==> runs[i - 1].entry != NULL || runs[i].entry != NULL
  }

  // ---- Splicing ----

  /** A range of indices located in the runs: it begins in run `first` and ends in run `final`. */
  datatype Place = Place(first: nat, final: nat, index: nat, last: nat)

  predicate Located(runs: seq<Run>, min: nat, p: Place)
  {
    && p.first <= p.final < |runs| && p.index <= p.last
    && InRun(runs, min, p.first, p.index) && InRun(runs, min, p.final, p.last)
  }

  /** What remains of the first run before the range, and of the final run after it. */
  function HeadPart(runs: seq<Run>, min: nat, p: Place): seq<Run>
    requires p.first < |runs|
  {
    if Start(runs, min, p.first) < p.index then [Run(p.index - 1, runs[p.first].entry)] else []
  }

  function TailPart(runs: seq<Run>, p: Place): seq<Run>
    requires p.final < |runs|
  {
    if p.last < runs[p.final].last then [runs[p.final]] else []
  }

  function Splice(runs: seq<Run>, min: nat, p: Place, entry: Entry): seq<Run>
    requires p.first <= p.final < |runs|
  {
    runs[..p.first] + HeadPart(runs, min, p) + [Run(p.last, entry)] + TailPart(runs, p) + runs[p.final + 1..]
  }

  /** Position of the new run. */
  function NewAt(runs: seq<Run>, min: nat, p: Place): nat
    requires p.first < |runs|
  {
    p.first + |HeadPart(runs, min, p)|
  }

  /** How far the runs after the range move. */
  function Shift(runs: seq<Run>, min: nat, p: Place): int
    requires p.first <= p.final < |runs|
  {
    NewAt(runs, min, p) + |TailPart(runs, p)| - p.final
  }

  /** The splice, position by position. */
  lemma SpliceAt(runs: seq<Run>, min: nat, p: Place, entry: Entry)
    requires p.first <= p.final < |runs|
    ensures var s, k, d := Splice(runs, min, p, entry), NewAt(runs, min, p), Shift(runs, min, p);
            && |s| == |runs| + d
            && k == p.first + (if Start(runs, min, p.first) < p.index then 1 else 0)
            && k + (if p.last < runs[p.final].last then 1 else 0) == p.final + d
            && (forall i :: 0 <= i < p.first ==> s[i] == runs[i])
            && (k > p.first ==> s[p.first] == Run(p.index - 1, runs[p.first].entry))
            && s[k] == Run(p.last, entry)
            && (p.last < runs[p.final].last ==> s[k + 1] == runs[p.final])
            && (forall i :: p.final + d < i < |s| ==> s[i] == runs[i - d])
  {
    var s, k, d := Splice(runs, min, p, entry), NewAt(runs, min, p), Shift(runs, min, p);
    var a := runs[..p.first] + HeadPart(runs, min, p);
    var b := a + [Run(p.last, entry)];
    var c := b + TailPart(runs, p);
    assert s == c + runs[p.final + 1..];
    assert |a| == k && |b| == k + 1 && |c| == p.final + d + 1;
    assert forall i :: 0 <= i < |c| ==> s[i] == c[i];
    assert forall i :: 0 <= i <= k ==> c[i] == b[i];
    assert forall i :: 0 <= i < k ==> b[i] == a[i];
  }

  lemma SpliceStep(runs: seq<Run>, min: nat, max: nat, p: Place, entry: Entry, i: nat)
    requires Ordered(runs, min, max) && Located(runs, min, p) && i + 1 < |Splice(runs, min, p, entry)|
    ensures Splice(runs, min, p, entry)[i].last < Splice(runs, min, p, entry)[i + 1].last
  {
    hide Splice, NewAt, Shift;
    SpliceAt(runs, min, p, entry);
    var s, k, d := Splice(runs, min, p, entry), NewAt(runs, min, p), Shift(runs, min, p);
    if i + 1 == p.first {
      assert s[i] == runs[p.first - 1];
    } else if i > k {
      assert i + 1 > p.final + d;
    }
  }

  lemma SpliceEnds(runs: seq<Run>, min: nat, max: nat, p: Place, entry: Entry)
    requires Ordered(runs, min, max) && Located(runs, min, p)
    ensures var s := Splice(runs, min, p, entry);
            && |s| == |runs| + 2 - (p.final - p.first) - (if Start(runs, min, p.first) == p.index then 1 else 0)
                      - (if runs[p.final].last == p.last then 1 else 0)
            && |s| > 0 && s[|s| - 1].last == max && min <= s[0].last
  {
    hide Splice, NewAt, Shift;
    SpliceAt(runs, min, p, entry);
    var s, k, d := Splice(runs, min, p, entry), NewAt(runs, min, p), Shift(runs, min, p);
    if k + 1 < |s| { assert |s| - 1 > p.final + d || k + 1 == |s| - 1; }
  }

  lemma SpliceOrdered(runs: seq<Run>, min: nat, max: nat, p: Place, entry: Entry)
    requires Ordered(runs, min, max) && Located(runs, min, p)
    ensures Ordered(Splice(runs, min, p, entry), min, max)
    ensures |Splice(runs, min, p, entry)| ==
            |runs| + 2 - (p.final - p.first) - (if Start(runs, min, p.first) == p.index then 1 else 0)
              - (if runs[p.final].last == p.last then 1 else 0)
  {
    hide Splice;
    var s := Splice(runs, min, p, entry);
    SpliceEnds(runs, min, max, p, entry);
    forall i: nat | i + 1 < |s| ensures s[i].last < s[i + 1].last { SpliceStep(runs, min, max, p, entry, i); }
    StepwiseOrdered(s);
  }

  lemma {:induction false} StepwiseOrdered(s: seq<Run>)
    requires forall i :: 0 <= i < |s| - 1 ==> s[i].last < s[i + 1].last
    ensures forall i, j :: 0 <= i < j < |s| ==> s[i].last < s[j].last
  {
    if |s| > 1 {
      var t := s[..|s| - 1];
      StepwiseOrdered(t);
      forall i, j | 0 <= i < j < |s| ensures s[i].last < s[j].last {
        if j < |s| - 1 { assert t[i].last < t[j].last; } else if i < j - 1 { assert t[i].last < t[j - 1].last; }
      }
    }
  }

  /** The run of the splice that holds x. */
  lemma RunInSplice(runs: seq<Run>, min: nat, max: nat, p: Place, entry: Entry, i: nat, x: nat) returns (j: nat)
    requires Ordered(runs, min, max) && Located(runs, min, p) && i < |runs| && InRun(runs, min, i, x)
    ensures var s := Splice(runs, min, p, entry);
            && j < |s| && InRun(s, min, j, x)
            && s[j].entry == if p.index <= x <= p.last then entry else runs[i].entry
  {
    if x < p.index {
      j := i;
      RunBefore(runs, min, max, p, entry, i, x);
    } else if x <= p.last {
      j := NewAt(runs, min, p);
      RunWithin(runs, min, max, p, entry, x);
    } else {
      j := if i == p.final then NewAt(runs, min, p) + 1 else i + Shift(runs, min, p);
      RunAfter(runs, min, max, p, entry, i, x);
    }
  }

  lemma RunBefore(runs: seq<Run>, min: nat, max: nat, p: Place, entry: Entry, i: nat, x: nat)
    requires Ordered(runs, min, max) && Located(runs, min, p) && i < |runs| && InRun(runs, min, i, x) && x < p.index
    ensures var s := Splice(runs, min, p, entry); i < |s| && InRun(s, min, i, x) && s[i].entry == runs[i].entry
  {
    hide Splice, NewAt, Shift;
    SpliceAt(runs, min, p, entry);
    var s := Splice(runs, min, p, entry);
    assert i <= p.first;
    if i > 0 { assert s[i - 1] == runs[i - 1]; }
  }

  lemma RunWithin(runs: seq<Run>, min: nat, max: nat, p: Place, entry: Entry, x: nat)
    requires Ordered(runs, min, max) && Located(runs, min, p) && p.index <= x <= p.last
    ensures var s, k := Splice(runs, min, p, entry), NewAt(runs, min, p);
            k < |s| && InRun(s, min, k, x) && s[k].entry == entry
  {
    hide Splice, NewAt, Shift;
    SpliceAt(runs, min, p, entry);
    var s, k := Splice(runs, min, p, entry), NewAt(runs, min, p);
    if k > p.first { assert s[k - 1].last == p.index - 1; } else if k > 0 { assert s[k - 1] == runs[k - 1]; }
  }

  lemma RunAfter(runs: seq<Run>, min: nat, max: nat, p: Place, entry: Entry, i: nat, x: nat)
    requires Ordered(runs, min, max) && Located(runs, min, p) && i < |runs| && InRun(runs, min, i, x) && p.last < x
    ensures var s := Splice(runs, min, p, entry);
            var j := if i == p.final then NewAt(runs, min, p) + 1 else i + Shift(runs, min, p);
            0 <= j < |s| && InRun(s, min, j, x) && s[j].entry == runs[i].entry
  {
    hide Splice, NewAt, Shift;
    SpliceAt(runs, min, p, entry);
    var s, k, d := Splice(runs, min, p, entry), NewAt(runs, min, p), Shift(runs, min, p);
    if i != p.final {
      assert i > p.final;
      var j := i + d;
      if i - 1 > p.final { assert s[j - 1] == runs[i - 1]; } else { assert s[j - 1].last == runs[p.final].last; }
    }
  }

  /** The splice overwrites exactly the indices of the range. */
  lemma SpliceLookup(runs: seq<Run>, min: nat, max: nat, p: Place, entry: Entry, x: nat)
    requires Ordered(runs, min, max) && Located(runs, min, p) && min <= x <= max
    ensures Splice(runs, min, p, entry) != []
    ensures Lookup(Splice(runs, min, p, entry), x) == if p.index <= x <= p.last then entry else Lookup(runs, x)
  {
    SpliceOrdered(runs, min, max, p, entry);
    var i := FindRun(runs, min, max, x);
    LookupIs(runs, min, i, x);
    var j := RunInSplice(runs, min, max, p, entry, i, x);
    hide Splice, Lookup, Located;
    LookupIs(Splice(runs, min, p, entry), min, j, x);
  }

  /** The run before the new one, if any, holds an entry. */
  predicate LeftHolds(runs: seq<Run>, min: nat, p: Place)
    requires p.first < |runs|
  {
    if Start(runs, min, p.first) < p.index then runs[p.first].entry != NULL
    else p.first > 0 ==> runs[p.first - 1].entry != NULL
  }

  /** The run after the new one, if any, holds an entry. */
  predicate RightHolds(runs: seq<Run>, p: Place)
    requires p.final < |runs|
  {
    if p.last < runs[p.final].last then runs[p.final].entry != NULL
    else p.final + 1 < |runs| ==> runs[p.final + 1].entry != NULL
  }

  lemma SpliceNulls(runs: seq<Run>, min: nat, max: nat, p: Place, entry: Entry)
    requires Ordered(runs, min, max) && Located(runs, min, p) && NoAdjacentNulls(runs)
    requires entry == NULL ==> LeftHolds(runs, min, p) && RightHolds(runs, p)
    ensures NoAdjacentNulls(Splice(runs, min, p, entry))
  {
    SpliceAt(runs, min, p, entry);
    var s, k, d := Splice(runs, min, p, entry), NewAt(runs, min, p), Shift(runs, min, p);
    hide Splice, NewAt, Shift;
    forall i | 0 < i < |s|
      ensures s[i - 1].entry != NULL || s[i].entry != NULL
    {
      if i < p.first {
        assert s[i - 1] == runs[i - 1] && s[i] == runs[i];
      } else if i == p.first && i < k {
        assert s[i - 1] == runs[i - 1];
      } else if i <= k {
        if p.first == k { assert s[i - 1] == runs[i - 1]; }
      } else if i > k + 1 {
        assert s[i] == runs[i - d];
        if i - 1 > p.final + d { assert s[i - 1] == runs[i - d - 1]; } else { assert s[i - 1] == runs[p.final]; }
      }
    }
  }
}
