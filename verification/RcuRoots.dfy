/**
  When the guarantee of a grace period holds, as a property of the tree: exactly if it has a single root and its
  positions fit the word.  In every other tree that can be built, some run completes a grace period without a CPU
  that has been online throughout.
 */
module RcuRoots {
  import opened Machine
  import opened RcuTopology
  import opened RcuTree
  import opened RcuEntry
  import opened RcuProgress

  // ---- Completing without CPU c ----

  /** The action does not begin a grace period, nor take CPU c offline, and is no step of a call of rcu_qs by c. */
  predicate Spares(a: Action, c: nat)
  {
    !a.Begin? && a != GoOffline(c) && !QsStep(a, c)
  }

  ghost predicate CompletesSparing(t: Tree, s: State, states: seq<State>, acts: seq<Action>, c: nat)
    requires WellLinked(t)
  {
    && Path(t, states, acts) && states[0] == s && (forall k :: 0 <= k < |acts| ==> Spares(acts[k], c))
    && states[|acts|].completedSeq == states[|acts|].gpSeq
  }

  /** From s, the grace period can be completed without CPU c. */
  ghost predicate CanSpare(t: Tree, s: State, c: nat)
    requires WellLinked(t)
  {
    exists states, acts :: CompletesSparing(t, s, states, acts, c)
  }

  lemma SparePrepend(t: Tree, s: State, a: Action, c: nat)
    requires WellLinked(t) && Shaped(t, s) && Enabled(t, s, a) && Spares(a, c) && CanSpare(t, Step(t, s, a), c)
    ensures CanSpare(t, s, c)
  {
    hide Step, Enabled, WellLinked, Shaped, Spares;
    var states, acts :| CompletesSparing(t, Step(t, s, a), states, acts, c);
    PathPrepend(t, s, a, states, acts);
    assert CompletesSparing(t, s, [s] + states, [a] + acts, c);
  }

  lemma SpareDone(t: Tree, s: State, c: nat)
    requires WellLinked(t) && s.completedSeq == s.gpSeq
    ensures CanSpare(t, s, c)
  {
    assert CompletesSparing(t, s, [s], [], c);
  }

  // ---- The nodes below a node ----

  /** Node v is u or lies below it. */
  ghost predicate Below(t: Tree, v: int, u: int)
    requires WellLinked(t) && IsNode(t, v) && IsNode(t, u)
    decreases |t.cnt| - t.nodes[v].level
  {
    v == u || (!IsRoot(t, v) && ParentOk(t, v) && Below(t, t.nodes[v].parent, u))
  }

  lemma {:induction false} BelowLevel(t: Tree, v: int, u: int)
    requires WellLinked(t) && IsNode(t, v) && IsNode(t, u)
    ensures Below(t, v, u) ==> v == u || t.nodes[v].level < t.nodes[u].level
    decreases |t.cnt| - t.nodes[v].level
  {
    if v != u && Below(t, v, u) { BelowLevel(t, t.nodes[v].parent, u); }
  }

  lemma {:induction false} BelowParent(t: Tree, v: int, u: int)
    requires WellLinked(t) && IsNode(t, v) && IsNode(t, u) && Below(t, v, u) && !IsRoot(t, u) && ParentOk(t, u)
    ensures Below(t, v, t.nodes[u].parent)
    decreases |t.cnt| - t.nodes[v].level
  {
    if v != u { BelowParent(t, t.nodes[v].parent, u); }
  }

  /** Some leaf lies below every node. */
  lemma {:induction false} LeafBelow(t: Tree, u: nat) returns (d: nat)
    requires WellLinked(t) && IsNode(t, u)
    ensures IsNode(t, d) && IsLeaf(t, d) && Below(t, d, u)
    decreases t.nodes[u].level
  {
    d := u;
    if !IsLeaf(t, u) {
      assert ChildOk(t, u, 0);
      d := LeafBelow(t, Child(t, u, 0));
      BelowParent(t, d, Child(t, u, 0));
    }
  }

  // ---- What the run is about ----

  /**
    The nodes that the run leaves alone: those below the second root, if far is one.  Otherwise far is negative, and
    CPU 64 reports in the place of CPU 0.
   */
  ghost predicate Avoided(t: Tree, v: int, far: int)
    requires WellLinked(t) && IsNode(t, v)
  {
    IsNode(t, far) && Below(t, v, far)
  }

  /** The CPU that reports to leaf v. */
  function Reporter(t: Tree, v: nat, far: int): nat
  {
    if far < 0 && v == 0 then 64 else v * t.fanout
  }

  function Top(t: Tree): nat
    requires |t.cnt| == |t.offset| > 0
  {
    t.offset[|t.cnt| - 1]
  }

  /** CPU c is the one that the run can do without. */
  ghost predicate Sparable(t: Tree, far: int, c: nat)
    requires WellLinked(t)
  {
    && Built(t) && c < t.cpus && c % t.fanout == 0
    && if far < 0 then t.fanout > BITS && t.cpus > BITS && c == 0
       else IsNode(t, far) && far == Top(t) + 1 && LeafOk(t, c) && Below(t, c / t.fanout, far)
  }

  lemma FirstCpu(t: Tree, v: nat)
    requires Built(t) && Sized(t) && IsNode(t, v) && IsLeaf(t, v)
    ensures var c := v * t.fanout; c < t.cpus && c / t.fanout == v && c % t.fanout == 0 && t.nodes[v].grpStart == c
  {
    var f := t.fanout;
    NodeIn(t, 0, v);
    CeilDivFacts(t.cpus, f);
    hide Built;
    MulMono(v, t.cnt[0] - 1, f);
    DivModUnique(v, 0, f);
  }

  lemma ReporterOk(t: Tree, v: nat, far: int, c: nat)
    requires WellLinked(t) && Sparable(t, far, c) && IsNode(t, v) && IsLeaf(t, v) && !Avoided(t, v, far)
    ensures var r := Reporter(t, v, far);
            && r < t.cpus && LeafOk(t, r) && LeafOf(t, r) == v && r != c
            && t.nodes[v].grpStart + WordBit(r % t.fanout) == v * t.fanout
  {
    FirstCpu(t, v);
    if far < 0 && v == 0 { SmallRemainder(t.fanout); }
  }

  /** Only the second root's subtree is avoided, so neither the first root nor a child of a node in use is. */
  lemma TopInUse(t: Tree, far: int, c: nat)
    requires WellLinked(t) && Sparable(t, far, c)
    ensures |t.cnt| == |t.offset| > 0 && IsNode(t, Top(t)) && IsRoot(t, Top(t)) && !Avoided(t, Top(t), far)
    ensures forall v: nat :: v < Top(t) ==> IsNode(t, v) && !IsRoot(t, v)
  {
    FirstRoot(t);
    hide Built, WellLinked;
    if far >= 0 {
      SecondRoot(t, far);
      BelowLevel(t, Top(t), far);
    }
  }

  lemma FirstRoot(t: Tree)
    requires Built(t)
    ensures |t.cnt| == |t.offset| > 0 && IsNode(t, Top(t)) && IsRoot(t, Top(t))
    ensures t.nodes[Top(t)].level == |t.cnt| - 1
    ensures forall v: nat :: v < Top(t) ==> IsNode(t, v) && !IsRoot(t, v)
  {
    NodeIn(t, |t.cnt| - 1, 0);
    hide LevelCounts, Offset;
    forall v: nat | v < Top(t) ensures IsNode(t, v) && !IsRoot(t, v) { RootsAreTop(t, v); BeforeTop(t, v); }
  }

  lemma BeforeTop(t: Tree, v: nat)
    requires Built(t) && IsNode(t, v) && v < Top(t)
    ensures t.nodes[v].level < |t.cnt| - 1
  {
    hide LevelCounts, Offset;
    assert PlacedRight(t.cpus, t.fanout, t.cnt, t.offset, t.nodes[v], v);
  }

  lemma SecondRoot(t: Tree, far: int)
    requires Built(t) && IsNode(t, far) && far == Top(t) + 1
    ensures IsRoot(t, far) && t.nodes[far].level == |t.cnt| - 1
  {
    var top := |t.cnt| - 1;
    NodeIn(t, top, 0);
    if t.cnt[top] > 1 { NodeIn(t, top, 1); }
  }

  lemma ChildInUse(t: Tree, far: int, c: nat, u: nat, b: nat)
    requires WellLinked(t) && Sparable(t, far, c) && IsNode(t, u) && !IsLeaf(t, u) && b < NumChildren(t, u)
    ensures ChildOk(t, u, b) && !IsRoot(t, Child(t, u, b)) && Child(t, u, b) < u
    ensures !Avoided(t, u, far) ==> !Avoided(t, Child(t, u, b), far)
  {
    var v := Child(t, u, b);
    assert ChildOk(t, u, b);
    var l := t.nodes[u].level;
    OffsetMonotone(t.cnt, l - 1, l);
    if far >= 0 { SecondRoot(t, far); }
  }

  // ---- The state of the run ----

  /** How many bits an internal node's mask starts with. */
  function MaskSize(n: nat): nat
  {
    if n == BITS then BITS else WordBit(n)
  }

  /** What node v waits for once b of its children have reported. */
  function Waiting(t: Tree, v: nat, b: nat): set<nat>
    requires Sized(t) && IsNode(t, v)
  {
    if IsLeaf(t, v) then {v * t.fanout} else LowBits(MaskSize(NumChildren(t, v))) - LowBits(b)
  }

  /** A child's report that has to come before node n can be left behind. */
  ghost predicate Due(t: Tree, v: nat, n: nat, b: nat, far: int)
    requires WellLinked(t)
  {
    && v < n && IsNode(t, v) && !IsRoot(t, v) && ParentOk(t, v) && !Avoided(t, v, far)
    && t.nodes[v].parent >= n && (t.nodes[v].parent == n ==> Bit(t, v) >= b)
  }

  /** In grace period 1, the nodes before n that are in use have finished, and b children of node n have reported. */
  ghost predicate Swept(t: Tree, s: State, n: nat, b: nat, far: int)
    requires WellLinked(t)
  {
    && Shaped(t, s) && s.gpSeq == 1 && s.completedSeq == 0 && s.start.Idle?
    && (forall v: nat :: n <= v && IsNode(t, v) && !Avoided(t, v, far) ==>
          s.nodes[v] == NodeState(1, 0, Waiting(t, v, if v == n then b else 0)))
    && (forall v: nat :: Due(t, v, n, b, far) ==> Ascending(v) in s.reports)
  }

  /** Steps that touch neither nodes nor climbing reports keep where the sweep stands. */
  lemma SweptSame(t: Tree, s: State, s': State, n: nat, b: nat, far: int)
    requires WellLinked(t) && Swept(t, s, n, b, far) && Shaped(t, s')
    requires s'.nodes == s.nodes && s'.gpSeq == s.gpSeq && s'.completedSeq == s.completedSeq && s'.start == s.start
    requires forall v: nat :: Ascending(v) in s.reports ==> Ascending(v) in s'.reports
    ensures Swept(t, s', n, b, far)
  {
    hide WellLinked, Avoided, Due, Waiting;
  }

  /** Node n is finished: the sweep moves on, or completes the grace period if n is a root. */
  lemma SweptNext(t: Tree, s: State, s1: State, n: nat, b: nat, far: int)
    requires WellLinked(t) && Swept(t, s, n, b, far) && IsNode(t, n) && !Avoided(t, n, far) && Shaped(t, s1)
    requires s1.nodes == s.nodes && s1.gpSeq == s.gpSeq && s1.completedSeq == s.completedSeq && s1.start == s.start
    requires forall v: nat :: Ascending(v) in s.reports && t.nodes[v].parent != n ==> Ascending(v) in s1.reports
    ensures var s' := Clear(t, s1, n, {}, 1);
            && Shaped(t, s')
            && if IsRoot(t, n) then s'.completedSeq == s'.gpSeq else Swept(t, s', n + 1, 0, far)
  {
    hide WellLinked, Avoided, Waiting;
    var s' := Clear(t, s1, n, {}, 1);
    forall v: nat | Due(t, v, n + 1, 0, far) && !IsRoot(t, n)
      ensures Ascending(v) in s'.reports
    {
      if v < n { assert Due(t, v, n, b, far); }
    }
  }

  /** An avoided node is passed over. */
  lemma SweptPast(t: Tree, s: State, n: nat, far: int)
    requires WellLinked(t) && Swept(t, s, n, 0, far) && IsNode(t, n) && Avoided(t, n, far)
    ensures Swept(t, s, n + 1, 0, far)
  {
    hide WellLinked, Avoided, Waiting;
    forall v: nat | Due(t, v, n + 1, 0, far)
      ensures Ascending(v) in s.reports
    {
      assert Due(t, v, n, 0, far);
    }
  }

  lemma SweptShaped(t: Tree, s: State, n: nat, b: nat, far: int)
    requires WellLinked(t) && Swept(t, s, n, b, far)
    ensures Shaped(t, s)
  {
  }

  lemma InnerFacts(t: Tree, n: nat)
    requires WellLinked(t) && IsNode(t, n) && !IsLeaf(t, n)
    ensures Sized(t) && NumChildren(t, n) >= 1
  {
  }

  lemma LinkedIsSized(t: Tree)
    requires WellLinked(t)
    ensures Sized(t)
  {
  }

  // ---- A leaf finishes ----

  lemma ReporterReports(t: Tree, s: State, n: nat, far: int, c: nat)
    requires WellLinked(t) && Sparable(t, far, c) && Swept(t, s, n, 0, far)
    requires IsNode(t, n) && IsLeaf(t, n) && !Avoided(t, n, far)
    requires AtLeaf(Reporter(t, n, far), 1) in s.reports
    ensures var a := LeafReport(Reporter(t, n, far), 1);
            && Enabled(t, s, a) && Spares(a, c) && Shaped(t, Step(t, s, a))
            && var s' := Step(t, s, a);
               if IsRoot(t, n) then s'.completedSeq == s'.gpSeq else Swept(t, s', n + 1, 0, far)
  {
    hide WellLinked, Sparable, Avoided, Due, Reporter, ParentOk;
    LinkedIsSized(t);
    ReporterOk(t, n, far, c);
    hide LeafOk;
    var r := Reporter(t, n, far);
    var s1 := s.(reports := s.reports - multiset{AtLeaf(r, 1)}, log := s.log + [InQs(r)]);
    assert Waiting(t, n, 0) - {n * t.fanout} == {};
    SweptNext(t, s, s1, n, 0, far);
  }

  lemma ReporterReads(t: Tree, s: State, n: nat, far: int, c: nat)
    requires WellLinked(t) && Sparable(t, far, c) && Swept(t, s, n, 0, far)
    requires IsNode(t, n) && IsLeaf(t, n) && !Avoided(t, n, far)
    requires Noticed(Reporter(t, n, far)) in s.reports
    requires Reporter(t, n, far) < |s.cpus| && s.cpus[Reporter(t, n, far)].gpSeq == 1
    ensures var a := ReadGp(Reporter(t, n, far));
            && Enabled(t, s, a) && Spares(a, c) && Swept(t, Step(t, s, a), n, 0, far)
            && AtLeaf(Reporter(t, n, far), 1) in Step(t, s, a).reports
  {
    hide WellLinked, Sparable, Avoided, Due, Reporter, ParentOk;
    LinkedIsSized(t);
    ReporterOk(t, n, far, c);
    hide LeafOk;
    SweptSame(t, s, Step(t, s, ReadGp(Reporter(t, n, far))), n, 0, far);
  }

  /** The reporting CPU comes online if it is not, queues a callback and calls rcu_qs. */
  lemma ReporterArrives(t: Tree, s: State, n: nat, far: int, c: nat) returns (s': State)
    requires WellLinked(t) && Sparable(t, far, c) && Swept(t, s, n, 0, far)
    requires IsNode(t, n) && IsLeaf(t, n) && !Avoided(t, n, far)
    ensures Swept(t, s', n, 0, far) && Noticed(Reporter(t, n, far)) in s'.reports
    ensures Reporter(t, n, far) < |s'.cpus| && s'.cpus[Reporter(t, n, far)].gpSeq == 1
    ensures CanSpare(t, s', c) ==> CanSpare(t, s, c)
  {
    hide WellLinked, Sparable, Avoided, Due, Reporter, ParentOk, CanSpare;
    LinkedIsSized(t);
    ReporterOk(t, n, far, c);
    hide LeafOk;
    var r := Reporter(t, n, far);
    var s1 := Step(t, s, GoOnline(r));
    SweptSame(t, s, s1, n, 0, far);
    var s2 := Step(t, s1, Enqueue(r));
    SweptSame(t, s1, s2, n, 0, far);
    s' := Step(t, s2, Notice(r));
    SweptSame(t, s2, s', n, 0, far);
    if CanSpare(t, s', c) {
      SparePrepend(t, s2, Notice(r), c);
      SparePrepend(t, s1, Enqueue(r), c);
      SparePrepend(t, s, GoOnline(r), c);
    }
  }

  lemma SweepLeaf(t: Tree, s: State, n: nat, far: int, c: nat) returns (s': State)
    requires WellLinked(t) && Sparable(t, far, c) && Swept(t, s, n, 0, far)
    requires IsNode(t, n) && IsLeaf(t, n) && !Avoided(t, n, far)
    ensures if IsRoot(t, n) then s'.completedSeq == s'.gpSeq else Swept(t, s', n + 1, 0, far)
    ensures CanSpare(t, s', c) ==> CanSpare(t, s, c)
  {
    var r := Reporter(t, n, far);
    var s3 := ReporterArrives(t, s, n, far, c);
    ReporterReads(t, s3, n, far, c);
    var s4 := Step(t, s3, ReadGp(r));
    ReporterReports(t, s4, n, far, c);
    s' := Step(t, s4, LeafReport(r, 1));
    hide WellLinked, Sparable, Avoided, Reporter, CanSpare, Step, Enabled, Spares, Swept;
    if CanSpare(t, s', c) {
      SparePrepend(t, s4, LeafReport(r, 1), c);
      SparePrepend(t, s3, ReadGp(r), c);
    }
  }

  // ---- An internal node finishes ----

  lemma MaskLeft(m: nat, b: nat)
    requires m >= 1 && (b == 0 || b < MaskSize(m))
    ensures b < m && b < BITS && WordBit(b) == b && ChildMask(m) == LowBits(MaskSize(m)) - LowBits(0)
    ensures LowBits(MaskSize(m)) - LowBits(b) - {b} == LowBits(MaskSize(m)) - LowBits(b + 1)
    ensures LowBits(MaskSize(m)) - LowBits(b + 1) == {} <==> b + 1 >= MaskSize(m)
  {
    if b + 1 < MaskSize(m) { assert b + 1 in LowBits(MaskSize(m)) - LowBits(b + 1); }
  }

  lemma ChildDue(t: Tree, s: State, n: nat, b: nat, far: int, c: nat)
    requires WellLinked(t) && Sparable(t, far, c) && Swept(t, s, n, b, far)
    requires IsNode(t, n) && !IsLeaf(t, n) && !Avoided(t, n, far) && b < NumChildren(t, n)
    ensures s.nodes[n].gpSeq == 1
    ensures var v := Child(t, n, b);
            && 0 <= v && IsNode(t, v) && !IsRoot(t, v) && ParentOk(t, v) && t.nodes[v].parent == n
            && Ascending(v) in s.reports
  {
    var v := Child(t, n, b);
    ChildInUse(t, far, c, n, b);
    hide Sparable;
    assert ParentOk(t, v);
    assert Due(t, v, n, b, far);
  }

  /** The b-th child's report reads the parent's gp_seq. */
  lemma ChildReads(t: Tree, s: State, n: nat, b: nat, far: int, c: nat)
    requires WellLinked(t) && Sparable(t, far, c) && Swept(t, s, n, b, far)
    requires IsNode(t, n) && !IsLeaf(t, n) && !Avoided(t, n, far) && b < NumChildren(t, n)
    ensures var v := Child(t, n, b); v >= 0 && var a := ReadParentGp(v);
            && Enabled(t, s, a) && Shaped(t, Step(t, s, a)) && AtNode(v, 1) in Step(t, s, a).reports
            && var s1 := Step(t, s, a);
               && s1.nodes == s.nodes && s1.gpSeq == s.gpSeq && s1.completedSeq == s.completedSeq && s1.start == s.start
               && (forall w: nat :: w != v && Ascending(w) in s.reports ==> Ascending(w) in s1.reports)
  {
    hide WellLinked, Sparable, Avoided, Due, LeafOk, Waiting, Swept, NumChildren;
    LinkedIsSized(t);
    SweptShaped(t, s, n, b, far);
    ChildDue(t, s, n, b, far, c);
  }

  lemma ChildClears(t: Tree, s: State, s1: State, n: nat, b: nat, far: int, c: nat)
    requires WellLinked(t) && Sparable(t, far, c) && Swept(t, s, n, b, far)
    requires IsNode(t, n) && !IsLeaf(t, n) && !Avoided(t, n, far)
    requires var m := NumChildren(t, n); b < m && (b == 0 || b < MaskSize(m))
    requires Child(t, n, b) >= 0 && Shaped(t, s1) && AtNode(Child(t, n, b), 1) in s1.reports
    requires s1.nodes == s.nodes && s1.gpSeq == s.gpSeq && s1.completedSeq == s.completedSeq && s1.start == s.start
    requires forall w: nat :: w != Child(t, n, b) && Ascending(w) in s.reports ==> Ascending(w) in s1.reports
    ensures var a := NodeReport(Child(t, n, b), 1);
            && Enabled(t, s1, a) && Shaped(t, Step(t, s1, a))
            && var s' := Step(t, s1, a);
               if b + 1 < MaskSize(NumChildren(t, n)) then Swept(t, s', n, b + 1, far)
               else if IsRoot(t, n) then s'.completedSeq == s'.gpSeq
               else Swept(t, s', n + 1, 0, far)
  {
    hide WellLinked, Sparable, Avoided, Waiting, LeafOk;
    LinkedIsSized(t);
    var v, m := Child(t, n, b), NumChildren(t, n);
    ChildInUse(t, far, c, n, b);
    MaskLeft(m, b);
    ChildStep(t, s1, n, b);
    WaitingLess(t, n, b);
    hide Step, Enabled;
    var s2 := s1.(reports := s1.reports - multiset{AtNode(v, 1)});
    if b + 1 < MaskSize(m) {
      SweptChild(t, s, s2, n, b, far);
    } else {
      SweptNext(t, s, s2, n, b, far);
    }
  }

  lemma ChildStep(t: Tree, s: State, n: nat, b: nat)
    requires WellLinked(t) && Shaped(t, s) && IsNode(t, n) && !IsLeaf(t, n) && b < NumChildren(t, n) && b < BITS
    requires ChildOk(t, n, b) && AtNode(Child(t, n, b), 1) in s.reports && !IsRoot(t, Child(t, n, b))
    requires s.nodes[n].gpSeq == 1 && s.nodes[n].completed == 0
    ensures var v := Child(t, n, b);
            && Enabled(t, s, NodeReport(v, 1))
            && Step(t, s, NodeReport(v, 1)) ==
               Clear(t, s.(reports := s.reports - multiset{AtNode(v, 1)}), n, s.nodes[n].mask - {b}, 1)
  {
    assert ParentOk(t, Child(t, n, b));
    SmallBit(b);
  }

  lemma WaitingLess(t: Tree, n: nat, b: nat)
    requires Sized(t) && IsNode(t, n) && !IsLeaf(t, n) && NumChildren(t, n) >= 1
    requires b == 0 || b < MaskSize(NumChildren(t, n))
    ensures Waiting(t, n, b) - {b} == Waiting(t, n, b + 1)
    ensures Waiting(t, n, b + 1) == {} <==> b + 1 >= MaskSize(NumChildren(t, n))
  {
    MaskLeft(NumChildren(t, n), b);
  }

  lemma SweptChild(t: Tree, s: State, s1: State, n: nat, b: nat, far: int)
    requires WellLinked(t) && Swept(t, s, n, b, far) && IsNode(t, n) && !Avoided(t, n, far) && Shaped(t, s1)
    requires s1.nodes == s.nodes && s1.gpSeq == s.gpSeq && s1.completedSeq == s.completedSeq && s1.start == s.start
    requires forall v: nat ::
               Ascending(v) in s.reports && !(IsNode(t, v) && t.nodes[v].parent == n && Bit(t, v) == b) ==>
                 Ascending(v) in s1.reports
    requires Waiting(t, n, b + 1) != {}
    ensures Swept(t, Clear(t, s1, n, Waiting(t, n, b + 1), 1), n, b + 1, far)
  {
    hide WellLinked, Avoided, Waiting;
    LinkedIsSized(t);
    var s' := Clear(t, s1, n, Waiting(t, n, b + 1), 1);
    forall v: nat | Due(t, v, n, b + 1, far)
      ensures Ascending(v) in s'.reports
    {
      assert Due(t, v, n, b, far);
    }
  }

  lemma SweepChild(t: Tree, s: State, n: nat, b: nat, far: int, c: nat) returns (s': State)
    requires WellLinked(t) && Sparable(t, far, c) && Swept(t, s, n, b, far)
    requires IsNode(t, n) && !IsLeaf(t, n) && !Avoided(t, n, far)
    requires b == 0 || b < MaskSize(NumChildren(t, n))
    ensures if b + 1 < MaskSize(NumChildren(t, n)) then Swept(t, s', n, b + 1, far)
            else if IsRoot(t, n) then s'.completedSeq == s'.gpSeq
            else Swept(t, s', n + 1, 0, far)
    ensures CanSpare(t, s', c) ==> CanSpare(t, s, c)
  {
    hide WellLinked, Sparable, Avoided, CanSpare, Step, Enabled, Swept, Shaped;
    InnerFacts(t, n);
    SweptShaped(t, s, n, b, far);
    var v := Child(t, n, b);
    MaskLeft(NumChildren(t, n), b);
    ChildReads(t, s, n, b, far, c);
    var s1 := Step(t, s, ReadParentGp(v));
    ChildClears(t, s, s1, n, b, far, c);
    s' := Step(t, s1, NodeReport(v, 1));
    if CanSpare(t, s', c) {
      SparePrepend(t, s1, NodeReport(v, 1), c);
      SparePrepend(t, s, ReadParentGp(v), c);
    }
  }

  /** The grace period can be completed from wherever the sweep stands. */
  lemma {:induction false} Sweep(t: Tree, s: State, n: nat, b: nat, far: int, c: nat)
    requires WellLinked(t) && Sparable(t, far, c) && Swept(t, s, n, b, far) && n <= Top(t) < |t.nodes|
    requires b == 0 || (!IsLeaf(t, n) && !Avoided(t, n, far) && b < MaskSize(NumChildren(t, n)))
    ensures CanSpare(t, s, c)
    decreases |t.nodes| - n, BITS - b
  {
    hide WellLinked, Sparable, CanSpare, Avoided, Swept, NumChildren;
    LinkedIsSized(t);
    TopInUse(t, far, c);
    if Avoided(t, n, far) {
      SweptPast(t, s, n, far);
      Sweep(t, s, n + 1, 0, far, c);
    } else {
      var s';
      if IsLeaf(t, n) { s' := SweepLeaf(t, s, n, far, c); } else { s' := SweepChild(t, s, n, b, far, c); }
      if !IsLeaf(t, n) && b + 1 < MaskSize(NumChildren(t, n)) {
        Sweep(t, s', n, b + 1, far, c);
      } else if IsRoot(t, n) {
        SpareDone(t, s', c);
      } else {
        Sweep(t, s', n + 1, 0, far, c);
      }
    }
  }

  // ---- The start ----

  /** The first CPU of every leaf. */
  function FirstCpus(t: Tree): set<nat>
    requires t.fanout > 0
  {
    set c: nat | c < t.cpus && c % t.fanout == 0
  }

  /** With the first CPU of every leaf online, a leaf waits for that one. */
  lemma FirstMask(t: Tree, s: State, n: nat)
    requires WellLinked(t) && Built(t) && IsNode(t, n) && s.online == FirstCpus(t)
    ensures InitMask(t, s, n) == Waiting(t, n, 0)
  {
    if IsLeaf(t, n) {
      var f := t.fanout;
      FirstCpu(t, n);
      assert LeafOk(t, n * f);
      forall c: nat | c in InitMask(t, s, n)
        ensures c == n * f
      {
        assert InRange(t, n, c);
        DivFacts(c, f);
      }
      assert n * f in InitMask(t, s, n);
    } else {
      MaskLeft(NumChildren(t, n), 0);
    }
  }

  /** Grace period 1 is being started, with the first CPUs online; the nodes before n are set up. */
  ghost predicate Starting(t: Tree, s: State, n: nat)
    requires WellLinked(t)
  {
    && Shaped(t, s) && s.gpSeq == 1 && s.completedSeq == 0 && n <= |t.nodes|
    && (s.start == InitNodes(n) || (s.start.MarkCpus? && n == |t.nodes|))
    && s.online == FirstCpus(t)
    && (forall v: nat :: v < n ==> s.nodes[v] == NodeState(1, 0, Waiting(t, v, 0)))
  }

  lemma {:induction false} MarkAll(t: Tree, s: State, far: int, c: nat)
    requires WellLinked(t) && Sparable(t, far, c) && Starting(t, s, |t.nodes|) && s.start.MarkCpus?
    ensures CanSpare(t, s, c)
    decreases t.cpus - s.start.cpu
  {
    hide WellLinked, Sparable, CanSpare, Avoided, Waiting, FirstCpus;
    LinkedIsSized(t);
    TopInUse(t, far, c);
    if s.start.cpu < t.cpus {
      MarkAll(t, Step(t, s, MarkCpu), far, c);
      SparePrepend(t, s, MarkCpu, c);
    } else {
      var s' := Step(t, s, EndStart);
      assert Swept(t, s', 0, 0, far);
      Sweep(t, s', 0, 0, far, c);
      SparePrepend(t, s, EndStart, c);
    }
  }

  lemma {:induction false} InitAll(t: Tree, s: State, n: nat, far: int, c: nat)
    requires WellLinked(t) && Sparable(t, far, c) && Starting(t, s, n) && s.start.InitNodes?
    ensures CanSpare(t, s, c)
    decreases |t.nodes| - n
  {
    hide Sparable, CanSpare, Avoided, FirstCpus;
    if n < |t.nodes| { SparableBuilt(t, far, c); FirstMask(t, s, n); }
    hide WellLinked, Waiting, InitMask;
    var s' := Step(t, s, InitNode);
    if n < |t.nodes| { InitAll(t, s', n + 1, far, c); } else { MarkAll(t, s', far, c); }
    SparePrepend(t, s, InitNode, c);
  }

  lemma SparableBuilt(t: Tree, far: int, c: nat)
    requires WellLinked(t) && Sparable(t, far, c)
    ensures Built(t)
  {
  }

  // ---- The exact condition ----

  /** Step m began a grace period that is complete before step n. */
  ghost predicate Period(states: seq<State>, acts: seq<Action>, m: nat, n: nat)
  {
    && m < n <= |acts| < |states| && acts[m].Begin? && (forall k :: m < k < n ==> !acts[k].Begin?)
    && states[n].completedSeq == states[n].gpSeq
  }

  /** In every run, a complete grace period has seen every CPU online throughout in rcu_qs. */
  ghost predicate Guaranteed(t: Tree)
    requires WellLinked(t)
  {
    forall states, acts, m: nat, n: nat, c: nat ::
      Run(t, states, acts) && Period(states, acts, m, n) && OnlineThroughout(states, acts, m, n, c) ==>
        PassedQs(acts, m, n, c)
  }

  lemma FirstStart(t: Tree) returns (s: State)
    requires WellLinked(t)
    ensures Init(t, s) && s.online == FirstCpus(t) && Shaped(t, s) && Enabled(t, s, Begin)
    ensures var s' := Step(t, s, Begin); Starting(t, s', 0) && s'.start.InitNodes?
  {
    s := State(0, 0, seq(|t.nodes|, i => NodeState(0, 0, {})), seq(t.cpus, c => CpuState(0, false)), FirstCpus(t),
               Idle, multiset{}, false, []);
  }

  lemma SparableOnline(t: Tree, far: int, c: nat)
    requires WellLinked(t) && Sparable(t, far, c)
    ensures c in FirstCpus(t)
  {
  }

  lemma Unguarded(t: Tree, far: int, c: nat)
    requires WellLinked(t) && Sparable(t, far, c)
    ensures !Guaranteed(t)
  {
    hide WellLinked, Sparable, Step, Enabled, Shaped, Starting, Init, FirstCpus, QsStep;
    LinkedIsSized(t);
    var s0 := FirstStart(t);
    assert c in s0.online by { SparableOnline(t, far, c); }
    var s1 := Step(t, s0, Begin);
    InitAll(t, s1, 0, far, c);
    var states, acts :| CompletesSparing(t, s1, states, acts, c);
    PathPrepend(t, s0, Begin, states, acts);
    var S, A := [s0] + states, [Begin] + acts;
    assert Run(t, S, A) && Period(S, A, 0, |A|) && OnlineThroughout(S, A, 0, |A|, c) && !PassedQs(A, 0, |A|, c);
  }

  lemma Guarded(t: Tree)
    requires WellLinked(t) && OneRoot(t) && Narrow(t)
    ensures Guaranteed(t)
  {
    hide WellLinked, OneRoot, Narrow, Inv, OnlineAtSetup, Step, Enabled;
    forall states, acts, m: nat, n: nat, c: nat |
      Run(t, states, acts) && Period(states, acts, m, n) && OnlineThroughout(states, acts, m, n, c)
      ensures PassedQs(acts, m, n, c)
    {
      RunKeeps(t, states, acts, 0);
      ThroughoutIsAtSetup(t, states, acts, m, n, c);
      SetupGuarantee(t, states, acts, m, n, c);
    }
  }

  lemma SeveralRoots(t: Tree)
    requires Built(t) && WellLinked(t) && !OneRoot(t)
    ensures !Guaranteed(t)
  {
    var top := |t.cnt| - 1;
    RootCount(t);
    NodeIn(t, top, 1);
    var far := Top(t) + 1;
    var d := LeafBelow(t, far);
    FirstCpu(t, d);
    assert LeafOk(t, d * t.fanout);
    Unguarded(t, far, d * t.fanout);
  }

  /**
    In a built tree every grace period waits for every CPU online throughout, in every run, exactly if four levels
    hold the CPUs below a single root and the fanout or the CPU count is at most 64.
   */
  lemma GuaranteedIff(t: Tree)
    requires Built(t)
    ensures WellLinked(t) &&
            (Guaranteed(t) <==> t.cpus <= Pow(t.fanout, MAX_LEVELS) && (t.fanout <= BITS || t.cpus <= BITS))
  {
    BuiltIsWellLinked(t);
    OneRootIff(t);
    NarrowIff(t);
    hide Built, WellLinked, Guaranteed, Pow, OneRoot, Narrow;
    if !OneRoot(t) {
      SeveralRoots(t);
    } else if !(t.fanout <= BITS || t.cpus <= BITS) {
      SparableZero(t);
      Unguarded(t, -1, 0);
    } else {
      Guarded(t);
    }
  }

  lemma SparableZero(t: Tree)
    requires Built(t) && WellLinked(t) && t.fanout > BITS && t.cpus > BITS
    ensures Sparable(t, -1, 0)
  {
  }
}
