/**
  Every grace period that found an online CPU under every leaf can be completed, and can be so without a CPU
  whose rcu_qs call was half way through at the start entering it again.  With RcuEntry this gives the exact
  condition under which a grace period waits for a CPU to enter rcu_qs.
 */
module RcuProgress {
  import opened RcuTopology
  import opened RcuTree
  import opened RcuEntry

  // ---- Paths to completion ----

  /** The action neither begins a grace period, nor is CPU c entering rcu_qs or going offline. */
  predicate Avoids(a: Action, c: nat)
  {
    !a.Begin? && a != Notice(c) && a != GoOffline(c)
  }

  ghost predicate Completes(t: Tree, s: State, states: seq<State>, acts: seq<Action>, c: nat)
    requires WellLinked(t)
  {
    && Path(t, states, acts) && states[0] == s && (forall k :: 0 <= k < |acts| ==> Avoids(acts[k], c))
    && states[|acts|].completedSeq == states[|acts|].gpSeq
  }

  ghost predicate CanComplete(t: Tree, s: State, c: nat)
    requires WellLinked(t)
  {
    exists states, acts :: Completes(t, s, states, acts, c)
  }

  lemma Prepend(t: Tree, s: State, a: Action, c: nat)
    requires WellLinked(t) && Shaped(t, s) && Enabled(t, s, a) && Avoids(a, c) && CanComplete(t, Step(t, s, a), c)
    ensures CanComplete(t, s, c)
  {
    hide Step, Enabled, WellLinked, Shaped;
    var states, acts :| Completes(t, Step(t, s, a), states, acts, c);
    PathPrepend(t, s, a, states, acts);
    assert Completes(t, s, [s] + states, [a] + acts, c);
  }

  lemma PathPrepend(t: Tree, s: State, a: Action, states: seq<State>, acts: seq<Action>)
    requires WellLinked(t) && Shaped(t, s) && Enabled(t, s, a) && Path(t, states, acts) && states[0] == Step(t, s, a)
    ensures Path(t, [s] + states, [a] + acts)
  {
    hide Step, Enabled, WellLinked, Shaped;
    var S, A := [s] + states, [a] + acts;
    forall i | 0 <= i < |A|
      ensures Shaped(t, S[i]) && Enabled(t, S[i], A[i]) && S[i + 1] == Step(t, S[i], A[i])
    {
      if i > 0 { assert S[i] == states[i - 1] && A[i] == acts[i - 1] && S[i + 1] == states[i]; }
    }
  }

  lemma AlreadyComplete(t: Tree, s: State, c: nat)
    requires WellLinked(t) && s.completedSeq == s.gpSeq
    ensures CanComplete(t, s, c)
  {
    assert Completes(t, s, [s], [], c);
  }

  // ---- Draining the masks ----

  /** The bits left in all masks. */
  function Total(nodes: seq<NodeState>): nat
  {
    if nodes == [] then 0 else |nodes[0].mask| + Total(nodes[1..])
  }

  lemma {:induction false} TotalUpdate(nodes: seq<NodeState>, u: nat, n: NodeState, b: nat)
    requires u < |nodes| && b in nodes[u].mask && n.mask == nodes[u].mask - {b}
    ensures Total(nodes[u := n]) < Total(nodes)
  {
    if u > 0 {
      TotalUpdate(nodes[1..], u - 1, n, b);
      assert nodes[u := n][1..] == nodes[1..][u - 1 := n];
    } else {
      assert nodes[u := n][1..] == nodes[1..];
    }
  }

  /** CPU x, whose bit is set, can still report: through its call under way if it is c, else through a new one. */
  predicate Pending(s: State, x: nat, c: nat)
  {
    && x < |s.cpus| && s.cpus[x].gpSeq == s.gpSeq
    && (if x == c then Noticed(c) in s.reports else s.cpus[x].qsPending)
  }

  ghost predicate LeafPending(t: Tree, s: State, i: nat, c: nat)
    requires t.fanout > 0 && IsNode(t, i) && |s.nodes| == |t.nodes|
  {
    forall x :: x in s.nodes[i].mask ==> LeafOf(t, x) == i && x < t.cpus && Pending(s, x, c)
  }

  ghost predicate Draining(t: Tree, s: State, c: nat)
    requires WellLinked(t)
  {
    && Inv(t, s) && s.start.Idle? && !s.bare
    && (forall i: nat :: IsNode(t, i) && IsLeaf(t, i) ==> LeafPending(t, s, i, c))
  }

  /** What reporting leaves of the pending CPUs. */
  lemma StillPending(t: Tree, s: State, s': State, c: nat, x: nat)
    requires WellLinked(t) && Draining(t, s, c) && Inv(t, s') && s'.start.Idle? && !s'.bare && s'.gpSeq == s.gpSeq
    requires forall i: nat :: IsNode(t, i) && IsLeaf(t, i) ==> s'.nodes[i].mask <= s.nodes[i].mask - {x}
    requires |s'.cpus| == |s.cpus| && (forall y :: 0 <= y < |s.cpus| && y != x ==> s'.cpus[y] == s.cpus[y])
    requires c != x && Noticed(c) in s.reports ==> Noticed(c) in s'.reports
    ensures Draining(t, s', c)
  {
    hide Inv;
    InvShaped(t, s);
    InvShaped(t, s');
    forall i: nat | IsNode(t, i) && IsLeaf(t, i) ensures LeafPending(t, s', i, c) { assert LeafPending(t, s, i, c); }
  }

  /** Bit b of node u has been cleared; nothing else that draining depends on has changed, but for CPU x's call. */
  ghost predicate Cleared(s: State, s': State, u: nat, b: nat, x: nat)
    requires u < |s.nodes|
  {
    && s'.gpSeq == s.gpSeq && s'.cpus == s.cpus && s'.start == s.start && s'.bare == s.bare
    && |s'.nodes| == |s.nodes| && s'.nodes == s.nodes[u := s'.nodes[u]] && s'.nodes[u].mask == s.nodes[u].mask - {b}
    && (forall y: nat :: y != x && Noticed(y) in s.reports ==> Noticed(y) in s'.reports)
  }

  lemma LeafReportClears(t: Tree, s: State, x: nat)
    requires WellLinked(t) && Inv(t, s) && !s.start.InitNodes? && Enabled(t, s, LeafReport(x, s.gpSeq))
    requires x in s.nodes[LeafOf(t, x)].mask
    ensures var s' := Step(t, s, LeafReport(x, s.gpSeq)); Cleared(s, s', LeafOf(t, x), x, x)
  {
    hide Inv, WellLinked, AllNodesOk, AllLinksOk, NodeOk;
    InvShaped(t, s);
    HasFanout(t);
    LeafReportIsDue(t, s, x, s.gpSeq);
    RunningAt(t, s, x);
  }

  /** A leaf that waits for a CPU has not finished. */
  lemma RunningAt(t: Tree, s: State, x: nat)
    requires WellLinked(t) && Inv(t, s) && !s.start.InitNodes? && x < t.cpus && LeafOk(t, x)
    requires x in s.nodes[LeafOf(t, x)].mask
    ensures s.nodes[LeafOf(t, x)].completed != s.gpSeq && s.nodes[LeafOf(t, x)].gpSeq == s.gpSeq
    ensures t.nodes[LeafOf(t, x)].grpStart + WordBit(x % t.fanout) == x
  {
    hide AllLinksOk, LogOk;
    assert NodeOk(t, s, LeafOf(t, x));
  }

  /** A CPU whose call has noticed the grace period reads its sequence number and reports it to the leaf. */
  lemma ReadAndReport(t: Tree, s: State, x: nat, c: nat)
    requires WellLinked(t) && Inv(t, s) && s.start.Idle? && x < t.cpus && Noticed(x) in s.reports
    requires s.cpus[x].gpSeq == s.gpSeq && LeafOk(t, x) && x in s.nodes[LeafOf(t, x)].mask
    ensures Enabled(t, s, ReadGp(x))
    ensures var s1 := Step(t, s, ReadGp(x));
            && Inv(t, s1) && Enabled(t, s1, LeafReport(x, s.gpSeq))
            && var s2 := Step(t, s1, LeafReport(x, s.gpSeq));
               Inv(t, s2) && Cleared(s, s2, LeafOf(t, x), x, x) && (CanComplete(t, s2, c) ==> CanComplete(t, s, c))
  {
    hide Inv, WellLinked, CanComplete, ParentOk;
    InvShaped(t, s);
    var s1 := Step(t, s, ReadGp(x));
    StepKeeps(t, s, ReadGp(x));
    InvShaped(t, s1);
    assert Enabled(t, s1, LeafReport(x, s.gpSeq));
    var s2 := Step(t, s1, LeafReport(x, s.gpSeq));
    StepKeeps(t, s1, LeafReport(x, s.gpSeq));
    LeafReportClears(t, s1, x);
    hide Step, Enabled;
    if CanComplete(t, s2, c) {
      Prepend(t, s1, LeafReport(x, s.gpSeq), c);
      Prepend(t, s, ReadGp(x), c);
    }
  }

  lemma OwnLeaf(t: Tree, s: State, x: nat)
    requires WellLinked(t) && Inv(t, s) && s.start.Idle? && x < t.cpus
    ensures LeafOk(t, x) && s.nodes[LeafOf(t, x)].gpSeq == s.gpSeq && Shaped(t, s)
  {
    hide AllLinksOk, LogOk, StillOnline, QsSince, LastStart;
    assert LeafOk(t, x);
    assert NodeOk(t, s, LeafOf(t, x));
  }

  lemma NoticeStep(t: Tree, s: State, x: nat)
    requires WellLinked(t) && Inv(t, s) && s.start.Idle? && x < t.cpus && Pending(s, x, x + 1)
    ensures Shaped(t, s) && LeafOk(t, x) && Enabled(t, s, Notice(x))
    ensures var s1 := Step(t, s, Notice(x));
            && Inv(t, s1) && s1.nodes == s.nodes && s1.gpSeq == s.gpSeq && s1.start == s.start && s1.bare == s.bare
            && s1.cpus == s.cpus[x := s1.cpus[x]] && s1.cpus[x].gpSeq == s.gpSeq && Noticed(x) in s1.reports
            && (forall r :: r in s.reports ==> r in s1.reports)
  {
    OwnLeaf(t, s, x);
    hide Inv, WellLinked, LeafOk, ParentOk;
    StepKeeps(t, s, Notice(x));
  }

  /** A CPU whose bit is set in its leaf reports. */
  lemma DrainLeaf(t: Tree, s: State, c: nat, i: nat, x: nat) returns (s': State)
    requires WellLinked(t) && Draining(t, s, c) && IsNode(t, i) && IsLeaf(t, i) && Shaped(t, s) && x in s.nodes[i].mask
    ensures Draining(t, s', c) && Total(s'.nodes) < Total(s.nodes) && (CanComplete(t, s', c) ==> CanComplete(t, s, c))
  {
    hide Inv, CanComplete, ParentOk, Step, Enabled, Total;
    assert LeafPending(t, s, i, c);
    OwnLeaf(t, s, x);
    var s1 := s;
    if x != c {
      NoticeStep(t, s, x);
      s1 := Step(t, s, Notice(x));
      InvShaped(t, s1);
    }
    ReadAndReport(t, s1, x, c);
    InvShaped(t, Step(t, s1, ReadGp(x)));
    s' := Step(t, Step(t, s1, ReadGp(x)), LeafReport(x, s.gpSeq));
    if x != c && CanComplete(t, s', c) { Prepend(t, s, Notice(x), c); }
    TotalUpdate(s.nodes, i, s'.nodes[i], x);
    StillPending(t, s, s', c, x);
  }

  lemma ClimbReport(t: Tree, s: State, v: nat, c: nat)
    requires WellLinked(t) && Draining(t, s, c) && IsNode(t, v) && !IsRoot(t, v) && AtNode(v, s.gpSeq) in s.reports
    ensures Shaped(t, s) && Enabled(t, s, NodeReport(v, s.gpSeq))
    ensures var s' := Step(t, s, NodeReport(v, s.gpSeq)); Draining(t, s', c) && Total(s'.nodes) < Total(s.nodes)
  {
    hide Inv, Total, LeafOk, NumChildren;
    InvShaped(t, s);
    assert ParentOk(t, v);
    var u: nat := t.nodes[v].parent;
    NodeReportIsDue(t, s, v, s.gpSeq);
    NodeReportKeeps(t, s, v, s.gpSeq);
    var s' := Step(t, s, NodeReport(v, s.gpSeq));
    ClimbClears(t, s, v);
    InvShaped(t, s');
    hide Step;
    TotalUpdate(s.nodes, u, s'.nodes[u], Bit(t, v));
    forall i: nat | IsNode(t, i) && IsLeaf(t, i)
      ensures LeafPending(t, s', i, c)
    {
      assert LeafPending(t, s, i, c) && i != u;
    }
  }

  lemma ClimbClears(t: Tree, s: State, v: nat)
    requires WellLinked(t) && Inv(t, s) && Enabled(t, s, NodeReport(v, s.gpSeq))
    ensures Cleared(s, Step(t, s, NodeReport(v, s.gpSeq)), t.nodes[v].parent, Bit(t, v), t.cpus)
  {
    NodeReportIsDue(t, s, v, s.gpSeq);
    NarrowBit(t, v);
    hide AllNodesOk, AllLinksOk, LogOk, StillOnline, QsSince, LastStart, WellLinked, LeafOk;
  }

  /** A finished node's report reaches the parent. */
  lemma DrainClimb(t: Tree, s: State, c: nat, v: nat) returns (s': State)
    requires WellLinked(t) && Draining(t, s, c) && IsNode(t, v) && !IsRoot(t, v) && InFlight(s, v) > 0
    ensures Draining(t, s', c) && Total(s'.nodes) < Total(s.nodes) && (CanComplete(t, s', c) ==> CanComplete(t, s, c))
  {
    hide Inv, CanComplete, LeafOk, Total, NumChildren;
    InvShaped(t, s);
    assert ParentOk(t, v);
    var s1 := s;
    if AtNode(v, s.gpSeq) !in s.reports {
      ReadParent(t, s, v, c);
      s1 := Step(t, s, ReadParentGp(v));
    }
    ClimbReport(t, s1, v, c);
    s' := Step(t, s1, NodeReport(v, s.gpSeq));
    hide Step, Draining;
    if CanComplete(t, s', c) {
      Prepend(t, s1, NodeReport(v, s.gpSeq), c);
      if s1 != s { Prepend(t, s, ReadParentGp(v), c); }
    }
  }

  lemma ReadParent(t: Tree, s: State, v: nat, c: nat)
    requires WellLinked(t) && Draining(t, s, c) && IsNode(t, v) && !IsRoot(t, v) && Ascending(v) in s.reports
    ensures Shaped(t, s) && Enabled(t, s, ReadParentGp(v))
    ensures var s1 := Step(t, s, ReadParentGp(v));
            Draining(t, s1, c) && s1.nodes == s.nodes && AtNode(v, s.gpSeq) in s1.reports && s1.gpSeq == s.gpSeq
                && s1 != s
  {
    hide LeafOk, NumChildren;
    InvShaped(t, s);
    assert ParentOk(t, v) && NodeOk(t, s, t.nodes[v].parent);
    ReadParentKeeps(t, s, v);
    var s1 := Step(t, s, ReadParentGp(v));
    assert AtNode(v, s.gpSeq) in s1.reports;
    assert s1.reports[Ascending(v)] < s.reports[Ascending(v)];
    hide Inv;
    InvShaped(t, s1);
    forall i: nat | IsNode(t, i) && IsLeaf(t, i) ensures LeafPending(t, s1, i, c) { assert LeafPending(t, s, i, c); }
  }

  /** While the grace period is not complete, a report is climbing or some leaf's mask is not empty. */
  lemma SomethingLeft(t: Tree, s: State, c: nat) returns (climbing: bool, v: nat, x: nat)
    requires WellLinked(t) && Draining(t, s, c) && s.completedSeq != s.gpSeq
    ensures Shaped(t, s) && IsNode(t, v)
    ensures climbing ==> !IsRoot(t, v) && InFlight(s, v) > 0
    ensures !climbing ==> IsLeaf(t, v) && x in s.nodes[v].mask
  {
    hide LogOk, StillOnline, QsSince, LastStart, ParentOk, NumChildren;
    if u: nat :| IsNode(t, u) && InFlight(s, u) > 0 {
      climbing, v, x := true, u, 0;
      assert ReportOk(t, Ascending(u)) || ReportOk(t, AtNode(u, s.gpSeq));
    } else if LeavesFinished(t, s) {
      FinishedFromLeaves(t, s, |t.nodes| - 1);
      assert false;
    } else {
      climbing := false;
      v :| IsNode(t, v) && IsLeaf(t, v) && s.nodes[v].completed != s.gpSeq;
      assert NodeOk(t, s, v);
      x :| x in s.nodes[v].mask;
    }
  }

  lemma {:induction false} DrainComplete(t: Tree, s: State, c: nat)
    requires WellLinked(t) && Draining(t, s, c)
    ensures CanComplete(t, s, c)
    decreases Total(s.nodes)
  {
    hide Draining, CanComplete, WellLinked, Total, InFlight;
    if s.completedSeq == s.gpSeq {
      AlreadyComplete(t, s, c);
    } else {
      var climbing, v, x := SomethingLeft(t, s, c);
      var s';
      if climbing { s' := DrainClimb(t, s, c, v); } else { s' := DrainLeaf(t, s, c, v, x); }
      DrainComplete(t, s', c);
    }
  }

  // ---- From the start of a grace period ----

  /** Every leaf has an online CPU in its range. */
  ghost predicate Covered(t: Tree, s: State)
    requires WellLinked(t)
  {
    forall i: nat :: IsNode(t, i) && IsLeaf(t, i) ==> InitMask(t, s, i) != {}
  }

  /** The first k leaves' masks are as the start sets them. */
  ghost predicate MasksSet(t: Tree, s: State, k: nat)
    requires WellLinked(t) && |s.nodes| == |t.nodes|
  {
    forall i: nat :: IsNode(t, i) && IsLeaf(t, i) && i < k ==> s.nodes[i].mask == InitMask(t, s, i)
  }

  ghost predicate Marking(t: Tree, s: State, c: nat)
    requires WellLinked(t)
  {
    && Inv(t, s) && s.start.MarkCpus? && s.start.cpu <= t.cpus && !s.bare && (c < t.cpus ==> Noticed(c) in s.reports)
    && MasksSet(t, s, |t.nodes|)
    && (forall x: nat :: x in s.online && x < s.start.cpu ==> x < |s.cpus| && s.cpus[x] == CpuState(s.gpSeq, true))
  }

  lemma MarkedDraining(t: Tree, s: State, c: nat)
    requires WellLinked(t) && Marking(t, s, c) && s.start.cpu == t.cpus
    ensures Shaped(t, s) && Enabled(t, s, EndStart) && Draining(t, Step(t, s, EndStart), c)
  {
    InvShaped(t, s);
    CpuStepKeeps(t, s, EndStart);
    hide Inv, ParentOk, LeafOk, NumChildren;
    var s' := Step(t, s, EndStart);
    forall i: nat | IsNode(t, i) && IsLeaf(t, i)
      ensures LeafPending(t, s', i, c)
    {
      forall x | x in s'.nodes[i].mask
        ensures LeafOf(t, x) == i && x < t.cpus && Pending(s', x, c)
      {
        assert InRange(t, i, x);
      }
    }
  }

  lemma MasksSame(t: Tree, s: State, s': State)
    requires WellLinked(t) && |s.nodes| == |t.nodes| && MasksSet(t, s, |t.nodes|) && s'.nodes == s.nodes
             && s'.online == s.online
    ensures MasksSet(t, s', |t.nodes|)
  {
    forall i: nat | IsNode(t, i) && IsLeaf(t, i) ensures InitMask(t, s', i) == InitMask(t, s, i) { }
  }

  lemma MarkStep(t: Tree, s: State, c: nat)
    requires WellLinked(t) && Marking(t, s, c) && s.start.cpu < t.cpus
    ensures Shaped(t, s) && Enabled(t, s, MarkCpu) && Marking(t, Step(t, s, MarkCpu), c)
    ensures Step(t, s, MarkCpu).start == MarkCpus(s.start.cpu + 1)
  {
    hide Inv, WellLinked, MasksSet;
    InvShaped(t, s);
    CpuStepKeeps(t, s, MarkCpu);
    MasksSame(t, s, Step(t, s, MarkCpu));
  }

  lemma {:induction false} MarkComplete(t: Tree, s: State, c: nat)
    requires WellLinked(t) && Marking(t, s, c)
    ensures CanComplete(t, s, c)
    decreases t.cpus - s.start.cpu
  {
    hide CanComplete, WellLinked, Inv, MasksSet, Draining;
    if s.start.cpu == t.cpus {
      MarkedDraining(t, s, c);
      DrainComplete(t, Step(t, s, EndStart), c);
      Prepend(t, s, EndStart, c);
    } else {
      MarkStep(t, s, c);
      MarkComplete(t, Step(t, s, MarkCpu), c);
      Prepend(t, s, MarkCpu, c);
    }
  }

  ghost predicate Initing(t: Tree, s: State, c: nat)
    requires WellLinked(t)
  {
    && Inv(t, s) && s.start.InitNodes? && !s.bare && (c < t.cpus ==> Noticed(c) in s.reports) && Covered(t, s)
    && MasksSet(t, s, s.start.next)
  }

  lemma InitStep(t: Tree, s: State, c: nat)
    requires WellLinked(t) && Initing(t, s, c)
    ensures Shaped(t, s) && Enabled(t, s, InitNode)
    ensures var s' := Step(t, s, InitNode);
            if s.start.next < |t.nodes| then Initing(t, s', c)
                && s'.start == InitNodes(s.start.next + 1) else Marking(t, s', c)
  {
    InvShaped(t, s);
    InitKeeps(t, s);
    var s' := Step(t, s, InitNode);
    InvShaped(t, s');
    hide Inv, ParentOk, LeafOk, NumChildren;
    assert forall i: nat :: IsNode(t, i) ==> InitMask(t, s', i) == InitMask(t, s, i);
  }

  lemma {:induction false} InitComplete(t: Tree, s: State, c: nat)
    requires WellLinked(t) && Initing(t, s, c)
    ensures CanComplete(t, s, c)
    decreases if s.start.next <= |t.nodes| then |t.nodes| - s.start.next else 0
  {
    hide CanComplete, WellLinked, MasksSet, Covered, Marking, Inv;
    InvShaped(t, s);
    InitStep(t, s, c);
    var s' := Step(t, s, InitNode);
    if s.start.next < |t.nodes| { InitComplete(t, s', c); } else { MarkComplete(t, s', c); }
    Prepend(t, s, InitNode, c);
  }

  /** With CPU c half way through a call, the grace period can begin and complete without c entering rcu_qs. */
  lemma BeginComplete(t: Tree, s: State, c: nat)
    requires WellLinked(t) && Inv(t, s) && Enabled(t, s, Begin) && Covered(t, s)
             && (c < t.cpus ==> Noticed(c) in s.reports)
    ensures CanComplete(t, Step(t, s, Begin), c)
  {
    InvShaped(t, s);
    BeginKeeps(t, s);
    var s' := Step(t, s, Begin);
    assert Covered(t, s') by {
      assert forall i: nat :: IsNode(t, i) && IsLeaf(t, i) ==> InitMask(t, s', i) == InitMask(t, s, i);
    }
    hide Inv, WellLinked, CanComplete, Covered;
    InvShaped(t, s');
    InitComplete(t, s', c);
  }

  /** A grace period that finds an online CPU under every leaf can always be completed. */
  lemma CoveredCanComplete(t: Tree, s: State)
    requires WellLinked(t) && Inv(t, s) && Enabled(t, s, Begin) && Covered(t, s)
    ensures CanComplete(t, Step(t, s, Begin), t.cpus)
  {
    BeginComplete(t, s, t.cpus);
  }

  // ---- The exact condition ----

  /** From s a grace period begins and completes, with CPU c online when its leaf is set up. */
  ghost predicate GracePeriod(t: Tree, s: State, states: seq<State>, acts: seq<Action>, c: nat)
    requires WellLinked(t)
  {
    && Path(t, states, acts) && states[0] == s && |acts| > 0 && acts[0].Begin?
       && (forall k :: 0 < k < |acts| ==> !acts[k].Begin?)
    && OnlineAtSetup(t, states, acts, 0, |acts|, c) && states[|acts|].completedSeq == states[|acts|].gpSeq
  }

  /** Every grace period that begins in s and completes waits for CPU c to enter rcu_qs after the start. */
  ghost predicate WaitsForEntry(t: Tree, s: State, c: nat)
    requires WellLinked(t)
  {
    forall states, acts :: GracePeriod(t, s, states, acts, c) ==> Entered(acts, 0, |acts|, c)
  }

  /** A grace period with the given start waits for entry exactly if no call of the CPU has noticed but not read yet. */
  lemma WaitsForEntryIff(t: Tree, s: State, c: nat)
    requires WellLinked(t) && Inv(t, s) && Enabled(t, s, Begin) && Covered(t, s) && c in s.online
    ensures WaitsForEntry(t, s, c) <==> Noticed(c) !in s.reports
  {
    hide Inv, WellLinked, Step, Covered, Enabled;
    if Noticed(c) in s.reports {
      InvShaped(t, s);
      BeginComplete(t, s, c);
      var s' := Step(t, s, Begin);
      var states, acts :| Completes(t, s', states, acts, c);
      PathPrepend(t, s, Begin, states, acts);
      var S, A := [s] + states, [Begin] + acts;
      assert forall k :: 0 < k < |A| ==> A[k] == acts[k - 1] && Avoids(A[k], c);
      ThroughoutIsAtSetup(t, S, A, 0, |A|, c);
      assert GracePeriod(t, s, S, A, c) && !Entered(A, 0, |A|, c);
    } else {
      forall states, acts | GracePeriod(t, s, states, acts, c)
        ensures Entered(acts, 0, |acts|, c)
      {
        EntryGuarantee(t, states, acts, 0, |acts|, c);
      }
    }
  }
}
