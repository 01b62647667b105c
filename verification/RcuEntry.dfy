/**
  Which calls of rcu_qs a grace period waits for.  A call reads the CPU's sequence number after it has let go
  of the leaf's lock, so one that was between the two when the grace period began can report for it.  This is
  the only way: every other CPU enters rcu_qs after the start.
 */
module RcuEntry {
  import opened RcuTopology
  import opened RcuTree

  // ---- The bit of a CPU stays set until the CPU reports ----

  /** Once its leaf is set up, the bit of CPU c is set. */
  ghost predicate BitHeld(t: Tree, s: State, c: nat)
    requires WellLinked(t) && Shaped(t, s)
  {
    c < t.cpus && (Ready(s, LeafOf(t, c)) ==> LeafOk(t, c) && c in s.nodes[LeafOf(t, c)].mask)
  }

  lemma HasFanout(t: Tree)
    requires WellLinked(t)
    ensures t.fanout > 0
  {
  }

  lemma InvShaped(t: Tree, s: State)
    requires WellLinked(t) && Inv(t, s)
    ensures Shaped(t, s)
  {
  }

  lemma BeginHeld(t: Tree, s: State, c: nat)
    requires WellLinked(t) && Inv(t, s) && Enabled(t, s, Begin) && c < t.cpus
    ensures Shaped(t, Step(t, s, Begin)) && BitHeld(t, Step(t, s, Begin), c)
  {
    hide AllNodesOk, AllLinksOk, LogOk, StillOnline, QsSince, LastStart;
    assert LeafOk(t, c);
  }

  /** What a report to a leaf leaves as it was. */
  lemma LeafReportEffect(t: Tree, s: State, d: nat, gp: nat)
    requires WellLinked(t) && Inv(t, s) && Enabled(t, s, LeafReport(d, gp))
    ensures var s' := Step(t, s, LeafReport(d, gp));
            && s'.online == s.online && s'.start == s.start && s'.gpSeq == s.gpSeq && |s'.nodes| == |s.nodes|
            && (forall c: nat :: Noticed(c) in s'.reports ==> Noticed(c) in s.reports)
            && (forall c: nat, g: nat :: AtLeaf(c, g) in s'.reports ==> AtLeaf(c, g) in s.reports)
            && (forall i :: 0 <= i < |s.nodes| ==> s.nodes[i].mask - {d} <= s'.nodes[i].mask)
            && (Stale(s.nodes[LeafOf(t, d)], gp) ==> s'.nodes == s.nodes)
  {
    hide Inv, WellLinked, ReportOk;
    InvShaped(t, s);
    LeafReportIsDue(t, s, d, gp);
  }

  lemma LeafReportHeld(t: Tree, s: State, c: nat, d: nat, gp: nat)
    requires WellLinked(t) && Inv(t, s) && Enabled(t, s, LeafReport(d, gp)) && BitHeld(t, s, c)
    requires c != d || Stale(s.nodes[LeafOf(t, d)], gp)
    ensures var s' := Step(t, s, LeafReport(d, gp)); Shaped(t, s') && BitHeld(t, s', c)
  {
    hide Inv, WellLinked, Step;
    InvShaped(t, s);
    LeafReportKeeps(t, s, d, gp);
    InvShaped(t, Step(t, s, LeafReport(d, gp)));
    LeafReportEffect(t, s, d, gp);
  }

  lemma NodeReportHeld(t: Tree, s: State, c: nat, v: nat, gp: nat)
    requires WellLinked(t) && Inv(t, s) && Enabled(t, s, NodeReport(v, gp)) && BitHeld(t, s, c)
    ensures var s' := Step(t, s, NodeReport(v, gp)); Shaped(t, s') && BitHeld(t, s', c)
  {
    hide AllNodesOk, AllLinksOk, LogOk, StillOnline, QsSince, LastStart, NumChildren, SeqOk, CpusOk, Narrow;
    assert LeafOk(t, c);
    assert !IsLeaf(t, t.nodes[v].parent);
    hide WellLinked;
    NodeReportKeeps(t, s, v, gp);
    NodeReportIsDue(t, s, v, gp);
    hide Inv;
    InvShaped(t, Step(t, s, NodeReport(v, gp)));
  }

  lemma InitNodeHeld(t: Tree, s: State, c: nat)
    requires WellLinked(t) && Inv(t, s) && Enabled(t, s, InitNode) && BitHeld(t, s, c)
    requires s.start.next == LeafOf(t, c) ==> c in s.online
    ensures var s' := Step(t, s, InitNode); Shaped(t, s') && BitHeld(t, s', c)
  {
    hide AllNodesOk, AllLinksOk, LogOk, StillOnline, QsSince, LastStart, SeqOk, CpusOk, Narrow, NumChildren;
    InitKeeps(t, s);
    assert LeafOk(t, c);
    hide WellLinked;
  }

  /** A step that touches no mask. */
  lemma OtherHeld(t: Tree, s: State, a: Action, c: nat)
    requires WellLinked(t) && Inv(t, s) && Enabled(t, s, a) && BitHeld(t, s, c)
    requires !a.Begin? && !a.LeafReport? && !a.NodeReport? && !a.InitNode?
    ensures var s' := Step(t, s, a); Shaped(t, s') && BitHeld(t, s', c)
  {
    hide Inv, WellLinked, ReportOk, Shaped, LeafOk, ParentOk;
    InvShaped(t, s);
    StepKeeps(t, s, a);
    InvShaped(t, Step(t, s, a));
  }

  /** The step sets up the leaf of CPU c, if at all, with c online. */
  predicate SetsUp(t: Tree, s: State, a: Action, c: nat)
    requires t.fanout > 0
  {
    a.InitNode? && s.start == InitNodes(LeafOf(t, c)) ==> c in s.online
  }

  lemma StepHeld(t: Tree, s: State, a: Action, c: nat)
    requires WellLinked(t) && Inv(t, s) && Enabled(t, s, a) && BitHeld(t, s, c) && !a.Begin? && SetsUp(t, s, a, c)
    requires a.LeafReport? && a.cpu == c ==> LeafOk(t, c) && Stale(s.nodes[LeafOf(t, c)], a.gp)
    ensures var s' := Step(t, s, a); Shaped(t, s') && BitHeld(t, s', c)
  {
    hide Inv, Step, WellLinked, BitHeld, Shaped;
    if a.LeafReport? {
      LeafReportHeld(t, s, c, a.cpu, a.gp);
    } else if a.NodeReport? {
      NodeReportHeld(t, s, c, a.child, a.gp);
    } else if a.InitNode? {
      InitNodeHeld(t, s, c);
    } else {
      OtherHeld(t, s, a, c);
    }
  }

  lemma HeldMeansRunning(t: Tree, s: State, c: nat)
    requires WellLinked(t) && Inv(t, s) && BitHeld(t, s, c)
    ensures s.completedSeq != s.gpSeq
  {
    hide LogOk, StillOnline, QsSince, LastStart;
    assert LeafOk(t, c);
    if s.completedSeq == s.gpSeq {
      FinishedFromRoot(t, s, LeafOf(t, c));
      assert false;
    }
  }

  /** CPU c is online when, between the steps m and n, its leaf is set up. */
  ghost predicate OnlineAtSetup(t: Tree, states: seq<State>, acts: seq<Action>, m: nat, n: nat, c: nat)
    requires m < n <= |acts| < |states| && t.fanout > 0
  {
    c < t.cpus && (forall k :: m < k < n ==> SetsUp(t, states[k], acts[k], c))
  }

  lemma {:induction false} StaysOnline(t: Tree, states: seq<State>, acts: seq<Action>, m: nat, k: nat, c: nat)
    requires WellLinked(t) && Path(t, states, acts) && m <= k < |states| && c in states[m].online
    requires forall j :: m <= j < k ==> acts[j] != GoOffline(c)
    ensures c in states[k].online
    decreases k
  {
    hide WellLinked;
    if m < k {
      StaysOnline(t, states, acts, m, k - 1, c);
      assert states[k] == Step(t, states[k - 1], acts[k - 1]);
    }
  }

  /** A CPU that stays online is online at the setup of its leaf. */
  lemma ThroughoutIsAtSetup(t: Tree, states: seq<State>, acts: seq<Action>, m: nat, n: nat, c: nat)
    requires WellLinked(t) && Path(t, states, acts) && m < n <= |acts| && acts[m].Begin?
    requires OnlineThroughout(states, acts, m, n, c)
    ensures OnlineAtSetup(t, states, acts, m, n, c)
  {
    assert Shaped(t, states[m]);
    hide Step, Enabled;
    forall k | m < k < n ensures SetsUp(t, states[k], acts[k], c) { StaysOnline(t, states, acts, m, k, c); }
  }

  lemma {:induction false} HeldUntil(t: Tree, states: seq<State>, acts: seq<Action>, m: nat, n: nat, c: nat)
    requires WellLinked(t) && Path(t, states, acts) && Inv(t, states[0]) && m < n < |states|
    requires acts[m].Begin? && (forall k :: m < k < n ==> !acts[k].Begin?)
    requires OnlineAtSetup(t, states, acts, m, n, c) && !PassedQs(acts, m, n, c)
    ensures Shaped(t, states[n]) && BitHeld(t, states[n], c)
    decreases n
  {
    hide Inv, Step, Enabled, WellLinked, BitHeld, Shaped, SetsUp;
    HasFanout(t);
    PathKeeps(t, states, acts, n - 1);
    PathKeeps(t, states, acts, n);
    if n == m + 1 {
      BeginHeld(t, states[m], c);
    } else {
      assert forall k :: m < k < n - 1 ==> SetsUp(t, states[k], acts[k], c);
      HeldUntil(t, states, acts, m, n - 1, c);
      assert !QsStep(acts[n - 1], c);
      StepHeld(t, states[n - 1], acts[n - 1], c);
    }
  }

  /**
    A grace period that completes has seen every CPU that was online when its leaf was set up, whether or not it has
    gone offline since, execute a step of rcu_qs.
   */
  lemma SetupGuarantee(t: Tree, states: seq<State>, acts: seq<Action>, m: nat, n: nat, c: nat)
    requires WellLinked(t) && Path(t, states, acts) && Inv(t, states[0]) && m < n < |states|
    requires acts[m].Begin? && (forall k :: m < k < n ==> !acts[k].Begin?)
    requires states[n].completedSeq == states[n].gpSeq && OnlineAtSetup(t, states, acts, m, n, c)
    ensures PassedQs(acts, m, n, c)
  {
    hide Inv, Step, Enabled, WellLinked, BitHeld, OnlineAtSetup;
    if !PassedQs(acts, m, n, c) {
      PathKeeps(t, states, acts, n);
      HeldUntil(t, states, acts, m, n, c);
      HeldMeansRunning(t, states[n], c);
      assert false;
    }
  }

  // ---- A CPU with no call at the critical point must enter rcu_qs anew ----

  /** CPU c has nothing under way that could report for the current grace period. */
  ghost predicate NothingUnderWay(s: State, c: nat)
  {
    Noticed(c) !in s.reports && (forall gp: nat :: AtLeaf(c, gp) in s.reports ==> gp < s.gpSeq)
  }

  /** Besides, its bit is set once its leaf is set up. */
  ghost predicate Unnoticed(t: Tree, s: State, c: nat)
    requires WellLinked(t) && Shaped(t, s)
  {
    NothingUnderWay(s, c) && BitHeld(t, s, c)
  }

  lemma BeginUnnoticed(t: Tree, s: State, c: nat)
    requires WellLinked(t) && Inv(t, s) && Enabled(t, s, Begin) && Noticed(c) !in s.reports
    ensures NothingUnderWay(Step(t, s, Begin), c)
  {
    hide AllNodesOk, AllLinksOk, LogOk, StillOnline, QsSince, LastStart, WellLinked;
  }

  /** A report for an earlier grace period changes no node. */
  lemma OldReportIsStale(t: Tree, s: State, c: nat, gp: nat)
    requires WellLinked(t) && Inv(t, s) && Enabled(t, s, LeafReport(c, gp)) && gp < s.gpSeq
    ensures Stale(s.nodes[LeafOf(t, c)], gp)
  {
    hide AllLinksOk, LogOk, StillOnline, QsSince, LastStart;
    assert NodeOk(t, s, LeafOf(t, c));
  }

  lemma NodeReportNothing(t: Tree, s: State, v: nat, gp: nat, c: nat)
    requires WellLinked(t) && Inv(t, s) && Enabled(t, s, NodeReport(v, gp)) && NothingUnderWay(s, c)
    ensures NothingUnderWay(Step(t, s, NodeReport(v, gp)), c)
  {
    var s1 := s.(reports := s.reports - multiset{AtNode(v, gp)});
    hide Inv, Step, WellLinked;
    NodeReportStep(t, s, s1, v, gp);
    assert forall r :: r in s1.reports ==> r in s.reports;
  }

  lemma OtherNothing(t: Tree, s: State, a: Action, c: nat)
    requires WellLinked(t) && Shaped(t, s) && Enabled(t, s, a) && NothingUnderWay(s, c)
    requires !a.Begin? && a != Notice(c) && !a.LeafReport? && !a.NodeReport?
    ensures NothingUnderWay(Step(t, s, a), c)
  {
    hide WellLinked, ReportOk, LeafOk, ParentOk, Shaped;
  }

  /** Only entering rcu_qs puts something of CPU c under way. */
  lemma StepNothing(t: Tree, s: State, a: Action, c: nat)
    requires WellLinked(t) && Inv(t, s) && Enabled(t, s, a) && NothingUnderWay(s, c) && !a.Begin? && a != Notice(c)
    ensures NothingUnderWay(Step(t, s, a), c)
  {
    hide Inv, WellLinked, Step;
    InvShaped(t, s);
    if a.LeafReport? {
      LeafReportEffect(t, s, a.cpu, a.gp);
    } else if a.NodeReport? {
      NodeReportNothing(t, s, a.child, a.gp, c);
    } else {
      OtherNothing(t, s, a, c);
    }
  }

  lemma StepUnnoticed(t: Tree, s: State, a: Action, c: nat)
    requires WellLinked(t) && Inv(t, s) && Enabled(t, s, a) && Unnoticed(t, s, c)
    requires !a.Begin? && a != Notice(c) && SetsUp(t, s, a, c)
    ensures var s' := Step(t, s, a); Shaped(t, s') && Unnoticed(t, s', c)
  {
    hide Inv, Step, WellLinked, BitHeld, Shaped, SetsUp;
    StepNothing(t, s, a, c);
    if a.LeafReport? && a.cpu == c { OldReportIsStale(t, s, c, a.gp); }
    StepHeld(t, s, a, c);
  }

  /** Some step strictly between m and n is CPU c entering rcu_qs. */
  ghost predicate Entered(acts: seq<Action>, m: nat, n: nat, c: nat)
    requires m < n <= |acts|
  {
    exists k :: m < k < n && acts[k] == Notice(c)
  }

  lemma {:induction false} UnnoticedUntil(t: Tree, states: seq<State>, acts: seq<Action>, m: nat, n: nat, c: nat)
    requires WellLinked(t) && Path(t, states, acts) && Inv(t, states[0]) && m < n < |states|
    requires acts[m].Begin? && (forall k :: m < k < n ==> !acts[k].Begin?)
    requires OnlineAtSetup(t, states, acts, m, n, c) && Noticed(c) !in states[m].reports && !Entered(acts, m, n, c)
    ensures Shaped(t, states[n]) && Unnoticed(t, states[n], c)
    decreases n
  {
    hide Inv, Step, Enabled, WellLinked, NothingUnderWay, BitHeld, Shaped, SetsUp;
    HasFanout(t);
    PathKeeps(t, states, acts, n - 1);
    PathKeeps(t, states, acts, n);
    if n == m + 1 {
      BeginUnnoticed(t, states[m], c);
      BeginHeld(t, states[m], c);
    } else {
      assert forall k :: m < k < n - 1 ==> SetsUp(t, states[k], acts[k], c);
      UnnoticedUntil(t, states, acts, m, n - 1, c);
      StepUnnoticed(t, states[n - 1], acts[n - 1], c);
    }
  }

  /**
    The guarantee with entry after the start: when a grace period is complete, every CPU that was online when its leaf
    was set up has entered rcu_qs since the start, unless it was between the two halves of a call then.
   */
  lemma EntryGuarantee(t: Tree, states: seq<State>, acts: seq<Action>, m: nat, n: nat, c: nat)
    requires WellLinked(t) && Path(t, states, acts) && Inv(t, states[0]) && m < n < |states|
    requires acts[m].Begin? && (forall k :: m < k < n ==> !acts[k].Begin?)
    requires states[n].completedSeq == states[n].gpSeq
    requires OnlineAtSetup(t, states, acts, m, n, c) && Noticed(c) !in states[m].reports
    ensures Entered(acts, m, n, c)
  {
    hide Inv, Step, Enabled, WellLinked, BitHeld, NothingUnderWay, OnlineAtSetup;
    if !Entered(acts, m, n, c) {
      PathKeeps(t, states, acts, n);
      UnnoticedUntil(t, states, acts, m, n, c);
      HeldMeansRunning(t, states[n], c);
      assert false;
    }
  }

  /** Both guarantees at every step of every run that completes a grace period, with the step that began it. */
  lemma GracePeriodEntry(t: Tree, states: seq<State>, acts: seq<Action>, n: nat) returns (m: nat)
    requires WellLinked(t) && OneRoot(t) && Narrow(t) && Run(t, states, acts) && 0 < n < |states|
    requires states[n].completedSeq != states[n - 1].completedSeq
    ensures m < n && acts[m].Begin? && states[m + 1].gpSeq == states[n].completedSeq
    ensures forall k :: m < k < n ==> !acts[k].Begin?
    ensures forall c: nat :: OnlineAtSetup(t, states, acts, m, n, c) ==> PassedQs(acts, m, n, c)
    ensures forall c: nat :: OnlineAtSetup(t, states, acts, m, n, c) && Noticed(c) !in states[m].reports ==>
              Entered(acts, m, n, c)
  {
    hide OnlineAtSetup, OnlineThroughout, PassedQs, Entered, Inv, WellLinked, Step, Enabled, Init;
    HasFanout(t);
    m := GracePeriodGuarantee(t, states, acts, n);
    RunKeeps(t, states, acts, 0);
    RunKeeps(t, states, acts, n - 1);
    StepHistory(t, states[n - 1], acts[n - 1]);
    forall c: nat | OnlineAtSetup(t, states, acts, m, n, c)
      ensures PassedQs(acts, m, n, c)
      ensures Noticed(c) !in states[m].reports ==> Entered(acts, m, n, c)
    {
      SetupGuarantee(t, states, acts, m, n, c);
      if Noticed(c) !in states[m].reports { EntryGuarantee(t, states, acts, m, n, c); }
    }
  }
}
