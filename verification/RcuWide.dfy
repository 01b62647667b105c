/**
  Masks in 64-bit words.  A report shifts a one by the CPU's position in its leaf, and the processor takes the
  shift count modulo 64.  So the masks are right in every run exactly if positions fit the word.
 */
module RcuWide {
  import opened Machine
  import opened RcuTopology
  import opened RcuTree
  import opened RcuProgress

  /** Where its leaf is set up, a CPU online since the start has its bit set or has been in rcu_qs. */
  ghost predicate HonestAt(t: Tree, s: State, c: nat)
    requires WellLinked(t) && Shaped(t, s)
  {
    c in StillOnline(s.log) && c < t.cpus && LeafOk(t, c) && Ready(s, LeafOf(t, c)) ==>
      c in s.nodes[LeafOf(t, c)].mask || c in QsSince(s.log)
  }

  ghost predicate Honest(t: Tree)
    requires WellLinked(t)
  {
    forall states, acts, c: nat :: Run(t, states, acts) && Shaped(t, states[|acts|]) ==> HonestAt(t, states[|acts|], c)
  }

  // ---- A run that goes wrong ----

  /**
    Leaf 0 is finished for grace period 1, which is complete if the leaf is a root, although CPU 0 has been online
    throughout and has not been in rcu_qs.
   */
  ghost predicate Spoilt(t: Tree, s: State)
    requires WellLinked(t)
  {
    && Shaped(t, s) && s.gpSeq == 1 && s.start.Idle? && LeafOk(t, 0) && LeafOf(t, 0) == 0
    && s.nodes[0].completed == 1 && s.nodes[0].mask == {} && (IsRoot(t, 0) ==> s.completedSeq == 1)
    && Overdue(s.log)
  }

  ghost predicate CanSpoil(t: Tree, s: State)
    requires WellLinked(t)
  {
    exists states, acts :: Path(t, states, acts) && states[0] == s && Spoilt(t, states[|acts|])
  }

  lemma SpoilPrepend(t: Tree, s: State, a: Action)
    requires WellLinked(t) && Shaped(t, s) && Enabled(t, s, a) && CanSpoil(t, Step(t, s, a))
    ensures CanSpoil(t, s)
  {
    hide Step, Enabled, WellLinked, Shaped, Spoilt;
    var states, acts :| Path(t, states, acts) && states[0] == Step(t, s, a) && Spoilt(t, states[|acts|]);
    PathPrepend(t, s, a, states, acts);
    assert ([s] + states)[|[a] + acts|] == states[|acts|];
  }

  lemma LeafZero(t: Tree)
    requires WellLinked(t) && t.cpus > BITS && t.fanout > BITS
    ensures LeafOk(t, 0) && LeafOk(t, 64) && LeafOf(t, 0) == 0 && LeafOf(t, 64) == 0 && IsNode(t, 0) && IsLeaf(t, 0)
    ensures t.nodes[0].grpStart + WordBit(64 % t.fanout) == 0
  {
    SmallRemainder(t.fanout);
  }

  /** CPU 0 has been online since the start and has not been in rcu_qs. */
  predicate Overdue(log: seq<Event>)
  {
    0 in StillOnline(log) && 0 !in QsSince(log)
  }

  lemma StillOverdue(log: seq<Event>, e: Event)
    requires Overdue(log) && (e == InQs(64) || e.Completed?)
    ensures Overdue(log + [e])
  {
    hide StillOnline, QsSince;
    HistoryOf(log, e);
  }

  /** Leaf 0 waits for CPU 0 only, and CPU 64 is about to report to it. */
  ghost predicate OtherAtLeaf(t: Tree, s: State)
    requires WellLinked(t)
  {
    && Shaped(t, s) && s.gpSeq == 1 && s.start.Idle? && s.reports == multiset{AtLeaf(64, 1)} && Overdue(s.log)
    && t.cpus > BITS && t.fanout > BITS && s.nodes[0] == NodeState(1, 0, {0})
  }

  lemma OtherReports(t: Tree, s: State)
    requires WellLinked(t) && OtherAtLeaf(t, s)
    ensures Enabled(t, s, LeafReport(64, 1)) && Spoilt(t, Step(t, s, LeafReport(64, 1)))
  {
    LeafZero(t);
    hide WellLinked, Overdue, ParentOk, LeafOk;
    assert s.nodes[0].mask - {0} == {};
    StillOverdue(s.log, InQs(64));
    StillOverdue(s.log + [InQs(64)], Completed(1));
    assert s.reports - multiset{AtLeaf(64, 1)} == multiset{};
  }

  /** Grace period 1 has been running, with leaf 0 waiting for CPU 0 only and no report under way. */
  ghost predicate Alone(t: Tree, s: State)
    requires WellLinked(t)
  {
    && Shaped(t, s) && s.gpSeq == 1 && s.reports == multiset{} && Overdue(s.log)
    && t.cpus > BITS && t.fanout > BITS && s.nodes[0] == NodeState(1, 0, {0})
  }

  /** CPU 64 comes online, queues a callback and calls rcu_qs. */
  lemma OtherArrives(t: Tree, s: State) returns (s3: State)
    requires WellLinked(t) && Alone(t, s) && s.start.Idle?
    ensures OtherNoticed(t, s3) && (CanSpoil(t, s3) ==> CanSpoil(t, s))
  {
    LeafZero(t);
    hide WellLinked, Overdue, ParentOk, LeafOk, CanSpoil;
    var s1 := Step(t, s, GoOnline(64));
    var s2 := Step(t, s1, Enqueue(64));
    s3 := Step(t, s2, Notice(64));
    assert s3.reports == multiset{Noticed(64)};
    StillOverdue(s.log, InQs(64));
    if CanSpoil(t, s3) {
      hide Step, Enabled;
      SpoilPrepend(t, s2, Notice(64));
      SpoilPrepend(t, s1, Enqueue(64));
      SpoilPrepend(t, s, GoOnline(64));
    }
  }

  ghost predicate OtherNoticed(t: Tree, s: State)
    requires WellLinked(t)
  {
    && Shaped(t, s) && s.gpSeq == 1 && s.start.Idle? && s.reports == multiset{Noticed(64)} && Overdue(s.log)
    && t.cpus > BITS && t.fanout > BITS && s.nodes[0] == NodeState(1, 0, {0}) && s.cpus[64].gpSeq == 1
  }

  lemma OtherReads(t: Tree, s: State)
    requires WellLinked(t) && OtherNoticed(t, s)
    ensures Enabled(t, s, ReadGp(64)) && OtherAtLeaf(t, Step(t, s, ReadGp(64)))
  {
    hide WellLinked, Overdue, ParentOk, LeafOk;
    StillOverdue(s.log, InQs(64));
    assert Step(t, s, ReadGp(64)).reports == multiset{AtLeaf(64, 1)};
  }

  lemma AloneSpoils(t: Tree, s: State)
    requires WellLinked(t) && Alone(t, s) && s.start.Idle?
    ensures CanSpoil(t, s)
  {
    hide WellLinked, Step, Enabled, Spoilt;
    var s3 := OtherArrives(t, s);
    OtherReads(t, s3);
    var s4 := Step(t, s3, ReadGp(64));
    OtherReports(t, s4);
    var s5 := Step(t, s4, LeafReport(64, 1));
    var none: seq<Action> := [];
    assert CanSpoil(t, s5) by { assert Path(t, [s5], none) && [s5][0] == s5 && Spoilt(t, [s5][|none|]); }
    SpoilPrepend(t, s4, LeafReport(64, 1));
    SpoilPrepend(t, s3, ReadGp(64));
  }

  lemma {:induction false} MarkSpoils(t: Tree, s: State)
    requires WellLinked(t) && Alone(t, s) && s.start.MarkCpus?
    ensures CanSpoil(t, s)
    decreases if s.start.cpu <= t.cpus then t.cpus - s.start.cpu else 0
  {
    hide WellLinked, CanSpoil, Overdue, ParentOk, LeafOk;
    if s.start.cpu >= t.cpus {
      AloneSpoils(t, Step(t, s, EndStart));
      SpoilPrepend(t, s, EndStart);
    } else {
      MarkSpoils(t, Step(t, s, MarkCpu));
      SpoilPrepend(t, s, MarkCpu);
    }
  }

  ghost predicate AloneStarting(t: Tree, s: State)
    requires WellLinked(t)
  {
    && Shaped(t, s) && s.gpSeq == 1 && s.online == {0} && s.reports == multiset{} && Overdue(s.log)
       && s.start.InitNodes?
    && t.cpus > BITS && t.fanout > BITS && (s.start.next > 0 ==> s.nodes[0] == NodeState(1, 0, {0}))
  }

  lemma InitAloneStep(t: Tree, s: State)
    requires WellLinked(t) && AloneStarting(t, s)
    ensures Enabled(t, s, InitNode)
    ensures var s' := Step(t, s, InitNode);
            if s.start.next < |t.nodes| then AloneStarting(t, s') && s'.start == InitNodes(s.start.next + 1)
            else Alone(t, s') && s'.start.MarkCpus?
  {
    LeafZero(t);
    assert LeafOk(t, 0);
    if s.start.next == 0 { assert InitMask(t, s, 0) == {0}; }
    hide WellLinked, Overdue, ParentOk, NumChildren;
  }

  lemma {:induction false} InitSpoils(t: Tree, s: State)
    requires WellLinked(t) && AloneStarting(t, s)
    ensures CanSpoil(t, s)
    decreases |t.nodes| - s.start.next
  {
    hide WellLinked, CanSpoil, Overdue;
    InitAloneStep(t, s);
    var s' := Step(t, s, InitNode);
    if s.start.next < |t.nodes| { InitSpoils(t, s'); } else { MarkSpoils(t, s'); }
    SpoilPrepend(t, s, InitNode);
  }

  /**
    With fanout and CPU count above 64, CPU 64 reports for CPU 0: some run finishes leaf 0, and completes the grace
    period if that is a root, although CPU 0 has been online since the start and not in rcu_qs.
   */
  lemma WideSpoils(t: Tree) returns (states: seq<State>, acts: seq<Action>)
    requires WellLinked(t) && t.cpus > BITS && t.fanout > BITS
    ensures Run(t, states, acts) && Spoilt(t, states[|acts|])
  {
    LeafZero(t);
    var s0 := State(0, 0, seq(|t.nodes|, i => NodeState(0, 0, {})), seq(t.cpus, c => CpuState(0, false)), {0}, Idle,
                    multiset{}, false, []);
    var s1 := Step(t, s0, Begin);
    HistoryOf([], Started(1, {0}));
    assert AloneStarting(t, s1) by { assert [] + [Started(1, {0})] == s1.log; }
    hide WellLinked, Overdue, Spoilt, Enabled, Step;
    InitSpoils(t, s1);
    SpoilPrepend(t, s0, Begin);
    states, acts :| Path(t, states, acts) && states[0] == s0 && Spoilt(t, states[|acts|]);
  }

  /** The masks of every run of a built tree are right exactly if the fanout or the CPU count is at most 64. */
  lemma HonestIff(t: Tree)
    requires Built(t) && t.cnt[|t.cnt| - 1] == 1 && WellLinked(t)
    ensures Honest(t) <==> t.fanout <= BITS || t.cpus <= BITS
  {
    hide Built, WellLinked, Step, Enabled, OneRoot, Narrow, Init, HonestAt, Inv;
    HonestTree(t);
    if t.fanout <= BITS || t.cpus <= BITS {
      forall states, acts, c: nat | Run(t, states, acts) && Shaped(t, states[|acts|])
        ensures HonestAt(t, states[|acts|], c)
      {
        RunKeeps(t, states, acts, |acts|);
        InvHonest(t, states[|acts|], c);
      }
    } else {
      var states, acts := WideSpoils(t);
      SpoiltIsDishonest(t, states[|acts|]);
    }
  }

  lemma HonestTree(t: Tree)
    requires Built(t) && t.cnt[|t.cnt| - 1] == 1
    ensures OneRoot(t) && Sized(t) && (Narrow(t) <==> t.fanout <= BITS || t.cpus <= BITS)
  {
    BuiltIsWellLinked(t);
    hide Built;
    NarrowIff(t);
  }

  lemma SpoiltIsDishonest(t: Tree, s: State)
    requires WellLinked(t) && Spoilt(t, s) && t.cpus > 0
    ensures Shaped(t, s) && !HonestAt(t, s, 0)
  {
  }

  lemma InvHonest(t: Tree, s: State, c: nat)
    requires WellLinked(t) && Inv(t, s)
    ensures Shaped(t, s) && HonestAt(t, s, c)
  {
    if c < t.cpus && LeafOk(t, c) { assert NodeOk(t, s, LeafOf(t, c)); }
  }
}
