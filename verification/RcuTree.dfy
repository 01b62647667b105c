/**
  Tree RCU as a step system.  Every step is one section of code between lock operations or
  one unlocked read, so the interleavings include a grace period whose start is half done, a
  report that has left a child and not reached its parent, and rcu_qs calls that overlap a
  change of grace period.  Sequence numbers do not wrap.
 */
module RcuTree {
  import opened Machine
  import opened RcuTopology

  datatype Event =
    | Started(gp: nat, online: set<nat>)
    | Offlined(cpu: nat)
    | InQs(cpu: nat)          // the CPU executes a step of rcu_qs
    | Completed(gp: nat)

  datatype NodeState = NodeState(gpSeq: nat, completed: nat, mask: set<nat>)

  datatype CpuState = CpuState(gpSeq: nat, qsPending: bool)

  /** A call of rcu_qs that has yet to finish, by where it stands. */
  datatype Report =
    | Noticed(cpu: nat)               // qs_pending cleared; gp_seq not read yet
    | AtLeaf(cpu: nat, gp: nat)       // about to lock the CPU's leaf
    | Ascending(child: nat)           // child finished and unlocked; parent's gp_seq not read yet
    | AtNode(child: nat, gp: nat)     // about to lock the child's parent

  /** How far a grace period start, which holds gp_lock, has come. */
  datatype Start = Idle | InitNodes(next: nat) | MarkCpus(cpu: nat)

  datatype State = State(
    gpSeq: nat,
    completedSeq: nat,
    nodes: seq<NodeState>,
    cpus: seq<CpuState>,
    online: set<nat>,
    start: Start,
    reports: multiset<Report>,
    bare: bool,                 // history: the current start found a leaf without online CPU
    log: seq<Event>             // history
  )

  datatype Action =
    | Begin
    | InitNode
    | MarkCpu
    | EndStart
    | Enqueue(cpu: nat)
    | Notice(cpu: nat)
    | ReadGp(cpu: nat)
    | LeafReport(cpu: nat, gp: nat)
    | ReadParentGp(child: nat)
    | NodeReport(child: nat, gp: nat)
    | GoOnline(cpu: nat)
    | GoOffline(cpu: nat)

  // ---- Steps ----

  function LeafOf(t: Tree, c: nat): nat
    requires t.fanout > 0
  {
    c / t.fanout
  }

  predicate ReportOk(t: Tree, r: Report)
  {
    match r
    case Noticed(c) => c < t.cpus
    case AtLeaf(c, _) => c < t.cpus
    case Ascending(v) => IsNode(t, v) && !IsRoot(t, v)
    case AtNode(v, _) => IsNode(t, v) && !IsRoot(t, v)
  }

  predicate Shaped(t: Tree, s: State)
  {
    && |s.nodes| == |t.nodes| && |s.cpus| == t.cpus
    && (s.start.InitNodes? ==> s.start.next <= |t.nodes| && s.gpSeq >= 1)
    && (forall r :: r in s.reports ==> ReportOk(t, r))
    && (forall c :: c in s.online ==> c < t.cpus)
  }

  function InitMask(t: Tree, s: State, i: nat): set<nat>
    requires Sized(t) && IsNode(t, i)
  {
    if IsLeaf(t, i) then
      set c: nat | c in s.online && t.nodes[i].grpStart <= c <= t.nodes[i].grpLast
    else
      ChildMask(NumChildren(t, i))
  }

  /** The word with its lowest n bits set, as the start computes it: all ones for 64, else a shifted one minus one. */
  function ChildMask(n: nat): set<nat>
  {
    if n == BITS then LowBits(BITS) else LowBits(WordBit(n))
  }

  /** Node u, locked, is left with the given mask: finish it if the mask is empty. */
  function Clear(t: Tree, s: State, u: nat, mask: set<nat>, gp: nat): State
    requires IsNode(t, u) && |s.nodes| == |t.nodes|
  {
    if mask != {} then
      s.(nodes := s.nodes[u := s.nodes[u].(mask := mask)])
    else
      var s1 := s.(nodes := s.nodes[u := s.nodes[u].(mask := mask, completed := gp)]);
      if IsRoot(t, u) then
        s1.(completedSeq := gp, log := s.log + [Completed(gp)])
      else
        s1.(reports := s.reports + multiset{Ascending(u)})
  }

  predicate Stale(n: NodeState, gp: nat)
  {
    n.gpSeq != gp || n.completed == gp
  }

  function Enabled(t: Tree, s: State, a: Action): bool
    requires WellLinked(t) && Shaped(t, s)
  {
    match a
    case Begin => s.start.Idle? && s.gpSeq == s.completedSeq
    case InitNode => s.start.InitNodes?
    case MarkCpu => s.start.MarkCpus? && s.start.cpu < t.cpus
    case EndStart => s.start.MarkCpus? && s.start.cpu >= t.cpus
    case Enqueue(c) => c < t.cpus && s.start.Idle? && s.gpSeq >= 1
    case Notice(c) =>
      c < t.cpus && LeafOk(t, c) && s.cpus[c].qsPending && s.cpus[c].gpSeq == s.nodes[LeafOf(t, c)].gpSeq
    case ReadGp(c) => Noticed(c) in s.reports && ReportOk(t, Noticed(c))
    case LeafReport(c, gp) => AtLeaf(c, gp) in s.reports && ReportOk(t, AtLeaf(c, gp)) && LeafOk(t, c)
    case ReadParentGp(v) => Ascending(v) in s.reports && ReportOk(t, Ascending(v)) && ParentOk(t, v)
    case NodeReport(v, gp) => AtNode(v, gp) in s.reports && ReportOk(t, AtNode(v, gp)) && ParentOk(t, v)
    case GoOnline(c) => c < t.cpus
    case GoOffline(c) => true
  }

  function Step(t: Tree, s: State, a: Action): State
    requires WellLinked(t) && Shaped(t, s) && Enabled(t, s, a)
  {
    match a
    case Begin =>
      s.(gpSeq := s.gpSeq + 1, start := InitNodes(0), bare := false, log := s.log + [Started(s.gpSeq + 1, s.online)])
    case InitNode =>
      var i := s.start.next;
      if i == |t.nodes| then s.(start := MarkCpus(0))
      else
        var mask := InitMask(t, s, i);
        s.(nodes := s.nodes[i := NodeState(s.gpSeq, s.gpSeq - 1, mask)],
           start := InitNodes(i + 1),
           bare := s.bare || (IsLeaf(t, i) && mask == {}))
    case MarkCpu =>
      var c := s.start.cpu;
      var s1 := s.(start := MarkCpus(c + 1));
      if c in s.online then s1.(cpus := s.cpus[c := CpuState(s.gpSeq, true)]) else s1
    case EndStart => s.(start := Idle)
    case Enqueue(c) => s.(cpus := s.cpus[c := CpuState(s.gpSeq, true)])
    case Notice(c) =>
      s.(cpus := s.cpus[c := s.cpus[c].(qsPending := false)],
         reports := s.reports + multiset{Noticed(c)},
         log := s.log + [InQs(c)])
    case ReadGp(c) =>
      s.(reports := s.reports - multiset{Noticed(c)} + multiset{AtLeaf(c, s.cpus[c].gpSeq)},
         log := s.log + [InQs(c)])
    case LeafReport(c, gp) =>
      var s1 := s.(reports := s.reports - multiset{AtLeaf(c, gp)}, log := s.log + [InQs(c)]);
      var u := LeafOf(t, c);
      if Stale(s.nodes[u], gp) then s1
      else Clear(t, s1, u, s.nodes[u].mask - {t.nodes[u].grpStart + WordBit(c % t.fanout)}, gp)
    case ReadParentGp(v) =>
      s.(reports := s.reports - multiset{Ascending(v)} + multiset{AtNode(v, s.nodes[t.nodes[v].parent].gpSeq)})
    case NodeReport(v, gp) =>
      var s1 := s.(reports := s.reports - multiset{AtNode(v, gp)});
      var u := t.nodes[v].parent;
      if Stale(s.nodes[u], gp) then s1
      else Clear(t, s1, u, s.nodes[u].mask - {WordBit(Bit(t, v))}, gp)
    case GoOnline(c) => s.(online := s.online + {c})
    case GoOffline(c) => s.(online := s.online - {c}, log := s.log + [Offlined(c)])
  }

  ghost predicate Init(t: Tree, s: State)
  {
    && s.gpSeq == 0 && s.completedSeq == 0 && s.start.Idle? && s.reports == multiset{} && !s.bare && s.log == []
    && s.nodes == seq(|t.nodes|, i => NodeState(0, 0, {}))
    && s.cpus == seq(t.cpus, c => CpuState(0, false))
    && (forall c :: c in s.online ==> c < t.cpus)
  }

  // ---- Reading the history ----

  /** The grace period started last. */
  function LastStart(log: seq<Event>): nat
  {
    if log == [] then 0
    else match log[|log| - 1]
      case Started(g, _) => g
      case _ => LastStart(log[..|log| - 1])
  }

  /** CPUs online at the last start that have not gone offline since. */
  function StillOnline(log: seq<Event>): set<nat>
  {
    if log == [] then {}
    else match log[|log| - 1]
      case Started(_, on) => on
      case Offlined(c) => StillOnline(log[..|log| - 1]) - {c}
      case _ => StillOnline(log[..|log| - 1])
  }

  /** CPUs that have executed rcu_qs since the last start. */
  function QsSince(log: seq<Event>): set<nat>
  {
    if log == [] then {}
    else match log[|log| - 1]
      case Started(_, _) => {}
      case InQs(c) => QsSince(log[..|log| - 1]) + {c}
      case _ => QsSince(log[..|log| - 1])
  }

  ghost predicate CompletedOk(log: seq<Event>, i: nat)
    requires i < |log| && log[i].Completed?
  {
    LastStart(log[..i]) == log[i].gp && StillOnline(log[..i]) <= QsSince(log[..i])
  }

  ghost predicate LogOk(log: seq<Event>)
  {
    forall i :: 0 <= i < |log| && log[i].Completed? ==> CompletedOk(log, i)
  }

  lemma LogAppend(log: seq<Event>, e: Event)
    requires LogOk(log)
    requires e.Completed? ==> LastStart(log) == e.gp && StillOnline(log) <= QsSince(log)
    ensures LogOk(log + [e])
    ensures LastStart(log + [e]) == if e.Started? then e.gp else LastStart(log)
    ensures StillOnline(log + [e]) ==
            if e.Started? then e.online else if e.Offlined? then StillOnline(log) - {e.cpu} else StillOnline(log)
    ensures QsSince(log + [e]) ==
            if e.Started? then {} else if e.InQs? then QsSince(log) + {e.cpu} else QsSince(log)
  {
    var log' := log + [e];
    assert log'[..|log|] == log;
    forall i | 0 <= i < |log'| && log'[i].Completed?
      ensures CompletedOk(log', i)
    {
      if i < |log| {
        assert CompletedOk(log, i);
        assert log'[..i] == log[..i];
      }
    }
  }

  // ---- Invariant ----

  /** Node i has been set up for the current grace period. */
  predicate Ready(s: State, i: int)
  {
    s.start.InitNodes? ==> i < s.start.next
  }

  ghost predicate NodeOk(t: Tree, s: State, i: nat)
    requires Sized(t) && Shaped(t, s) && IsNode(t, i)
  {
    var n := s.nodes[i];
    if !Ready(s, i) then
      n.gpSeq + 1 == s.gpSeq && n.completed + 1 == s.gpSeq
    else
      && n.gpSeq == s.gpSeq
      && (n.completed == s.gpSeq || n.completed + 1 == s.gpSeq)
      && (s.start.InitNodes? ==> n.completed != s.gpSeq)
      && (n.completed == s.gpSeq ==> n.mask == {})
      && (if IsLeaf(t, i) then
            && (n.completed != s.gpSeq && !s.bare ==> n.mask != {})
            && (forall c :: c in StillOnline(s.log) && c < t.cpus && LeafOf(t, c) == i ==>
                  c in n.mask || c in QsSince(s.log))
          else
            && (n.completed != s.gpSeq ==> n.mask != {})
            && (forall b :: b in n.mask ==> b < NumChildren(t, i))
            && (s.start.InitNodes? ==> n.mask == LowBits(NumChildren(t, i))))
  }

  /** The reports on behalf of finished node v that have not reached its parent. */
  function InFlight(s: State, v: nat): nat
  {
    s.reports[Ascending(v)] + s.reports[AtNode(v, s.gpSeq)]
  }

  /** A finished child whose bit is still set has exactly one report on its way, and no other child has one. */
  ghost predicate LinkOk(t: Tree, s: State, v: nat)
    requires WellLinked(t) && Shaped(t, s) && IsNode(t, v) && !IsRoot(t, v) && ParentOk(t, v)
  {
    var waiting := Bit(t, v) in s.nodes[t.nodes[v].parent].mask;
    if s.start.InitNodes? then InFlight(s, v) == 0
    else
      && (!waiting ==> s.nodes[v].completed == s.gpSeq)
      && InFlight(s, v) == if s.nodes[v].completed == s.gpSeq && waiting then 1 else 0
  }

  ghost predicate SeqOk(t: Tree, s: State)
    requires Shaped(t, s) && |t.nodes| > 0
  {
    if s.start.InitNodes? then s.completedSeq + 1 == s.gpSeq
    else
      && (s.completedSeq == s.gpSeq || s.completedSeq + 1 == s.gpSeq)
      && (s.completedSeq == s.gpSeq <==> s.nodes[|t.nodes| - 1].completed == s.gpSeq)
  }

  ghost predicate AllNodesOk(t: Tree, s: State)
    requires Sized(t) && Shaped(t, s)
  {
    forall i: nat :: IsNode(t, i) ==> NodeOk(t, s, i)
  }

  ghost predicate AllLinksOk(t: Tree, s: State)
    requires WellLinked(t) && Shaped(t, s)
  {
    forall v: nat :: IsNode(t, v) && !IsRoot(t, v) ==> LinkOk(t, s, v)
  }

  /** No CPU and no report at a leaf is ahead of the start in progress. */
  ghost predicate CpusOk(s: State)
  {
    && (forall c :: 0 <= c < |s.cpus| ==> s.cpus[c].gpSeq + (if s.start.InitNodes? then 1 else 0) <= s.gpSeq)
    && (forall c: nat, gp: nat :: AtLeaf(c, gp) in s.reports ==> gp + (if s.start.InitNodes? then 1 else 0) <= s.gpSeq)
  }

  ghost predicate Inv(t: Tree, s: State)
    requires WellLinked(t)
  {
    && OneRoot(t) && Narrow(t) && Shaped(t, s)
    && AllNodesOk(t, s)
    && AllLinksOk(t, s)
    && (forall v: nat, gp: nat :: AtNode(v, gp) in s.reports ==> gp == s.gpSeq)
    && SeqOk(t, s) && CpusOk(s)
    && LogOk(s.log) && LastStart(s.log) == s.gpSeq
    && StillOnline(s.log) <= s.online
  }

  lemma InitInv(t: Tree, s: State)
    requires WellLinked(t) && OneRoot(t) && Narrow(t) && Init(t, s)
    ensures Inv(t, s)
  {
  }

  // ---- Completion travels down and up the tree ----

  /** A finished root means every node is finished. */
  lemma {:induction false} FinishedFromRoot(t: Tree, s: State, v: nat)
    requires WellLinked(t) && OneRoot(t) && Shaped(t, s) && AllNodesOk(t, s) && AllLinksOk(t, s) && !s.start.InitNodes?
    requires s.nodes[|t.nodes| - 1].completed == s.gpSeq
    requires IsNode(t, v)
    ensures s.nodes[v].completed == s.gpSeq && s.nodes[v].mask == {}
    decreases |t.cnt| - t.nodes[v].level
  {
    assert NodeOk(t, s, v);
    if !IsRoot(t, v) {
      assert ParentOk(t, v);
      FinishedFromRoot(t, s, t.nodes[v].parent);
      assert LinkOk(t, s, v);
    }
  }

  lemma UnreportedMeansInFlight(t: Tree, s: State, v: nat)
    requires WellLinked(t) && Shaped(t, s) && AllLinksOk(t, s) && !s.start.InitNodes?
    requires IsNode(t, v) && !IsRoot(t, v)
    ensures s.nodes[v].completed == s.gpSeq && Bit(t, v) in s.nodes[t.nodes[v].parent].mask ==> InFlight(s, v) == 1
  {
    assert LinkOk(t, s, v);
  }

  /** With every leaf finished and no report between nodes, every node is finished. */
  lemma {:induction false} FinishedFromLeaves(t: Tree, s: State, u: nat)
    requires WellLinked(t) && OneRoot(t) && Shaped(t, s) && AllNodesOk(t, s) && AllLinksOk(t, s) && !s.start.InitNodes?
    requires forall i: nat :: IsNode(t, i) && IsLeaf(t, i) ==> s.nodes[i].completed == s.gpSeq
    requires forall v: nat :: IsNode(t, v) ==> InFlight(s, v) == 0
    requires IsNode(t, u)
    ensures s.nodes[u].completed == s.gpSeq
    decreases t.nodes[u].level
  {
    assert NodeOk(t, s, u);
    if !IsLeaf(t, u) && s.nodes[u].mask != {} {
      var b: nat :| b in s.nodes[u].mask;
      assert ChildOk(t, u, b);
      var v := Child(t, u, b);
      FinishedFromLeaves(t, s, v);
      UnreportedMeansInFlight(t, s, v);
      assert false;
    }
  }

  // ---- Steps keep the invariant ----

  lemma Quiet(t: Tree, s: State, s': State)
    requires WellLinked(t) && Inv(t, s) && Shaped(t, s')
    requires s'.nodes == s.nodes && s'.gpSeq == s.gpSeq && s'.completedSeq == s.completedSeq && s'.bare == s.bare
    requires s'.start == s.start || (!s'.start.InitNodes? && !s.start.InitNodes?)
    requires forall v: nat :: IsNode(t, v) ==> InFlight(s', v) == InFlight(s, v)
    requires forall v: nat, gp: nat :: AtNode(v, gp) in s'.reports ==> gp == s.gpSeq
    requires LogOk(s'.log) && LastStart(s'.log) == s.gpSeq
    requires StillOnline(s'.log) <= StillOnline(s.log) && QsSince(s'.log) >= QsSince(s.log)
    requires StillOnline(s'.log) <= s'.online && CpusOk(s')
    ensures Inv(t, s')
  {
    hide QsSince, StillOnline, LastStart, LogOk, InFlight;
    forall i: nat | IsNode(t, i) ensures NodeOk(t, s', i) { assert NodeOk(t, s, i); }
    forall v: nat | IsNode(t, v) && !IsRoot(t, v) ensures LinkOk(t, s', v) { assert LinkOk(t, s, v); }
  }

  lemma BeginKeeps(t: Tree, s: State)
    requires WellLinked(t) && Inv(t, s) && Enabled(t, s, Begin)
    ensures Inv(t, Step(t, s, Begin))
  {
    hide QsSince, StillOnline, LastStart, LogOk;
    var s' := Step(t, s, Begin);
    LogAppend(s.log, Started(s.gpSeq + 1, s.online));
    forall v: nat | IsNode(t, v)
      ensures s.nodes[v].completed == s.gpSeq && NodeOk(t, s', v)
      ensures !IsRoot(t, v) ==> InFlight(s, v) == 0 && LinkOk(t, s', v)
    {
      FinishedFromRoot(t, s, v);
      assert NodeOk(t, s, v);
      if !IsRoot(t, v) {
        assert LinkOk(t, s, v);
        FinishedFromRoot(t, s, t.nodes[v].parent);
        assert AtNode(v, s.gpSeq + 1) !in s.reports;
      }
    }
    forall v: nat, gp: nat
      ensures AtNode(v, gp) !in s.reports
    {
      assert AtNode(v, gp) in s.reports ==> ReportOk(t, AtNode(v, gp)) && gp == s.gpSeq && s.reports[AtNode(v, gp)] > 0;
    }
  }

  lemma InitNodeLinks(t: Tree, s: State)
    requires WellLinked(t) && Inv(t, s) && s.start.InitNodes? && s.start.next < |t.nodes|
    requires Shaped(t, Step(t, s, InitNode))
    ensures AllLinksOk(t, Step(t, s, InitNode))
  {
    hide QsSince, StillOnline, LastStart, LogOk, InFlight, NodeOk, AllNodesOk, InitMask, SeqOk;
    var s' := Step(t, s, InitNode);
    forall v: nat | IsNode(t, v) && !IsRoot(t, v)
      ensures LinkOk(t, s', v)
    {
      assert LinkOk(t, s, v);
      InFlightSame(s, s', v);
    }
  }

  /** The mask the start gives a node. */
  lemma InitMaskFacts(t: Tree, s: State, i: nat)
    requires WellLinked(t) && OneRoot(t) && Narrow(t) && IsNode(t, i)
    ensures IsLeaf(t, i) ==>
              forall c: nat :: c in s.online && c < t.cpus && LeafOf(t, c) == i ==> c in InitMask(t, s, i)
    ensures !IsLeaf(t, i) ==> InitMask(t, s, i) == LowBits(NumChildren(t, i)) && 0 in InitMask(t, s, i)
  {
    if IsLeaf(t, i) {
      forall c: nat | c in s.online && c < t.cpus && LeafOf(t, c) == i
        ensures c in InitMask(t, s, i)
      {
        assert LeafOk(t, c);
      }
    }
  }

  lemma InitNodeOk(t: Tree, s: State, j: nat)
    requires WellLinked(t) && Inv(t, s) && s.start.InitNodes? && s.start.next < |t.nodes| && IsNode(t, j)
    ensures var s' := Step(t, s, InitNode); Shaped(t, s') && NodeOk(t, s', j)
  {
    hide QsSince, StillOnline, LastStart, LogOk, AllLinksOk, SeqOk, CpusOk, InitMask, NumChildren, Narrow;
    assert NodeOk(t, s, j);
    InitMaskFacts(t, s, s.start.next);
    hide AllNodesOk, WellLinked;
  }

  lemma InitNodeKeeps(t: Tree, s: State)
    requires WellLinked(t) && Inv(t, s) && s.start.InitNodes? && s.start.next < |t.nodes|
    ensures Inv(t, Step(t, s, InitNode))
  {
    hide QsSince, StillOnline, LastStart, LogOk, InFlight, NodeOk, LinkOk, AllLinksOk, InitMask;
    var s' := Step(t, s, InitNode);
    forall j: nat | IsNode(t, j)
      ensures Shaped(t, s') && NodeOk(t, s', j)
    {
      InitNodeOk(t, s, j);
    }
    InitNodeLinks(t, s);
  }

  lemma InFlightSame(s: State, s': State, v: nat)
    requires s'.reports == s.reports && s'.gpSeq == s.gpSeq
    ensures InFlight(s', v) == InFlight(s, v)
  {
  }

  lemma InitDoneKeeps(t: Tree, s: State)
    requires WellLinked(t) && Inv(t, s) && s.start.InitNodes? && s.start.next == |t.nodes|
    ensures Inv(t, Step(t, s, InitNode))
  {
    hide QsSince, StillOnline, LastStart, LogOk, InFlight;
    var s' := Step(t, s, InitNode);
    forall j: nat | IsNode(t, j) ensures NodeOk(t, s', j) { assert NodeOk(t, s, j); }
    forall v: nat | IsNode(t, v) && !IsRoot(t, v)
      ensures LinkOk(t, s', v)
    {
      assert LinkOk(t, s, v) && NodeOk(t, s, v);
      assert ParentOk(t, v);
      assert NodeOk(t, s, t.nodes[v].parent);
      InFlightSame(s, s', v);
    }
    assert NodeOk(t, s, |t.nodes| - 1);
  }

  // ---- Clearing a bit ----

  /** What holds of s1, the state in which node u, locked, has been cleared down to `mask`. */
  ghost predicate ClearedOk(t: Tree, s: State, s1: State, u: nat, mask: set<nat>)
    requires WellLinked(t) && Shaped(t, s) && IsNode(t, u)
  {
    && Shaped(t, s1)
    && !s.start.InitNodes? && s.nodes[u].completed != s.gpSeq && mask <= s.nodes[u].mask
    && s1 == s.(reports := s1.reports, log := s1.log)
    && LogOk(s1.log) && LastStart(s1.log) == s.gpSeq
    && StillOnline(s1.log) == StillOnline(s.log) && QsSince(s1.log) >= QsSince(s.log)
    && (forall v: nat, gp: nat :: AtNode(v, gp) in s1.reports ==> gp == s.gpSeq)
    && (IsLeaf(t, u) ==> s.nodes[u].mask - mask <= QsSince(s1.log))
    && (forall w: nat :: IsNode(t, w) && !IsRoot(t, w) ==> ChildClearedOk(t, s, s1, u, mask, w))
    && CpusOk(s1)
  }

  ghost predicate ChildClearedOk(t: Tree, s: State, s1: State, u: nat, mask: set<nat>, w: nat)
    requires WellLinked(t) && Shaped(t, s) && IsNode(t, u) && IsNode(t, w)
  {
    if t.nodes[w].parent == u && Bit(t, w) in s.nodes[u].mask && Bit(t, w) !in mask then
      s.nodes[w].completed == s.gpSeq && InFlight(s1, w) == 0
    else
      InFlight(s1, w) == InFlight(s, w)
  }

  lemma ClearNodes(t: Tree, s: State, s1: State, u: nat, mask: set<nat>)
    requires WellLinked(t) && Inv(t, s) && IsNode(t, u) && ClearedOk(t, s, s1, u, mask)
    ensures var n := s.nodes[u].(mask := mask, completed := if mask == {} then s.gpSeq else s.nodes[u].completed);
            var s2 := s1.(nodes := s.nodes[u := n]);
            AllNodesOk(t, if mask == {} && !IsRoot(t, u) then s2.(reports := s1.reports + multiset{Ascending(u)})
                else s2)
  {
    hide QsSince, StillOnline, LastStart, LogOk, InFlight, AllLinksOk, SeqOk;
    var n := s.nodes[u].(mask := mask, completed := if mask == {} then s.gpSeq else s.nodes[u].completed);
    var s2 := s1.(nodes := s.nodes[u := n]);
    var s3 := if mask == {} && !IsRoot(t, u) then s2.(reports := s1.reports + multiset{Ascending(u)}) else s2;
    forall i: nat | IsNode(t, i) ensures NodeOk(t, s3, i) { assert NodeOk(t, s, i); }
  }

  lemma ClearLinks(t: Tree, s: State, s1: State, u: nat, mask: set<nat>)
    requires WellLinked(t) && Inv(t, s) && IsNode(t, u) && ClearedOk(t, s, s1, u, mask)
    ensures var n := s.nodes[u].(mask := mask, completed := if mask == {} then s.gpSeq else s.nodes[u].completed);
            var s2 := s1.(nodes := s.nodes[u := n]);
            AllLinksOk(t, if mask == {} && !IsRoot(t, u) then s2.(reports := s1.reports + multiset{Ascending(u)})
                else s2)
  {
    hide QsSince, StillOnline, LastStart, LogOk, SeqOk, NodeOk, AllNodesOk, CpusOk, Narrow;
    hide NumChildren, LeafOk, ChildOk;
    var n := s.nodes[u].(mask := mask, completed := if mask == {} then s.gpSeq else s.nodes[u].completed);
    var s2 := s1.(nodes := s.nodes[u := n]);
    var s3 := if mask == {} && !IsRoot(t, u) then s2.(reports := s1.reports + multiset{Ascending(u)}) else s2;
    forall w: nat | IsNode(t, w) && !IsRoot(t, w)
      ensures LinkOk(t, s3, w)
    {
      assert LinkOk(t, s, w) && ChildClearedOk(t, s, s1, u, mask, w);
      assert ParentOk(t, w);
      assert InFlight(s3, w) == InFlight(s1, w) + if w == u && mask == {} then 1 else 0;
    }
  }

  /** When the root is finished, every CPU still online has been in rcu_qs. */
  lemma RootFinishedMeansAllQs(t: Tree, s: State)
    requires WellLinked(t) && OneRoot(t) && Shaped(t, s) && AllNodesOk(t, s) && AllLinksOk(t, s) && !s.start.InitNodes?
    requires s.nodes[|t.nodes| - 1].completed == s.gpSeq
    requires StillOnline(s.log) <= s.online
    ensures StillOnline(s.log) <= QsSince(s.log)
  {
    hide QsSince, StillOnline, AllLinksOk;
    forall c: nat | c in StillOnline(s.log)
      ensures c in QsSince(s.log)
    {
      assert LeafOk(t, c);
      FinishedFromRoot(t, s, LeafOf(t, c));
      assert NodeOk(t, s, LeafOf(t, c));
    }
  }

  lemma ClearKeeps(t: Tree, s: State, s1: State, u: nat, mask: set<nat>)
    requires WellLinked(t) && Inv(t, s) && IsNode(t, u) && ClearedOk(t, s, s1, u, mask)
    ensures Inv(t, Clear(t, s1, u, mask, s.gpSeq))
  {
    hide QsSince, StillOnline, LastStart, LogOk, InFlight, NodeOk, LinkOk, ChildClearedOk, AllNodesOk, AllLinksOk;
    ClearNodes(t, s, s1, u, mask);
    ClearLinks(t, s, s1, u, mask);
    var s' := Clear(t, s1, u, mask, s.gpSeq);
    if mask == {} && IsRoot(t, u) {
      var s2 := s1.(nodes := s.nodes[u := s.nodes[u].(mask := mask, completed := s.gpSeq)]);
      RootFinishedMeansAllQs(t, s2);
      LogAppend(s1.log, Completed(s.gpSeq));
      assert AllNodesOk(t, s') by { SameNodes(t, s2, s'); }
      assert AllLinksOk(t, s') by { SameLinks(t, s2, s'); }
    }
  }

  lemma SameNodes(t: Tree, s: State, s': State)
    requires Sized(t) && Shaped(t, s) && AllNodesOk(t, s)
    requires s' == s.(completedSeq := s'.completedSeq, log := s'.log)
    requires StillOnline(s'.log) == StillOnline(s.log) && QsSince(s'.log) == QsSince(s.log)
    ensures Shaped(t, s') && AllNodesOk(t, s')
  {
    forall i: nat | IsNode(t, i) ensures NodeOk(t, s', i) { assert NodeOk(t, s, i); }
  }

  lemma SameLinks(t: Tree, s: State, s': State)
    requires WellLinked(t) && Shaped(t, s) && Shaped(t, s') && AllLinksOk(t, s)
    requires s' == s.(completedSeq := s'.completedSeq, log := s'.log)
    ensures AllLinksOk(t, s')
  {
    forall v: nat | IsNode(t, v) && !IsRoot(t, v) ensures LinkOk(t, s', v) { assert LinkOk(t, s, v); }
  }

  lemma LeafReportIsDue(t: Tree, s: State, c: nat, gp: nat)
    requires WellLinked(t) && Inv(t, s) && Enabled(t, s, LeafReport(c, gp))
    ensures !Stale(s.nodes[LeafOf(t, c)], gp) ==> gp == s.gpSeq && !s.start.InitNodes?
    ensures t.nodes[LeafOf(t, c)].grpStart + WordBit(c % t.fanout) == c
  {
    hide QsSince, StillOnline, LastStart, LogOk, AllLinksOk, LinkOk, SeqOk;
    assert LeafOk(t, c) && NodeOk(t, s, LeafOf(t, c));
  }

  lemma FewerReports(t: Tree, s: State, s1: State)
    requires WellLinked(t) && Inv(t, s)
    requires s1 == s.(reports := s1.reports, log := s1.log) && s1.reports <= s.reports
    ensures Shaped(t, s1) && CpusOk(s1)
    ensures forall v: nat, gp: nat :: AtNode(v, gp) in s1.reports ==> gp == s.gpSeq
  {
    hide QsSince, StillOnline, LastStart, LogOk, AllLinksOk, AllNodesOk, SeqOk, WellLinked;
    assert forall r :: r in s1.reports ==> r in s.reports;
  }

  lemma LeafReportSetup(t: Tree, s: State, s1: State, c: nat, gp: nat)
    requires WellLinked(t) && Inv(t, s) && Enabled(t, s, LeafReport(c, gp))
    requires s1 == s.(reports := s.reports - multiset{AtLeaf(c, gp)}, log := s.log + [InQs(c)])
    ensures Shaped(t, s1) && CpusOk(s1)
    ensures forall v: nat, gp: nat :: AtNode(v, gp) in s1.reports ==> gp == s.gpSeq
    ensures forall v: nat :: InFlight(s1, v) == InFlight(s, v)
    ensures LogOk(s1.log) && LastStart(s1.log) == s.gpSeq
    ensures StillOnline(s1.log) == StillOnline(s.log) && QsSince(s1.log) == QsSince(s.log) + {c}
  {
    hide QsSince, StillOnline, LastStart, LogOk, AllLinksOk, AllNodesOk, SeqOk, CpusOk, WellLinked;
    FewerReports(t, s, s1);
    LogAppend(s.log, InQs(c));
  }

  lemma LeafClearedOk(t: Tree, s: State, s1: State, c: nat)
    requires WellLinked(t) && Inv(t, s) && Enabled(t, s, LeafReport(c, s.gpSeq))
    requires s1 == s.(reports := s.reports - multiset{AtLeaf(c, s.gpSeq)}, log := s.log + [InQs(c)])
    requires !Stale(s.nodes[LeafOf(t, c)], s.gpSeq) && !s.start.InitNodes?
    ensures IsNode(t, LeafOf(t, c)) && ClearedOk(t, s, s1, LeafOf(t, c), s.nodes[LeafOf(t, c)].mask - {c})
  {
    hide QsSince, StillOnline, LastStart, LogOk, AllLinksOk, LinkOk, AllNodesOk, SeqOk, InFlight, CpusOk;
    LeafReportSetup(t, s, s1, c, s.gpSeq);
    var u := LeafOf(t, c);
    assert IsLeaf(t, u);
    var mask := s.nodes[u].mask - {c};
    forall w: nat | IsNode(t, w) && !IsRoot(t, w)
      ensures ChildClearedOk(t, s, s1, u, mask, w)
    {
      assert ParentOk(t, w);
    }
    hide ChildClearedOk, WellLinked;
  }

  lemma LeafReportIdle(t: Tree, s: State, c: nat, gp: nat)
    requires WellLinked(t) && Inv(t, s) && Enabled(t, s, LeafReport(c, gp)) && Stale(s.nodes[LeafOf(t, c)], gp)
    ensures Inv(t, Step(t, s, LeafReport(c, gp)))
  {
    hide QsSince, StillOnline, LastStart, LogOk, LinkOk, AllLinksOk, AllNodesOk, SeqOk, InFlight, CpusOk, LeafOk;
    var s1 := Step(t, s, LeafReport(c, gp));
    LeafReportSetup(t, s, s1, c, gp);
    hide WellLinked;
    Quiet(t, s, s1);
  }

  lemma LeafReportStep(t: Tree, s: State, s1: State, c: nat, gp: nat)
    requires WellLinked(t) && Inv(t, s) && Enabled(t, s, LeafReport(c, gp)) && !Stale(s.nodes[LeafOf(t, c)], gp)
    requires s1 == s.(reports := s.reports - multiset{AtLeaf(c, gp)}, log := s.log + [InQs(c)])
    ensures gp == s.gpSeq && !s.start.InitNodes?
    ensures var u := LeafOf(t, c); Step(t, s, LeafReport(c, gp)) == Clear(t, s1, u, s.nodes[u].mask - {c}, s.gpSeq)
  {
    hide AllNodesOk, AllLinksOk, SeqOk, CpusOk, Clear;
    LeafReportIsDue(t, s, c, gp);
  }

  lemma LeafReportKeeps(t: Tree, s: State, c: nat, gp: nat)
    requires WellLinked(t) && Inv(t, s) && Enabled(t, s, LeafReport(c, gp))
    ensures Inv(t, Step(t, s, LeafReport(c, gp)))
  {
    var u := LeafOf(t, c);
    hide Inv, WellLinked, Step, Clear, ClearedOk;
    if Stale(s.nodes[u], gp) {
      LeafReportIdle(t, s, c, gp);
    } else {
      var s1 := s.(reports := s.reports - multiset{AtLeaf(c, gp)}, log := s.log + [InQs(c)]);
      LeafReportStep(t, s, s1, c, gp);
      LeafClearedOk(t, s, s1, c);
      ClearKeeps(t, s, s1, u, s.nodes[u].mask - {c});
    }
  }

  lemma NodeReportIsDue(t: Tree, s: State, v: nat, gp: nat)
    requires WellLinked(t) && Inv(t, s) && Enabled(t, s, NodeReport(v, gp))
    ensures gp == s.gpSeq && !s.start.InitNodes? && InFlight(s, v) == s.reports[AtNode(v, gp)] == 1
    ensures s.nodes[v].completed == s.gpSeq && !Stale(s.nodes[t.nodes[v].parent], gp)
    ensures Bit(t, v) in s.nodes[t.nodes[v].parent].mask
  {
    hide QsSince, StillOnline, LastStart, LogOk;
    assert LinkOk(t, s, v);
    assert NodeOk(t, s, t.nodes[v].parent);
  }

  lemma OtherChildrenUntouched(t: Tree, s: State, s1: State, v: nat, w: nat)
    requires WellLinked(t) && Shaped(t, s) && IsNode(t, v) && !IsRoot(t, v) && ParentOk(t, v) && IsNode(t, w)
             && !IsRoot(t, w)
    requires Bit(t, v) in s.nodes[t.nodes[v].parent].mask
    requires s.nodes[v].completed == s.gpSeq && InFlight(s, v) == s.reports[AtNode(v, s.gpSeq)] == 1
    requires s1 == s.(reports := s.reports - multiset{AtNode(v, s.gpSeq)})
    ensures var u := t.nodes[v].parent;
            ChildClearedOk(t, s, s1, u, s.nodes[u].mask - {Bit(t, v)}, w)
  {
    assert ParentOk(t, w);
  }

  lemma NodeClearedOk(t: Tree, s: State, s1: State, v: nat)
    requires WellLinked(t) && Inv(t, s) && Enabled(t, s, NodeReport(v, s.gpSeq))
    requires s1 == s.(reports := s.reports - multiset{AtNode(v, s.gpSeq)})
    ensures var u: nat := t.nodes[v].parent; ClearedOk(t, s, s1, u, s.nodes[u].mask - {Bit(t, v)})
  {
    hide QsSince, StillOnline, LastStart, LogOk, AllLinksOk, LinkOk, AllNodesOk, SeqOk, InFlight, ChildClearedOk;
    NodeReportIsDue(t, s, v, s.gpSeq);
    FewerReports(t, s, s1);
    var u: nat := t.nodes[v].parent;
    assert !IsLeaf(t, u);
    hide WellLinked, CpusOk, Narrow;
    forall w: nat | IsNode(t, w) && !IsRoot(t, w)
      ensures ChildClearedOk(t, s, s1, u, s.nodes[u].mask - {Bit(t, v)}, w)
    {
      OtherChildrenUntouched(t, s, s1, v, w);
    }
  }

  lemma NarrowBit(t: Tree, v: nat)
    requires WellLinked(t) && OneRoot(t) && Narrow(t) && IsNode(t, v) && !IsRoot(t, v)
    ensures WordBit(Bit(t, v)) == Bit(t, v)
  {
    assert ParentOk(t, v);
  }

  lemma NodeReportStep(t: Tree, s: State, s1: State, v: nat, gp: nat)
    requires WellLinked(t) && Inv(t, s) && Enabled(t, s, NodeReport(v, gp))
    requires s1 == s.(reports := s.reports - multiset{AtNode(v, gp)})
    ensures gp == s.gpSeq
    ensures var u: nat := t.nodes[v].parent;
            Step(t, s, NodeReport(v, gp)) == Clear(t, s1, u, s.nodes[u].mask - {Bit(t, v)}, s.gpSeq)
  {
    hide AllNodesOk, AllLinksOk, SeqOk, CpusOk, Clear, LogOk, LinkOk, InFlight, Narrow, WordBit, LeafOk, NumChildren;
    NodeReportIsDue(t, s, v, gp);
    NarrowBit(t, v);
  }

  lemma NodeReportKeeps(t: Tree, s: State, v: nat, gp: nat)
    requires WellLinked(t) && Inv(t, s) && Enabled(t, s, NodeReport(v, gp))
    ensures Inv(t, Step(t, s, NodeReport(v, gp)))
  {
    var u: nat := t.nodes[v].parent;
    hide Inv, WellLinked, Step, Clear, ClearedOk;
    var s1 := s.(reports := s.reports - multiset{AtNode(v, gp)});
    NodeReportStep(t, s, s1, v, gp);
    NodeClearedOk(t, s, s1, v);
    ClearKeeps(t, s, s1, u, s.nodes[u].mask - {Bit(t, v)});
  }

  lemma ReadParentKeeps(t: Tree, s: State, v: nat)
    requires WellLinked(t) && Inv(t, s) && Enabled(t, s, ReadParentGp(v))
    ensures Inv(t, Step(t, s, ReadParentGp(v)))
  {
    hide QsSince, StillOnline, LastStart, LogOk;
    assert LinkOk(t, s, v);
    assert NodeOk(t, s, t.nodes[v].parent);
    var s' := Step(t, s, ReadParentGp(v));
    assert s'.reports == s.reports - multiset{Ascending(v)} + multiset{AtNode(v, s.gpSeq)};
    assert forall w: nat :: InFlight(s', w) == InFlight(s, w);
    hide NodeOk, LinkOk, InFlight, WellLinked, AllNodesOk, AllLinksOk, SeqOk, ParentOk;
    Quiet(t, s, s');
  }

  lemma CpuStepKeeps(t: Tree, s: State, a: Action)
    requires WellLinked(t) && Inv(t, s) && Enabled(t, s, a)
    requires a.MarkCpu? || a.EndStart? || a.Enqueue? || a.GoOnline?
    ensures Inv(t, Step(t, s, a))
  {
    hide QsSince, StillOnline, LastStart, LogOk, LinkOk, NodeOk, AllLinksOk, AllNodesOk, SeqOk, WellLinked;
    Quiet(t, s, Step(t, s, a));
  }

  lemma QsStepKeeps(t: Tree, s: State, a: Action)
    requires WellLinked(t) && Inv(t, s) && Enabled(t, s, a)
    requires a.Notice? || a.ReadGp? || a.GoOffline?
    ensures Inv(t, Step(t, s, a))
  {
    hide QsSince, StillOnline, LastStart, LogOk, LinkOk, NodeOk, AllLinksOk, AllNodesOk, SeqOk, WellLinked, LeafOk;
    LogAppend(s.log, if a.GoOffline? then Offlined(a.cpu) else InQs(a.cpu));
    var s' := Step(t, s, a);
    assert forall v: nat :: InFlight(s', v) == InFlight(s, v);
    hide InFlight;
    Quiet(t, s, s');
  }

  /** Every enabled step keeps the invariant. */
  lemma StepKeeps(t: Tree, s: State, a: Action)
    requires WellLinked(t) && Inv(t, s) && Enabled(t, s, a)
    ensures Inv(t, Step(t, s, a))
  {
    hide Inv, Step, LeafOk, ParentOk, WellLinked;
    match a {
      case Begin => BeginKeeps(t, s);
      case InitNode => InitKeeps(t, s);
      case LeafReport(c, gp) => LeafReportKeeps(t, s, c, gp);
      case NodeReport(v, gp) => NodeReportKeeps(t, s, v, gp);
      case ReadParentGp(v) => ReadParentKeeps(t, s, v);
      case MarkCpu => CpuStepKeeps(t, s, a);
      case EndStart => CpuStepKeeps(t, s, a);
      case Enqueue(_) => CpuStepKeeps(t, s, a);
      case GoOnline(_) => CpuStepKeeps(t, s, a);
      case _ => QsStepKeeps(t, s, a);
    }
  }

  lemma InitKeeps(t: Tree, s: State)
    requires WellLinked(t) && Inv(t, s) && s.start.InitNodes?
    ensures Inv(t, Step(t, s, InitNode))
  {
    hide AllLinksOk, AllNodesOk, Step;
    if s.start.next < |t.nodes| { InitNodeKeeps(t, s); } else { InitDoneKeeps(t, s); }
  }

  // ---- Runs ----

  /** The actions lead through the given states, each enabled when taken. */
  ghost predicate Path(t: Tree, states: seq<State>, acts: seq<Action>)
    requires WellLinked(t)
  {
    && |states| == |acts| + 1
    && (forall i :: 0 <= i < |acts| ==>
          Shaped(t, states[i]) && Enabled(t, states[i], acts[i]) && states[i + 1] == Step(t, states[i], acts[i]))
  }

  /** Two paths, one after the other. */
  lemma PathJoined(t: Tree, a: seq<State>, f: seq<Action>, b: seq<State>, g: seq<Action>)
    requires WellLinked(t) && Path(t, a, f) && Path(t, b, g) && a[|f|] == b[0]
    ensures Path(t, a + b[1..], f + g) && (a + b[1..])[|f + g|] == b[|g|] && (a + b[1..])[0] == a[0]
    ensures forall k :: 0 <= k <= |f| ==> (a + b[1..])[k] == a[k]
  {
    hide WellLinked, Step, Enabled, Shaped;
    var S, A := a + b[1..], f + g;
    forall i | 0 <= i < |A|
      ensures Shaped(t, S[i]) && Enabled(t, S[i], A[i]) && S[i + 1] == Step(t, S[i], A[i])
    {
      if i >= |f| { assert S[i] == b[i - |f|] && S[i + 1] == b[i - |f| + 1] && A[i] == g[i - |f|]; }
    }
  }

  ghost predicate Run(t: Tree, states: seq<State>, acts: seq<Action>)
    requires WellLinked(t)
  {
    Path(t, states, acts) && Init(t, states[0])
  }

  lemma {:induction false} PathKeeps(t: Tree, states: seq<State>, acts: seq<Action>, i: nat)
    requires WellLinked(t) && Path(t, states, acts) && Inv(t, states[0]) && i < |states|
    ensures Inv(t, states[i])
  {
    hide Inv, Step, Enabled, WellLinked;
    if i > 0 {
      PathKeeps(t, states, acts, i - 1);
      StepKeeps(t, states[i - 1], acts[i - 1]);
    }
  }

  lemma RunKeeps(t: Tree, states: seq<State>, acts: seq<Action>, i: nat)
    requires WellLinked(t) && OneRoot(t) && Narrow(t) && Run(t, states, acts) && i < |states|
    ensures Inv(t, states[i])
  {
    hide Inv, Step, Enabled, WellLinked;
    InitInv(t, states[0]);
    PathKeeps(t, states, acts, i);
  }

  /** The action is a step of the given CPU's rcu_qs call, up to and including the report to its leaf. */
  predicate QsStep(a: Action, c: nat)
  {
    a == Notice(c) || a == ReadGp(c) || (a.LeafReport? && a.cpu == c)
  }

  /** How a step from s to s' moves the history on. */
  ghost predicate HistoryMoves(s: State, s': State, a: Action)
  {
    && s'.gpSeq == (if a.Begin? then s.gpSeq + 1 else s.gpSeq)
    && StillOnline(s'.log) == (if a.Begin? then s.online else if a.GoOffline? then StillOnline(s.log) - {a.cpu}
       else StillOnline(s.log))
    && (forall c: nat :: c in QsSince(s'.log) ==> !a.Begin? && (c in QsSince(s.log) || QsStep(a, c)))
    && (s'.completedSeq != s.completedSeq ==> s'.completedSeq == s'.gpSeq >= 1)
  }

  lemma LeafReportHistory(t: Tree, s: State, a: Action)
    requires WellLinked(t) && Inv(t, s) && Enabled(t, s, a) && a.LeafReport?
    ensures HistoryMoves(s, Step(t, s, a), a)
  {
    hide QsSince, StillOnline, LastStart, LogOk, WellLinked, AllLinksOk, AllNodesOk, CpusOk;
    LeafReportIsDue(t, s, a.cpu, a.gp);
    HistoryOf(s.log, InQs(a.cpu));
    HistoryOf(s.log + [InQs(a.cpu)], Completed(s.gpSeq));
  }

  lemma NodeReportHistory(t: Tree, s: State, a: Action)
    requires WellLinked(t) && Inv(t, s) && Enabled(t, s, a) && a.NodeReport?
    ensures HistoryMoves(s, Step(t, s, a), a)
  {
    hide QsSince, StillOnline, LastStart, LogOk, WellLinked, AllLinksOk, AllNodesOk, CpusOk;
    NodeReportIsDue(t, s, a.child, a.gp);
    HistoryOf(s.log, Completed(s.gpSeq));
  }

  lemma StartHistory(t: Tree, s: State, a: Action)
    requires WellLinked(t) && Inv(t, s) && Enabled(t, s, a) && (a.Begin? || a.GoOffline?)
    ensures HistoryMoves(s, Step(t, s, a), a)
  {
    hide QsSince, StillOnline, LastStart, LogOk, WellLinked, AllLinksOk, AllNodesOk, CpusOk, Inv;
    if a.Begin? {
      HistoryOf(s.log, Started(s.gpSeq + 1, s.online));
    } else {
      HistoryOf(s.log, Offlined(a.cpu));
    }
  }

  lemma PlainHistory(t: Tree, s: State, a: Action)
    requires WellLinked(t) && Inv(t, s) && Enabled(t, s, a)
    requires !a.LeafReport? && !a.NodeReport? && !a.Begin? && !a.GoOffline?
    ensures HistoryMoves(s, Step(t, s, a), a)
  {
    hide QsSince, StillOnline, LastStart, LogOk, WellLinked, AllLinksOk, AllNodesOk, CpusOk, Inv;
    if a.Notice? || a.ReadGp? {
      HistoryOf(s.log, InQs(a.cpu));
    }
  }

  lemma StepHistory(t: Tree, s: State, a: Action)
    requires WellLinked(t) && Inv(t, s) && Enabled(t, s, a)
    ensures HistoryMoves(s, Step(t, s, a), a)
  {
    hide HistoryMoves, Step, WellLinked, AllLinksOk, AllNodesOk, CpusOk;
    if a.LeafReport? {
      LeafReportHistory(t, s, a);
    } else if a.NodeReport? {
      NodeReportHistory(t, s, a);
    } else if a.Begin? || a.GoOffline? {
      StartHistory(t, s, a);
    } else {
      PlainHistory(t, s, a);
    }
  }

  lemma HistoryOf(log: seq<Event>, e: Event)
    ensures StillOnline(log + [e]) ==
            if e.Started? then e.online else if e.Offlined? then StillOnline(log) - {e.cpu} else StillOnline(log)
    ensures QsSince(log + [e]) ==
            if e.Started? then {} else if e.InQs? then QsSince(log) + {e.cpu} else QsSince(log)
  {
    assert (log + [e])[..|log|] == log;
  }

  /** CPU c, online when step m began the grace period, has not gone offline before step n. */
  ghost predicate OnlineThroughout(states: seq<State>, acts: seq<Action>, m: nat, n: nat, c: nat)
    requires m < n <= |acts| && m < |states|
  {
    c in states[m].online && (forall k :: m < k < n ==> acts[k] != GoOffline(c))
  }

  ghost predicate PassedQs(acts: seq<Action>, m: nat, n: nat, c: nat)
    requires m < n <= |acts|
  {
    exists k :: m < k < n && QsStep(acts[k], c)
  }

  /** The step that began the current grace period, and what the history says since. */
  lemma {:induction false} SinceBegin(t: Tree, states: seq<State>, acts: seq<Action>, n: nat) returns (m: nat)
    requires WellLinked(t) && OneRoot(t) && Narrow(t) && Run(t, states, acts) && n < |states| && states[n].gpSeq >= 1
    ensures m < n && acts[m].Begin? && states[m + 1].gpSeq == states[n].gpSeq
    ensures forall k :: m < k < n ==> !acts[k].Begin?
    ensures forall c: nat :: OnlineThroughout(states, acts, m, n, c) ==> c in StillOnline(states[n].log)
    ensures forall c: nat :: c in QsSince(states[n].log) ==> PassedQs(acts, m, n, c)
  {
    hide Inv, Step, Enabled, WellLinked, StillOnline, QsSince;
    var s, a := states[n - 1], acts[n - 1];
    RunKeeps(t, states, acts, n - 1);
    StepHistory(t, s, a);
    if a.Begin? {
      m := n - 1;
    } else {
      m := SinceBegin(t, states, acts, n - 1);
      forall c: nat | OnlineThroughout(states, acts, m, n, c)
        ensures c in StillOnline(states[n].log)
      {
        assert OnlineThroughout(states, acts, m, n - 1, c);
        assert acts[n - 1] != GoOffline(c);
      }
      forall c: nat | c in QsSince(states[n].log)
        ensures PassedQs(acts, m, n, c)
      {
        if c in QsSince(s.log) {
          var k :| m < k < n - 1 && QsStep(acts[k], c);
          assert QsStep(acts[k], c);
        } else {
          assert QsStep(acts[n - 1], c);
        }
      }
    }
  }

  /**
    The guarantee of a grace period, over every interleaving: when a step makes completed_seq
    become g, some earlier step began g, and every CPU that was online then and has stayed
    online has executed a step of rcu_qs since.
   */
  lemma GracePeriodGuarantee(t: Tree, states: seq<State>, acts: seq<Action>, n: nat) returns (m: nat)
    requires WellLinked(t) && OneRoot(t) && Narrow(t) && Run(t, states, acts) && 0 < n < |states|
    requires states[n].completedSeq != states[n - 1].completedSeq
    ensures m < n && acts[m].Begin? && states[m + 1].gpSeq == states[n].completedSeq
    ensures forall k :: m < k < n ==> !acts[k].Begin?
    ensures forall c: nat :: OnlineThroughout(states, acts, m, n, c) ==> PassedQs(acts, m, n, c)
  {
    hide OnlineThroughout, PassedQs, QsSince, StillOnline, Inv, WellLinked, Step, Enabled;
    var s' := states[n];
    RunKeeps(t, states, acts, n - 1);
    RunKeeps(t, states, acts, n);
    StepHistory(t, states[n - 1], acts[n - 1]);
    SequenceFacts(t, s');
    m := SinceBegin(t, states, acts, n);
    forall c: nat | OnlineThroughout(states, acts, m, n, c)
      ensures PassedQs(acts, m, n, c)
    {
      assert c in StillOnline(s'.log);
    }
  }

  lemma SequenceFacts(t: Tree, s: State)
    requires WellLinked(t) && Inv(t, s) && s.completedSeq == s.gpSeq
    ensures !s.start.InitNodes? && StillOnline(s.log) <= QsSince(s.log)
  {
    RootFinishedMeansAllQs(t, s);
  }

  // ---- No report is lost ----

  /** No report is between a finished node and its parent. */
  ghost predicate NoneClimbing(s: State)
  {
    forall r :: r in s.reports ==> !r.Ascending? && !r.AtNode?
  }

  ghost predicate LeavesFinished(t: Tree, s: State)
    requires Shaped(t, s)
  {
    forall i: nat :: IsNode(t, i) && IsLeaf(t, i) ==> s.nodes[i].completed == s.gpSeq
  }

  /** With no report climbing, the grace period is over exactly when every leaf is finished. */
  lemma CompleteIffLeavesFinished(t: Tree, s: State)
    requires WellLinked(t) && Inv(t, s) && !s.start.InitNodes? && NoneClimbing(s)
    ensures s.completedSeq == s.gpSeq <==> LeavesFinished(t, s)
  {
    if s.completedSeq == s.gpSeq {
      forall i: nat | IsNode(t, i) && IsLeaf(t, i)
        ensures s.nodes[i].completed == s.gpSeq
      {
        FinishedFromRoot(t, s, i);
      }
    }
    if LeavesFinished(t, s) {
      FinishedFromLeaves(t, s, |t.nodes| - 1);
    }
  }

  /**
    If the start found an online CPU under every leaf, no report is lost: once all leaf bits
    are clear and no report is climbing, the grace period has been completed.
   */
  lemma NoReportLost(t: Tree, s: State)
    requires WellLinked(t) && Inv(t, s) && !s.start.InitNodes? && NoneClimbing(s) && !s.bare
    requires forall i: nat :: IsNode(t, i) && IsLeaf(t, i) ==> s.nodes[i].mask == {}
    ensures s.completedSeq == s.gpSeq
  {
    forall i: nat | IsNode(t, i) && IsLeaf(t, i) ensures s.nodes[i].completed == s.gpSeq { assert NodeOk(t, s, i); }
    hide NodeOk;
    CompleteIffLeavesFinished(t, s);
  }
}
