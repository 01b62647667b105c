/**
  Two CPUs under one node, and a grace period that completes without CPU 1 entering rcu_qs after its start:
  a call of CPU 1 noticed the grace period before and reads its sequence number only after the next start.
 */
module RcuWitness {
  import opened RcuTopology
  import opened RcuTree
  import opened RcuEntry
  import opened RcuProgress

  function Pair(): Tree
  {
    Tree(2, 2, [1], [0], [Node(0, -1, 0, 1)])
  }

  lemma PairOk()
    ensures Built(Pair()) && WellLinked(Pair()) && Narrow(Pair())
  {
    var t := Pair();
    assert LevelCounts(2, 2, [1]) && Offset([1], 0) == 0 && Offset([1], 1) == 1;
    assert PlacedRight(2, 2, [1], [0], t.nodes[0], 0);
    BuiltIsWellLinked(t);
    NarrowIff(t);
  }

  /** The state of the pair, history aside. */
  predicate Is(s: State, gp: nat, done: nat, n: NodeState, a: CpuState, b: CpuState, online: set<nat>, start: Start,
      reports: multiset<Report>)
  {
    && s.gpSeq == gp && s.completedSeq == done && s.nodes == [n] && s.cpus == [a, b] && s.online == online
       && s.start == start
    && s.reports == reports
  }

  const STARTING: seq<Action> := [Begin, InitNode, InitNode] + [MarkCpu, MarkCpu, EndStart]

  /** A grace period begins: the node is set up. */
  lemma SetsUp(t: Tree, s: State, g: nat, a: CpuState, b: CpuState, n: NodeState, online: set<nat>, r: multiset<Report>)
    returns (states: seq<State>)
    requires t == Pair() && WellLinked(t) && Shaped(t, s) && Is(s, g, g, n, a, b, online, Idle, r)
    ensures Path(t, states, [Begin, InitNode, InitNode]) && states[0] == s && Shaped(t, states[3])
    ensures Is(states[3], g + 1, g, NodeState(g + 1, g, online), a, b, online, MarkCpus(0), r)
  {
    hide WellLinked, ReportOk, LeafOk, ParentOk;
    var s1 := Step(t, s, Begin);
    assert InitMask(t, s1, 0) == online;
    var s2 := Step(t, s1, InitNode);
    var s3 := Step(t, s2, InitNode);
    states := [s, s1, s2, s3];
  }

  /** The online CPUs are told. */
  lemma Marks(t: Tree, s: State, g: nat, a: CpuState, b: CpuState, n: NodeState, online: set<nat>, r: multiset<Report>)
    returns (states: seq<State>)
    requires t == Pair() && WellLinked(t) && Shaped(t, s) && Is(s, g + 1, g, n, a, b, online, MarkCpus(0), r)
             && 0 in online
    ensures Path(t, states, [MarkCpu, MarkCpu, EndStart]) && states[0] == s && Shaped(t, states[3])
    ensures Is(states[3], g + 1, g, n, CpuState(g + 1, true), if 1 in online then CpuState(g + 1, true)
            else b, online, Idle, r)
  {
    hide WellLinked, ReportOk, LeafOk, ParentOk;
    var s1 := Step(t, s, MarkCpu);
    var s2 := Step(t, s1, MarkCpu);
    var s3 := Step(t, s2, EndStart);
    states := [s, s1, s2, s3];
  }

  lemma Starts(t: Tree, s: State, g: nat, a: CpuState, b: CpuState, n: NodeState, online: set<nat>, r: multiset<Report>)
    returns (states: seq<State>)
    requires t == Pair() && WellLinked(t) && Shaped(t, s) && Is(s, g, g, n, a, b, online, Idle, r) && 0 in online
    ensures Path(t, states, STARTING) && states[0] == s && Shaped(t, states[6])
    ensures Is(states[6], g + 1, g, NodeState(g + 1, g, online), CpuState(g + 1, true),
               if 1 in online then CpuState(g + 1, true) else b, online, Idle, r)
  {
    hide WellLinked, Shaped, Step, Enabled;
    var x := SetsUp(t, s, g, a, b, n, online, r);
    var y := Marks(t, x[3], g, a, b, NodeState(g + 1, g, online), online, r);
    PathJoined(t, x, [Begin, InitNode, InitNode], y, [MarkCpu, MarkCpu, EndStart]);
    states := x + y[1..];
  }

  /** CPU 1 comes online, queues a callback and notices the grace period. */
  lemma SecondCpu(t: Tree, s: State) returns (states: seq<State>)
    requires t == Pair() && WellLinked(t) && Shaped(t, s)
    requires Is(s, 1, 0, NodeState(1, 0, {0}), CpuState(1, true), CpuState(0, false), {0}, Idle, multiset{})
    ensures Path(t, states, [GoOnline(1), Enqueue(1), Notice(1)]) && states[0] == s && Shaped(t, states[3])
    ensures Is(states[3], 1, 0, NodeState(1, 0, {0}), CpuState(1, true), CpuState(1, false), {0, 1}, Idle,
            multiset{Noticed(1)})
  {
    assert LeafOk(t, 1);
    hide WellLinked, LeafOk;
    var s1 := Step(t, s, GoOnline(1));
    var s2 := Step(t, s1, Enqueue(1));
    var s3 := Step(t, s2, Notice(1));
    states := [s, s1, s2, s3];
  }

  /** CPU 0 enters rcu_qs. */
  lemma FirstCpuEnters(t: Tree, s: State, g: nat, b: CpuState, r: multiset<Report>) returns (states: seq<State>)
    requires t == Pair() && WellLinked(t) && Shaped(t, s) && g > 0
    requires Is(s, g, g - 1, NodeState(g, g - 1, {0}), CpuState(g, true), b, {0, 1}, Idle, r)
    ensures Path(t, states, [Notice(0), ReadGp(0)]) && states[0] == s && Shaped(t, states[2])
    ensures Is(states[2], g, g - 1, NodeState(g, g - 1, {0}), CpuState(g, false), b, {0, 1}, Idle,
            r + multiset{AtLeaf(0, g)})
  {
    assert LeafOk(t, 0);
    hide WellLinked, LeafOk;
    var s1 := Step(t, s, Notice(0));
    var s2 := Step(t, s1, ReadGp(0));
    assert s2.reports == r + multiset{AtLeaf(0, g)};
    states := [s, s1, s2];
  }

  /** CPU 0's report is the last one. */
  lemma LastReport(t: Tree, s: State, g: nat, b: CpuState, r: multiset<Report>) returns (states: seq<State>)
    requires t == Pair() && WellLinked(t) && Shaped(t, s) && g > 0
    requires Is(s, g, g - 1, NodeState(g, g - 1, {0}), CpuState(g, false), b, {0, 1}, Idle, r + multiset{AtLeaf(0, g)})
    ensures Path(t, states, [LeafReport(0, g)]) && states[0] == s && Shaped(t, states[1])
    ensures Is(states[1], g, g, NodeState(g, g, {}), CpuState(g, false), b, {0, 1}, Idle, r)
  {
    assert LeafOk(t, 0);
    hide WellLinked, LeafOk;
    assert s.nodes[0].mask - {0} == {};
    var s1 := Step(t, s, LeafReport(0, g));
    assert s1.reports == r;
    states := [s, s1];
  }

  /** CPU 1's old call reads the new sequence number and reports for it. */
  lemma LateReport(t: Tree, s: State) returns (states: seq<State>)
    requires t == Pair() && WellLinked(t) && Shaped(t, s)
    requires Is(s, 2, 1, NodeState(2, 1, {0, 1}), CpuState(2, true), CpuState(2, true), {0, 1}, Idle,
             multiset{Noticed(1)})
    ensures Path(t, states, [ReadGp(1), LeafReport(1, 2)]) && states[0] == s && Shaped(t, states[2])
    ensures Is(states[2], 2, 1, NodeState(2, 1, {0}), CpuState(2, true), CpuState(2, true), {0, 1}, Idle, multiset{})
  {
    assert LeafOk(t, 1);
    hide WellLinked, LeafOk;
    var s1 := Step(t, s, ReadGp(1));
    assert s1.reports == multiset{AtLeaf(1, 2)};
    assert s1.nodes[0].mask - {1} == {0};
    var s2 := Step(t, s1, LeafReport(1, 2));
    assert s2.reports == multiset{};
    states := [s, s1, s2];
  }

  const FIRST_PERIOD: seq<Action> :=
    STARTING + [GoOnline(1), Enqueue(1), Notice(1)] + [Notice(0), ReadGp(0)] + [LeafReport(0, 1)]

  const SECOND_PERIOD: seq<Action> :=
    STARTING + [ReadGp(1), LeafReport(1, 2)] + [Notice(0), ReadGp(0)] + [LeafReport(0, 2)]

  lemma FirstPeriod(t: Tree) returns (states: seq<State>)
    requires t == Pair() && WellLinked(t)
    ensures Run(t, states, FIRST_PERIOD) && Shaped(t, states[12])
    ensures Is(states[12], 1, 1, NodeState(1, 1, {}), CpuState(1, false), CpuState(1, false), {0, 1}, Idle,
            multiset{Noticed(1)})
  {
    hide WellLinked, Shaped, Step, Enabled;
    var s0 := State(0, 0, [NodeState(0, 0, {})], [CpuState(0, false), CpuState(0, false)], {0}, Idle, multiset{}, false,
        []);
    PairShaped(t, s0);
    var a := Starts(t, s0, 0, CpuState(0, false), CpuState(0, false), NodeState(0, 0, {}), {0}, multiset{});
    var b := SecondCpu(t, a[6]);
    PathJoined(t, a, STARTING, b, [GoOnline(1), Enqueue(1), Notice(1)]);
    var ab := a + b[1..];
    var c := FirstCpuEnters(t, b[3], 1, CpuState(1, false), multiset{Noticed(1)});
    PathJoined(t, ab, STARTING + [GoOnline(1), Enqueue(1), Notice(1)], c, [Notice(0), ReadGp(0)]);
    var abc := ab + c[1..];
    var d := LastReport(t, c[2], 1, CpuState(1, false), multiset{Noticed(1)});
    PathJoined(t, abc, STARTING + [GoOnline(1), Enqueue(1), Notice(1)] + [Notice(0), ReadGp(0)], d, [LeafReport(0, 1)]);
    states := abc + d[1..];
  }

  lemma PairShaped(t: Tree, s: State)
    requires t == Pair() && s.reports == multiset{} && s.online <= {0, 1} && |s.nodes| == 1 && |s.cpus| == 2
             && s.start.Idle?
    ensures Shaped(t, s)
  {
  }

  lemma SecondPeriod(t: Tree, s: State) returns (states: seq<State>)
    requires t == Pair() && WellLinked(t) && Shaped(t, s)
    requires Is(s, 1, 1, NodeState(1, 1, {}), CpuState(1, false), CpuState(1, false), {0, 1}, Idle,
             multiset{Noticed(1)})
    ensures Path(t, states, SECOND_PERIOD) && states[0] == s && states[11].gpSeq == states[11].completedSeq == 2
  {
    hide WellLinked, Shaped, Step, Enabled;
    var a := Starts(t, s, 1, CpuState(1, false), CpuState(1, false), NodeState(1, 1, {}), {0, 1}, multiset{Noticed(1)});
    var b := LateReport(t, a[6]);
    PathJoined(t, a, STARTING, b, [ReadGp(1), LeafReport(1, 2)]);
    var ab := a + b[1..];
    var c := FirstCpuEnters(t, b[2], 2, CpuState(2, true), multiset{});
    PathJoined(t, ab, STARTING + [ReadGp(1), LeafReport(1, 2)], c, [Notice(0), ReadGp(0)]);
    var abc := ab + c[1..];
    var d := LastReport(t, c[2], 2, CpuState(2, true), multiset{});
    PathJoined(t, abc, STARTING + [ReadGp(1), LeafReport(1, 2)] + [Notice(0), ReadGp(0)], d, [LeafReport(0, 2)]);
    states := abc + d[1..];
  }

  /** The second grace period of this run completes, with CPU 1 online throughout, but without CPU 1 entering rcu_qs. */
  lemma EntryMissed() returns (states: seq<State>)
    ensures WellLinked(Pair()) && Run(Pair(), states, FIRST_PERIOD + SECOND_PERIOD)
    ensures var acts := FIRST_PERIOD + SECOND_PERIOD;
            && acts[12].Begin? && |acts| == 23 && states[23].completedSeq == states[23].gpSeq == 2
            && OnlineThroughout(states, acts, 12, 23, 1) && !Entered(acts, 12, 23, 1)
  {
    PairOk();
    hide WellLinked, Shaped, Step, Enabled;
    var a := FirstPeriod(Pair());
    var b := SecondPeriod(Pair(), a[12]);
    PathJoined(Pair(), a, FIRST_PERIOD, b, SECOND_PERIOD);
    states := a + b[1..];
  }
}
