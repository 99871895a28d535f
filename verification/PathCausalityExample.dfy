/**
  A run on which paths show what led to nothing: a thread wakes another while it is recorded as waiting itself, and a
  packet ends its wait later. The path of the woken thread shows that packet on its way, beyond the window's end.
 */
module PathCausalityExample {
  import opened Common
  import opened CriticalGraphs
  import opened PathSpec
  import opened PathCoverage
  import opened PathCausality
  import opened PathExample
  import opened CriticalBlockSpec
  import opened CriticalBlockInvariant
  import opened CriticalBlockRun
  import opened CriticalBlockPaths
  import opened CriticalBlockExamples

  // ----- The handlers on known nodes

  /** What cutting a thread after its last node comes to. */
  function Cut(b: Block, tid: ThreadId, last: NodeId): Block
    requires last in b.g.nodes && tid in b.g.threads && tid in b.lastType
  {
    var nodes := b.g.nodes[last := b.g.nodes[last].(outH := Some(b.nextEdge))]
                 [b.nextNode := Node(b.now, tid, None, None, None, Some(b.nextEdge))];
    b.(g := Graph(nodes, b.g.threads[tid := b.g.threads[tid] + [b.nextNode]],
                  b.g.edges[b.nextEdge := Edge(b.lastType[tid], last, b.nextNode)]),
       nextNode := b.nextNode + 1, nextEdge := b.nextEdge + 1)
  }

  /** What joining two nodes by a wake-up comes to. */
  function Join(b: Block, from: NodeId, to: NodeId): Block
    requires from in b.g.nodes && to in b.g.nodes
  {
    var nodes := b.g.nodes[from := b.g.nodes[from].(outV := Some(b.nextEdge))]
                 [to := b.g.nodes[to].(inV := Some(b.nextEdge))];
    b.(g := Graph(nodes, b.g.threads, b.g.edges[b.nextEdge := Edge(Vertical, from, to)]), nextEdge := b.nextEdge + 1)
  }

  /** What a new node comes to. */
  function Add(b: Block, tid: ThreadId): Block {
    b.(g := b.g.AddNode(b.nextNode, tid, b.now), nextNode := b.nextNode + 1)
  }

  lemma CutIs(b: Block, tid: ThreadId, last: NodeId)
    requires b.Closed() && last in b.g.nodes && tid in b.g.threads && tid in b.lastType
    requires b.g.LastNode(tid) == Some(last) && b.nextNode !in b.g.nodes
    ensures b.Cuttable(tid) && b.CutThread(tid) == Cut(b, tid, last)
  {
    hide Block.Closed;
    assert b.CutThread(tid).g.nodes == Cut(b, tid, last).g.nodes;
  }

  lemma JoinIs(b: Block, from: NodeId, to: NodeId)
    requires from in b.g.nodes && to in b.g.nodes && from != to
    ensures b.NewEdge(Vertical, OutVertical, from, to) == Join(b, from, to)
  {
    assert b.NewEdge(Vertical, OutVertical, from, to).g.nodes == Join(b, from, to).g.nodes;
  }

  lemma FirstStatus(b: Block, tid: ThreadId, status: Status)
    requires b.Closed() && tid !in b.g.threads && tid !in b.lastType
    ensures b.Handle(ThreadStatus(tid, Some(status)))
         == Add(b, tid).(lastType := b.lastType[tid := StatusType(Some(status))])
  {
    hide Block.Closed;
  }

  // ----- The run, event by event

  const WAITS1 := ThreadStatus(1, Some(Blocked))
  const RUNS3 := ThreadStatus(3, Some(RunUsermode))
  const SENDS3 := InetSockLocalOut(0, 3, KEY)
  const WAKES1 := Ttwu(2, 2, 1)

  /** Thread 3 sends a packet at 5; thread 2 wakes thread 1 at 10, and is woken by the packet at 30. */
  const HANDOVER: seq<Stamped> :=
    [] + [Stamped(0, WAITS1)] + [Stamped(0, WAITS2)] + [Stamped(0, RUNS3)] + [Stamped(5, SENDS3)]
      + [Stamped(10, WAKES1)]
    + [Stamped(20, INTERRUPTED)] + [Stamped(20, RECEIVES)] + [Stamped(30, WAKES2)]

  ghost predicate Types(b: Block) {
    && 1 in b.lastType && b.lastType[1] == WaitBlocked && 2 in b.lastType && b.lastType[2] == WaitBlocked
    && 3 in b.lastType && b.lastType[3] == EdgeType.Run && b.diskThreads == {}
  }

  ghost predicate Started(b: Block) {
    && b.nextNode == 3 && b.nextEdge == 0 && Types(b) && b.context == map[]
    && b.g.nodes.Keys == {0, 1, 2} && b.g.edges.Keys == {}
    && b.g.nodes[0] == Node(0, 1, None, None, None, None) && b.g.nodes[1] == Node(0, 2, None, None, None, None)
    && b.g.nodes[2] == Node(0, 3, None, None, None, None)
    && b.g.LastNode(1) == Some(0) && b.g.LastNode(2) == Some(1) && b.g.LastNode(3) == Some(2)
  }

  ghost predicate Sent(b: Block) {
    && b.nextNode == 5 && b.nextEdge == 2 && Types(b) && b.context == map[] && KEY in b.packets && b.packets[KEY] == 4
    && b.g.nodes.Keys == {0, 1, 2, 3, 4} && b.g.edges.Keys == {0, 1}
    && b.g.nodes[0] == Node(0, 1, None, None, None, None) && b.g.nodes[1] == Node(0, 2, None, None, None, None)
    && b.g.nodes[2] == Node(0, 3, None, None, Some(0), None) && b.g.nodes[3] == Node(5, 3, Some(1), None, None, Some(0))
    && b.g.nodes[4] == Node(5, NETWORK_THREAD, None, Some(1), None, None)
    && b.g.edges[0] == Edge(EdgeType.Run, 2, 3) && b.g.edges[1] == Edge(Vertical, 3, 4)
    && b.g.LastNode(1) == Some(0) && b.g.LastNode(2) == Some(1)
  }

  /** The first three events. */
  lemma StartedRun() returns (events: seq<Stamped>)
    ensures events == [] + [Stamped(0, WAITS1)] + [Stamped(0, WAITS2)] + [Stamped(0, RUNS3)]
    ensures EventsOk(events) && Now(events) == 0 && Started(CriticalBlockRun.Run(events))
  {
    hide Inv, Block.Handle, Block.Closed, CriticalBlockRun.Run, EventsOk, Now;
    NoEvents();
    events := AppendNew([], 1, Blocked);
    events := AppendNew(events, 2, Blocked);
    events := AppendNew(events, 3, RunUsermode);
  }

  lemma AppendNew(events: seq<Stamped>, tid: ThreadId, status: Status) returns (next: seq<Stamped>)
    requires EventsOk(events) && Now(events) == 0 && EventOk(ThreadStatus(tid, Some(status)))
    requires tid !in CriticalBlockRun.Run(events).g.threads && tid !in CriticalBlockRun.Run(events).lastType
    ensures next == events + [Stamped(0, ThreadStatus(tid, Some(status)))] && EventsOk(next) && Now(next) == 0
    ensures CriticalBlockRun.Run(next)
         == Add(CriticalBlockRun.Run(events).(now := 0), tid).(
              lastType := CriticalBlockRun.Run(events).lastType[tid := StatusType(Some(status))])
  {
    hide Inv, Block.Handle, Block.Closed, CriticalBlockRun.Run, EventsOk, Now;
    next := events + [Stamped(0, ThreadStatus(tid, Some(status)))];
    Append(events, Stamped(0, ThreadStatus(tid, Some(status))));
    FirstStatus(CriticalBlockRun.Run(events).(now := 0), tid, status);
  }

  lemma SentIs(b: Block)
    requires b.Closed() && Started(b) && b.now == 5
    ensures Sent(b.Handle(SENDS3))
  {
    hide Block.Closed, Block.CutThread, Block.NewEdge, Block.NewNode;
    CutIs(b, 3, 2);
    var c := Cut(b, 3, 2);
    assert c.NewNode(NETWORK_THREAD) == Add(c, NETWORK_THREAD) by { AddIs(c, NETWORK_THREAD); }
    var d := Add(c, NETWORK_THREAD);
    JoinIs(d, 3, 4);
  }

  lemma AddIs(b: Block, tid: ThreadId)
    ensures b.NewNode(tid) == Add(b, tid)
  {
  }

  ghost predicate Woken(b: Block) {
    && b.nextNode == 7 && b.nextEdge == 5 && Types(b)
    && b.g.nodes.Keys == {0, 1, 2, 3, 4, 5, 6} && b.g.edges.Keys == {0, 1, 2, 3, 4}
    && b.g.nodes[0] == Node(0, 1, None, None, Some(3), None) && b.g.nodes[1] == Node(0, 2, None, None, Some(2), None)
    && b.g.nodes[2] == Node(0, 3, None, None, Some(0), None) && b.g.nodes[3] == Node(5, 3, Some(1), None, None, Some(0))
    && b.g.nodes[4] == Node(5, NETWORK_THREAD, None, Some(1), None, None)
    && b.g.nodes[5] == Node(10, 2, Some(4), None, None, Some(2))
    && b.g.nodes[6] == Node(10, 1, None, Some(4), None, Some(3))
    && b.g.edges[0] == Edge(EdgeType.Run, 2, 3) && b.g.edges[1] == Edge(Vertical, 3, 4)
    && b.g.edges[2] == Edge(WaitBlocked, 1, 5) && b.g.edges[3] == Edge(WaitBlocked, 0, 6)
    && b.g.edges[4] == Edge(Vertical, 5, 6)
    && b.g.LastNode(2) == Some(5)
  }

  lemma WokenIs(b: Block)
    requires b.Closed() && Sent(b) && b.now == 10
    ensures Woken(b.Handle(WAKES1)) && b.Handle(WAKES1).context == map[] && b.Handle(WAKES1).packets == b.packets
  {
    hide Block.Closed, Block.CutThread, Block.NewEdge;
    CutIs(b, 2, 1);
    var c := Cut(b, 2, 1);
    CutIs(c, 1, 0);
    var d := Cut(c, 1, 0);
    JoinIs(d, 5, 6);
  }

  /** The packet arrives in an interrupt. */
  lemma ArrivedIs(b: Block, c: Block, n: NodeId)
    requires b.Closed() && b.context == map[] && KEY in b.packets && b.packets[KEY] == n
    requires c.Closed() && c == b.Handle(INTERRUPTED).(now := 20)
    ensures var d := c.Handle(RECEIVES);
            && d.Stack(1) == [] + [InterruptContext(Network, Some(n))]
            && d == b.(now := 20, context := d.context, packets := d.packets)
  {
    hide Block.Closed;
  }

  /** What the final graph has of nodes. */
  ghost predicate Placed(g: Graph) {
    && g.nodes.Keys == {0, 1, 2, 3, 4, 5, 6, 7, 8}
    && g.nodes[0] == Node(0, 1, None, None, Some(3), None) && g.nodes[1] == Node(0, 2, None, None, Some(2), None)
    && g.nodes[2] == Node(0, 3, None, None, Some(0), None) && g.nodes[3] == Node(5, 3, Some(1), None, None, Some(0))
    && g.nodes[4] == Node(5, NETWORK_THREAD, None, Some(1), Some(5), None)
    && g.nodes[5] == Node(10, 2, Some(4), None, Some(6), Some(2))
    && g.nodes[6] == Node(10, 1, None, Some(4), None, Some(3))
    && g.nodes[7] == Node(30, NETWORK_THREAD, Some(7), None, None, Some(5))
    && g.nodes[8] == Node(30, 2, None, Some(7), None, Some(6))
  }

  /** What it has of edges. */
  ghost predicate Joined(g: Graph) {
    && g.edges.Keys == {0, 1, 2, 3, 4, 5, 6, 7}
    && g.edges[0] == Edge(EdgeType.Run, 2, 3) && g.edges[1] == Edge(Vertical, 3, 4)
    && g.edges[2] == Edge(WaitBlocked, 1, 5) && g.edges[3] == Edge(WaitBlocked, 0, 6)
    && g.edges[4] == Edge(Vertical, 5, 6) && g.edges[5] == Edge(EdgeType.Run, 4, 7)
    && g.edges[6] == Edge(WaitBlocked, 5, 8) && g.edges[7] == Edge(Vertical, 7, 8)
  }

  /** What linking the packet's nodes comes to. */
  function Link(b: Block, from: NodeId, to: NodeId): Block
    requires from in b.g.nodes && to in b.g.nodes
  {
    var nodes := b.g.nodes[from := b.g.nodes[from].(outH := Some(b.nextEdge))]
                 [to := b.g.nodes[to].(inH := Some(b.nextEdge))];
    b.(g := Graph(nodes, b.g.threads, b.g.edges[b.nextEdge := Edge(EdgeType.Run, from, to)]), nextEdge := b.nextEdge
       + 1)
  }

  lemma LinkIs(b: Block, from: NodeId, to: NodeId)
    requires from in b.g.nodes && to in b.g.nodes && from != to
    ensures b.NewEdge(EdgeType.Run, OutHorizontal, from, to) == Link(b, from, to)
  {
    assert b.NewEdge(EdgeType.Run, OutHorizontal, from, to).g.nodes == Link(b, from, to).g.nodes;
  }

  lemma EndedIs(b: Block)
    requires b.Closed() && Woken(b) && b.now == 30 && b.Stack(1) == [] + [InterruptContext(Network, Some(4))]
    requires Link(Add(b, NETWORK_THREAD), 4, 7).Closed()
    ensures b.Handle(WAKES2) == Join(Cut(Link(Add(b, NETWORK_THREAD), 4, 7), 2, 5), 7, 8)
  {
    hide Block.Closed, Block.CutThread, Block.NewEdge, Block.NewNode, Join;
    AddIs(b, NETWORK_THREAD);
    var c := Add(b, NETWORK_THREAD);
    LinkIs(c, 4, 7);
    var d := Link(c, 4, 7);
    CutIs(d, 2, 5);
    var e := Cut(d, 2, 5);
    JoinIs(e, 7, 8);
  }

  lemma EndedNodes(b: Block)
    requires Woken(b) && b.now == 30
    ensures Placed(Join(Cut(Link(Add(b, NETWORK_THREAD), 4, 7), 2, 5), 7, 8).g)
  {
    hide Joined;
  }

  lemma EndedEdges(b: Block)
    requires Woken(b) && b.now == 30
    ensures Joined(Join(Cut(Link(Add(b, NETWORK_THREAD), 4, 7), 2, 5), 7, 8).g)
  {
    hide Placed;
  }

  lemma LinkIsClosed(b: Block)
    requires b.Closed() && Woken(b)
    ensures Link(Add(b, NETWORK_THREAD), 4, 7).Closed()
  {
    hide Woken;
    assert 4 in b.g.nodes && b.nextNode == 7 by { WokenHas(b); }
  }

  lemma WokenHas(b: Block)
    requires Woken(b)
    ensures 4 in b.g.nodes && b.nextNode == 7
  {
  }

  lemma SentRun() returns (events: seq<Stamped>)
    ensures events == [] + [Stamped(0, WAITS1)] + [Stamped(0, WAITS2)] + [Stamped(0, RUNS3)] + [Stamped(5, SENDS3)]
    ensures EventsOk(events) && Now(events) == 5 && Sent(CriticalBlockRun.Run(events))
  {
    hide Inv, Block.Handle, Block.Closed, CriticalBlockRun.Run, EventsOk, Now, Sent;
    var started := StartedRun();
    Append(started, Stamped(5, SENDS3));
    SentIs(CriticalBlockRun.Run(started).(now := 5));
    events := started + [Stamped(5, SENDS3)];
  }

  lemma WokenRun() returns (events: seq<Stamped>)
    ensures events == [] + [Stamped(0, WAITS1)] + [Stamped(0, WAITS2)] + [Stamped(0, RUNS3)] + [Stamped(5, SENDS3)]
                      + [Stamped(10, WAKES1)]
    ensures EventsOk(events) && Now(events) == 10 && Woken(CriticalBlockRun.Run(events))
    ensures var b := CriticalBlockRun.Run(events); b.context == map[] && KEY in b.packets && b.packets[KEY] == 4
  {
    hide Inv, Block.Handle, Block.Closed, CriticalBlockRun.Run, EventsOk, Now, Woken;
    var sent := SentRun();
    Append(sent, Stamped(10, WAKES1));
    WokenIs(CriticalBlockRun.Run(sent).(now := 10));
    events := sent + [Stamped(10, WAKES1)];
  }

  lemma ArrivedRun() returns (events: seq<Stamped>)
    ensures events == [] + [Stamped(0, WAITS1)] + [Stamped(0, WAITS2)] + [Stamped(0, RUNS3)] + [Stamped(5, SENDS3)]
                      + [Stamped(10, WAKES1)] + [Stamped(20, INTERRUPTED)] + [Stamped(20, RECEIVES)]
    ensures EventsOk(events) && Now(events) == 20 && Woken(CriticalBlockRun.Run(events))
    ensures CriticalBlockRun.Run(events).Stack(1) == [] + [InterruptContext(Network, Some(4))]
  {
    hide Inv, Block.Handle, Block.Closed, CriticalBlockRun.Run, EventsOk, Now, Woken;
    var woken := WokenRun();
    Append(woken, Stamped(20, INTERRUPTED));
    var interrupted := woken + [Stamped(20, INTERRUPTED)];
    Append(interrupted, Stamped(20, RECEIVES));
    var b := CriticalBlockRun.Run(woken).(now := 20);
    ArrivedIs(b, CriticalBlockRun.Run(interrupted).(now := 20), 4);
    events := interrupted + [Stamped(20, RECEIVES)];
    StillWoken(CriticalBlockRun.Run(woken), CriticalBlockRun.Run(events));
  }

  lemma StillWoken(b: Block, c: Block)
    requires Woken(b) && c == b.(now := c.now, context := c.context, packets := c.packets)
    ensures Woken(c)
  {
  }

  lemma HandoverRun()
    ensures EventsOk(HANDOVER) && Placed(CriticalBlockRun.Run(HANDOVER).g) && Joined(CriticalBlockRun.Run(HANDOVER).g)
  {
    hide Inv, Block.Handle, Block.Closed, CriticalBlockRun.Run, EventsOk, Now, Woken, Placed, Joined, Cut, Join, Link,
      Add;
    var arrived := ArrivedRun();
    Append(arrived, Stamped(30, WAKES2));
    var b := CriticalBlockRun.Run(arrived).(now := 30);
    StillWoken(CriticalBlockRun.Run(arrived), b);
    WokenHas(b);
    LinkIsClosed(b);
    EndedIs(b);
    EndedNodes(b);
    EndedEdges(b);
  }

  // ----- What the graph has of nodes and edges

  lemma PlacedIsStrict(g: Graph)
    requires Placed(g)
    ensures g.StrictTimes() && forall n <- g.nodes :: g.nodes[n].ts <= 30
  {
  }

  lemma WokenThread(c: Context)
    requires c.Ok() && Placed(c.g) && Joined(c.g)
    ensures 0 in c.g.nodes && c.Ts(0) == 0 && c.Tid(0) == 1 && c.g.nodes[0].outH.Some?
    ensures c.OutEdge(0) == Edge(WaitBlocked, 0, 6)
    ensures 6 in c.g.nodes && c.Ts(6) == 10 && c.Tid(6) == 1 && c.g.nodes[6].outH.None? && c.g.nodes[6].inV.Some?
    ensures c.Waker(6) == 5
  {
    hide Context.Ok, WellFormed;
  }

  lemma WakingThread(c: Context)
    requires c.Ok() && Placed(c.g) && Joined(c.g)
    ensures 1 in c.g.nodes && c.Ts(1) == 0 && c.Tid(1) == 2 && c.g.nodes[1].outH.Some?
    ensures c.OutEdge(1) == Edge(WaitBlocked, 1, 5)
    ensures 5 in c.g.nodes && c.Ts(5) == 10 && c.Tid(5) == 2 && c.g.nodes[5].outH.Some? && c.g.nodes[5].inV.None?
    ensures c.OutEdge(5) == Edge(WaitBlocked, 5, 8)
    ensures 8 in c.g.nodes && c.Ts(8) == 30 && c.Tid(8) == 2 && c.g.nodes[8].inV.Some? && c.Waker(8) == 7
  {
    hide Context.Ok, WellFormed;
  }

  lemma Packet(c: Context)
    requires c.Ok() && Placed(c.g) && Joined(c.g)
    ensures 3 in c.g.nodes && c.Ts(3) == 5 && c.Tid(3) == 3
    ensures 4 in c.g.nodes && c.Ts(4) == 5 && c.Tid(4) == NETWORK_THREAD && c.g.nodes[4].inV.Some? && c.Waker(4) == 3
    ensures 7 in c.g.nodes && c.Tid(7) == NETWORK_THREAD && c.g.nodes[7].inH.Some?
    ensures c.InEdge(7) == Edge(EdgeType.Run, 4, 7)
  {
    hide Context.Ok, WellFormed;
  }

  lemma BothStart(g: Graph)
    requires Placed(g) && Joined(g)
    ensures g.LastUpTo(0, 0, 1) && g.CoversFrom(0, 0) && g.LastUpTo(1, 0, 2) && g.CoversFrom(1, 0)
    ensures forall n <- g.nodes | g.nodes[n].tid == 2 && 9 <= g.nodes[n].ts :: 10 <= g.nodes[n].ts
  {
  }

  // ----- Its path

  const HOP := Segment(5, 30, NETWORK_THREAD, EdgeType.Run)
  const SHOWN := [MARK, Segment(0, 10, 2, WaitBlocked), HOP]

  /** The wait that goes on when the window ends is given the whole way of its packet. */
  lemma HopAfterwards(c: Context, path: Path)
    requires c.Ok() && Placed(c.g) && Joined(c.g) && c.horizon == 30
    ensures 8 in c.g.nodes && c.Ts(8) == 30 && EndedByPacket(c, 8)
    ensures c.Resolve(Edge(WaitBlocked, 5, 8), 10, 10, path) == InsertSegment(path, HOP)
  {
    hide Context.Ok, WellFormed, Placed, Joined, Context.Resolve, InsertSegment;
    WakingThread(c);
    Packet(c);
    HopIs(c, Edge(WaitBlocked, 5, 8), 10, 10, path);
    assert c.Query(Some(3), 10, 5, 3, path) == path;
  }

  lemma WakersWait(c: Context, path: Path)
    requires c.Ok() && Placed(c.g) && Joined(c.g) && c.horizon == 30
    ensures 5 in c.g.nodes && c.Ts(5) == 10
    ensures c.Resolve(Edge(WaitBlocked, 1, 5), 0, 10, path) == InsertSegment(path, Segment(0, 10, 2, WaitBlocked))
  {
    hide WellFormed, Placed, Joined, InsertSegment, Context.Query;
    WakingThread(c);
  }

  lemma WakersPath(c: Context)
    requires c.Ok() && Placed(c.g) && Joined(c.g) && c.horizon == 30 && c.WakerOk(Some(5), 10, 2)
    ensures c.Query(Some(5), 0, 10, 2, [MARK]) == SHOWN
  {
    hide Context.Ok, WellFormed, Placed, Joined, Context.Query, Context.Walk, Context.Resolve, EndedByPacket;
    BothStart(c.g);
    WakingThread(c);
    QueryFrom(c, Some(5), 0, 10, 2, 1, [MARK]);
    WalkSteps(c, Some(5), 0, 10, 2, 1, [MARK]);
    WakersWait(c, [MARK]);
    var waited := [MARK, Segment(0, 10, 2, WaitBlocked)];
    assert StepOf(c, 0, 10, 2, 1, [MARK]) == waited;
    WalkSteps(c, Some(5), 0, 10, 2, 5, waited);
    HopAfterwards(c, waited);
    assert StepOf(c, 0, 10, 2, 5, waited) == SHOWN;
    WalkEnds(c, Some(5), 0, 10, 2, 8, SHOWN);
  }

  lemma WokenPath(c: Context)
    requires c.Ok() && Placed(c.g) && Joined(c.g) && c.horizon == 30
    ensures c.Query(None, 0, 10, 1, []) == SHOWN
  {
    hide Context.Ok, WellFormed, Placed, Joined, Context.Query, Context.Walk, Context.Resolve;
    BothStart(c.g);
    WokenThread(c);
    WakingThread(c);
    QueryFrom(c, None, 0, 10, 1, 0, []);
    WalkSteps(c, None, 0, 10, 1, 0, []);
    WaitByThread(c, Edge(WaitBlocked, 0, 6), 0, 10, []);
    assert InsertSegment([], MARK) == [MARK];
    WakersPath(c);
    WalkEnds(c, None, 0, 10, 1, 6, SHOWN);
  }

  lemma WakerOverruns(c: Context)
    requires c.Ok() && Placed(c.g) && Joined(c.g) && c.horizon == 30
    ensures !WakersResume(c)
  {
    hide Context.Ok, WellFormed, Placed, Joined, EndedByPacket, Context.Resolve;
    BothStart(c.g);
    WokenThread(c);
    WakingThread(c);
    HopAfterwards(c, []);
    assert ReachedFrom(c, 5, 9);
    assert !Resumes(c, c.Waker(6));
  }

  /** The hop is after everything that thread 1 did by the window's end. */
  lemma HopIsNotExplained(c: Context)
    requires c.Ok() && Placed(c.g) && Joined(c.g)
    ensures !Explained(c, 1, 10, HOP)
  {
    hide Context.Ok, WellFormed, Placed, Joined, Caused;
    WokenThread(c);
    forall b | Bounded(c, 1, 10, b)
      ensures !Caused(c, b, HOP)
    {
      LateIsNotCaused(c, b, HOP);
    }
  }

  /** A run of which a path neither tiles its window nor shows only what led to the window's end. */
  lemma WaitingWakerMisleads() returns (events: seq<Stamped>, c: Context)
    ensures events == HANDOVER && EventsOk(events) && ContextOfRun(events, c) && c.Ok() && c.horizon == 30
    ensures c.Query(None, 0, 10, 1, []) == [MARK, Segment(0, 10, 2, WaitBlocked), HOP]
    ensures !WakersResume(c) && !AllExplained(c, 1, 10, SHOWN) && !Tiles(SHOWN, 0, 10)
  {
    hide Inv, CriticalBlockRun.Run, EventsOk, Placed, Joined, Context.Ok, WellFormed, Context.Query, Explained,
      WakersResume;
    HandoverRun();
    events := HANDOVER;
    var g := CriticalBlockRun.Run(HANDOVER).g;
    c := Context(g, AgeRank(g), 30);
    PlacedIsStrict(g);
    ContextOfRunIsOk(events, c);
    WokenPath(c);
    WakerOverruns(c);
    HopIsNotExplained(c);
    assert SHOWN[2] == HOP;
  }
}
