/**
  A run with a packet on which everything holds: a thread waits for it from before it is sent until it arrives, and
  the path of the wait is what the sender did until it sent, and the packet's way.
 */
module PacketExample {
  import opened Common
  import opened CriticalGraphs
  import opened PathSpec
  import opened PathCoverage
  import opened PathCoverageExact
  import opened PathCausality
  import opened CriticalBlockSpec
  import opened CriticalBlockInvariant
  import opened CriticalBlockRun
  import opened CriticalBlockPaths
  import opened CriticalBlockCausality
  import opened CriticalBlockExamples
  import opened PathCausalityExample

  /** Thread 2 waits from 0; thread 3 runs, and sends a packet at 5, which wakes thread 2 at 30. */
  const DELIVERY: seq<Stamped> :=
    [] + [Stamped(0, WAITS2)] + [Stamped(0, RUNS3)] + [Stamped(5, SENDS3)] + [Stamped(20, INTERRUPTED)]
    + [Stamped(20, RECEIVES)] + [Stamped(30, WAKES2)]

  ghost predicate TwoTypes(b: Block) {
    && 2 in b.lastType && b.lastType[2] == WaitBlocked && 3 in b.lastType && b.lastType[3] == EdgeType.Run
    && b.diskThreads == {}
  }

  ghost predicate Begun(b: Block) {
    && b.nextNode == 2 && b.nextEdge == 0 && TwoTypes(b) && b.context == map[]
    && b.g.nodes.Keys == {0, 1} && b.g.edges.Keys == {}
    && b.g.nodes[0] == Node(0, 2, None, None, None, None) && b.g.nodes[1] == Node(0, 3, None, None, None, None)
    && b.g.LastNode(2) == Some(0) && b.g.LastNode(3) == Some(1)
  }

  ghost predicate Posted(b: Block) {
    && b.nextNode == 4 && b.nextEdge == 2 && TwoTypes(b)
    && b.g.nodes.Keys == {0, 1, 2, 3} && b.g.edges.Keys == {0, 1}
    && b.g.nodes[0] == Node(0, 2, None, None, None, None) && b.g.nodes[1] == Node(0, 3, None, None, Some(0), None)
    && b.g.nodes[2] == Node(5, 3, Some(1), None, None, Some(0))
    && b.g.nodes[3] == Node(5, NETWORK_THREAD, None, Some(1), None, None)
    && b.g.edges[0] == Edge(EdgeType.Run, 1, 2) && b.g.edges[1] == Edge(Vertical, 2, 3)
    && b.g.LastNode(2) == Some(0)
  }

  /** What the final graph has of nodes and edges. */
  ghost predicate Delivered(g: Graph) {
    && g.nodes.Keys == {0, 1, 2, 3, 4, 5} && g.edges.Keys == {0, 1, 2, 3, 4}
    && g.nodes[0] == Node(0, 2, None, None, Some(3), None) && g.nodes[1] == Node(0, 3, None, None, Some(0), None)
    && g.nodes[2] == Node(5, 3, Some(1), None, None, Some(0))
    && g.nodes[3] == Node(5, NETWORK_THREAD, None, Some(1), Some(2), None)
    && g.nodes[4] == Node(30, NETWORK_THREAD, Some(4), None, None, Some(2))
    && g.nodes[5] == Node(30, 2, None, Some(4), None, Some(3))
    && g.edges[0] == Edge(EdgeType.Run, 1, 2) && g.edges[1] == Edge(Vertical, 2, 3)
    && g.edges[2] == Edge(EdgeType.Run, 3, 4) && g.edges[3] == Edge(WaitBlocked, 0, 5)
    && g.edges[4] == Edge(Vertical, 4, 5)
  }

  // ----- The run

  lemma AppendCalm(events: seq<Stamped>, last: Stamped)
    requires EventsOk(events) && EventsOk(events + [last]) && CalmRun(events)
    requires CalmEvent(CriticalBlockRun.Run(events).(now := last.ts), last.event)
    ensures CalmRun(events + [last])
  {
    assert (events + [last])[..|events|] == events;
    hide Inv, Block.Handle, Block.Closed, CalmEvent, CriticalBlockRun.Run;
  }

  lemma BegunRun() returns (events: seq<Stamped>)
    ensures events == [] + [Stamped(0, WAITS2)] + [Stamped(0, RUNS3)]
    ensures EventsOk(events) && Now(events) == 0 && CalmRun(events) && Begun(CriticalBlockRun.Run(events))
  {
    hide Inv, Block.Handle, Block.Closed, CriticalBlockRun.Run, EventsOk, Now, CalmRun;
    NoEvents();
    NothingIsCalm();
    var first := AppendNew([], 2, Blocked);
    AppendCalm([], Stamped(0, WAITS2));
    events := AppendNew(first, 3, RunUsermode);
    AppendCalm(first, Stamped(0, RUNS3));
  }

  lemma NothingIsCalm()
    ensures EventsOk([]) && CalmRun([])
  {
  }

  lemma PostedIs(b: Block)
    requires b.Closed() && Begun(b) && b.now == 5
    ensures var c := b.Handle(SENDS3);
            Posted(c) && c.context == map[] && KEY in c.packets && c.packets[KEY] == 3
  {
    hide Block.Closed, Block.CutThread, Block.NewEdge, Block.NewNode;
    CutIs(b, 3, 1);
    var c := Cut(b, 3, 1);
    AddIs(c, NETWORK_THREAD);
    JoinIs(Add(c, NETWORK_THREAD), 2, 3);
  }

  lemma PostedRun() returns (events: seq<Stamped>)
    ensures events == [] + [Stamped(0, WAITS2)] + [Stamped(0, RUNS3)] + [Stamped(5, SENDS3)]
    ensures EventsOk(events) && Now(events) == 5 && CalmRun(events) && Posted(CriticalBlockRun.Run(events))
    ensures var b := CriticalBlockRun.Run(events); b.context == map[] && KEY in b.packets && b.packets[KEY] == 3
  {
    hide Inv, Block.Handle, Block.Closed, CriticalBlockRun.Run, EventsOk, Now, CalmRun, Posted;
    var begun := BegunRun();
    Append(begun, Stamped(5, SENDS3));
    PostedIs(CriticalBlockRun.Run(begun).(now := 5));
    AppendCalm(begun, Stamped(5, SENDS3));
    events := begun + [Stamped(5, SENDS3)];
  }

  lemma ArrivedRun() returns (events: seq<Stamped>)
    ensures events == [] + [Stamped(0, WAITS2)] + [Stamped(0, RUNS3)] + [Stamped(5, SENDS3)]
              + [Stamped(20, INTERRUPTED)]
                      + [Stamped(20, RECEIVES)]
    ensures EventsOk(events) && Now(events) == 20 && CalmRun(events) && Posted(CriticalBlockRun.Run(events))
    ensures CriticalBlockRun.Run(events).Stack(1) == [] + [InterruptContext(Network, Some(3))]
  {
    hide Inv, Block.Handle, Block.Closed, CriticalBlockRun.Run, EventsOk, Now, CalmRun, Posted;
    var posted := PostedRun();
    Append(posted, Stamped(20, INTERRUPTED));
    AppendCalm(posted, Stamped(20, INTERRUPTED));
    var interrupted := posted + [Stamped(20, INTERRUPTED)];
    Append(interrupted, Stamped(20, RECEIVES));
    AppendCalm(interrupted, Stamped(20, RECEIVES));
    var b := CriticalBlockRun.Run(posted).(now := 20);
    PathCausalityExample.ArrivedIs(b, CriticalBlockRun.Run(interrupted).(now := 20), 3);
    events := interrupted + [Stamped(20, RECEIVES)];
    StillPosted(CriticalBlockRun.Run(posted), CriticalBlockRun.Run(events));
  }

  lemma StillPosted(b: Block, c: Block)
    requires Posted(b) && c == b.(now := c.now, context := c.context, packets := c.packets)
    ensures Posted(c)
  {
  }

  lemma DeliveredIs(b: Block)
    requires b.Closed() && Posted(b) && b.now == 30 && b.Stack(1) == [] + [InterruptContext(Network, Some(3))]
    requires Link(Add(b, NETWORK_THREAD), 3, 4).Closed()
    ensures b.Handle(WAKES2) == Join(Cut(Link(Add(b, NETWORK_THREAD), 3, 4), 2, 0), 4, 5)
  {
    hide Block.Closed, Block.CutThread, Block.NewEdge, Block.NewNode, Join;
    AddIs(b, NETWORK_THREAD);
    var c := Add(b, NETWORK_THREAD);
    LinkIs(c, 3, 4);
    var d := Link(c, 3, 4);
    CutIs(d, 2, 0);
    JoinIs(Cut(d, 2, 0), 4, 5);
  }

  lemma DeliveredGraph(b: Block)
    requires Posted(b) && b.now == 30
    ensures Delivered(Join(Cut(Link(Add(b, NETWORK_THREAD), 3, 4), 2, 0), 4, 5).g)
  {
  }

  lemma LinkIsClosed(b: Block)
    requires b.Closed() && 3 in b.g.nodes && b.nextNode == 4
    ensures Link(Add(b, NETWORK_THREAD), 3, 4).Closed()
  {
  }

  lemma PostedHas(b: Block)
    requires Posted(b)
    ensures 3 in b.g.nodes && b.nextNode == 4
  {
  }

  lemma DeliveryRun()
    ensures EventsOk(DELIVERY) && CalmRun(DELIVERY) && Delivered(CriticalBlockRun.Run(DELIVERY).g)
  {
    hide Inv, Block.Handle, Block.Closed, CriticalBlockRun.Run, EventsOk, Now, CalmRun, Posted, Delivered, Cut, Join,
      Link, Add;
    var arrived := ArrivedRun();
    Append(arrived, Stamped(30, WAKES2));
    AppendCalm(arrived, Stamped(30, WAKES2));
    var b := CriticalBlockRun.Run(arrived).(now := 30);
    StillPosted(CriticalBlockRun.Run(arrived), b);
    PostedHas(b);
    LinkIsClosed(b);
    DeliveredIs(b);
    DeliveredGraph(b);
  }

  // ----- What the graph has of nodes and edges

  lemma DeliveredIsStrict(g: Graph)
    requires Delivered(g)
    ensures g.StrictTimes() && forall n <- g.nodes :: g.nodes[n].ts <= 30
  {
  }

  lemma Receiver(c: Context)
    requires c.Ok() && Delivered(c.g)
    ensures 0 in c.g.nodes && c.Ts(0) == 0 && c.Tid(0) == 2 && c.g.nodes[0].outH.Some?
    ensures c.OutEdge(0) == Edge(WaitBlocked, 0, 5)
    ensures 5 in c.g.nodes && c.Ts(5) == 30 && c.Tid(5) == 2 && c.g.nodes[5].outH.None? && c.g.nodes[5].inV.Some?
    ensures c.Waker(5) == 4 && 4 in c.g.nodes && c.Tid(4) == NETWORK_THREAD && c.g.nodes[4].inH.Some?
    ensures c.InEdge(4) == Edge(EdgeType.Run, 3, 4)
  {
    hide Context.Ok, WellFormed;
  }

  lemma Sender(c: Context)
    requires c.Ok() && Delivered(c.g)
    ensures 1 in c.g.nodes && c.Ts(1) == 0 && c.Tid(1) == 3 && c.g.nodes[1].outH.Some?
    ensures c.OutEdge(1) == Edge(EdgeType.Run, 1, 2)
    ensures 2 in c.g.nodes && c.Ts(2) == 5 && c.Tid(2) == 3 && c.g.nodes[2].outH.None?
    ensures 3 in c.g.nodes && c.Ts(3) == 5 && c.Tid(3) == NETWORK_THREAD && c.g.nodes[3].inV.Some? && c.Waker(3) == 2
  {
    hide Context.Ok, WellFormed;
  }

  lemma BothBegin(g: Graph)
    requires Delivered(g)
    ensures g.LastUpTo(0, 0, 2) && g.CoversFrom(0, 0) && g.LastUpTo(1, 0, 3) && g.CoversFrom(1, 0)
  {
  }

  // ----- Its path

  const WAY := [Segment(0, 5, 3, EdgeType.Run), Segment(5, 30, NETWORK_THREAD, EdgeType.Run)]

  lemma SendersPath(c: Context)
    requires c.Ok() && Delivered(c.g) && c.horizon == 30 && c.WakerOk(Some(2), 5, 3)
    ensures c.Query(Some(2), 0, 5, 3, []) == [Segment(0, 5, 3, EdgeType.Run)] && Unbroken(c, Some(2), 0, 5, 3)
  {
    hide Context.Ok, WellFormed, Delivered, Context.Query, Context.Walk, Unbroken, UnbrokenAlong;
    BothBegin(c.g);
    Sender(c);
    QueryFrom(c, Some(2), 0, 5, 3, 1, []);
    WalkSteps(c, Some(2), 0, 5, 3, 1, []);
    var ran := [Segment(0, 5, 3, EdgeType.Run)];
    assert StepOf(c, 0, 5, 3, 1, []) == ran;
    WalkEnds(c, Some(2), 0, 5, 3, 2, ran);
    UnbrokenAtEnd(c, Some(2), 0, 5, 3, 2);
    UnbrokenSteps(c, Some(2), 0, 5, 3, 1);
    UnbrokenFrom(c, Some(2), 0, 5, 3, 1);
  }

  lemma UnbrokenFrom(c: Context, waker: Option<NodeId>, startTs: Timestamp, endTs: Timestamp, tid: ThreadId, n: NodeId)
    requires c.Ok() && c.WakerOk(waker, endTs, tid) && startTs < endTs <= c.horizon && c.WalkOk(startTs, tid, n)
    requires c.g.LastUpTo(n, startTs, tid) && c.g.CoversFrom(n, startTs)
    requires UnbrokenAlong(c, waker, startTs, endTs, tid, n)
    ensures Unbroken(c, waker, startTs, endTs, tid)
  {
    c.g.LastIsIntersecting(n, startTs, tid);
    hide WellFormed, Graph.Intersecting, Graph.LastUpTo, Graph.CoversFrom, UnbrokenAlong;
  }

  lemma UnbrokenAtEnd(c: Context, waker: Option<NodeId>, startTs: Timestamp, endTs: Timestamp, tid: ThreadId, n: NodeId)
    requires c.Ok() && c.WakerOk(waker, endTs, tid) && startTs < endTs <= c.horizon && c.WalkOk(startTs, tid, n)
    requires c.Ts(n) == endTs && c.g.nodes[n].outH.None?
    ensures UnbrokenAlong(c, waker, startTs, endTs, tid, n)
  {
    hide WellFormed;
  }

  lemma UnbrokenSteps(c: Context, waker: Option<NodeId>, startTs: Timestamp, endTs: Timestamp, tid: ThreadId, n: NodeId)
    requires c.Ok() && c.WakerOk(waker, endTs, tid) && startTs < endTs <= c.horizon && c.WalkOk(startTs, tid, n)
    requires c.g.nodes[n].outH.Some? && c.Ts(n) <= endTs && c.OutEdge(n).to in c.g.nodes
    requires c.WalkOk(startTs, tid, c.OutEdge(n).to) && UnbrokenAlong(c, waker, startTs, endTs, tid, c.OutEdge(n).to)
    requires Blocking(c.OutEdge(n).etype) ==>
               UnbrokenWait(c, c.OutEdge(n), Max(startTs, c.Ts(n)), Min(endTs, c.Ts(c.OutEdge(n).to)))
    ensures UnbrokenAlong(c, waker, startTs, endTs, tid, n)
  {
    hide WellFormed, UnbrokenWait, Graph.LastUpTo;
  }

  lemma ReceiversWait(c: Context)
    requires c.Ok() && Delivered(c.g) && c.horizon == 30
    ensures 5 in c.g.nodes && c.Ts(5) == 30 && UnbrokenWait(c, Edge(WaitBlocked, 0, 5), 0, 30)
    ensures c.Resolve(Edge(WaitBlocked, 0, 5), 0, 30, []) == WAY
  {
    hide Context.Ok, WellFormed, Delivered, Context.Resolve, Context.Query, Unbroken;
    Receiver(c);
    Sender(c);
    SendersPath(c);
    HopIs(c, Edge(WaitBlocked, 0, 5), 0, 30, []);
  }

  lemma ReceiversPath(c: Context)
    requires c.Ok() && Delivered(c.g) && c.horizon == 30
    ensures c.Query(None, 0, 30, 2, []) == WAY && Unbroken(c, None, 0, 30, 2)
  {
    hide Context.Ok, WellFormed, Delivered, Context.Query, Context.Walk, Context.Resolve, Unbroken, UnbrokenAlong,
      UnbrokenWait;
    BothBegin(c.g);
    Receiver(c);
    ReceiversWait(c);
    QueryFrom(c, None, 0, 30, 2, 0, []);
    WalkSteps(c, None, 0, 30, 2, 0, []);
    WalkEnds(c, None, 0, 30, 2, 5, WAY);
    UnbrokenAtEnd(c, None, 0, 30, 2, 5);
    UnbrokenSteps(c, None, 0, 30, 2, 0);
    UnbrokenFrom(c, None, 0, 30, 2, 0);
  }

  /** A calm run with a packet on an unbroken way: the window is tiled, and all its path led to the thread. */
  lemma DeliveryIsExplained() returns (events: seq<Stamped>, c: Context)
    ensures events == DELIVERY && EventsOk(events) && CalmRun(events) && ContextOfRun(events, c) && c.Ok()
    ensures c.horizon == 30 && Unbroken(c, None, 0, 30, 2) && MayBeTiled(c, 0, 30, 2)
    ensures c.Query(None, 0, 30, 2, [])
         == [Segment(0, 5, 3, EdgeType.Run), Segment(5, 30, NETWORK_THREAD, EdgeType.Run)]
    ensures WakersResume(c) && AllExplained(c, 2, 30, c.Query(None, 0, 30, 2, []))
  {
    hide Inv, CriticalBlockRun.Run, EventsOk, CalmRun, Delivered, Context.Ok, WellFormed, Context.Query, Unbroken,
      WakersResume, AllExplained, MayBeTiled, Overruns;
    DeliveryRun();
    events := DELIVERY;
    var g := CriticalBlockRun.Run(DELIVERY).g;
    c := Context(g, AgeRank(g), 30);
    DeliveredIsStrict(g);
    ContextOfRunIsOk(events, c);
    ReceiversPath(c);
    Receiver(c);
    MayEndAtNode(c, 0, 5);
    CalmWakersResume(events, c);
    UnlinkedEndDoesNotOverrun(c, 5, 0);
    PathIsCausal(c, 0, 30, 2);
  }

  lemma UnlinkedEndDoesNotOverrun(c: Context, w: NodeId, startTs: Timestamp)
    requires c.Ok() && w in c.g.nodes && c.g.nodes[w].outH.None?
    ensures !EndOverruns(c, startTs, c.Ts(w), c.Tid(w))
  {
    forall n <- c.g.nodes | c.g.nodes[n].tid == c.Tid(w) && c.g.nodes[n].ts == c.Ts(w)
      ensures n == w
    {
      c.g.OnlyOneAt(n, w);
    }
    hide Context.Ok, WellFormed;
  }
}
