/** Runs that leave what coverage and cleanup cannot do without: a gap in a thread, and an overwritten slot. */
module CriticalBlockExamples {
  import opened Common
  import opened CriticalGraphs
  import opened GraphCleanupSpec
  import opened CriticalBlockSpec
  import opened CriticalBlockInvariant
  import opened CriticalBlockRun
  import opened CriticalBlockCleanup
  import opened PathCoverage
  import opened PathCoverageExact
  import opened CriticalBlockPaths
  import PathSpec

  /** One more event. */
  lemma Append(events: seq<Stamped>, last: Stamped)
    requires EventsOk(events) && Now(events) <= last.ts && EventOk(last.event)
    ensures EventsOk(events + [last]) && Now(events + [last]) == last.ts
    ensures CriticalBlockRun.Run(events).(now := last.ts).Closed() && Inv(CriticalBlockRun.Run(events).(now := last.ts))
    ensures CriticalBlockRun.Run(events + [last]) == CriticalBlockRun.Run(events).(now := last.ts).Handle(last.event)
  {
    assert (events + [last])[..|events|] == events;
    AppendOk(events, last);
    hide Inv, Block.Handle, EventsOk;
    AdvanceInv(CriticalBlockRun.Run(events), last.ts);
  }

  lemma AppendOk(events: seq<Stamped>, last: Stamped)
    requires EventsOk(events) && Now(events) <= last.ts && EventOk(last.event)
    ensures EventsOk(events + [last])
  {
  }

  // ----- A thread id that is used again

  /** `c` has one more node than `b`, of the thread, now and with no link out of it. */
  ghost predicate OneMore(b: Block, c: Block, tid: ThreadId) {
    && c.nextNode == b.nextNode + 1 && c.g.nodes.Keys == b.g.nodes.Keys + {b.nextNode}
    && c.g.nodes[b.nextNode].ts == b.now && c.g.nodes[b.nextNode].tid == tid && c.g.nodes[b.nextNode].outH.None?
    && (forall n <- b.g.nodes :: c.g.nodes[n].ts == b.g.nodes[n].ts && c.g.nodes[n].tid == b.g.nodes[n].tid)
    && (tid !in b.lastType ==> forall n <- b.g.nodes :: c.g.nodes[n].outH == b.g.nodes[n].outH)
    && c.context == b.context && c.packets == b.packets
  }

  lemma NewNodeIsOneMore(b: Block, tid: ThreadId)
    requires Inv(b)
    ensures OneMore(b, b.NewNode(tid), tid)
  {
    NewNodeLater(b, tid);
    assert b.nextNode !in b.g.nodes;
    hide Inv;
  }

  lemma CutIsOneMore(b: Block, tid: ThreadId)
    requires Inv(b) && b.Closed() && b.Cuttable(tid)
    ensures OneMore(b, b.CutThread(tid), tid)
  {
    hide Inv, Block.Closed, Block.CutThread, Graph.LastNode;
    IdsAreFresh(b);
    CutThreadEffect(b, tid);
    CutThreadInv(b, tid);
    CutIsUnlinked(b, tid);
    PacketsKept(b, tid);
  }

  /** A status that changes a thread's type makes one node. */
  lemma HandleStatus(b: Block, tid: ThreadId, status: Option<Status>)
    requires Inv(b) && b.Closed() && (tid in b.lastType ==> b.lastType[tid] != StatusType(status))
    ensures var c := b.Handle(ThreadStatus(tid, status));
            && OneMore(b, c, tid)
            && c.lastType == (if status.Some? then b.lastType[tid := StatusType(status)] else b.lastType - {tid})
  {
    hide Inv, Block.Closed, Block.CutThread, Block.NewNode, Graph.LastNode;
    if b.Cuttable(tid) {
      CutIsOneMore(b, tid);
      PacketsKept(b, tid);
    } else {
      NewNodeIsOneMore(b, tid);
      NewNodeFrame(b, tid);
    }
  }

  const RUNS := ThreadStatus(1, Some(RunUsermode))
  const EXITS := ThreadStatus(1, None)

  /** A thread that runs, exits, and returns under the same id. */
  const RETURNING: seq<Stamped> := [] + [Stamped(0, RUNS)] + [Stamped(10, EXITS)] + [Stamped(20, RUNS)]

  ghost predicate HasGap(b: Block) {
    && b.g.nodes.Keys == {0, 1, 2} && b.g.nodes[0].ts == 0 && b.g.nodes[1].ts == 10 && b.g.nodes[2].ts == 20
    && b.g.nodes[1].tid == 1 && b.g.nodes[2].tid == 1 && b.g.nodes[1].outH.None?
  }

  lemma ReturningRun()
    ensures EventsOk(RETURNING) && HasGap(CriticalBlockRun.Run(RETURNING))
  {
    hide Inv, Block.Handle, Block.Closed, CriticalBlockRun.Run, EventsOk, Now;
    var none, first, second := [], [] + [Stamped(0, RUNS)], [] + [Stamped(0, RUNS)] + [Stamped(10, EXITS)];
    NoEvents();
    Append(none, Stamped(0, RUNS));
    HandleStatus(CriticalBlockRun.Run(none).(now := 0), 1, Some(RunUsermode));
    Append(first, Stamped(10, EXITS));
    HandleStatus(CriticalBlockRun.Run(first).(now := 10), 1, None);
    Append(second, Stamped(20, RUNS));
    HandleStatus(CriticalBlockRun.Run(second).(now := 20), 1, Some(RunUsermode));
  }

  lemma NoEvents()
    ensures EventsOk([]) && Now([]) == 0 && CriticalBlockRun.Run([]) == EMPTY
  {
  }

  /** A built graph with such a gap: the window from the exit to the return may end where it does, and gets no path. */
  lemma GapLosesWindow(c: PathSpec.Context, b: Block)
    requires HasGap(b) && c.g == b.g && c.Ok() && 20 <= c.horizon
    ensures MayBeTiled(c, 10, 20, 1) && c.Query(None, 10, 20, 1, []) == [] && !Tiles([], 10, 20) && !AlwaysCovers(c)
  {
    hide MayBeTiled, PathSpec.WellFormed, PathSpec.Context.Ok, PathSpec.Context.Query;
    GapIsNotCovered(c, 1, 2);
    MayEndAtNode(c, 10, 2);
    assert !Tiles(c.Query(None, 10, 20, 1, []), 10, 20);
  }

  /** A run of three statuses whose graph is well-formed, and has a window that could be covered and is not. */
  lemma ReturningIsNotCovered() returns (events: seq<Stamped>, c: PathSpec.Context)
    ensures events == RETURNING && EventsOk(events) && NoPackets(events) && ContextOfRun(events, c) && c.Ok()
    ensures 20 <= c.horizon && MayBeTiled(c, 10, 20, 1) && c.Query(None, 10, 20, 1, []) == [] && !AlwaysCovers(c)
  {
    ReturningHasNoPackets();
    hide Inv, CriticalBlockRun.Run, EventsOk, NoPackets, MayBeTiled, PathSpec.WellFormed, PathSpec.Context.Ok,
      PathSpec.Context.Query, AlwaysCovers;
    ReturningRun();
    events := RETURNING;
    var b := CriticalBlockRun.Run(RETURNING);
    c := PathSpec.Context(b.g, AgeRank(b.g), 20);
    HasGapIsStrict(b);
    ContextOfRunIsOk(events, c);
    GapLosesWindow(c, b);
  }

  lemma ReturningHasNoPackets()
    ensures NoPackets(RETURNING)
  {
  }

  lemma HasGapIsStrict(b: Block)
    requires HasGap(b)
    ensures b.g.StrictTimes() && forall n <- b.g.nodes :: b.g.nodes[n].ts <= 20
  {
  }

  // ----- A packet that wakes two threads

  ghost predicate Linked(g: Graph, n: NodeId) { n in g.nodes && g.nodes[n].outH.Some? }

  lemma NewNodeKeepsLink(b: Block, tid: ThreadId, n: NodeId)
    requires Inv(b) && Linked(b.g, n)
    ensures Linked(b.NewNode(tid).g, n)
  {
    NodeIsOld(b, n);
    hide Inv;
  }

  lemma NewEdgeKeepsLink(b: Block, etype: EdgeType, out: Position, from: NodeId, to: NodeId, n: NodeId)
    requires from in b.g.nodes && to in b.g.nodes && (out == OutVertical || out == OutHorizontal) && Linked(b.g, n)
    ensures Linked(b.NewEdge(etype, out, from, to).g, n)
  {
  }

  lemma NewEdgeLinks(b: Block, from: NodeId, to: NodeId)
    requires from in b.g.nodes && to in b.g.nodes && from != to
    ensures Linked(b.NewEdge(Run, OutHorizontal, from, to).g, from)
  {
  }

  lemma CutKeepsLink(b: Block, tid: ThreadId, n: NodeId)
    requires Inv(b) && b.Closed() && b.Cuttable(tid) && Linked(b.g, n)
    ensures Linked(b.CutThread(tid).g, n)
  {
    NewNodeKeepsLink(b, tid, n);
    CutEndsExist(b, tid, b.g.LastNode(tid).value);
    NewNodeFrame(b, tid);
    hide Inv, Block.Closed, Block.NewNode, Block.NewEdge, Linked, Graph.LastNode;
    NewEdgeKeepsLink(b.NewNode(tid), b.lastType[tid], OutHorizontal, b.g.LastNode(tid).value, b.nextNode, n);
  }

  /** The first thread that a packet wakes takes the only link of the packet's node, and changes no type or context. */
  lemma FirstWakeUpLinks(b: Block, context: InterruptContext, target: ThreadId)
    requires Inv(b) && b.Closed() && context.node.Some? && NetworkNode(b.g, context.node.value)
    requires target in b.lastType && b.lastType[target] == WaitBlocked
    ensures var c := b.OnWakeupFromInterrupt(context, target);
            Linked(c.g, context.node.value) && c.lastType == b.lastType && c.context == b.context
  {
    hide Inv, Block.CutThread, Block.NewEdge, Block.NewNode, Block.Closed, Later, NetworkNode, Linked;
    var from := context.node.value;
    NetworkLinkKeepsTable(b, from);
    NetworkNodeIsNode(b, from);
    NodeIsOld(b, from);
    NewNodeFrame(b, NETWORK_THREAD);
    var m := b.NewNode(NETWORK_THREAD);
    var d := m.NewEdge(Run, OutHorizontal, from, b.nextNode);
    NewEdgeLinks(m, from, b.nextNode);
    NewEdgeFrame(m, Run, OutHorizontal, from, b.nextNode);
    InvIsClosed(d);
    if d.Cuttable(target) {
      CutOutgrows(d, target);
      CutKeepsLink(d, target, from);
      PacketsKept(d, target);
      var c := d.CutThread(target);
      QuietKeeps(d, c, b.nextNode);
      NewEdgeKeepsLink(c, Vertical, OutVertical, b.nextNode, d.nextNode, from);
      NewEdgeFrame(c, Vertical, OutVertical, b.nextNode, d.nextNode);
    }
  }

  lemma NewEdgeFrame(b: Block, etype: EdgeType, out: Position, from: NodeId, to: NodeId)
    requires from in b.g.nodes && to in b.g.nodes
    ensures var c := b.NewEdge(etype, out, from, to); c.(g := b.g, nextEdge := b.nextEdge) == b
  {
  }

  /** An interrupt that received a packet, and two threads waiting. */
  ghost predicate PacketPending(b: Block, cpu: Cpu, first: ThreadId, second: ThreadId) {
    && b.Stack(cpu) != [] && b.Stack(cpu)[|b.Stack(cpu)| - 1].node.Some?
    && first in b.lastType && b.lastType[first] == WaitBlocked && second in b.lastType
    && b.lastType[second] == WaitBlocked
  }

  /** From any such state, waking both overwrites. */
  lemma SecondWakeUpOverwrites(b: Block, cpu: Cpu, source: ThreadId, first: ThreadId, second: ThreadId, now: Timestamp)
    requires Inv(b) && b.Closed() && PacketPending(b, cpu, first, second)
    ensures Overwrites(b.Handle(Ttwu(cpu, source, first)).(now := now), Ttwu(cpu, source, second))
  {
    var top := b.Stack(cpu)[|b.Stack(cpu)| - 1];
    StackTopOk(b, cpu);
    hide Inv, Block.Closed, NetworkNode, Block.OnWakeupFromInterrupt;
    FirstWakeUpLinks(b, top, first);
    assert b.OnWakeupFromInterrupt(top, first).Stack(cpu) == b.Stack(cpu);
  }

  const KEY := PacketKey(0, 0, 0)
  const WAITS2 := ThreadStatus(2, Some(Blocked))
  const WAITS3 := ThreadStatus(3, Some(Blocked))
  const SENDS := InetSockLocalOut(0, 1, KEY)
  const INTERRUPTED := SoftIrqEntry(1, 3)
  const RECEIVES := InetSockLocalIn(1, KEY)

  /** Thread 1 sends a packet while threads 2 and 3 wait; an interrupt receives it. */
  const RECEIVED: seq<Stamped> :=
    [] + [Stamped(0, RUNS)] + [Stamped(0, WAITS2)] + [Stamped(0, WAITS3)] + [Stamped(1, SENDS)]
      + [Stamped(2, INTERRUPTED)]
    + [Stamped(2, RECEIVES)]

  const WAKES2 := Ttwu(1, 0, 2)
  const WAKES3 := Ttwu(1, 0, 3)

  ghost predicate Waiting(b: Block) {
    && 1 in b.lastType && 2 in b.lastType && b.lastType[2] == WaitBlocked && 3 in b.lastType
    && b.lastType[3] == WaitBlocked
    && b.context == map[]
  }

  /** A thread that is seen for the first time gets a type; nothing else that matters here changes. */
  lemma AppendFirst(events: seq<Stamped>, ts: Timestamp, tid: ThreadId, status: Status) returns (next: seq<Stamped>)
    requires EventsOk(events) && Now(events) <= ts && EventOk(ThreadStatus(tid, Some(status)))
    requires tid !in CriticalBlockRun.Run(events).lastType
    ensures next == events + [Stamped(ts, ThreadStatus(tid, Some(status)))] && EventsOk(next) && Now(next) == ts
    ensures CriticalBlockRun.Run(next).context == CriticalBlockRun.Run(events).context
    ensures CriticalBlockRun.Run(next).lastType
              == CriticalBlockRun.Run(events).lastType[tid := StatusType(Some(status))]
  {
    hide Inv, Block.Handle, Block.Closed, CriticalBlockRun.Run, EventsOk, Now;
    next := events + [Stamped(ts, ThreadStatus(tid, Some(status)))];
    Append(events, Stamped(ts, ThreadStatus(tid, Some(status))));
    HandleStatus(CriticalBlockRun.Run(events).(now := ts), tid, Some(status));
  }

  lemma WaitingRun() returns (events: seq<Stamped>)
    ensures events == [] + [Stamped(0, RUNS)] + [Stamped(0, WAITS2)] + [Stamped(0, WAITS3)]
    ensures EventsOk(events) && Now(events) == 0 && Waiting(CriticalBlockRun.Run(events))
  {
    hide Inv, Block.Handle, Block.Closed, CriticalBlockRun.Run, EventsOk, Now;
    NoEvents();
    events := AppendFirst([], 0, 1, RunUsermode);
    events := AppendFirst(events, 0, 2, Blocked);
    events := AppendFirst(events, 0, 3, Blocked);
  }

  /** Sending remembers the packet, and changes no type or context. */
  lemma SendRemembers(b: Block, cpu: Cpu, tid: ThreadId, key: PacketKey)
    requires Inv(b) && b.Closed() && b.Stack(cpu) == [] && b.Cuttable(tid)
    ensures var c := b.OnInetSockLocalOut(cpu, tid, key);
            key in c.packets && c.lastType == b.lastType && c.context == b.context
  {
    hide Inv, Block.Closed, Block.CutThread, Block.NewNode, Block.NewEdge, Later, NetworkNode;
    CutThreadInv(b, tid);
    PacketsKept(b, tid);
    var c := b.CutThread(tid);
    NetworkNodeInv(c);
    NewNodeFrame(c, NETWORK_THREAD);
    var m := c.NewNode(NETWORK_THREAD);
    NodeIsKept(c, m, b.nextNode);
    NetworkNodeIsNode(m, c.nextNode);
    NewEdgeFrame(m, Vertical, OutVertical, b.nextNode, c.nextNode);
  }

  lemma TypedIsCuttable(b: Block, tid: ThreadId)
    requires Inv(b) && tid in b.lastType
    ensures b.Cuttable(tid)
  {
  }

  lemma HandleSends(b: Block)
    requires Inv(b) && b.Closed() && Waiting(b)
    ensures Waiting(b.Handle(SENDS)) && KEY in b.Handle(SENDS).packets
  {
    hide Inv, Block.Closed, Block.Cuttable, Block.OnInetSockLocalOut;
    TypedIsCuttable(b, 1);
    SendRemembers(b, 0, 1, KEY);
  }

  lemma HandleReceives(b: Block)
    requires b.Closed() && Waiting(b) && KEY in b.packets
    ensures var c := b.Handle(INTERRUPTED).(now := 2);
            c.Closed() ==> PacketPending(c.Handle(RECEIVES), 1, 2, 3)
  {
    hide Block.Closed;
  }

  lemma ReceivedRun()
    ensures EventsOk(RECEIVED) && Now(RECEIVED) == 2 && PacketPending(CriticalBlockRun.Run(RECEIVED), 1, 2, 3)
  {
    hide Inv, Block.Handle, Block.Closed, CriticalBlockRun.Run, EventsOk, Now, PacketPending, Waiting;
    var waiting := WaitingRun();
    Append(waiting, Stamped(1, SENDS));
    WaitingLater(CriticalBlockRun.Run(waiting), 1);
    HandleSends(CriticalBlockRun.Run(waiting).(now := 1));
    var sent := waiting + [Stamped(1, SENDS)];
    Append(sent, Stamped(2, INTERRUPTED));
    WaitingLater(CriticalBlockRun.Run(sent), 2);
    var interrupted := sent + [Stamped(2, INTERRUPTED)];
    Append(interrupted, Stamped(2, RECEIVES));
    HandleReceives(CriticalBlockRun.Run(sent).(now := 2));
  }

  lemma WaitingLater(b: Block, now: Timestamp)
    ensures Waiting(b) ==> Waiting(b.(now := now))
    ensures KEY in b.packets ==> KEY in b.(now := now).packets
  {
  }

  /** A run whose slots and edge table no longer agree: a packet's interrupt wakes both waiting threads. */
  lemma TwoWakeUpsOverwrite() returns (events: seq<Stamped>)
    ensures events == RECEIVED + [Stamped(3, WAKES2)] + [Stamped(3, WAKES3)]
    ensures EventsOk(events) && !NeverOverwrites(events) && !Agrees(CriticalBlockRun.Run(events).g)
  {
    hide Inv, Block.Handle, Block.Closed, CriticalBlockRun.Run, EventsOk, Now, PacketPending, Overwrites, Agrees,
      NeverOverwrites;
    ReceivedRun();
    Append(RECEIVED, Stamped(3, WAKES2));
    var woken := RECEIVED + [Stamped(3, WAKES2)];
    PendingLater(CriticalBlockRun.Run(RECEIVED), 3);
    SecondWakeUpOverwrites(CriticalBlockRun.Run(RECEIVED).(now := 3), 1, 0, 2, 3, 3);
    Append(woken, Stamped(3, WAKES3));
    events := woken + [Stamped(3, WAKES3)];
    LastOverwrites(woken, Stamped(3, WAKES3));
    AgreesIffNeverOverwrites(events);
  }

  lemma PendingLater(b: Block, now: Timestamp)
    requires PacketPending(b, 1, 2, 3)
    ensures PacketPending(b.(now := now), 1, 2, 3)
  {
  }

  lemma LastOverwrites(events: seq<Stamped>, last: Stamped)
    requires EventsOk(events) && EventsOk(events + [last])
    requires Overwrites(CriticalBlockRun.Run(events).(now := last.ts), last.event)
    ensures !NeverOverwrites(events + [last])
  {
    assert (events + [last])[..|events|] == events;
    hide Inv, Block.Handle, Block.Closed, Overwrites, CriticalBlockRun.Run;
  }
}
