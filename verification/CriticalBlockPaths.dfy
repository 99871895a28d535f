/** The critical paths of the graphs that runs of the event handlers build. */
module CriticalBlockPaths {
  import opened Common
  import opened CriticalGraphs
  import opened CriticalBlockSpec
  import opened CriticalBlockInvariant
  import opened CriticalBlockRun
  import opened PathCoverage
  import opened PathCoverageExact
  import PathSpec
  import PathCausality

  // ----- Exit nodes are never linked

  /** Exit nodes are of real threads, and nothing leads out of them. */
  ghost predicate ExitsUnlinked(b: Block) {
    forall m <- b.exits ::
      m in b.g.nodes && b.g.nodes[m].tid != NETWORK_THREAD && b.g.nodes[m].outH.None?
  }

  /** `c` has the exit nodes of `b`, as they were. */
  ghost predicate SameExits(b: Block, c: Block) {
    && c.exits == b.exits
    && forall m <- b.exits :: m in b.g.nodes ==>
         m in c.g.nodes && c.g.nodes[m].tid == b.g.nodes[m].tid && c.g.nodes[m].outH == b.g.nodes[m].outH
  }

  lemma SameExitsUnlinked(b: Block, c: Block)
    requires ExitsUnlinked(b) && SameExits(b, c)
    ensures ExitsUnlinked(c)
  {
  }

  lemma SameExitsTransitive(b: Block, c: Block, d: Block)
    requires SameExits(b, c) && SameExits(c, d)
    ensures SameExits(b, d)
  {
  }

  lemma NewNodeSameExits(b: Block, tid: ThreadId)
    requires Aged(b)
    ensures SameExits(b, b.NewNode(tid))
  {
    assert b.nextNode !in b.g.nodes;
  }

  lemma NewEdgeSameExits(b: Block, etype: EdgeType, out: Position, from: NodeId, to: NodeId)
    requires from in b.g.nodes && to in b.g.nodes && (out == OutVertical || (out == OutHorizontal && from !in b.exits))
    ensures SameExits(b, b.NewEdge(etype, out, from, to))
  {
  }

  lemma CutSameExits(b: Block, tid: ThreadId)
    requires Inv(b) && b.Closed() && b.Cuttable(tid)
    ensures SameExits(b, b.CutThread(tid))
  {
    var last := b.g.LastNode(tid).value;
    assert last !in b.exits;
    NewNodeSameExits(b, tid);
    hide Inv, Block.Closed, Graph.LastNode, Block.NewNode, Block.NewEdge;
    var m := b.NewNode(tid);
    NewNodeFrame(b, tid);
    CutEndsExist(b, tid, last);
    NewEdgeSameExits(m, b.lastType[tid], OutHorizontal, last, b.nextNode);
    SameExitsTransitive(b, m, b.CutThread(tid));
  }

  lemma CutEndsExist(b: Block, tid: ThreadId, last: NodeId)
    requires b.Closed() && b.g.LastNode(tid) == Some(last)
    ensures last in b.NewNode(tid).g.nodes && b.nextNode in b.NewNode(tid).g.nodes
  {
  }

  lemma OnTTWUBetweenThreadsSameExits(b: Block, source: ThreadId, target: ThreadId)
    requires Inv(b) && b.Closed()
    ensures SameExits(b, b.OnTTWUBetweenThreads(source, target))
  {
    hide Inv, Block.CutThread, Block.NewEdge, Block.Closed, Block.RequestDisk, SameExits, Later;
    RequestDiskInv(b, target);
    var b0 := if source in b.diskThreads then b.RequestDisk(target) else b;
    TablesSameExits(b, b0);
    if b0.Cuttable(source) {
      CutSameExits(b0, source);
      CutThreadInv(b0, source);
      var b1 := b0.CutThread(source);
      InvIsClosed(b1);
      SameExitsTransitive(b, b0, b1);
      if b1.Cuttable(target) {
        CutSameExits(b1, target);
        CutThreadInv(b1, target);
        var b2 := b1.CutThread(target);
        SameExitsTransitive(b, b1, b2);
        NodeIsKept(b1, b2, b0.nextNode);
        NewEdgeSameExits(b2, Vertical, OutVertical, b0.nextNode, b1.nextNode);
        SameExitsTransitive(b, b2, b2.NewEdge(Vertical, OutVertical, b0.nextNode, b1.nextNode));
      }
    }
  }

  lemma TablesSameExits(b: Block, c: Block)
    requires c.g == b.g && c.exits == b.exits
    ensures SameExits(b, c)
  {
  }

  lemma NetworkIsNoExit(b: Block, n: NodeId)
    requires ExitsUnlinked(b) && NetworkNode(b.g, n)
    ensures n !in b.exits
  {
  }

  lemma NetworkWakeUpSameExits(b: Block, context: InterruptContext, target: ThreadId)
    requires Inv(b) && b.Closed() && ExitsUnlinked(b) && context.node.Some? && NetworkNode(b.g, context.node.value)
    requires target in b.lastType && b.lastType[target] == WaitBlocked
    ensures SameExits(b, b.OnWakeupFromInterrupt(context, target))
  {
    hide Inv, Block.CutThread, Block.NewEdge, Block.NewNode, Block.Closed, SameExits, Later, NetworkNode, ExitsUnlinked;
    var from := context.node.value;
    var m := b.NewNode(NETWORK_THREAD);
    NewNodeIsSameExits(b, NETWORK_THREAD);
    NewNodeFrame(b, NETWORK_THREAD);
    NetworkNodeInv(b);
    NetworkNodeIsNode(b, from);
    NetworkNodeIsNode(m, b.nextNode);
    NodeIsOld(b, from);
    NodeIsKept(b, m, from);
    NetworkStays(b, m, from);
    NetworkIsNoExit(b, from);
    NetworkEdgeInv(m, from, b.nextNode);
    var d := m.NewEdge(Run, OutHorizontal, from, b.nextNode);
    NewEdgeSameExits(m, Run, OutHorizontal, from, b.nextNode);
    SameExitsTransitive(b, m, d);
    InvIsClosed(d);
    NodeIsKept(m, d, b.nextNode);
    if d.Cuttable(target) {
      CutSameExits(d, target);
      CutThreadInv(d, target);
      var e := d.CutThread(target);
      SameExitsTransitive(b, d, e);
      NodeIsKept(d, e, b.nextNode);
      NewEdgeSameExits(e, Vertical, OutVertical, b.nextNode, d.nextNode);
      SameExitsTransitive(b, e, e.NewEdge(Vertical, OutVertical, b.nextNode, d.nextNode));
    }
  }

  lemma NewNodeIsSameExits(b: Block, tid: ThreadId)
    requires Inv(b)
    ensures SameExits(b, b.NewNode(tid))
  {
    NewNodeSameExits(b, tid);
  }

  lemma NetworkNodeIsNode(b: Block, n: NodeId)
    requires NetworkNode(b.g, n)
    ensures n in b.g.nodes
  {
  }

  lemma NetworkStays(b: Block, c: Block, n: NodeId)
    requires Later(b, c) && NetworkNode(b.g, n)
    ensures NetworkNode(c.g, n)
  {
  }

  lemma OnInetSockLocalOutSameExits(b: Block, cpu: Cpu, tid: ThreadId, key: PacketKey)
    requires Inv(b) && b.Closed()
    ensures SameExits(b, b.OnInetSockLocalOut(cpu, tid, key))
  {
    hide Inv, Block.CutThread, Block.NewEdge, Block.NewNode, Block.Closed, SameExits, Later, NetworkNode;
    TablesSameExits(b, b);
    if b.Stack(cpu) == [] && b.Cuttable(tid) {
      var c := b.CutThread(tid);
      CutSameExits(b, tid);
      CutThreadInv(b, tid);
      NetworkNodeInv(c);
      NewNodeIsSameExits(c, NETWORK_THREAD);
      var m := c.NewNode(NETWORK_THREAD);
      NetworkNodeIsNode(m, c.nextNode);
      NodeIsKept(c, m, b.nextNode);
      SameExitsTransitive(b, c, m);
      NewEdgeSameExits(m, Vertical, OutVertical, b.nextNode, c.nextNode);
      var d := m.NewEdge(Vertical, OutVertical, b.nextNode, c.nextNode);
      SameExitsTransitive(b, m, d);
      TablesSameExits(d, b.OnInetSockLocalOut(cpu, tid, key));
      SameExitsTransitive(b, d, b.OnInetSockLocalOut(cpu, tid, key));
    }
  }

  /** A status makes an exit node only when it says that the thread exited; that node is new. */
  lemma OnThreadStatusExits(b: Block, tid: ThreadId, status: Option<Status>)
    requires Inv(b) && b.Closed() && ExitsUnlinked(b) && tid != NETWORK_THREAD
    ensures ExitsUnlinked(b.OnThreadStatus(tid, status))
  {
    hide Inv, Block.CutThread, Block.NewNode, Block.Closed, SameExits, Graph.LastNode;
    var c := if b.Cuttable(tid) then b.CutThread(tid) else b.NewNode(tid);
    if b.Cuttable(tid) {
      CutSameExits(b, tid);
      CutIsUnlinked(b, tid);
      PacketsKept(b, tid);
    } else {
      NewNodeIsSameExits(b, tid);
      NewIsUnlinked(b, tid);
    }
    SameExitsUnlinked(b, c);
  }

  lemma NewIsUnlinked(b: Block, tid: ThreadId)
    ensures b.nextNode in b.NewNode(tid).g.nodes && b.NewNode(tid).g.nodes[b.nextNode].tid == tid
    ensures b.NewNode(tid).g.nodes[b.nextNode].outH.None?
  {
  }

  lemma CutIsUnlinked(b: Block, tid: ThreadId)
    requires Inv(b) && b.Closed() && b.Cuttable(tid)
    ensures var c := b.CutThread(tid);
            b.nextNode in c.g.nodes && c.g.nodes[b.nextNode].tid == tid && c.g.nodes[b.nextNode].outH.None?
  {
    NodeIsOld(b, b.g.LastNode(tid).value);
    hide Inv, Block.Closed, Graph.LastNode;
  }

  lemma HandleExits(b: Block, e: Event)
    requires Inv(b) && b.Closed() && EventOk(e) && ExitsUnlinked(b)
    ensures ExitsUnlinked(b.Handle(e))
  {
    hide Inv, Block.Closed, Block.OnTTWUBetweenThreads, Block.OnWakeupFromInterrupt, Block.OnThreadStatus,
      Block.OnInetSockLocalOut, ExitsUnlinked, SameExits, NetworkNode;
    match e {
      case ThreadStatus(tid, status) => OnThreadStatusExits(b, tid, status);
      case Ttwu(cpu, source, target) =>
        TablesSameExits(b, b);
        if b.Stack(cpu) == [] {
          OnTTWUBetweenThreadsSameExits(b, source, target);
        } else {
          InterruptSameExits(b, cpu, target);
        }
        SameExitsUnlinked(b, b.Handle(e));
      case InetSockLocalOut(cpu, tid, key) =>
        OnInetSockLocalOutSameExits(b, cpu, tid, key);
        SameExitsUnlinked(b, b.Handle(e));
      case _ =>
        TablesSameExits(b, b.Handle(e));
        SameExitsUnlinked(b, b.Handle(e));
    }
  }

  lemma InterruptSameExits(b: Block, cpu: Cpu, target: ThreadId)
    requires Inv(b) && b.Closed() && ExitsUnlinked(b) && b.Stack(cpu) != []
    ensures SameExits(b, b.OnWakeupFromInterrupt(b.Stack(cpu)[|b.Stack(cpu)| - 1], target))
  {
    var top := b.Stack(cpu)[|b.Stack(cpu)| - 1];
    assert top.node.Some? ==> NetworkNode(b.g, top.node.value) by { StackTopOk(b, cpu); }
    hide Inv, Block.Closed, ExitsUnlinked, NetworkNode, Block.NewEdge, Block.NewNode, Block.CutThread;
    if target in b.lastType && b.lastType[target] == WaitBlocked && top.node.Some? {
      NetworkWakeUpSameExits(b, top, target);
    }
  }

  /** No run ever links an exit node to a later one. */
  lemma {:induction false} RunExits(events: seq<Stamped>)
    requires EventsOk(events)
    ensures ExitsUnlinked(CriticalBlockRun.Run(events))
  {
    hide Inv, Block.Handle, Block.Closed;
    if events != [] {
      EventsOkPrefix(events);
      var init, last := events[..|events| - 1], events[|events| - 1];
      RunExits(init);
      AdvanceInv(CriticalBlockRun.Run(init), last.ts);
      var before := CriticalBlockRun.Run(init).(now := last.ts);
      assert ExitsUnlinked(before);
      HandleExits(before, last.event);
    }
  }

  // ----- Coverage of runs

  /** A thread that exited before the end of the window has no later node after its start: its id is not used again. */
  ghost predicate ExitsAreFinalIn(b: Block, startTs: Timestamp, endTs: Timestamp) {
    forall m <- b.exits, n <- b.g.nodes |
      m in b.g.nodes && b.g.nodes[n].tid == b.g.nodes[m].tid && b.g.nodes[m].ts < b.g.nodes[n].ts ::
      endTs <= b.g.nodes[m].ts || b.g.nodes[n].ts <= startTs
  }

  /** Every exit node is the last of its thread. */
  ghost predicate ExitsAreFinal(b: Block) {
    forall m <- b.exits, n <- b.g.nodes | m in b.g.nodes && b.g.nodes[n].tid == b.g.nodes[m].tid ::
      b.g.nodes[n].ts <= b.g.nodes[m].ts
  }

  /** The gaps of a built graph are the threads that return after an exit. */
  lemma GapsAreReuses(b: Block, startTs: Timestamp, endTs: Timestamp)
    requires Inv(b) && ExitsUnlinked(b)
    ensures GaplessIn(b.g, startTs, endTs) <==> ExitsAreFinalIn(b, startTs, endTs)
    ensures Gapless(b.g) <==> ExitsAreFinal(b)
  {
    assert LinkedUnlessExit(b) && Aged(b);
    hide Inv, ListedByAge, EdgesByAge, SlotsResolve, Typed, PacketsOk;
    UnlinkedHasExited(b);
  }

  lemma UnlinkedHasExited(b: Block)
    requires LinkedUnlessExit(b) && Aged(b)
    ensures forall n <- b.g.nodes, m <- b.g.nodes |
              b.g.nodes[n].tid == b.g.nodes[m].tid != NETWORK_THREAD && b.g.nodes[n].ts < b.g.nodes[m].ts ::
              n in b.exits || b.g.nodes[n].outH.Some?
  {
    forall n <- b.g.nodes, m <- b.g.nodes |
        b.g.nodes[n].tid == b.g.nodes[m].tid != NETWORK_THREAD && b.g.nodes[n].ts < b.g.nodes[m].ts
      ensures n < m
    {
      EarlierIsOlder(b, n, m);
    }
  }

  lemma EarlierIsOlder(b: Block, n: NodeId, m: NodeId)
    requires Aged(b) && n in b.g.nodes && m in b.g.nodes && b.g.nodes[n].ts < b.g.nodes[m].ts
    ensures n < m
  {
  }

  /** The context of a built graph: creation order as the rank, and any horizon beyond its nodes. */
  ghost predicate ContextOfRun(events: seq<Stamped>, c: PathSpec.Context)
    requires EventsOk(events)
  {
    var g := CriticalBlockRun.Run(events).g;
    c == PathSpec.Context(g, AgeRank(g), c.horizon) && forall n <- g.nodes :: g.nodes[n].ts <= c.horizon
  }

  lemma ContextOfRunIsOk(events: seq<Stamped>, c: PathSpec.Context)
    requires EventsOk(events) && CriticalBlockRun.Run(events).g.StrictTimes() && ContextOfRun(events, c)
    ensures c.Ok()
  {
    RunIsWellFormed(events);
    hide Inv, PathSpec.WellFormed;
  }

  /**
    From events to paths: where the query's way through a built graph is unbroken, its path is faithful, and tiles the
    window exactly if the window may end where it does. It is unbroken where no thread id used again after an exit
    and no packet's wake-up meets the window.
   */
  lemma RunsAreCovered(events: seq<Stamped>, c: PathSpec.Context, startTs: Timestamp, endTs: Timestamp, tid: ThreadId)
    requires EventsOk(events) && CriticalBlockRun.Run(events).g.StrictTimes() && ContextOfRun(events, c)
    requires startTs <= endTs <= c.horizon && tid != NETWORK_THREAD
    ensures c.Ok()
    ensures ExitsAreFinalIn(CriticalBlockRun.Run(events), startTs, endTs) && NoNetworkIn(c, startTs, endTs) ==>
              Unbroken(c, None, startTs, endTs, tid)
    ensures Unbroken(c, None, startTs, endTs, tid) ==>
              var path := c.Query(None, startTs, endTs, tid, []);
              Faithful(c, path) && (Tiles(path, startTs, endTs) <==> MayBeTiled(c, startTs, endTs, tid))
  {
    hide Inv, PathSpec.WellFormed, PathSpec.Context.Ok, GaplessIn, ExitsAreFinalIn, NoNetworkIn, Unbroken, MayBeTiled,
      Tiles, Faithful, CriticalBlockRun.Run, PathSpec.Context.Query, AccountedTime;
    ContextOfRunIsOk(events, c);
    RunExits(events);
    GapsAreReuses(CriticalBlockRun.Run(events), startTs, endTs);
    if ExitsAreFinalIn(CriticalBlockRun.Run(events), startTs, endTs) && NoNetworkIn(c, startTs, endTs) {
      MetIsUnbroken(c, None, startTs, endTs, tid);
    }
    if Unbroken(c, None, startTs, endTs, tid) {
      WindowIsTiledIff(c, startTs, endTs, tid);
    }
  }

  /** In a run without packets no wake-up is a packet's. */
  lemma NoPacketsNoWakeUps(events: seq<Stamped>, c: PathSpec.Context)
    requires EventsOk(events) && NoPackets(events) && ContextOfRun(events, c) && c.Ok()
    ensures NoNetworkWakeUps(c) && PathCausality.WakersResume(c)
  {
    RunOffline(events);
    assert forall n <- c.g.nodes :: c.g.nodes[n].tid != NETWORK_THREAD by {
      OfflineThreads(CriticalBlockRun.Run(events));
    }
    hide Inv, PathSpec.WellFormed, PathSpec.Context.Ok, Offline, CriticalBlockRun.Run;
    forall n <- c.g.nodes | c.g.nodes[n].inV.Some?
      ensures c.Tid(c.Waker(n)) != NETWORK_THREAD
    {
      var w := c.Waker(n);
      assert w in c.g.nodes;
    }
  }

  lemma OfflineThreads(b: Block)
    requires Offline(b)
    ensures forall n <- b.g.nodes :: b.g.nodes[n].tid != NETWORK_THREAD
  {
  }

  /** All windows of a run without packets are covered if and only if no thread id is used again after an exit. */
  lemma RunAlwaysCoversIff(events: seq<Stamped>, c: PathSpec.Context)
    requires EventsOk(events) && NoPackets(events) && CriticalBlockRun.Run(events).g.StrictTimes()
    requires ContextOfRun(events, c)
    ensures c.Ok() && (AlwaysCovers(c) <==> ExitsAreFinal(CriticalBlockRun.Run(events)))
  {
    hide Inv, PathSpec.WellFormed, PathSpec.Context.Ok, Gapless, ExitsAreFinal, NoNetworkWakeUps, AlwaysCovers,
      CriticalBlockRun.Run;
    ContextOfRunIsOk(events, c);
    RunExits(events);
    GapsAreReuses(CriticalBlockRun.Run(events), 0, 0);
    NoPacketsNoWakeUps(events, c);
    CoverageIffGapless(c);
  }
}
