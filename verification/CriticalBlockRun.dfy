/** Whole runs of the event handlers, and the graphs they build. */
module CriticalBlockRun {
  import opened Common
  import opened CriticalGraphs
  import opened CriticalBlockSpec
  import opened CriticalBlockInvariant
  import PathSpec

  datatype Stamped = Stamped(ts: Timestamp, event: Event)

  /** Timestamps do not decrease. */
  predicate EventsOk(events: seq<Stamped>) {
    && (forall i, j | 0 <= i < j < |events| :: events[i].ts <= events[j].ts)
    && (forall i | 0 <= i < |events| :: EventOk(events[i].event))
  }

  function Now(events: seq<Stamped>): Timestamp {
    if events == [] then 0 else events[|events| - 1].ts
  }

  lemma EmptyInv()
    ensures Inv(EMPTY) && EMPTY.Closed()
  {
  }

  lemma AdvanceInv(b: Block, ts: Timestamp)
    requires Inv(b) && b.now <= ts
    ensures Inv(b.(now := ts)) && b.(now := ts).Closed()
  {
    var c := b.(now := ts);
    assert PacketsOk(c);
    hide EdgesByAge, SlotsResolve, LinkedUnlessExit, PacketsOk;
    assert Inv(c) by { hide ListedByAge; }
    InvIsClosed(c);
  }

  lemma OnTTWUKeepsNow(b: Block, cpu: Cpu, source: ThreadId, target: ThreadId)
    requires b.Closed()
    ensures b.OnTTWU(cpu, source, target).now == b.now
  {
    hide Graph.AddNode, Graph.Link, Graph.LastNode;
  }

  lemma OnSockOrStatusKeepsNow(b: Block, cpu: Cpu, tid: ThreadId, key: PacketKey, status: Option<Status>)
    requires b.Closed()
    ensures b.OnInetSockLocalOut(cpu, tid, key).now == b.OnThreadStatus(tid, status).now == b.now
  {
    hide Graph.AddNode, Graph.Link, Graph.LastNode;
  }

  lemma HandleKeepsNow(b: Block, e: Event)
    requires b.Closed()
    ensures b.Handle(e).now == b.now
  {
    hide Block.OnTTWU, Block.OnInetSockLocalOut, Block.OnThreadStatus, Block.Closed;
    match e {
      case Ttwu(cpu, source, target) => OnTTWUKeepsNow(b, cpu, source, target);
      case InetSockLocalOut(cpu, tid, key) => OnSockOrStatusKeepsNow(b, cpu, tid, key, None);
      case ThreadStatus(tid, status) => OnSockOrStatusKeepsNow(b, 0, tid, PacketKey(0, 0, 0), status);
      case _ =>
    }
  }

  lemma EventsOkPrefix(events: seq<Stamped>)
    requires EventsOk(events) && events != []
    ensures EventsOk(events[..|events| - 1]) && Now(events[..|events| - 1]) <= Now(events)
  {
  }

  /** The state after a run of events; every run keeps the invariant. */
  ghost function Run(events: seq<Stamped>): (b: Block)
    requires EventsOk(events)
    ensures Inv(b) && b.Closed() && b.now == Now(events)
  {
    if events == [] then EmptyInv(); EMPTY
    else
      EventsOkPrefix(events);
      var last := events[|events| - 1];
      var before := Run(events[..|events| - 1]);
      AdvanceInv(before, last.ts);
      HandleInv(before.(now := last.ts), last.event);
      HandleKeepsNow(before.(now := last.ts), last.event);
      InvIsClosed(before.(now := last.ts).Handle(last.event));
      before.(now := last.ts).Handle(last.event)
  }

  // ----- Acyclicity

  /** Each edge starts where the one before it ends. */
  ghost predicate Chain(g: Graph, walk: seq<EdgeId>) {
    && (forall i | 0 <= i < |walk| :: walk[i] in g.edges)
    && (forall i | 0 < i < |walk| :: g.edges[walk[i - 1]].to == g.edges[walk[i]].from)
  }

  /** No chain of edges returns to where it started. */
  lemma {:induction false} RunIsAcyclic(events: seq<Stamped>, walk: seq<EdgeId>)
    requires EventsOk(events) && walk != [] && Chain(Run(events).g, walk)
    ensures var g := Run(events).g;
            g.edges[walk[0]].from < g.edges[walk[|walk| - 1]].to
  {
    var g := Run(events).g;
    EdgeIsForward(g, g.edges[walk[|walk| - 1]]);
    if |walk| > 1 {
      var init := walk[..|walk| - 1];
      assert init[|init| - 1] == walk[|walk| - 2] && init[0] == walk[0];
      RunIsAcyclic(events, init);
    }
  }

  // ----- Links within a thread

  /** Consecutive nodes of a thread are linked, unless the first is an exit node. */
  lemma ConsecutiveNodesAreLinked(events: seq<Stamped>, tid: ThreadId, i: nat)
    requires EventsOk(events)
    requires var g := Run(events).g;
             tid in g.threads && tid != NETWORK_THREAD && i + 1 < |g.threads[tid]|
    ensures var b := Run(events);
            var m, n := b.g.threads[tid][i], b.g.threads[tid][i + 1];
            && m in b.g.nodes && n in b.g.nodes
            && (m in b.exits || (b.g.nodes[m].outH.Some? && b.g.nodes[m].outH.value in b.g.edges
                                 && b.g.edges[b.g.nodes[m].outH.value].from == m
                                 && b.g.edges[b.g.nodes[m].outH.value].to == n))
  {
    var b := Run(events);
    LinksJoinNeighbours(b, tid, i);
  }

  lemma LinksJoinNeighbours(b: Block, tid: ThreadId, i: nat)
    requires Inv(b) && tid in b.g.threads && tid != NETWORK_THREAD && i + 1 < |b.g.threads[tid]|
    ensures var m, n := b.g.threads[tid][i], b.g.threads[tid][i + 1];
            && m in b.g.nodes && n in b.g.nodes
            && (m in b.exits || (b.g.nodes[m].outH.Some? && b.g.nodes[m].outH.value in b.g.edges
                                 && b.g.edges[b.g.nodes[m].outH.value].from == m
                                 && b.g.edges[b.g.nodes[m].outH.value].to == n))
  {
    var g := b.g;
    var m, n := g.threads[tid][i], g.threads[tid][i + 1];
    assert ListedByAge(g) && m < n;
    if m !in b.exits {
      assert LinkedUnlessExit(b) && g.nodes[m].Slot(OutHorizontal).Some?;
      var e := g.nodes[m].outH.value;
      assert g.SlotResolves(m, OutHorizontal, e) && EdgeByAge(g, g.edges[e]);
      var to := g.edges[e].to;
      assert to <= n;
      var k :| 0 <= k < |g.threads[tid]| && g.threads[tid][k] == to;
      assert i < k;
    }
  }

  // ----- From runs to critical paths

  /** Creation order as a rank. */
  function AgeRank(g: Graph): map<NodeId, nat> { map n | n in g.nodes :: n }

  /** Where no thread has two nodes at one time, a built graph is well-formed, ranked by creation order. */
  lemma RunIsWellFormed(events: seq<Stamped>)
    requires EventsOk(events) && Run(events).g.StrictTimes()
    ensures PathSpec.WellFormed(Run(events).g, AgeRank(Run(events).g))
  {
    BuiltIsWellFormed(Run(events));
  }

  lemma BuiltIsWellFormed(b: Block)
    requires Inv(b) && b.g.StrictTimes()
    ensures PathSpec.WellFormed(b.g, AgeRank(b.g))
  {
    BuiltIsResolved(b);
    BuiltIsThreaded(b);
    assert PathSpec.RankFollowsTime(b.g, AgeRank(b.g)) by {
      assert Aged(b);
      hide ListedByAge, EdgesByAge, SlotsResolve, LinkedUnlessExit, Typed, PacketsOk;
    }
    forall e <- b.g.edges
      ensures PathSpec.EdgeOk(b.g, AgeRank(b.g), b.g.edges[e])
    {
      BuiltEdgeOk(b, b.g.edges[e]);
    }
  }

  lemma BuiltIsResolved(b: Block)
    requires Inv(b)
    ensures b.g.Resolved()
  {
    hide Aged, ListedByAge, LinkedUnlessExit, Typed, PacketsOk;
  }

  lemma BuiltIsThreaded(b: Block)
    requires Inv(b)
    ensures b.g.Threaded()
  {
    hide EdgesByAge, SlotsResolve, LinkedUnlessExit, Typed, PacketsOk;
  }

  lemma BuiltEdgeOk(b: Block, edge: Edge)
    requires Inv(b) && b.g.StrictTimes() && EdgeByAge(b.g, edge)
    ensures PathSpec.EdgeOk(b.g, AgeRank(b.g), edge)
  {
    assert Aged(b);
    hide ListedByAge, EdgesByAge, SlotsResolve, LinkedUnlessExit, Typed, PacketsOk;
    var from, to := edge.from, edge.to;
    if !edge.etype.Vertical? && b.g.nodes[from].tid != NETWORK_THREAD {
      forall k <- b.g.nodes | b.g.nodes[k].tid == b.g.nodes[from].tid
        ensures b.g.nodes[k].ts <= b.g.nodes[from].ts || b.g.nodes[to].ts <= b.g.nodes[k].ts
      {
        assert k <= from || to <= k;
      }
    }
  }

  // ----- Runs without network traffic

  /** Nothing has been sent: no packet is remembered and the network thread has no node. */
  ghost predicate Offline(b: Block) {
    && b.packets == map[]
    && (forall n <- b.g.nodes :: b.g.nodes[n].tid != NETWORK_THREAD)
    && (forall c <- b.context, i | 0 <= i < |b.context[c]| :: b.context[c][i].node.None?)
  }

  predicate NoPackets(events: seq<Stamped>) {
    forall i | 0 <= i < |events| :: !events[i].event.InetSockLocalOut?
  }

  lemma CutOffline(b: Block, tid: ThreadId)
    requires b.Closed() && b.Cuttable(tid) && tid != NETWORK_THREAD && Offline(b)
    ensures Offline(b.CutThread(tid)) && b.CutThread(tid).lastType == b.lastType
    ensures b.nextNode in b.CutThread(tid).g.nodes
    ensures forall n <- b.g.nodes :: n in b.CutThread(tid).g.nodes
  {
    assert forall n <- b.CutThread(tid).g.nodes :: n == b.nextNode || n in b.g.nodes;
  }

  lemma TTWUOffline(b: Block, cpu: Cpu, source: ThreadId, target: ThreadId)
    requires b.Closed() && NETWORK_THREAD !in b.lastType && Offline(b)
    ensures Offline(b.OnTTWU(cpu, source, target))
  {
    hide Offline, Block.CutThread, Block.NewEdge, Block.RequestDisk;
    if b.Stack(cpu) != [] {
      WakeUpFromInterruptOffline(b, cpu, target);
    } else if source != INVALID_THREAD && target != INVALID_THREAD {
      var b0 := if source in b.diskThreads then b.RequestDisk(target) else b;
      RequestDiskOffline(b, target);
      if b0.Cuttable(source) {
        CutOffline(b0, source);
        var b1 := b0.CutThread(source);
        if b1.Cuttable(target) {
          CutOffline(b1, target);
          NewEdgeOffline(b1.CutThread(target), Vertical, OutVertical, b0.nextNode, b1.nextNode);
        }
      }
    }
  }

  lemma RequestDiskOffline(b: Block, tid: ThreadId)
    requires b.Closed() && Offline(b)
    ensures Offline(b.RequestDisk(tid)) && b.RequestDisk(tid).(requests := b.requests) == b
    ensures b.RequestDisk(tid).Closed()
  {
  }

  lemma NewEdgeOffline(b: Block, etype: EdgeType, out: Position, from: NodeId, to: NodeId)
    requires Offline(b) && from in b.g.nodes && to in b.g.nodes
    ensures Offline(b.NewEdge(etype, out, from, to))
  {
  }

  lemma WakeUpFromInterruptOffline(b: Block, cpu: Cpu, target: ThreadId)
    requires b.Closed() && Offline(b) && b.Stack(cpu) != []
    ensures Offline(b.OnWakeupFromInterrupt(b.Stack(cpu)[|b.Stack(cpu)| - 1], target))
  {
  }

  lemma StatusOffline(b: Block, tid: ThreadId, status: Option<Status>)
    requires b.Closed() && Offline(b) && tid != NETWORK_THREAD
    ensures Offline(b.OnThreadStatus(tid, status))
  {
    if b.Cuttable(tid) { CutOffline(b, tid); }
    hide Block.CutThread;
  }

  lemma TablesOffline(b: Block, cpu: Cpu, etype: EdgeType, key: PacketKey, tid: ThreadId, name: Option<string>)
    requires Offline(b)
    ensures Offline(b.Enter(cpu, etype)) && Offline(b.Leave(cpu, etype))
    ensures Offline(b.OnInetSockLocalIn(cpu, key)) && Offline(b.OnThreadName(tid, name))
  {
  }

  lemma HandleOffline(b: Block, e: Event)
    requires Inv(b) && b.Closed() && EventOk(e) && Offline(b) && !e.InetSockLocalOut?
    ensures Offline(b.Handle(e))
  {
    assert NETWORK_THREAD !in b.lastType;
    hide Inv, Offline, Block.Closed, Block.OnTTWU, Block.OnThreadStatus, Block.Enter, Block.Leave,
      Block.OnInetSockLocalIn, Block.OnThreadName;
    match e {
      case Ttwu(cpu, source, target) => TTWUOffline(b, cpu, source, target);
      case ThreadStatus(tid, status) => StatusOffline(b, tid, status);
      case SoftIrqEntry(cpu, vec) => TablesOffline(b, cpu, ResolveSoftIRQ(vec), PacketKey(0, 0, 0), 0, None);
      case SoftIrqExit(cpu, vec) => TablesOffline(b, cpu, ResolveSoftIRQ(vec), PacketKey(0, 0, 0), 0, None);
      case IrqHandlerEntry(cpu, irq) => TablesOffline(b, cpu, ResolveIRQ(irq), PacketKey(0, 0, 0), 0, None);
      case IrqHandlerExit(cpu, irq) => TablesOffline(b, cpu, ResolveIRQ(irq), PacketKey(0, 0, 0), 0, None);
      case HrtimerExpireEntry(cpu) => TablesOffline(b, cpu, Timer, PacketKey(0, 0, 0), 0, None);
      case HrtimerExpireExit(cpu) => TablesOffline(b, cpu, Timer, PacketKey(0, 0, 0), 0, None);
      case InetSockLocalIn(cpu, key) => TablesOffline(b, cpu, Timer, key, 0, None);
      case ThreadName(tid, name) => TablesOffline(b, 0, Timer, PacketKey(0, 0, 0), tid, name);
    }
  }

  lemma {:induction false} RunOffline(events: seq<Stamped>)
    requires EventsOk(events) && NoPackets(events)
    ensures Offline(Run(events))
  {
    if events != [] {
      EventsOkPrefix(events);
      var last := events[|events| - 1];
      RunOffline(events[..|events| - 1]);
      var before := Run(events[..|events| - 1]).(now := last.ts);
      AdvanceInv(Run(events[..|events| - 1]), last.ts);
      assert Offline(before);
      hide Inv;
      HandleOffline(before, last.event);
    }
  }

  // ----- What the handlers record

  lemma IdsAreFresh(b: Block)
    requires Inv(b)
    ensures b.nextNode !in b.g.nodes && b.nextNode + 1 !in b.g.nodes
  {
    assert Aged(b);
    hide Inv;
  }

  lemma RequestKeeps(b: Block, tid: ThreadId)
    requires b.Closed()
    ensures b.RequestDisk(tid).(requests := b.requests) == b && b.RequestDisk(tid).Closed()
  {
  }

  lemma CutThreadEffect(b: Block, tid: ThreadId)
    requires b.Closed() && b.Cuttable(tid) && b.nextNode !in b.g.nodes
    ensures var c := b.CutThread(tid);
            && c.nextNode == b.nextNode + 1 && c.nextEdge == b.nextEdge + 1 && c.now == b.now
            && c.lastType == b.lastType
            && c.g.LastNode(tid) == Some(b.nextNode) && (forall t | t != tid :: c.g.LastNode(t) == b.g.LastNode(t))
            && c.g.nodes.Keys == b.g.nodes.Keys + {b.nextNode} && c.g.nodes[b.nextNode].ts == b.now
            && c.g.edges == b.g.edges[b.nextEdge := Edge(b.lastType[tid], b.g.LastNode(tid).value, b.nextNode)]
            && c.g.nodes[b.nextNode].inH == Some(b.nextEdge) && c.exits == b.exits
            && (forall n <- b.g.nodes :: c.g.nodes[n].ts == b.g.nodes[n].ts && c.g.nodes[n].outV == b.g.nodes[n].outV)
  {
  }
}
