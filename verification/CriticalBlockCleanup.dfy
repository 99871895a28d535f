/**
  Which runs of the event handlers leave a graph that may be cleaned up: those in which no
  network node wakes a second thread. Cleaned graphs answer path queries as built ones do.
 */
module CriticalBlockCleanup {
  import opened Common
  import opened CriticalGraphs
  import opened GraphCleanupSpec
  import opened CriticalBlockSpec
  import opened CriticalBlockInvariant
  import opened CriticalBlockRun
  import PathSpec
  import GraphCleanupPaths

  ghost predicate Tabled(g: Graph) {
    forall e <- g.edges :: Held(g, e)
  }

  /** All edges of `g` are in `h`, and those whose ends had lost them have not been given back. */
  ghost predicate Outgrows(g: Graph, h: Graph) {
    forall e <- g.edges :: e in h.edges && (Held(h, e) ==> Held(g, e))
  }

  lemma OutgrowsTransitive(g: Graph, h: Graph, k: Graph)
    requires Outgrows(g, h) && Outgrows(h, k)
    ensures Outgrows(g, k)
  {
    hide Held;
  }

  lemma OutgrownIsTabled(g: Graph, h: Graph)
    requires Outgrows(g, h) && Tabled(h)
    ensures Tabled(g)
  {
    hide Held;
  }

  // ----- Nodes and edges

  lemma NewNodeOutgrows(b: Block, tid: ThreadId)
    requires Aged(b) && SlotsResolve(b.g) && EdgesByAge(b.g)
    ensures Outgrows(b.g, b.NewNode(tid).g) && (Tabled(b.g) ==> Tabled(b.NewNode(tid).g))
    ensures b.nextNode in b.NewNode(tid).g.nodes
    ensures forall p: Position :: b.NewNode(tid).g.nodes[b.nextNode].Slot(p).None?
    ensures forall n <- b.g.nodes :: b.NewNode(tid).g.nodes[n] == b.g.nodes[n]
  {
    assert b.nextNode !in b.g.nodes;
    forall e <- b.g.edges
      ensures Held(b.g, e) <==> Held(b.NewNode(tid).g, e)
    {
      assert EdgeByAge(b.g, b.g.edges[e]);
    }
  }

  /** An edge into empty slots keeps the table; one over a used slot takes that slot's edge out of it. */
  lemma NewEdgeOutgrows(b: Block, etype: EdgeType, out: Position, from: NodeId, to: NodeId)
    requires b.nextEdge !in b.g.edges && from in b.g.nodes && to in b.g.nodes && from != to
    requires (out == OutVertical || out == OutHorizontal) && (etype.Vertical? <==> out.IsVertical())
    ensures var h := b.NewEdge(etype, out, from, to).g;
            && Outgrows(b.g, h) && Held(h, b.nextEdge)
            && (Tabled(b.g) && b.g.nodes[from].Slot(out).None? && b.g.nodes[to].Slot(out.Opposite()).None? ==>
                Tabled(h))
  {
    var h := b.NewEdge(etype, out, from, to).g;
    LinkEdges(b.g, b.nextEdge, etype, out, from, to);
    LinkSlots(b.g, b.nextEdge, etype, out, from, to);
    assert OutPosition(h.edges[b.nextEdge]) == out;
    hide Graph.Link;
    forall e <- b.g.edges
      ensures Held(h, e) ==> Held(b.g, e)
    {
    }
  }

  lemma LinkSlots(g: Graph, e: EdgeId, etype: EdgeType, out: Position, from: NodeId, to: NodeId)
    requires from in g.nodes && to in g.nodes && from != to && (out == OutVertical || out == OutHorizontal)
    ensures var h := g.Link(e, etype, out, from, to);
            && h.nodes.Keys == g.nodes.Keys
            && forall n <- g.nodes, p: Position ::
                 h.nodes[n].Slot(p) ==
                 if (n == from && p == out) || (n == to && p == out.Opposite()) then Some(e) else g.nodes[n].Slot(p)
  {
  }

  lemma UsedSlotIsLost(b: Block, etype: EdgeType, from: NodeId, to: NodeId)
    requires SlotsResolve(b.g) && b.nextEdge !in b.g.edges && from in b.g.nodes && to in b.g.nodes && from != to
    requires b.g.nodes[from].outH.Some? && !etype.Vertical?
    ensures !Tabled(b.NewEdge(etype, OutHorizontal, from, to).g)
  {
    var e := b.g.nodes[from].outH.value;
    assert b.g.SlotResolves(from, OutHorizontal, e) by { assert b.g.nodes[from].Slot(OutHorizontal) == Some(e); }
    LinkEdges(b.g, b.nextEdge, etype, OutHorizontal, from, to);
    LinkSlots(b.g, b.nextEdge, etype, OutHorizontal, from, to);
    var h := b.NewEdge(etype, OutHorizontal, from, to).g;
    assert h.nodes[from].Slot(OutHorizontal) == Some(b.nextEdge);
    assert h.edges[e] == b.g.edges[e];
    assert !Held(h, e);
  }

  lemma LinkGoesOn(b: Block, n: NodeId) returns (to: NodeId)
    requires Inv(b) && n in b.g.nodes && b.g.nodes[n].tid != NETWORK_THREAD && b.g.nodes[n].outH.Some?
    ensures to in b.g.nodes && b.g.nodes[to].tid == b.g.nodes[n].tid && n < to
  {
    assert b.g.nodes[n].Slot(OutHorizontal).Some?;
    var e := b.g.nodes[n].outH.value;
    assert b.g.SlotResolves(n, OutHorizontal, e) && EdgeByAge(b.g, b.g.edges[e]);
    to := b.g.edges[e].to;
  }

  lemma LastIsOld(b: Block, tid: ThreadId)
    requires Inv(b) && b.g.LastNode(tid).Some?
    ensures var last := b.g.LastNode(tid).value;
            && last in b.g.nodes && last < b.nextNode && b.g.nodes[last].tid == tid
            && forall n <- b.g.nodes | b.g.nodes[n].tid == tid :: n <= last
  {
    LastIsLatest(b, tid);
    NodeIsOld(b, b.g.LastNode(tid).value);
  }

  /** The last node of a thread has no link out of it. */
  lemma LastIsUnlinked(b: Block, tid: ThreadId)
    requires Inv(b) && tid != NETWORK_THREAD && b.g.LastNode(tid).Some?
    ensures var last := b.g.LastNode(tid).value;
            last in b.g.nodes && last < b.nextNode && b.g.nodes[last].outH.None?
  {
    hide Inv, Graph.LastNode;
    LastIsOld(b, tid);
    if b.g.nodes[b.g.LastNode(tid).value].outH.Some? {
      var to := LinkGoesOn(b, b.g.LastNode(tid).value);
    }
  }

  /** `c` grew from `b` without disturbing the wake-up slots of the nodes `b` had. */
  ghost predicate QuietlyOutgrows(b: Block, c: Block) {
    && Outgrows(b.g, c.g) && (Tabled(b.g) ==> Tabled(c.g))
    && forall n <- b.g.nodes ::
         n in c.g.nodes && c.g.nodes[n].outV == b.g.nodes[n].outV && c.g.nodes[n].inV == b.g.nodes[n].inV
  }

  lemma QuietlyTransitive(b: Block, c: Block, d: Block)
    requires QuietlyOutgrows(b, c) && QuietlyOutgrows(c, d)
    ensures QuietlyOutgrows(b, d)
  {
    hide Held, Tabled, Outgrows;
    OutgrowsTransitive(b.g, c.g, d.g);
  }

  lemma NewNodeQuiet(b: Block, tid: ThreadId)
    requires Inv(b)
    ensures var m := b.NewNode(tid);
            && QuietlyOutgrows(b, m) && b.nextNode in m.g.nodes && m.nextEdge !in m.g.edges
            && (forall n <- b.g.nodes :: m.g.nodes[n] == b.g.nodes[n])
            && m.g.nodes[b.nextNode].outV.None? && m.g.nodes[b.nextNode].inV.None?
            && m.g.nodes[b.nextNode].outH.None? && m.g.nodes[b.nextNode].inH.None?
  {
    assert b.nextEdge !in b.g.edges;
    NewNodeOutgrows(b, tid);
    hide Inv, Held, Tabled, Outgrows;
  }

  /** A link into empty slots. */
  lemma LinkQuiet(b: Block, etype: EdgeType, from: NodeId, to: NodeId)
    requires b.nextEdge !in b.g.edges && from in b.g.nodes && to in b.g.nodes && from != to && !etype.Vertical?
    requires b.g.nodes[from].outH.None? && b.g.nodes[to].inH.None?
    ensures QuietlyOutgrows(b, b.NewEdge(etype, OutHorizontal, from, to))
  {
    var c := b.NewEdge(etype, OutHorizontal, from, to);
    assert b.g.nodes[from].Slot(OutHorizontal).None? && b.g.nodes[to].Slot(InHorizontal).None?;
    NewEdgeOutgrows(b, etype, OutHorizontal, from, to);
    LinkSlots(b.g, b.nextEdge, etype, OutHorizontal, from, to);
    hide Held, Tabled, Outgrows, Graph.Link;
    forall n <- b.g.nodes
      ensures n in c.g.nodes && c.g.nodes[n].outV == b.g.nodes[n].outV && c.g.nodes[n].inV == b.g.nodes[n].inV
    {
      assert c.g.nodes[n].Slot(OutVertical) == b.g.nodes[n].Slot(OutVertical);
      assert c.g.nodes[n].Slot(InVertical) == b.g.nodes[n].Slot(InVertical);
    }
  }

  lemma CutOutgrows(b: Block, tid: ThreadId)
    requires Inv(b) && b.Closed() && b.Cuttable(tid)
    ensures var c := b.CutThread(tid);
            && QuietlyOutgrows(b, c) && b.nextNode in c.g.nodes
            && c.g.nodes[b.nextNode].outV.None? && c.g.nodes[b.nextNode].inV.None?
  {
    assert tid != NETWORK_THREAD && HorizontalType(b.lastType[tid]);
    hide Inv, Block.NewNode, Block.NewEdge, Block.Closed, Graph.LastNode, QuietlyOutgrows;
    LastIsUnlinked(b, tid);
    NewNodeQuiet(b, tid);
    var m, last := b.NewNode(tid), b.g.LastNode(tid).value;
    assert b.lastType == m.lastType by { NewNodeFrame(b, tid); }
    assert last in m.g.nodes by { QuietKeeps(b, m, last); }
    LinkQuiet(m, b.lastType[tid], last, b.nextNode);
    QuietlyTransitive(b, m, b.CutThread(tid));
    QuietKeeps(m, b.CutThread(tid), b.nextNode);
  }

  lemma QuietKeeps(b: Block, c: Block, n: NodeId)
    requires QuietlyOutgrows(b, c) && n in b.g.nodes
    ensures n in c.g.nodes && c.g.nodes[n].outV == b.g.nodes[n].outV && c.g.nodes[n].inV == b.g.nodes[n].inV
  {
  }

  /** A wake-up between two nodes that have none yet. */
  lemma WakeUpOutgrows(b: Block, from: NodeId, to: NodeId)
    requires Inv(b) && from in b.g.nodes && to in b.g.nodes && from != to
    requires b.g.nodes[from].outV.None? && b.g.nodes[to].inV.None?
    ensures var h := b.NewEdge(Vertical, OutVertical, from, to).g;
            Outgrows(b.g, h) && (Tabled(b.g) ==> Tabled(h))
  {
    assert b.nextEdge !in b.g.edges by { assert Aged(b); }
    hide Inv, Outgrows, Tabled, Graph.Link;
    assert b.g.nodes[from].Slot(OutVertical).None? && b.g.nodes[to].Slot(InVertical).None?;
    NewEdgeOutgrows(b, Vertical, OutVertical, from, to);
  }

  // ----- Handlers

  /** A wake-up from an interrupt whose packet's node has already been linked to another wake-up. */
  predicate Overwrites(b: Block, e: Event) {
    && e.Ttwu? && b.Stack(e.cpu) != []
    && var node := b.Stack(e.cpu)[|b.Stack(e.cpu)| - 1].node;
       && node.Some? && node.value in b.g.nodes && b.g.nodes[node.value].outH.Some?
       && e.target in b.lastType && b.lastType[e.target] == WaitBlocked
  }

  /** `h` grew from `g`; slots and table still agree if they did. */
  ghost predicate KeepsTable(g: Graph, h: Graph) {
    Outgrows(g, h) && (Tabled(g) ==> Tabled(h))
  }

  lemma KeepsTableTransitive(g: Graph, h: Graph, k: Graph)
    requires KeepsTable(g, h) && KeepsTable(h, k)
    ensures KeepsTable(g, k)
  {
    hide Outgrows, Tabled;
    OutgrowsTransitive(g, h, k);
  }

  lemma CutKeepsTable(b: Block, tid: ThreadId)
    requires Inv(b) && b.Closed() && b.Cuttable(tid)
    ensures KeepsTable(b.g, b.CutThread(tid).g) && Inv(b.CutThread(tid))
  {
    hide Inv, Block.CutThread, Block.Closed, Outgrows, Tabled;
    CutOutgrows(b, tid);
    CutThreadInv(b, tid);
  }

  lemma OnTTWUBetweenThreadsKeepsTable(b: Block, source: ThreadId, target: ThreadId)
    requires Inv(b) && b.Closed()
    ensures KeepsTable(b.g, b.OnTTWUBetweenThreads(source, target).g)
  {
    hide Inv, Block.CutThread, Block.NewEdge, Block.Closed, Block.RequestDisk, KeepsTable, QuietlyOutgrows;
    SameKeepsTable(b.g);
    RequestDiskInv(b, target);
    var b0 := if source in b.diskThreads then b.RequestDisk(target) else b;
    if b0.Cuttable(source) {
      CutOutgrows(b0, source);
      CutKeepsTable(b0, source);
      CutThreadInv(b0, source);
      var b1 := b0.CutThread(source);
      InvIsClosed(b1);
      if b1.Cuttable(target) {
        CutOutgrows(b1, target);
        CutKeepsTable(b1, target);
        var b2 := b1.CutThread(target);
        QuietKeeps(b1, b2, b0.nextNode);
        assert b0.nextNode != b1.nextNode;
        WakeUpOutgrows(b2, b0.nextNode, b1.nextNode);
        KeepsTableMeans(b2.g, b2.NewEdge(Vertical, OutVertical, b0.nextNode, b1.nextNode).g);
        KeepsTableTransitive(b.g, b1.g, b2.g);
        KeepsTableTransitive(b.g, b2.g, b2.NewEdge(Vertical, OutVertical, b0.nextNode, b1.nextNode).g);
      }
    }
  }

  lemma SameKeepsTable(g: Graph)
    ensures KeepsTable(g, g)
  {
  }

  lemma KeepsTableMeans(g: Graph, h: Graph)
    ensures KeepsTable(g, h) <==> Outgrows(g, h) && (Tabled(g) ==> Tabled(h))
  {
  }

  lemma QuietKeepsTable(b: Block, c: Block)
    requires QuietlyOutgrows(b, c)
    ensures KeepsTable(b.g, c.g)
  {
  }

  lemma OnInetSockLocalOutKeepsTable(b: Block, cpu: Cpu, tid: ThreadId, key: PacketKey)
    requires Inv(b) && b.Closed()
    ensures KeepsTable(b.g, b.OnInetSockLocalOut(cpu, tid, key).g)
  {
    hide Inv, Block.CutThread, Block.NewEdge, Block.NewNode, Block.Closed, KeepsTable, QuietlyOutgrows;
    SameKeepsTable(b.g);
    if b.Stack(cpu) == [] && b.Cuttable(tid) {
      var c := b.CutThread(tid);
      CutOutgrows(b, tid);
      CutThreadInv(b, tid);
      NewNodeQuiet(c, NETWORK_THREAD);
      NetworkNodeInv(c);
      var m := c.NewNode(NETWORK_THREAD);
      QuietlyTransitive(b, c, m);
      QuietKeepsTable(b, m);
      QuietKeeps(c, m, b.nextNode);
      WakeUpOutgrows(m, b.nextNode, c.nextNode);
      var d := m.NewEdge(Vertical, OutVertical, b.nextNode, c.nextNode);
      KeepsTableMeans(m.g, d.g);
      KeepsTableTransitive(b.g, m.g, d.g);
    }
  }

  lemma OnThreadStatusKeepsTable(b: Block, tid: ThreadId, status: Option<Status>)
    requires Inv(b) && b.Closed()
    ensures KeepsTable(b.g, b.OnThreadStatus(tid, status).g)
  {
    hide Inv, Block.CutThread, Block.NewNode, Block.Closed, KeepsTable, QuietlyOutgrows;
    SameKeepsTable(b.g);
    if b.Cuttable(tid) { CutKeepsTable(b, tid); }
    NewNodeQuiet(b, tid);
    QuietKeepsTable(b, b.NewNode(tid));
  }

  /** The link of a network wake-up: kept if the packet's node had none, at the cost of that one otherwise. */
  lemma NetworkLinkKeepsTable(b: Block, from: NodeId)
    requires Inv(b) && NetworkNode(b.g, from)
    ensures var m := b.NewNode(NETWORK_THREAD);
            && from in m.g.nodes && b.nextNode in m.g.nodes
            && var d := m.NewEdge(Run, OutHorizontal, from, b.nextNode);
               && Outgrows(b.g, d.g) && Inv(d) && b.nextNode in d.g.nodes && d.g.nodes[b.nextNode].outV.None?
               && d.nextNode == b.nextNode + 1
               && (Tabled(b.g) ==> (Tabled(d.g) <==> b.g.nodes[from].outH.None?))
  {
    hide Inv, Block.NewNode, Block.NewEdge, QuietlyOutgrows, Later, Outgrows, Tabled;
    var m := b.NewNode(NETWORK_THREAD);
    NewNodeQuiet(b, NETWORK_THREAD);
    NetworkNodeInv(b);
    NodeIsOld(b, from);
    NodeIsKept(b, m, from);
    QuietMeans(b, m);
    NewNodeFrame(b, NETWORK_THREAD);
    NetworkEdgeInv(m, from, b.nextNode);
    var d := m.NewEdge(Run, OutHorizontal, from, b.nextNode);
    NewEdgeOutgrows(m, Run, OutHorizontal, from, b.nextNode);
    OutgrowsTransitive(b.g, m.g, d.g);
    NewEdgeKeepsWakeUps(m, from, b.nextNode);
    if b.g.nodes[from].outH.Some? {
      SlotsOf(m);
      UsedSlotIsLost(m, Run, from, b.nextNode);
    } else {
      assert m.g.nodes[from].Slot(OutHorizontal).None? && m.g.nodes[b.nextNode].Slot(InHorizontal).None?;
    }
  }

  lemma QuietMeans(b: Block, c: Block)
    requires QuietlyOutgrows(b, c)
    ensures Outgrows(b.g, c.g) && (Tabled(b.g) ==> Tabled(c.g))
  {
  }

  lemma SlotsOf(b: Block)
    requires Inv(b)
    ensures SlotsResolve(b.g)
  {
  }

  lemma NewEdgeKeepsWakeUps(b: Block, from: NodeId, to: NodeId)
    requires from in b.g.nodes && to in b.g.nodes && from != to
    ensures var c := b.NewEdge(Run, OutHorizontal, from, to);
            c.nextNode == b.nextNode && to in c.g.nodes && c.g.nodes[to].outV == b.g.nodes[to].outV
  {
  }

  lemma NetworkWakeUpTable(b: Block, context: InterruptContext, target: ThreadId)
    requires Inv(b) && b.Closed() && context.node.Some? && NetworkNode(b.g, context.node.value)
    requires target in b.lastType && b.lastType[target] == WaitBlocked
    ensures var h := b.OnWakeupFromInterrupt(context, target).g;
            && Outgrows(b.g, h)
            && (Tabled(b.g) ==> (Tabled(h) <==> b.g.nodes[context.node.value].outH.None?))
  {
    hide Inv, Block.CutThread, Block.NewEdge, Block.NewNode, Block.Closed, QuietlyOutgrows, Outgrows, Tabled;
    var from := context.node.value;
    NetworkLinkKeepsTable(b, from);
    var d := b.NewNode(NETWORK_THREAD).NewEdge(Run, OutHorizontal, from, b.nextNode);
    InvIsClosed(d);
    if d.Cuttable(target) {
      CutOutgrows(d, target);
      CutThreadInv(d, target);
      var c := d.CutThread(target);
      QuietKeeps(d, c, b.nextNode);
      QuietMeans(d, c);
      WakeUpOutgrows(c, b.nextNode, d.nextNode);
      var h := c.NewEdge(Vertical, OutVertical, b.nextNode, d.nextNode).g;
      OutgrowsTransitive(d.g, c.g, h);
      OutgrowsTransitive(b.g, d.g, h);
      if Tabled(h) { OutgrownIsTabled(d.g, h); }
    }
  }

  /** One event: edges keep their slots, unless a packet's node is linked a second time. */
  lemma HandleTable(b: Block, e: Event)
    requires Inv(b) && b.Closed() && EventOk(e)
    ensures Outgrows(b.g, b.Handle(e).g)
    ensures Tabled(b.g) ==> (Tabled(b.Handle(e).g) <==> !Overwrites(b, e))
  {
    hide Inv, Block.Closed, Block.OnTTWUBetweenThreads, Block.OnWakeupFromInterrupt, Block.OnThreadStatus,
      Block.OnInetSockLocalOut, Outgrows, Tabled, NetworkNode, KeepsTable;
    SameKeepsTable(b.g);
    KeepsTableMeans(b.g, b.g);
    KeepsTableMeans(b.g, b.Handle(e).g);
    match e {
      case Ttwu(cpu, source, target) =>
        if b.Stack(cpu) == [] {
          OnTTWUBetweenThreadsKeepsTable(b, source, target);
        } else {
          InterruptTable(b, cpu, target);
        }
      case InetSockLocalOut(cpu, tid, key) => OnInetSockLocalOutKeepsTable(b, cpu, tid, key);
      case ThreadStatus(tid, status) => OnThreadStatusKeepsTable(b, tid, status);
      case _ => assert b.Handle(e).g == b.g;
    }
  }

  lemma InterruptTable(b: Block, cpu: Cpu, target: ThreadId)
    requires Inv(b) && b.Closed() && b.Stack(cpu) != []
    ensures var top := b.Stack(cpu)[|b.Stack(cpu)| - 1];
            && (top.node.Some? ==> top.node.value in b.g.nodes)
            && var h := b.OnWakeupFromInterrupt(top, target).g;
               && Outgrows(b.g, h)
               && (Tabled(b.g) ==> (Tabled(h) <==>
                     !(top.node.Some? && b.g.nodes[top.node.value].outH.Some?
                       && target in b.lastType && b.lastType[target] == WaitBlocked)))
  {
    var top := b.Stack(cpu)[|b.Stack(cpu)| - 1];
    assert top.node.Some? ==> NetworkNode(b.g, top.node.value) by { StackTopOk(b, cpu); }
    SameKeepsTable(b.g);
    hide Inv, Block.Closed, Outgrows, Tabled, Block.NewEdge, Block.NewNode, Block.CutThread;
    if target in b.lastType && b.lastType[target] == WaitBlocked && top.node.Some? {
      NetworkWakeUpTable(b, top, target);
    }
  }

  // ----- Runs

  /** No event of the run links a packet's node a second time. */
  ghost predicate NeverOverwrites(events: seq<Stamped>)
    requires EventsOk(events)
  {
    events != [] ==>
      (EventsOkPrefix(events);
       var init, last := events[..|events| - 1], events[|events| - 1];
       NeverOverwrites(init) && !Overwrites(CriticalBlockRun.Run(init).(now := last.ts), last.event))
  }

  /** A run leaves slots and table in agreement exactly when it never links a packet's node twice. */
  lemma {:induction false} AgreesIffNeverOverwrites(events: seq<Stamped>)
    requires EventsOk(events)
    ensures Agrees(CriticalBlockRun.Run(events).g) <==> NeverOverwrites(events)
  {
    BuiltIsResolved(CriticalBlockRun.Run(events));
    hide Inv, Block.Handle, Block.Closed, Overwrites, Outgrows, Graph.Resolved;
    if events == [] {
      assert CriticalBlockRun.Run(events).g.edges == map[];
    } else {
      EventsOkPrefix(events);
      var init, last := events[..|events| - 1], events[|events| - 1];
      AgreesIffNeverOverwrites(init);
      BuiltIsResolved(CriticalBlockRun.Run(init));
      AdvanceInv(CriticalBlockRun.Run(init), last.ts);
      var before := CriticalBlockRun.Run(init).(now := last.ts);
      HandleTable(before, last.event);
      if Tabled(CriticalBlockRun.Run(events).g) { OutgrownIsTabled(before.g, CriticalBlockRun.Run(events).g); }
    }
  }

  lemma BuiltIsDistinct(b: Block)
    requires Inv(b)
    ensures Distinct(b.g)
  {
    assert ListedByAge(b.g);
    hide Inv;
  }

  /**
    A run that never links a packet's node twice may be cleaned up at any time, and what cleanup leaves is
    well-formed where the graph was.
   */
  lemma RunMayBeCleaned(events: seq<Stamped>, cut: Timestamp)
    requires EventsOk(events) && NeverOverwrites(events)
    ensures var g := CriticalBlockRun.Run(events).g;
            && Agrees(g) && g.Threaded() && Distinct(g) && Agrees(Trim(g, cut)) && Trim(g, cut).Threaded()
            && (g.StrictTimes() ==> PathSpec.WellFormed(Trim(g, cut), AgeRank(g)))
  {
    hide Inv, CriticalBlockRun.Run, NeverOverwrites, Agrees, Graph.Threaded, Distinct, Trim, Graph.StrictTimes,
      PathSpec.WellFormed;
    var g := CriticalBlockRun.Run(events).g;
    AgreesIffNeverOverwrites(events);
    BuiltIsThreaded(CriticalBlockRun.Run(events));
    BuiltIsDistinct(CriticalBlockRun.Run(events));
    TrimAgrees(g, cut);
    TrimThreaded(g, cut);
    if g.StrictTimes() {
      RunIsWellFormed(events);
      GraphCleanupPaths.TrimIsWellFormed(g, AgeRank(g), cut);
    }
  }

  /** Without packets nothing is overwritten. */
  lemma {:induction false} OfflineNeverOverwrites(events: seq<Stamped>)
    requires EventsOk(events) && NoPackets(events)
    ensures NeverOverwrites(events)
  {
    hide Inv, Block.Handle, Block.Closed, CriticalBlockRun.Run;
    if events != [] {
      EventsOkPrefix(events);
      var init := events[..|events| - 1];
      OfflineNeverOverwrites(init);
      RunOffline(init);
      assert Offline(CriticalBlockRun.Run(init));
    }
  }
}
