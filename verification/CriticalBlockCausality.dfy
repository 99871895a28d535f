/**
  Runs whose paths show only causes: where no thread wakes another or sends a packet while it is recorded as waiting,
  no wake-up of the graph comes from a thread whose next link is a wait.
 */
module CriticalBlockCausality {
  import opened Common
  import opened CriticalGraphs
  import opened CriticalBlockSpec
  import opened CriticalBlockInvariant
  import opened CriticalBlockRun
  import opened CriticalBlockPaths
  import PathSpec
  import PathCoverage
  import PathCausality

  /** The link out of `f` is no wait, and if it is still to be made, its thread is not recorded as waiting. */
  ghost predicate CalmAt(b: Block, f: NodeId) {
    && f in b.g.nodes
    && (b.g.nodes[f].outH.Some? ==>
          b.g.nodes[f].outH.value in b.g.edges && !Blocking(b.g.edges[b.g.nodes[f].outH.value].etype))
    && (b.g.LastNode(b.g.nodes[f].tid) == Some(f) && b.g.nodes[f].tid in b.lastType ==>
          !Blocking(b.lastType[b.g.nodes[f].tid]))
  }

  /** So it is at every thread's node that wakes another. */
  ghost predicate SourcesCalm(b: Block) {
    forall e <- b.g.edges | b.g.edges[e].etype.Vertical? ::
      b.g.edges[e].from in b.g.nodes
      && (b.g.nodes[b.g.edges[e].from].tid != NETWORK_THREAD ==> CalmAt(b, b.g.edges[e].from))
  }

  /** `c` has no more wake-ups than `b`, and threads' nodes are calm in it that were so in `b`. */
  ghost predicate KeepsCalm(b: Block, c: Block) {
    && (forall f <- b.g.nodes :: f in c.g.nodes && c.g.nodes[f].tid == b.g.nodes[f].tid)
    && (forall f <- b.g.nodes | b.g.nodes[f].tid != NETWORK_THREAD && CalmAt(b, f) :: CalmAt(c, f))
    && (forall e <- c.g.edges | c.g.edges[e].etype.Vertical? :: e in b.g.edges && b.g.edges[e] == c.g.edges[e])
  }

  lemma KeptCalm(b: Block, c: Block)
    requires SourcesCalm(b) && KeepsCalm(b, c)
    ensures SourcesCalm(c)
  {
    hide CalmAt;
  }

  lemma KeepsCalmAt(b: Block, c: Block, f: NodeId)
    requires KeepsCalm(b, c) && f in b.g.nodes && b.g.nodes[f].tid != NETWORK_THREAD && CalmAt(b, f)
    ensures f in c.g.nodes && c.g.nodes[f].tid == b.g.nodes[f].tid && CalmAt(c, f)
  {
  }

  lemma SameCalm(b: Block, c: Block)
    requires c.g == b.g && c.lastType == b.lastType
    ensures KeepsCalm(b, c)
  {
  }

  /** The nodes, edges and types of `b` up to new ids, and up to the link out of `last` if that is a node of `b`. */
  ghost predicate Extends(b: Block, c: Block, last: NodeId) {
    && c.lastType == b.lastType
    && (forall f <- b.g.nodes :: f in c.g.nodes && c.g.nodes[f].tid == b.g.nodes[f].tid
                                 && (f == last || c.g.nodes[f].outH == b.g.nodes[f].outH))
    && (forall e <- b.g.edges :: e in c.g.edges && c.g.edges[e] == b.g.edges[e])
    && (forall e <- c.g.edges :: e in b.g.edges || (e == b.nextEdge && !c.g.edges[e].etype.Vertical?))
    && (forall f <- b.g.nodes :: c.g.LastNode(b.g.nodes[f].tid) == Some(f) ==>
        b.g.LastNode(b.g.nodes[f].tid) == Some(f))
  }

  lemma ExtendsCalmAt(b: Block, c: Block, last: NodeId, f: NodeId)
    requires Extends(b, c, last) && CalmAt(b, f)
    requires f == last ==> c.g.nodes[f].outH.Some? ==>
               c.g.nodes[f].outH.value in c.g.edges && !Blocking(c.g.edges[c.g.nodes[f].outH.value].etype)
    ensures CalmAt(c, f)
  {
    hide Graph.LastNode;
  }

  lemma ExtendsKeepsCalm(b: Block, c: Block, last: NodeId)
    requires Extends(b, c, last) && last in b.g.nodes
    requires c.g.nodes[last].outH == Some(b.nextEdge) && b.nextEdge in c.g.edges
    requires b.g.nodes[last].tid != NETWORK_THREAD && CalmAt(b, last) ==> !Blocking(c.g.edges[b.nextEdge].etype)
    ensures KeepsCalm(b, c)
  {
    forall f <- b.g.nodes | b.g.nodes[f].tid != NETWORK_THREAD && CalmAt(b, f)
      ensures CalmAt(c, f)
    {
      ExtendsCalmAt(b, c, last, f);
    }
    hide CalmAt, Graph.LastNode;
  }

  lemma NewNodeCalm(b: Block, tid: ThreadId)
    requires Inv(b)
    ensures KeepsCalm(b, b.NewNode(tid))
  {
    NewNodeExtends(b, tid);
    hide Inv, Block.NewNode;
    forall f <- b.g.nodes | CalmAt(b, f)
      ensures CalmAt(b.NewNode(tid), f)
    {
      ExtendsCalmAt(b, b.NewNode(tid), b.nextNode, f);
    }
    hide CalmAt, Graph.LastNode;
  }

  lemma NewNodeExtends(b: Block, tid: ThreadId)
    requires Inv(b)
    ensures Extends(b, b.NewNode(tid), b.nextNode) && b.NewNode(tid).g.edges == b.g.edges
  {
    assert Aged(b);
    hide Inv;
    NewNodeLater(b, tid);
    NewNodeSlots(b, tid);
    hide Block.NewNode, Graph.LastNode, Aged;
  }

  lemma NewNodeSlots(b: Block, tid: ThreadId)
    requires Aged(b)
    ensures var c := b.NewNode(tid);
            && c.lastType == b.lastType && c.g.edges == b.g.edges && b.nextNode !in b.g.nodes
            && forall f <- b.g.nodes :: f in c.g.nodes && c.g.nodes[f] == b.g.nodes[f]
  {
  }

  /** Cutting a thread that is not recorded as waiting leaves a calm node; other calm nodes stay so. */
  lemma CutCalm(b: Block, tid: ThreadId)
    requires Inv(b) && b.Closed() && b.Cuttable(tid)
    ensures var c := b.CutThread(tid);
            && KeepsCalm(b, c) && b.nextNode in c.g.nodes && c.g.nodes[b.nextNode].tid == tid
            && (!Blocking(b.lastType[tid]) ==> CalmAt(c, b.nextNode))
  {
    LastOfThread(b, tid);
    CutExtends(b, tid);
    hide Inv, Block.Closed, Block.CutThread;
    ExtendsKeepsCalm(b, b.CutThread(tid), b.g.LastNode(tid).value);
  }

  lemma LastOfThread(b: Block, tid: ThreadId)
    requires Inv(b) && b.Cuttable(tid)
    ensures var last := b.g.LastNode(tid).value; last in b.g.nodes && b.g.nodes[last].tid == tid
  {
    LastIsLatest(b, tid);
    hide Inv;
  }

  lemma CutExtends(b: Block, tid: ThreadId)
    requires Inv(b) && b.Closed() && b.Cuttable(tid)
    ensures var c, last := b.CutThread(tid), b.g.LastNode(tid).value;
            && last in c.g.nodes && c.g.nodes[last].outH == Some(b.nextEdge)
            && b.nextEdge in c.g.edges && c.g.edges[b.nextEdge].etype == b.lastType[tid]
            && b.nextNode in c.g.nodes && c.g.nodes[b.nextNode].tid == tid && c.g.nodes[b.nextNode].outH.None?
            && c.lastType == b.lastType && Extends(b, c, last)
  {
    assert b.nextEdge !in b.g.edges by { assert Aged(b); }
    assert HorizontalType(b.lastType[tid]);
    hide Inv, Block.Closed, Block.CutThread, Graph.LastNode, Extends;
    IdsAreFresh(b);
    CutIsUnlinked(b, tid);
    CutThreadEffect(b, tid);
    LastOfThread(b, tid);
    CutSlots(b, tid);
    OneLaterExtends(b, b.CutThread(tid), b.g.LastNode(tid).value, tid);
  }

  lemma OneLaterExtends(b: Block, c: Block, last: NodeId, tid: ThreadId)
    requires c.lastType == b.lastType && b.nextNode !in b.g.nodes && c.g.LastNode(tid) == Some(b.nextNode)
    requires forall t | t != tid :: c.g.LastNode(t) == b.g.LastNode(t)
    requires forall f <- b.g.nodes :: f in c.g.nodes && c.g.nodes[f].tid == b.g.nodes[f].tid
                                      && (f == last || c.g.nodes[f].outH == b.g.nodes[f].outH)
    requires b.nextEdge !in b.g.edges && b.nextEdge in c.g.edges && !c.g.edges[b.nextEdge].etype.Vertical?
    requires c.g.edges == b.g.edges[b.nextEdge := c.g.edges[b.nextEdge]]
    ensures Extends(b, c, last)
  {
    hide Graph.LastNode;
  }

  lemma CutSlots(b: Block, tid: ThreadId)
    requires b.Closed() && b.Cuttable(tid) && b.nextNode !in b.g.nodes
    ensures var c, last := b.CutThread(tid), b.g.LastNode(tid).value;
            && last in c.g.nodes && c.g.nodes[last].outH == Some(b.nextEdge)
            && forall f <- b.g.nodes :: f in c.g.nodes && c.g.nodes[f].tid == b.g.nodes[f].tid
                                        && (f == last || c.g.nodes[f].outH == b.g.nodes[f].outH)
  {
  }

  lemma WakeUpCalm(b: Block, from: NodeId, to: NodeId)
    requires Inv(b) && from in b.g.nodes && to in b.g.nodes && from != to && SourcesCalm(b)
    requires b.g.nodes[from].tid != NETWORK_THREAD ==> CalmAt(b, from)
    ensures SourcesCalm(b.NewEdge(Vertical, OutVertical, from, to))
  {
    var c := b.NewEdge(Vertical, OutVertical, from, to);
    WakeUpSlots(b, from, to);
    hide Inv, Block.NewEdge, CalmAt, SourcesCalm, Graph.LastNode;
    forall f <- b.g.nodes | CalmAt(b, f)
      ensures CalmAt(c, f)
    {
      CalmAlike(b, c, f);
    }
    OneMoreSource(b, c, from, to);
  }

  lemma OneMoreSource(b: Block, c: Block, from: NodeId, to: NodeId)
    requires SourcesCalm(b) && c.g.edges == b.g.edges[b.nextEdge := Edge(Vertical, from, to)] && from in b.g.nodes
    requires forall f <- b.g.nodes :: f in c.g.nodes && c.g.nodes[f].tid == b.g.nodes[f].tid
    requires forall f <- b.g.nodes | CalmAt(b, f) :: CalmAt(c, f)
    requires b.g.nodes[from].tid != NETWORK_THREAD ==> CalmAt(b, from)
    ensures SourcesCalm(c)
  {
    hide CalmAt;
  }

  lemma CalmAlike(b: Block, c: Block, f: NodeId)
    requires CalmAt(b, f) && c.lastType == b.lastType && c.g.threads == b.g.threads
    requires f in c.g.nodes && c.g.nodes[f].tid == b.g.nodes[f].tid && c.g.nodes[f].outH == b.g.nodes[f].outH
    requires forall e <- b.g.edges :: e in c.g.edges && c.g.edges[e] == b.g.edges[e]
    ensures CalmAt(c, f)
  {
  }

  lemma WakeUpSlots(b: Block, from: NodeId, to: NodeId)
    requires Inv(b) && from in b.g.nodes && to in b.g.nodes && from != to
    ensures var c := b.NewEdge(Vertical, OutVertical, from, to);
            && c.lastType == b.lastType && c.g.edges == b.g.edges[b.nextEdge := Edge(Vertical, from, to)]
            && b.nextEdge !in b.g.edges && c.g.threads == b.g.threads
            && forall f <- b.g.nodes :: f in c.g.nodes && c.g.nodes[f].tid == b.g.nodes[f].tid
                                        && c.g.nodes[f].outH == b.g.nodes[f].outH
  {
    assert b.nextEdge !in b.g.edges by { assert Aged(b); }
    hide Inv;
  }

  lemma LinkCalm(b: Block, from: NodeId, to: NodeId)
    requires Inv(b) && NetworkNode(b.g, from) && NetworkNode(b.g, to) && from != to
    ensures KeepsCalm(b, b.NewEdge(Run, OutHorizontal, from, to))
  {
    LinkExtends(b, from, to);
    hide Inv, Block.NewEdge;
    ExtendsKeepsCalm(b, b.NewEdge(Run, OutHorizontal, from, to), from);
  }

  lemma LinkExtends(b: Block, from: NodeId, to: NodeId)
    requires Inv(b) && from in b.g.nodes && to in b.g.nodes && from != to
    ensures var c := b.NewEdge(Run, OutHorizontal, from, to);
            && Extends(b, c, from) && c.g.nodes[from].outH == Some(b.nextEdge)
            && b.nextEdge in c.g.edges && c.g.edges[b.nextEdge].etype == Run
  {
    LinkSlots(b, from, to);
    hide Inv, Block.NewEdge;
    SameThreadsExtend(b, b.NewEdge(Run, OutHorizontal, from, to), from);
  }

  lemma SameThreadsExtend(b: Block, c: Block, last: NodeId)
    requires c.lastType == b.lastType && c.g.threads == b.g.threads
    requires forall f <- b.g.nodes :: f in c.g.nodes && c.g.nodes[f].tid == b.g.nodes[f].tid
                                      && (f == last || c.g.nodes[f].outH == b.g.nodes[f].outH)
    requires b.nextEdge !in b.g.edges && b.nextEdge in c.g.edges && !c.g.edges[b.nextEdge].etype.Vertical?
    requires c.g.edges == b.g.edges[b.nextEdge := c.g.edges[b.nextEdge]]
    ensures Extends(b, c, last)
  {
  }

  lemma LinkSlots(b: Block, from: NodeId, to: NodeId)
    requires Inv(b) && from in b.g.nodes && to in b.g.nodes && from != to
    ensures var c := b.NewEdge(Run, OutHorizontal, from, to);
            && c.lastType == b.lastType && c.g.edges == b.g.edges[b.nextEdge := Edge(Run, from, to)]
            && b.nextEdge !in b.g.edges && c.g.threads == b.g.threads
            && from in c.g.nodes && c.g.nodes[from].outH == Some(b.nextEdge)
            && forall f <- b.g.nodes :: f in c.g.nodes && c.g.nodes[f].tid == b.g.nodes[f].tid
                                        && (f == from || c.g.nodes[f].outH == b.g.nodes[f].outH)
  {
    assert b.nextEdge !in b.g.edges by { assert Aged(b); }
    hide Inv;
  }

  // ----- Handlers

  /** The event is no wake-up by, and no packet of, a thread that is recorded as waiting. */
  predicate CalmEvent(b: Block, e: Event) {
    match e
    case Ttwu(cpu, source, target) => b.Stack(cpu) == [] && source in b.lastType ==> !Blocking(b.lastType[source])
    case InetSockLocalOut(cpu, tid, key) => b.Stack(cpu) == [] && tid in b.lastType ==> !Blocking(b.lastType[tid])
    case _ => true
  }

  lemma OnTTWUBetweenThreadsCalm(b: Block, source: ThreadId, target: ThreadId)
    requires Inv(b) && b.Closed() && SourcesCalm(b)
    requires source in b.lastType ==> !Blocking(b.lastType[source])
    ensures SourcesCalm(b.OnTTWUBetweenThreads(source, target))
  {
    hide Inv, Block.CutThread, Block.NewEdge, Block.Closed, Block.RequestDisk, SourcesCalm, KeepsCalm, CalmAt, Later,
      Graph.LastNode;
    RequestDiskInv(b, target);
    var b0 := if source in b.diskThreads then b.RequestDisk(target) else b;
    SameCalm(b, b0);
    KeptCalm(b, b0);
    if b0.Cuttable(source) {
      CutCalm(b0, source);
      CutThreadInv(b0, source);
      var b1 := b0.CutThread(source);
      KeptCalm(b0, b1);
      InvIsClosed(b1);
      if b1.Cuttable(target) {
        CutCalm(b1, target);
        CutThreadInv(b1, target);
        var b2 := b1.CutThread(target);
        KeptCalm(b1, b2);
        TypedIsOrdinary(b0, source);
        KeepsCalmAt(b1, b2, b0.nextNode);
        WakeUpCalm(b2, b0.nextNode, b1.nextNode);
      }
    }
  }

  lemma TypedIsOrdinary(b: Block, tid: ThreadId)
    requires Inv(b) && tid in b.lastType
    ensures tid != NETWORK_THREAD
  {
  }

  lemma OnInetSockLocalOutCalm(b: Block, cpu: Cpu, tid: ThreadId, key: PacketKey)
    requires Inv(b) && b.Closed() && SourcesCalm(b)
    requires b.Stack(cpu) == [] && tid in b.lastType ==> !Blocking(b.lastType[tid])
    ensures SourcesCalm(b.OnInetSockLocalOut(cpu, tid, key))
  {
    hide Inv, Block.CutThread, Block.NewEdge, Block.NewNode, Block.Closed, SourcesCalm, KeepsCalm, CalmAt, Later,
      Graph.LastNode, NetworkNode;
    if b.Stack(cpu) == [] && b.Cuttable(tid) {
      var c := b.CutThread(tid);
      CutCalm(b, tid);
      CutThreadInv(b, tid);
      KeptCalm(b, c);
      NetworkNodeInv(c);
      NewNodeCalm(c, NETWORK_THREAD);
      var m := c.NewNode(NETWORK_THREAD);
      KeptCalm(c, m);
      TypedIsOrdinary(b, tid);
      KeepsCalmAt(c, m, b.nextNode);
      NetworkNodeIsNode(m, c.nextNode);
      WakeUpCalm(m, b.nextNode, c.nextNode);
      var d := m.NewEdge(Vertical, OutVertical, b.nextNode, c.nextNode);
      SameCalm(d, b.OnInetSockLocalOut(cpu, tid, key));
      KeptCalm(d, b.OnInetSockLocalOut(cpu, tid, key));
    }
  }

  lemma NetworkWakeUpCalm(b: Block, context: InterruptContext, target: ThreadId)
    requires Inv(b) && b.Closed() && SourcesCalm(b) && context.node.Some? && NetworkNode(b.g, context.node.value)
    requires target in b.lastType && b.lastType[target] == WaitBlocked
    ensures SourcesCalm(b.OnWakeupFromInterrupt(context, target))
  {
    hide Inv, Block.CutThread, Block.NewEdge, Block.NewNode, Block.Closed, SourcesCalm, KeepsCalm, CalmAt, Later,
      Graph.LastNode, NetworkNode;
    var from := context.node.value;
    var m := b.NewNode(NETWORK_THREAD);
    NewNodeCalm(b, NETWORK_THREAD);
    KeptCalm(b, m);
    NewNodeFrame(b, NETWORK_THREAD);
    NetworkNodeInv(b);
    NetworkNodeIsNode(b, from);
    NetworkNodeIsNode(m, b.nextNode);
    NodeIsOld(b, from);
    NodeIsKept(b, m, from);
    NetworkStays(b, m, from);
    NetworkEdgeInv(m, from, b.nextNode);
    LinkCalm(m, from, b.nextNode);
    var d := m.NewEdge(Run, OutHorizontal, from, b.nextNode);
    KeptCalm(m, d);
    InvIsClosed(d);
    NodeIsKept(m, d, b.nextNode);
    if d.Cuttable(target) {
      CutCalm(d, target);
      CutThreadInv(d, target);
      var e := d.CutThread(target);
      KeptCalm(d, e);
      NodeIsKept(d, e, b.nextNode);
      NetworkStays(b.NewNode(NETWORK_THREAD), d, b.nextNode);
      NetworkStays(d, e, b.nextNode);
      NetworkTid(e, b.nextNode);
      NodeIsOld(d, b.nextNode);
      WakeUpCalm(e, b.nextNode, d.nextNode);
    }
  }

  lemma NetworkTid(b: Block, n: NodeId)
    requires NetworkNode(b.g, n)
    ensures n in b.g.nodes && b.g.nodes[n].tid == NETWORK_THREAD
  {
  }

  /** A wake-up from an interrupt that received no packet changes the type of a thread that was waiting. */
  lemma RetypeCalm(b: Block, target: ThreadId, etype: EdgeType)
    requires SourcesCalm(b) && target in b.lastType && b.lastType[target] == WaitBlocked
    ensures SourcesCalm(b.(lastType := b.lastType[target := etype]))
  {
    var c := b.(lastType := b.lastType[target := etype]);
    forall f | CalmAt(b, f)
      ensures CalmAt(c, f)
    {
    }
    hide CalmAt, Graph.LastNode;
  }

  lemma OnThreadStatusCalm(b: Block, tid: ThreadId, status: Option<Status>)
    requires Inv(b) && b.Closed() && SourcesCalm(b) && tid != NETWORK_THREAD
    ensures SourcesCalm(b.OnThreadStatus(tid, status))
  {
    hide Inv, Block.CutThread, Block.NewNode, Block.Closed, SourcesCalm, KeepsCalm, CalmAt, Later, Graph.LastNode;
    var c := if b.Cuttable(tid) then b.CutThread(tid) else b.NewNode(tid);
    if b.Cuttable(tid) {
      CutCalm(b, tid);
      CutThreadInv(b, tid);
      PacketsKept(b, tid);
    } else {
      NewNodeCalm(b, tid);
      NewNodeLast(b, tid);
      NewNodeFrame(b, tid);
    }
    KeptCalm(b, c);
    if !(tid in b.lastType && b.lastType[tid] == StatusType(status)) {
      NewTypeCalm(b, c, b.OnThreadStatus(tid, status), tid);
    }
  }

  lemma NewNodeLast(b: Block, tid: ThreadId)
    requires Inv(b)
    ensures b.NewNode(tid).g.LastNode(tid) == Some(b.nextNode)
  {
  }

  /** A thread's type may change at its newest node, which woke nobody. */
  lemma NewTypeCalm(b: Block, c: Block, d: Block, tid: ThreadId)
    requires Inv(b) && SourcesCalm(b) && SourcesCalm(c) && KeepsCalm(b, c) && c.g.LastNode(tid) == Some(b.nextNode)
    requires d.g == c.g && forall t | t != tid :: t in d.lastType <==> t in c.lastType
    requires forall t | t != tid && t in c.lastType :: d.lastType[t] == c.lastType[t]
    ensures SourcesCalm(d)
  {
    IdsAreFresh(b);
    hide Inv, Graph.LastNode;
    forall e <- d.g.edges | d.g.edges[e].etype.Vertical?
      ensures d.g.edges[e].from in d.g.nodes
      ensures d.g.nodes[d.g.edges[e].from].tid != NETWORK_THREAD ==> CalmAt(d, d.g.edges[e].from)
    {
      assert e in b.g.edges && b.g.edges[e].from in b.g.nodes;
    }
  }

  lemma HandleCalm(b: Block, e: Event)
    requires Inv(b) && b.Closed() && EventOk(e) && SourcesCalm(b) && CalmEvent(b, e)
    ensures SourcesCalm(b.Handle(e))
  {
    hide Inv, Block.Closed, Block.OnTTWUBetweenThreads, Block.OnThreadStatus, Block.OnInetSockLocalOut, SourcesCalm,
      KeepsCalm, NetworkNode, Block.OnWakeupFromInterrupt;
    match e {
      case ThreadStatus(tid, status) => OnThreadStatusCalm(b, tid, status);
      case Ttwu(cpu, source, target) =>
        if b.Stack(cpu) == [] {
          OnTTWUBetweenThreadsCalm(b, source, target);
        } else {
          InterruptCalm(b, cpu, target);
        }
      case InetSockLocalOut(cpu, tid, key) => OnInetSockLocalOutCalm(b, cpu, tid, key);
      case _ =>
        SameCalm(b, b.Handle(e));
        KeptCalm(b, b.Handle(e));
    }
  }

  lemma InterruptCalm(b: Block, cpu: Cpu, target: ThreadId)
    requires Inv(b) && b.Closed() && SourcesCalm(b) && b.Stack(cpu) != []
    ensures SourcesCalm(b.OnWakeupFromInterrupt(b.Stack(cpu)[|b.Stack(cpu)| - 1], target))
  {
    var top := b.Stack(cpu)[|b.Stack(cpu)| - 1];
    assert top.node.Some? ==> NetworkNode(b.g, top.node.value) by { StackTopOk(b, cpu); }
    hide SourcesCalm, KeepsCalm, NetworkNode, Block.NewEdge, Block.NewNode, Block.CutThread, Block.RequestDisk;
    if target in b.lastType && b.lastType[target] == WaitBlocked {
      if top.node.Some? {
        NetworkWakeUpCalm(b, top, target);
      } else {
        RequestDiskInv(b, target);
        hide Inv, Block.Closed;
        var b0 := if top.etype == BlockDevice then b.RequestDisk(target) else b;
        SameCalm(b, b0);
        KeptCalm(b, b0);
        RetypeCalm(b0, target, top.etype);
      }
    }
  }

  // ----- Runs

  /** No thread wakes another, or sends, while it is recorded as waiting. */
  ghost predicate CalmRun(events: seq<Stamped>)
    requires EventsOk(events)
  {
    events != [] ==>
      (EventsOkPrefix(events);
       var init, last := events[..|events| - 1], events[|events| - 1];
       CalmRun(init) && CalmEvent(CriticalBlockRun.Run(init).(now := last.ts), last.event))
  }

  lemma {:induction false} RunCalm(events: seq<Stamped>)
    requires EventsOk(events) && CalmRun(events)
    ensures SourcesCalm(CriticalBlockRun.Run(events))
  {
    hide Inv, Block.Handle, Block.Closed, CalmEvent;
    if events != [] {
      EventsOkPrefix(events);
      var init, last := events[..|events| - 1], events[|events| - 1];
      RunCalm(init);
      AdvanceInv(CriticalBlockRun.Run(init), last.ts);
      var before := CriticalBlockRun.Run(init).(now := last.ts);
      SameCalm(CriticalBlockRun.Run(init), before);
      KeptCalm(CriticalBlockRun.Run(init), before);
      HandleCalm(before, last.event);
    }
  }

  /** In such a run no waker waits for a packet. */
  lemma CalmWakersResume(events: seq<Stamped>, c: PathSpec.Context)
    requires EventsOk(events) && CalmRun(events) && ContextOfRun(events, c) && c.Ok()
    ensures PathCausality.WakersResume(c)
  {
    RunCalm(events);
    hide Inv, CalmRun, CriticalBlockRun.Run, PathSpec.Context.Ok, PathSpec.WellFormed, Graph.LastNode;
    forall n <- c.g.nodes | c.g.nodes[n].inV.Some?
      ensures PathCausality.Resumes(c, c.Waker(n))
    {
      CalmResumes(CriticalBlockRun.Run(events), c, n);
    }
  }

  lemma CalmResumes(b: Block, c: PathSpec.Context, n: NodeId)
    requires SourcesCalm(b) && c.g == b.g && c.Ok() && n in c.g.nodes && c.g.nodes[n].inV.Some?
    ensures PathCausality.Resumes(c, c.Waker(n))
  {
    c.g.SlotEdge(n, InVertical);
    hide PathSpec.Context.Ok, PathSpec.WellFormed, Graph.LastNode, PathCoverage.EndedByPacket;
    var w := c.Waker(n);
    if c.g.nodes[w].outH.Some? && Blocking(c.OutEdge(w).etype) { PathCausality.WaitIsOrdinary(c, w); }
  }

  /** The paths of such a run, packets included, show what led to their threads, unless they end in a packet's wait. */
  lemma CalmRunsAreCausal(events: seq<Stamped>, c: PathSpec.Context, startTs: Timestamp, endTs: Timestamp,
                          tid: ThreadId)
    requires EventsOk(events) && CalmRun(events) && CriticalBlockRun.Run(events).g.StrictTimes()
    requires ContextOfRun(events, c) && endTs <= c.horizon && tid != NETWORK_THREAD
    ensures c.Ok()
    ensures PathCausality.AllExplained(c, tid, endTs, c.Query(None, startTs, endTs, tid, []))
       <==> !PathCausality.EndOverruns(c, startTs, endTs, tid)
  {
    hide Inv, CalmRun, CriticalBlockRun.Run, PathSpec.Context.Ok, PathSpec.WellFormed;
    ContextOfRunIsOk(events, c);
    CalmWakersResume(events, c);
    PathCausality.PathIsCausal(c, startTs, endTs, tid);
  }
}
