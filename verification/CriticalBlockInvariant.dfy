/**
  What every run of the event handlers keeps of the graph, and that such a graph is acyclic:
  the order in which nodes are created ranks every edge.
 */
module CriticalBlockInvariant {
  import opened Common
  import opened CriticalGraphs
  import opened CriticalBlockSpec

  // ----- The invariant, part by part

  /** Ids are handed out densely and in time order. */
  ghost predicate Aged(b: Block) {
    && (forall n: NodeId :: n in b.g.nodes <==> n < b.nextNode)
    && (forall e <- b.g.edges :: e < b.nextEdge)
    && (forall m <- b.g.nodes, n <- b.g.nodes | m < n :: b.g.nodes[m].ts <= b.g.nodes[n].ts)
    && (forall n <- b.g.nodes :: b.g.nodes[n].ts <= b.now)
  }

  /** A thread's sequence lists exactly its nodes, oldest first. */
  ghost predicate ListedByAge(g: Graph) {
    && (forall t <- g.threads, i | 0 <= i < |g.threads[t]| ::
          g.threads[t][i] in g.nodes && g.nodes[g.threads[t][i]].tid == t)
    && (forall n <- g.nodes :: g.nodes[n].tid in g.threads && n in g.threads[g.nodes[n].tid])
    && (forall t <- g.threads, i, j | 0 <= i < j < |g.threads[t]| :: g.threads[t][i] < g.threads[t][j])
  }

  /** Edges go from older to newer nodes; wake-ups take no time; links join neighbours of a thread. */
  ghost predicate EdgeByAge(g: Graph, edge: Edge) {
    && edge.from in g.nodes && edge.to in g.nodes && edge.from < edge.to
    && !edge.etype.Epsilon?
    && var from, to := g.nodes[edge.from], g.nodes[edge.to];
       if edge.etype.Vertical? then from.ts == to.ts
       else if from.tid == NETWORK_THREAD then to.tid == NETWORK_THREAD && edge.etype == Run
       else from.tid == to.tid && Neighbours(g, edge.from, edge.to)
  }

  ghost predicate Neighbours(g: Graph, a: NodeId, b: NodeId)
    requires a in g.nodes && b in g.nodes
  {
    forall k <- g.nodes | g.nodes[k].tid == g.nodes[a].tid :: k <= a || b <= k
  }

  ghost predicate EdgesByAge(g: Graph) {
    forall e <- g.edges :: EdgeByAge(g, g.edges[e])
  }

  /** Every valid slot resolves to a table edge with the node as the matching endpoint. */
  ghost predicate SlotsResolve(g: Graph) {
    forall n <- g.nodes, p: Position | g.nodes[n].Slot(p).Some? :: g.SlotResolves(n, p, g.nodes[n].Slot(p).value)
  }

  /** A node of a thread that has a later one is linked, unless it is an exit node. */
  ghost predicate LinkedUnlessExit(b: Block) {
    forall m <- b.g.nodes, n <- b.g.nodes |
      b.g.nodes[m].tid == b.g.nodes[n].tid != NETWORK_THREAD && m < n :: m in b.exits || b.g.nodes[m].outH.Some?
  }

  predicate HorizontalType(t: EdgeType) { !t.Vertical? && !t.Epsilon? }

  /** A thread has a current type exactly while its last node is not an exit node. */
  ghost predicate Typed(b: Block) {
    && NETWORK_THREAD !in b.lastType
    && (forall t <- b.lastType :: HorizontalType(b.lastType[t]) && b.g.LastNode(t).Some?)
    && (forall t: ThreadId | t != NETWORK_THREAD && b.g.LastNode(t).Some? ::
          b.g.LastNode(t).value < b.nextNode && (t in b.lastType <==> b.g.LastNode(t).value !in b.exits))
    && (forall n <- b.exits :: n < b.nextNode)
  }

  /** Remembered packets are nodes of the network thread. */
  ghost predicate PacketsOk(b: Block) {
    && (forall k <- b.packets :: NetworkNode(b.g, b.packets[k]))
    && (forall c <- b.context, i | 0 <= i < |b.context[c]| ::
          HorizontalType(b.context[c][i].etype)
          && (b.context[c][i].node.Some? ==> NetworkNode(b.g, b.context[c][i].node.value)))
  }

  ghost predicate NetworkNode(g: Graph, n: NodeId) { n in g.nodes && g.nodes[n].tid == NETWORK_THREAD }

  /** What does not depend on the handlers' own tables. */
  ghost predicate Grown(b: Block) {
    Aged(b) && ListedByAge(b.g) && EdgesByAge(b.g) && SlotsResolve(b.g)
  }

  ghost predicate Inv(b: Block) {
    Grown(b) && LinkedUnlessExit(b) && Typed(b) && PacketsOk(b)
  }

  lemma InvIsClosed(b: Block)
    requires Inv(b)
    ensures b.Closed()
  {
    hide Aged, EdgesByAge, SlotsResolve, LinkedUnlessExit, Typed;
  }

  // ----- Adding a node

  lemma LastIsLatest(b: Block, tid: ThreadId)
    requires Aged(b) && ListedByAge(b.g)
    ensures b.g.LastNode(tid).None? <==> forall n <- b.g.nodes :: b.g.nodes[n].tid != tid
    ensures b.g.LastNode(tid).Some? ==>
              var last := b.g.LastNode(tid).value;
              last in b.g.nodes && b.g.nodes[last].tid == tid
              && forall n <- b.g.nodes | b.g.nodes[n].tid == tid :: n <= last
  {
    forall n <- b.g.nodes | b.g.nodes[n].tid == tid
      ensures tid in b.g.threads && b.g.threads[tid] != [] && n <= b.g.threads[tid][|b.g.threads[tid]| - 1]
    {
      var i :| 0 <= i < |b.g.threads[tid]| && b.g.threads[tid][i] == n;
    }
  }

  lemma NewNodeAged(b: Block, tid: ThreadId)
    requires Aged(b)
    ensures Aged(b.NewNode(tid))
  {
  }

  lemma NewNodeListed(b: Block, tid: ThreadId)
    requires Aged(b) && ListedByAge(b.g)
    ensures ListedByAge(b.NewNode(tid).g)
  {
    var g, g' := b.g, b.NewNode(tid).g;
    forall n <- g'.nodes
      ensures g'.nodes[n].tid in g'.threads && n in g'.threads[g'.nodes[n].tid]
    {
      if n != b.nextNode {
        var i :| 0 <= i < |g.threads[g.nodes[n].tid]| && g.threads[g.nodes[n].tid][i] == n;
        assert g'.threads[g.nodes[n].tid][i] == n;
      } else {
        assert g'.threads[tid][|g'.threads[tid]| - 1] == n;
      }
    }
  }

  lemma NewNodeEdges(b: Block, tid: ThreadId)
    requires Aged(b) && EdgesByAge(b.g) && SlotsResolve(b.g)
    ensures EdgesByAge(b.NewNode(tid).g) && SlotsResolve(b.NewNode(tid).g)
  {
    var g, g' := b.g, b.NewNode(tid).g;
    forall e <- g'.edges
      ensures EdgeByAge(g', g'.edges[e])
    {
      assert EdgeByAge(g, g.edges[e]);
    }
    forall n <- g'.nodes, p: Position | g'.nodes[n].Slot(p).Some?
      ensures g'.SlotResolves(n, p, g'.nodes[n].Slot(p).value)
    {
      assert n in g.nodes && g.SlotResolves(n, p, g.nodes[n].Slot(p).value);
    }
  }

  lemma NewNodeGrown(b: Block, tid: ThreadId)
    requires Grown(b)
    ensures Grown(b.NewNode(tid))
  {
    hide Aged, ListedByAge, EdgesByAge, SlotsResolve, Block.NewNode;
    NewNodeAged(b, tid);
    NewNodeListed(b, tid);
    NewNodeEdges(b, tid);
  }

  // ----- Adding an edge

  /** The nodes and threads of a graph up to the slots of the nodes. */
  ghost predicate SameNodes(g: Graph, h: Graph) {
    && g.nodes.Keys == h.nodes.Keys && g.threads == h.threads
    && forall n <- g.nodes :: g.nodes[n].ts == h.nodes[n].ts && g.nodes[n].tid == h.nodes[n].tid
  }

  lemma LinkSameNodes(g: Graph, e: EdgeId, etype: EdgeType, out: Position, from: NodeId, to: NodeId)
    requires from in g.nodes && to in g.nodes
    ensures SameNodes(g, g.Link(e, etype, out, from, to))
  {
  }

  lemma SameNodesGrown(b: Block, c: Block)
    requires SameNodes(b.g, c.g) && b.now == c.now && b.nextNode == c.nextNode
    ensures ListedByAge(b.g) ==> ListedByAge(c.g)
    ensures Aged(b) && (forall e <- c.g.edges :: e < c.nextEdge) ==> Aged(c)
    ensures forall edge: Edge :: EdgeByAge(b.g, edge) ==> EdgeByAge(c.g, edge)
  {
  }

  lemma NewEdgeGrown(b: Block, etype: EdgeType, out: Position, from: NodeId, to: NodeId)
    requires Grown(b) && from in b.g.nodes && to in b.g.nodes && (out == OutVertical || out == OutHorizontal)
    requires EdgeByAge(b.g, Edge(etype, from, to)) && (etype.Vertical? <==> out.IsVertical())
    ensures Grown(b.NewEdge(etype, out, from, to))
  {
    hide EdgesByAge, ListedByAge, SlotsResolve, EdgeByAge, Graph.Link, SameNodes;
    var c := b.NewEdge(etype, out, from, to);
    LinkSameNodes(b.g, b.nextEdge, etype, out, from, to);
    LinkEdges(b.g, b.nextEdge, etype, out, from, to);
    assert b.nextEdge !in b.g.edges && forall e <- c.g.edges :: e < c.nextEdge;
    assert from != to by { EdgeIsForward(b.g, Edge(etype, from, to)); }
    hide Aged;
    SameNodesGrown(b, c);
    NewEdgeByAge(b, etype, out, from, to);
    NewEdgeSlots(b.g, b.nextEdge, etype, out, from, to);
  }

  lemma EdgeIsForward(g: Graph, edge: Edge)
    requires EdgeByAge(g, edge)
    ensures edge.from < edge.to
  {
  }

  lemma NewEdgeByAge(b: Block, etype: EdgeType, out: Position, from: NodeId, to: NodeId)
    requires EdgesByAge(b.g) && from in b.g.nodes && to in b.g.nodes && EdgeByAge(b.g, Edge(etype, from, to))
    ensures EdgesByAge(b.NewEdge(etype, out, from, to).g)
  {
    hide EdgeByAge, Graph.Link, SameNodes;
    var c := b.NewEdge(etype, out, from, to);
    LinkSameNodes(b.g, b.nextEdge, etype, out, from, to);
    LinkEdges(b.g, b.nextEdge, etype, out, from, to);
    SameNodesGrown(b, c);
  }

  lemma LinkEdges(g: Graph, e: EdgeId, etype: EdgeType, out: Position, from: NodeId, to: NodeId)
    requires from in g.nodes && to in g.nodes
    ensures g.Link(e, etype, out, from, to).edges == g.edges[e := Edge(etype, from, to)]
  {
  }

  lemma NewEdgeSlots(g: Graph, e: EdgeId, etype: EdgeType, out: Position, from: NodeId, to: NodeId)
    requires SlotsResolve(g) && e !in g.edges && from in g.nodes && to in g.nodes && from != to
    requires (out == OutVertical || out == OutHorizontal) && (etype.Vertical? <==> out.IsVertical())
    ensures SlotsResolve(g.Link(e, etype, out, from, to))
  {
    var h := g.Link(e, etype, out, from, to);
    forall n <- h.nodes, p: Position | h.nodes[n].Slot(p).Some?
      ensures h.SlotResolves(n, p, h.nodes[n].Slot(p).value)
    {
      if (n == from && p == out) || (n == to && p == out.Opposite()) {
      } else {
        assert h.nodes[n].Slot(p) == g.nodes[n].Slot(p);
        assert g.SlotResolves(n, p, g.nodes[n].Slot(p).value);
      }
    }
  }

  // ----- The handlers' building blocks

  /** `c` has all nodes of `b`, at the same times and on the same threads. */
  ghost predicate Later(b: Block, c: Block) {
    && b.now == c.now && b.nextNode <= c.nextNode
    && forall n <- b.g.nodes ::
         n in c.g.nodes && c.g.nodes[n].ts == b.g.nodes[n].ts && c.g.nodes[n].tid == b.g.nodes[n].tid
  }

  lemma PacketsLater(b: Block, c: Block)
    requires PacketsOk(b) && Later(b, c) && c.packets == b.packets && c.context == b.context
    ensures PacketsOk(c)
  {
  }

  lemma TypedAlike(b: Block, c: Block)
    requires Typed(b) && c.lastType == b.lastType && c.exits == b.exits && b.nextNode <= c.nextNode
    requires forall t | t != NETWORK_THREAD :: c.g.LastNode(t) == b.g.LastNode(t)
    ensures Typed(c)
  {
    hide Graph.LastNode;
  }

  lemma NewEdgeLater(b: Block, etype: EdgeType, out: Position, from: NodeId, to: NodeId)
    requires from in b.g.nodes && to in b.g.nodes && LinkedUnlessExit(b) && (out == OutVertical || out == OutHorizontal)
    ensures var c := b.NewEdge(etype, out, from, to);
            Later(b, c) && LinkedUnlessExit(c) && c.g.threads == b.g.threads
  {
  }

  /** A wake-up or network edge disturbs nothing else. */
  lemma NewEdgeInv(b: Block, etype: EdgeType, out: Position, from: NodeId, to: NodeId)
    requires Inv(b) && from in b.g.nodes && to in b.g.nodes && (out == OutVertical || out == OutHorizontal)
    requires EdgeByAge(b.g, Edge(etype, from, to)) && (etype.Vertical? <==> out.IsVertical())
    ensures Inv(b.NewEdge(etype, out, from, to)) && Later(b, b.NewEdge(etype, out, from, to))
  {
    hide Grown, EdgeByAge, LinkedUnlessExit, Typed, PacketsOk, Later, Graph.Link;
    NewEdgeGrown(b, etype, out, from, to);
    NewEdgeLater(b, etype, out, from, to);
    PacketsLater(b, b.NewEdge(etype, out, from, to));
    TypedAlike(b, b.NewEdge(etype, out, from, to));
  }

  lemma NewNodeLater(b: Block, tid: ThreadId)
    requires Aged(b)
    ensures var c := b.NewNode(tid);
            && Later(b, c) && b.nextNode in c.g.nodes && c.g.nodes[b.nextNode].ts == b.now
            && c.g.nodes[b.nextNode].tid == tid
            && c.g.nodes[b.nextNode].outH.None?
            && c.g.LastNode(tid) == Some(b.nextNode)
            && forall t | t != tid :: c.g.LastNode(t) == b.g.LastNode(t)
  {
    assert b.nextNode !in b.g.nodes;
  }

  /** A new node leaves no gap if the thread's last node, if any, is an exit node. */
  lemma NewNodeLinks(b: Block, tid: ThreadId)
    requires Aged(b) && ListedByAge(b.g) && LinkedUnlessExit(b)
    requires tid == NETWORK_THREAD || b.g.LastNode(tid).None? || b.g.LastNode(tid).value in b.exits
    ensures LinkedUnlessExit(b.NewNode(tid))
  {
    LastIsLatest(b, tid);
    assert b.nextNode !in b.g.nodes && forall n <- b.g.nodes :: n < b.nextNode;
    hide Aged, ListedByAge;
  }

  /** A new node of the network thread disturbs nothing else. */
  lemma NetworkNodeInv(b: Block)
    requires Inv(b)
    ensures var c := b.NewNode(NETWORK_THREAD);
            Inv(c) && Later(b, c) && NetworkNode(c.g, b.nextNode) && c.g.nodes[b.nextNode].ts == b.now
  {
    hide Aged, ListedByAge, EdgesByAge, SlotsResolve, LinkedUnlessExit, Typed, PacketsOk, Later, Block.NewNode;
    NewNodeGrown(b, NETWORK_THREAD);
    NewNodeLater(b, NETWORK_THREAD);
    NewNodeLinks(b, NETWORK_THREAD);
    assert b.NewNode(NETWORK_THREAD).(g := b.g, nextNode := b.nextNode) == b by { NewNodeFrame(b, NETWORK_THREAD); }
    assert b.nextNode <= b.NewNode(NETWORK_THREAD).nextNode by { NewNodeFrame(b, NETWORK_THREAD); }
    PacketsLater(b, b.NewNode(NETWORK_THREAD));
    TypedAlike(b, b.NewNode(NETWORK_THREAD));
  }

  lemma NewNodeFrame(b: Block, tid: ThreadId)
    ensures b.NewNode(tid).(g := b.g, nextNode := b.nextNode) == b && b.NewNode(tid).nextNode == b.nextNode + 1
  {
  }

  /** The link that ends a thread's current edge goes from its last node to the new one. */
  lemma LinkByAge(b: Block, tid: ThreadId, etype: EdgeType)
    requires Aged(b) && ListedByAge(b.g) && b.g.LastNode(tid).Some? && tid != NETWORK_THREAD && HorizontalType(etype)
    ensures EdgeByAge(b.NewNode(tid).g, Edge(etype, b.g.LastNode(tid).value, b.nextNode))
  {
    LastIsLatest(b, tid);
    assert b.nextNode !in b.g.nodes;
    hide Aged, ListedByAge;
  }

  lemma CutThreadGrown(b: Block, tid: ThreadId)
    requires Inv(b) && b.Closed() && b.Cuttable(tid)
    ensures Grown(b.CutThread(tid)) && Later(b, b.CutThread(tid))
    ensures var c := b.CutThread(tid);
            b.nextNode in c.g.nodes && c.g.nodes[b.nextNode].ts == b.now && c.nextNode == b.nextNode + 1
            && c.g.LastNode(tid) == Some(b.nextNode)
  {
    assert HorizontalType(b.lastType[tid]) && tid != NETWORK_THREAD;
    hide Aged, ListedByAge, EdgesByAge, SlotsResolve, LinkedUnlessExit, Typed, PacketsOk, EdgeByAge, Block.Closed;
    var m := b.NewNode(tid);
    NewNodeGrown(b, tid);
    NewNodeLater(b, tid);
    LinkByAge(b, tid, b.lastType[tid]);
    NewEdgeGrown(m, b.lastType[tid], OutHorizontal, b.g.LastNode(tid).value, b.nextNode);
    LinkSameNodes(m.g, m.nextEdge, b.lastType[tid], OutHorizontal, b.g.LastNode(tid).value, b.nextNode);
  }

  lemma ExtendLinks(b: Block, tid: ThreadId, etype: EdgeType)
    requires Inv(b) && b.Closed() && b.g.LastNode(tid).Some?
    ensures LinkedUnlessExit(b.Extend(tid, etype))
  {
    hide Typed, PacketsOk, Block.Closed, Block.CutThread;
    LastIsLatest(b, tid);
    assert b.nextNode !in b.g.nodes;
    assert LinkedUnlessExit(b);
    hide Grown;
  }

  lemma ExtendTyped(b: Block, tid: ThreadId, etype: EdgeType)
    requires Inv(b) && b.Closed() && b.Cuttable(tid)
    ensures Typed(b.Extend(tid, etype))
  {
    hide Grown, LinkedUnlessExit, PacketsOk, Block.Closed;
    assert b.Extend(tid, etype).g.LastNode(tid) == Some(b.nextNode);
    assert forall t | t != tid :: b.Extend(tid, etype).g.LastNode(t) == b.g.LastNode(t);
  }

  /** Cutting a thread keeps the invariant; the new node is the thread's last, now. */
  lemma CutThreadInv(b: Block, tid: ThreadId)
    requires Inv(b) && b.Closed() && b.Cuttable(tid)
    ensures var c := b.CutThread(tid);
            && Inv(c) && Later(b, c) && c.nextNode == b.nextNode + 1
            && b.nextNode in c.g.nodes && c.g.nodes[b.nextNode].ts == b.now && c.g.LastNode(tid) == Some(b.nextNode)
  {
    hide Grown, LinkedUnlessExit, Typed, PacketsOk, Later, Graph.AddNode, Graph.Link, Block.Closed;
    CutThreadGrown(b, tid);
    ExtendLinks(b, tid, b.lastType[tid]);
    ExtendTyped(b, tid, b.lastType[tid]);
    PacketsLater(b, b.CutThread(tid));
  }

  // ----- Handlers

  /** The handlers' own tables may change as long as packets still name network nodes. */
  lemma TablesInv(b: Block, c: Block)
    requires Inv(b) && PacketsOk(c)
    requires c == b.(context := c.context, packets := c.packets, diskThreads := c.diskThreads, requests := c.requests)
    ensures Inv(c)
  {
    hide ListedByAge, EdgesByAge, SlotsResolve, PacketsOk;
  }

  lemma RequestDiskInv(b: Block, tid: ThreadId)
    requires Inv(b) && b.Closed()
    ensures Inv(b.RequestDisk(tid)) && b.RequestDisk(tid).(requests := b.requests) == b && b.RequestDisk(tid).Closed()
  {
    assert PacketsOk(b.RequestDisk(tid));
    hide Grown, LinkedUnlessExit, Typed, PacketsOk;
    TablesInv(b, b.RequestDisk(tid));
  }

  /** Two nodes made now may be joined by a wake-up, older to newer. */
  lemma WakeUpInv(b: Block, from: NodeId, to: NodeId)
    requires Inv(b) && from in b.g.nodes && to in b.g.nodes && from < to && b.g.nodes[from].ts == b.g.nodes[to].ts
    ensures Inv(b.NewEdge(Vertical, OutVertical, from, to)) && Later(b, b.NewEdge(Vertical, OutVertical, from, to))
  {
    assert EdgeByAge(b.g, Edge(Vertical, from, to));
    hide Grown, LinkedUnlessExit, Typed, PacketsOk, EdgeByAge;
    NewEdgeInv(b, Vertical, OutVertical, from, to);
  }

  lemma OnTTWUBetweenThreadsInv(b: Block, source: ThreadId, target: ThreadId)
    requires Inv(b) && b.Closed()
    ensures Inv(b.OnTTWUBetweenThreads(source, target))
  {
    hide Grown, LinkedUnlessExit, Typed, PacketsOk, Block.Closed, Block.RequestDisk, Block.CutThread, Block.NewEdge;
    if source in b.diskThreads { RequestDiskInv(b, target); }
    var b0 := if source in b.diskThreads then b.RequestDisk(target) else b;
    if b0.Cuttable(source) {
      CutThreadInv(b0, source);
      var b1 := b0.CutThread(source);
      InvIsClosed(b1);
      if b1.Cuttable(target) {
        CutThreadInv(b1, target);
        WakeUpInv(b1.CutThread(target), b0.nextNode, b1.nextNode);
      }
    }
  }

  /** A node is older than any still to be created. */
  lemma NodeIsOld(b: Block, n: NodeId)
    requires Inv(b) && n in b.g.nodes
    ensures n < b.nextNode
  {
    hide ListedByAge, EdgesByAge, SlotsResolve, LinkedUnlessExit, Typed, PacketsOk;
  }

  lemma NodeIsKept(b: Block, c: Block, n: NodeId)
    requires Later(b, c) && n in b.g.nodes
    ensures n in c.g.nodes && c.g.nodes[n].ts == b.g.nodes[n].ts && c.g.nodes[n].tid == b.g.nodes[n].tid
  {
  }

  lemma NetworkEdgeInv(b: Block, from: NodeId, to: NodeId)
    requires Inv(b) && NetworkNode(b.g, from) && NetworkNode(b.g, to) && from < to
    ensures Inv(b.NewEdge(Run, OutHorizontal, from, to)) && Later(b, b.NewEdge(Run, OutHorizontal, from, to))
  {
    assert EdgeByAge(b.g, Edge(Run, from, to));
    hide Grown, LinkedUnlessExit, Typed, PacketsOk, EdgeByAge;
    NewEdgeInv(b, Run, OutHorizontal, from, to);
  }

  lemma NetworkWakeUpInv(b: Block, context: InterruptContext, target: ThreadId)
    requires Inv(b) && b.Closed() && context.node.Some? && NetworkNode(b.g, context.node.value)
    requires target in b.lastType && b.lastType[target] == WaitBlocked
    ensures Inv(b.OnWakeupFromInterrupt(context, target))
  {
    hide Grown, LinkedUnlessExit, Typed, PacketsOk, Later, Block.Closed, Block.CutThread, Block.NewEdge, Block.NewNode;
    var from := context.node.value;
    var m := b.NewNode(NETWORK_THREAD);
    NetworkNodeInv(b);
    NodeIsOld(b, from);
    NodeIsKept(b, m, from);
    NetworkEdgeInv(m, from, b.nextNode);
    var c := m.NewEdge(Run, OutHorizontal, from, b.nextNode);
    NodeIsKept(m, c, b.nextNode);
    InvIsClosed(c);
    if c.Cuttable(target) {
      CutThreadInv(c, target);
      NodeIsOld(c, b.nextNode);
      NodeIsKept(c, c.CutThread(target), b.nextNode);
      assert c.now == b.now by { LaterNow(b, m); LaterNow(m, c); }
      WakeUpInv(c.CutThread(target), b.nextNode, c.nextNode);
    }
  }

  lemma LaterNow(b: Block, c: Block)
    requires Later(b, c)
    ensures c.now == b.now
  {
  }

  lemma OnWakeupFromInterruptInv(b: Block, context: InterruptContext, target: ThreadId)
    requires Inv(b) && b.Closed() && HorizontalType(context.etype)
    requires context.node.Some? ==> NetworkNode(b.g, context.node.value)
    ensures Inv(b.OnWakeupFromInterrupt(context, target))
  {
    hide Grown, LinkedUnlessExit, Typed, PacketsOk, Block.Closed, Block.RequestDisk;
    if target in b.lastType && b.lastType[target] == WaitBlocked {
      if context.node.Some? {
        NetworkWakeUpInv(b, context, target);
      } else {
        RequestDiskInv(b, target);
        var c := if context.etype == BlockDevice then b.RequestDisk(target) else b;
        SetTypeInv(c, target, context.etype);
      }
    }
  }

  /** A blocked thread's type may be replaced by the cause of its wake-up. */
  lemma SetTypeInv(b: Block, tid: ThreadId, etype: EdgeType)
    requires Inv(b) && tid in b.lastType && HorizontalType(etype)
    ensures Inv(b.(lastType := b.lastType[tid := etype]))
  {
    var c := b.(lastType := b.lastType[tid := etype]);
    hide Aged, ListedByAge, EdgesByAge, SlotsResolve;
    assert Typed(c);
    hide LinkedUnlessExit, Typed;
    GrownAlike(b, c);
    PacketsAlike(b, c);
  }

  lemma StackTopOk(b: Block, cpu: Cpu)
    requires PacketsOk(b) && b.Stack(cpu) != []
    ensures var top := b.Stack(cpu)[|b.Stack(cpu)| - 1];
            HorizontalType(top.etype) && (top.node.Some? ==> NetworkNode(b.g, top.node.value))
  {
  }

  lemma OnTTWUInv(b: Block, cpu: Cpu, source: ThreadId, target: ThreadId)
    requires Inv(b) && b.Closed()
    ensures Inv(b.OnTTWU(cpu, source, target))
  {
    hide Grown, LinkedUnlessExit, Typed, PacketsOk, Block.OnWakeupFromInterrupt, Block.OnTTWUBetweenThreads;
    var stack := b.Stack(cpu);
    if stack != [] {
      StackTopOk(b, cpu);
      OnWakeupFromInterruptInv(b, stack[|stack| - 1], target);
    } else {
      OnTTWUBetweenThreadsInv(b, source, target);
    }
  }

  lemma ContextInv(b: Block, cpu: Cpu, etype: EdgeType)
    requires Inv(b) && HorizontalType(etype)
    ensures Inv(b.Enter(cpu, etype)) && Inv(b.Leave(cpu, etype))
  {
    assert PacketsOk(b.Enter(cpu, etype)) && PacketsOk(b.Leave(cpu, etype));
    hide Grown, LinkedUnlessExit, Typed, PacketsOk;
    TablesInv(b, b.Enter(cpu, etype));
    TablesInv(b, b.Leave(cpu, etype));
  }

  lemma OnInetSockLocalInInv(b: Block, cpu: Cpu, key: PacketKey)
    requires Inv(b)
    ensures Inv(b.OnInetSockLocalIn(cpu, key))
  {
    hide Grown, LinkedUnlessExit, Typed;
    assert PacketsOk(b.OnInetSockLocalIn(cpu, key)) by {
      if key in b.packets && b.Stack(cpu) != [] { StackTopOk(b, cpu); }
    }
    hide PacketsOk;
    TablesInv(b, b.OnInetSockLocalIn(cpu, key));
  }

  lemma OnInetSockLocalOutInv(b: Block, cpu: Cpu, tid: ThreadId, key: PacketKey)
    requires Inv(b) && b.Closed()
    ensures Inv(b.OnInetSockLocalOut(cpu, tid, key))
  {
    hide Grown, LinkedUnlessExit, Typed, PacketsOk, Later, Block.Closed, Block.CutThread, Block.NewEdge, Block.NewNode;
    if b.Stack(cpu) == [] && b.Cuttable(tid) {
      CutThreadInv(b, tid);
      var c := b.CutThread(tid);
      NetworkNodeInv(c);
      var m := c.NewNode(NETWORK_THREAD);
      NodeIsKept(c, m, b.nextNode);
      LaterNow(b, c);
      WakeUpInv(m, b.nextNode, c.nextNode);
      var d := m.NewEdge(Vertical, OutVertical, b.nextNode, c.nextNode);
      NodeIsKept(m, d, c.nextNode);
      PacketsKept(b, tid);
      RememberPacket(d, key, c.nextNode);
    }
  }

  lemma RememberPacket(b: Block, key: PacketKey, n: NodeId)
    requires Inv(b) && NetworkNode(b.g, n)
    ensures Inv(b.(packets := b.packets[key := n]))
  {
    hide Grown, LinkedUnlessExit, Typed;
    assert PacketsOk(b.(packets := b.packets[key := n]));
    hide PacketsOk;
    TablesInv(b, b.(packets := b.packets[key := n]));
  }

  lemma PacketsKept(b: Block, tid: ThreadId)
    requires b.Closed() && b.Cuttable(tid)
    ensures var c := b.CutThread(tid);
            c.packets == b.packets && c.context == b.context && c.exits == b.exits && c.lastType == b.lastType
    ensures forall m: Block, etype, out, from, to | from in m.g.nodes && to in m.g.nodes ::
              m.NewEdge(etype, out, from, to).packets == m.packets
    ensures forall m: Block, t :: m.NewNode(t).packets == m.packets
  {
  }

  /** A thread's type after a status: a new one, or none when the status says the thread exited. */
  function Retype(b: Block, tid: ThreadId, etype: Option<EdgeType>, n: NodeId): Block {
    match etype
    case Some(t) => b.(lastType := b.lastType[tid := t])
    case None => b.(lastType := b.lastType - {tid}, exits := b.exits + {n})
  }

  /** A new node at the end of `tid`, linked or not, once the thread's type is set or dropped. */
  lemma RetypeInv(b: Block, c: Block, tid: ThreadId, etype: Option<EdgeType>)
    requires Inv(b) && tid != NETWORK_THREAD && (etype.Some? ==> HorizontalType(etype.value))
    requires Grown(c) && LinkedUnlessExit(c) && PacketsOk(c)
    requires c.exits == b.exits && c.lastType == b.lastType && c.nextNode == b.nextNode + 1
    requires c.g.LastNode(tid) == Some(b.nextNode) && forall t | t != tid :: c.g.LastNode(t) == b.g.LastNode(t)
    ensures Inv(Retype(c, tid, etype, b.nextNode))
  {
    hide Aged, ListedByAge, EdgesByAge, SlotsResolve, LinkedUnlessExit, Typed, PacketsOk;
    var d := Retype(c, tid, etype, b.nextNode);
    RetypeTyped(b, c, tid, etype);
    GrownAlike(c, d);
    PacketsAlike(c, d);
    assert LinkedUnlessExit(d) by { MoreExits(c, d); }
  }

  lemma MoreExits(b: Block, c: Block)
    requires LinkedUnlessExit(b) && c.g == b.g && b.exits <= c.exits
    ensures LinkedUnlessExit(c)
  {
  }

  lemma RetypeTyped(b: Block, c: Block, tid: ThreadId, etype: Option<EdgeType>)
    requires Inv(b) && tid != NETWORK_THREAD && (etype.Some? ==> HorizontalType(etype.value))
    requires c.exits == b.exits && c.lastType == b.lastType && c.nextNode == b.nextNode + 1
    requires c.g.LastNode(tid) == Some(b.nextNode) && forall t | t != tid :: c.g.LastNode(t) == b.g.LastNode(t)
    ensures Typed(Retype(c, tid, etype, b.nextNode))
  {
    hide Grown, LinkedUnlessExit, PacketsOk, Graph.LastNode;
  }

  lemma GrownAlike(b: Block, c: Block)
    requires Grown(b) && c == b.(lastType := c.lastType, exits := c.exits)
    ensures Grown(c)
  {
    hide ListedByAge, EdgesByAge, SlotsResolve;
  }

  lemma PacketsAlike(b: Block, c: Block)
    requires PacketsOk(b) && c == b.(lastType := c.lastType, exits := c.exits)
    ensures PacketsOk(c)
  {
  }

  lemma UntypedHasExited(b: Block, tid: ThreadId)
    requires Typed(b) && tid != NETWORK_THREAD && !b.Cuttable(tid)
    ensures tid !in b.lastType && (b.g.LastNode(tid).Some? ==> b.g.LastNode(tid).value in b.exits)
  {
  }

  lemma OnThreadStatusInv(b: Block, tid: ThreadId, status: Option<Status>)
    requires Inv(b) && b.Closed() && tid != NETWORK_THREAD
    ensures Inv(b.OnThreadStatus(tid, status))
  {
    hide Aged, ListedByAge, EdgesByAge, SlotsResolve, LinkedUnlessExit, Typed, PacketsOk, Later, Block.Closed,
      Graph.LastNode, Block.CutThread, Block.NewNode;
    var newType := StatusType(status);
    if tid !in b.lastType || b.lastType[tid] != newType {
      var c := if b.Cuttable(tid) then b.CutThread(tid) else b.NewNode(tid);
      if b.Cuttable(tid) {
        CutThreadInv(b, tid);
        PacketsKept(b, tid);
        CutKeepsOthers(b, tid);
      } else {
        UntypedHasExited(b, tid);
        NewNodeGrown(b, tid);
        NewNodeLater(b, tid);
        NewNodeLinks(b, tid);
        NewNodeFrame(b, tid);
        PacketsLater(b, b.NewNode(tid));
      }
      RetypeInv(b, c, tid, if status.Some? then Some(newType) else None);
    }
  }

  lemma CutKeepsOthers(b: Block, tid: ThreadId)
    requires b.Closed() && b.Cuttable(tid)
    ensures forall t | t != tid :: b.CutThread(tid).g.LastNode(t) == b.g.LastNode(t)
  {
  }

  /** Events name real threads: thread statuses are not reported for the network pseudo-thread. */
  predicate EventOk(e: Event) { e.ThreadStatus? ==> e.tid != NETWORK_THREAD }

  lemma JournalPackets(b: Block, c: Block)
    requires PacketsOk(b) && c == b.(diskThreads := c.diskThreads)
    ensures PacketsOk(c)
  {
  }

  lemma HandleInv(b: Block, e: Event)
    requires Inv(b) && b.Closed() && EventOk(e)
    ensures Inv(b.Handle(e))
  {
    hide Grown, LinkedUnlessExit, Typed, PacketsOk, Block.OnTTWU, Block.Enter, Block.Leave, Block.OnInetSockLocalIn,
      Block.OnInetSockLocalOut, Block.OnThreadStatus;
    match e {
      case Ttwu(cpu, source, target) => OnTTWUInv(b, cpu, source, target);
      case SoftIrqEntry(cpu, vec) => ContextInv(b, cpu, ResolveSoftIRQ(vec));
      case SoftIrqExit(cpu, vec) => ContextInv(b, cpu, ResolveSoftIRQ(vec));
      case IrqHandlerEntry(cpu, irq) => ContextInv(b, cpu, ResolveIRQ(irq));
      case IrqHandlerExit(cpu, irq) => ContextInv(b, cpu, ResolveIRQ(irq));
      case HrtimerExpireEntry(cpu) => ContextInv(b, cpu, Timer);
      case HrtimerExpireExit(cpu) => ContextInv(b, cpu, Timer);
      case InetSockLocalIn(cpu, key) => OnInetSockLocalInInv(b, cpu, key);
      case InetSockLocalOut(cpu, tid, key) => OnInetSockLocalOutInv(b, cpu, tid, key);
      case ThreadStatus(tid, status) => OnThreadStatusInv(b, tid, status);
      case ThreadName(tid, name) =>
        assert PacketsOk(b.OnThreadName(tid, name)) by { JournalPackets(b, b.OnThreadName(tid, name)); }
        TablesInv(b, b.OnThreadName(tid, name));
    }
  }
}
