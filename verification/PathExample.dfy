/**
  A thread that waits for another, runs, and the critical paths that explain it: the hypotheses of the coverage
  theorem can be met where threads wake each other, and by a window that ends within a wait.
 */
module PathExample {
  import opened Common
  import opened CriticalGraphs
  import opened PathSpec
  import opened PathCoverage
  import opened PathCoverageExact

  // ----- A graph

  /** Thread 1 is blocked from 0 to 10, when thread 2, which has run since 0, wakes it; then it runs until 20. */
  const GRAPH := Graph(
    map[0 := Node(0, 1, None, None, Some(0), None),
        1 := Node(0, 2, None, None, Some(1), None),
        2 := Node(10, 2, Some(2), None, None, Some(1)),
        3 := Node(10, 1, None, Some(2), Some(3), Some(0)),
        4 := Node(20, 1, None, None, None, Some(3))],
    map[1 := [0, 3, 4], 2 := [1, 2]],
    map[0 := Edge(WaitBlocked, 0, 3), 1 := Edge(Run, 1, 2), 2 := Edge(Vertical, 2, 3), 3 := Edge(Run, 3, 4)])

  /** What the display above says, fact by fact. */
  ghost predicate Laid(g: Graph) {
    && g.nodes.Keys == {0, 1, 2, 3, 4} && g.edges.Keys == {0, 1, 2, 3}
    && g.nodes[0] == Node(0, 1, None, None, Some(0), None) && g.nodes[1] == Node(0, 2, None, None, Some(1), None)
    && g.nodes[2] == Node(10, 2, Some(2), None, None, Some(1))
    && g.nodes[3] == Node(10, 1, None, Some(2), Some(3), Some(0))
    && g.nodes[4] == Node(20, 1, None, None, None, Some(3))
    && g.edges[0] == Edge(WaitBlocked, 0, 3) && g.edges[1] == Edge(Run, 1, 2)
    && g.edges[2] == Edge(Vertical, 2, 3) && g.edges[3] == Edge(Run, 3, 4)
  }

  ghost predicate Listed(g: Graph) {
    g.threads.Keys == {1, 2} && g.threads[1] == [0, 3, 4] && g.threads[2] == [1, 2]
  }

  lemma GraphIsLaid()
    ensures Laid(GRAPH) && Listed(GRAPH)
  {
  }

  /** Creation order ranks the nodes. */
  function Ranked(g: Graph): Context { Context(g, map n | n in g.nodes :: n, 20) }

  lemma LaidIsResolved(g: Graph)
    requires Laid(g)
    ensures g.Resolved()
  {
    forall n <- g.nodes, p: Position | g.nodes[n].Slot(p).Some?
      ensures g.SlotResolves(n, p, g.nodes[n].Slot(p).value)
    {
      match p { case OutVertical => case InVertical => case OutHorizontal => case InHorizontal => }
    }
  }

  lemma LaidIsThreaded(g: Graph)
    requires Laid(g) && Listed(g)
    ensures g.Threaded()
  {
    assert g.threads[1][0] == 0 && g.threads[1][1] == 3 && g.threads[1][2] == 4;
    assert g.threads[2][0] == 1 && g.threads[2][1] == 2;
  }

  lemma LaidIsStrict(g: Graph)
    requires Laid(g)
    ensures g.StrictTimes()
  {
  }

  lemma LaidIsRanked(g: Graph)
    requires Laid(g)
    ensures RankFollowsTime(g, Ranked(g).rank) && forall n <- g.nodes :: g.nodes[n].ts <= 20
  {
  }

  lemma LaidEdges(g: Graph)
    requires Laid(g) && g.Resolved()
    ensures EdgesOk(g, Ranked(g).rank)
  {
    hide Graph.Resolved;
  }

  lemma LaidIsOk(g: Graph)
    requires Laid(g) && Listed(g)
    ensures Ranked(g).Ok()
  {
    hide Laid, Graph.Resolved, Graph.Threaded, Graph.StrictTimes, RankFollowsTime, EdgesOk, Listed;
    LaidIsResolved(g);
    LaidIsThreaded(g);
    LaidIsStrict(g);
    LaidIsRanked(g);
    LaidEdges(g);
  }

  // ----- What it has of nodes and edges

  lemma Wait(c: Context)
    requires c.Ok() && Laid(c.g)
    ensures 0 in c.g.nodes && c.Ts(0) == 0 && c.Tid(0) == 1 && c.g.nodes[0].outH.Some?
    ensures c.OutEdge(0) == Edge(WaitBlocked, 0, 3)
  {
    hide Context.Ok, WellFormed;
  }

  lemma WaitEnds(c: Context)
    requires c.Ok() && Laid(c.g)
    ensures 3 in c.g.nodes && c.Ts(3) == 10 && c.Tid(3) == 1 && c.g.nodes[3].outH.Some? && c.g.nodes[3].inV.Some?
    ensures c.OutEdge(3) == Edge(Run, 3, 4) && c.Waker(3) == 2
    ensures 2 in c.g.nodes && c.Ts(2) == 10 && c.Tid(2) == 2 && c.g.nodes[2].outH.None?
    ensures 4 in c.g.nodes && c.Ts(4) == 20 && c.Tid(4) == 1 && c.g.nodes[4].outH.None?
  {
    hide Context.Ok, WellFormed;
  }

  lemma RunOfWaker(c: Context)
    requires c.Ok() && Laid(c.g)
    ensures 1 in c.g.nodes && c.Ts(1) == 0 && c.Tid(1) == 2 && c.g.nodes[1].outH.Some?
    ensures c.OutEdge(1) == Edge(Run, 1, 2)
  {
    hide Context.Ok, WellFormed;
  }

  lemma Starts(g: Graph)
    requires Laid(g)
    ensures g.LastUpTo(0, 0, 1) && g.CoversFrom(0, 0) && g.LastUpTo(1, 0, 2) && g.CoversFrom(1, 0)
  {
  }

  lemma LaidIsGapless(g: Graph)
    requires Laid(g)
    ensures Gapless(g)
  {
  }

  lemma OnlyWakeUp(g: Graph)
    requires Laid(g)
    ensures forall n <- g.nodes | g.nodes[n].inV.Some? :: n == 3
  {
  }

  lemma NoPackets(c: Context)
    requires c.Ok() && Laid(c.g)
    ensures NoNetworkWakeUps(c)
  {
    hide Context.Ok, WellFormed, Laid;
    OnlyWakeUp(c.g);
    WaitEnds(c);
  }

  /** The window may end while thread 1 waits, because thread 2, which will wake it, runs then. */
  lemma MayEndInWait(c: Context)
    requires c.Ok() && Laid(c.g)
    ensures EndsWell(c, None, 5, 1)
  {
    hide Context.Ok, WellFormed, Laid, EndsWell;
    Wait(c);
    WaitEnds(c);
    RunOfWaker(c);
    CrossingIs(c, 0, 1, 5);
    CrossingIs(c, 1, 2, 5);
    assert Lives(c, 1, 5) && Lives(c, 2, 5);
    EndsWellBy(c, Some(2), 5, 2);
    EndsWellBy(c, None, 5, 1);
  }

  /** Ending well, one thread at a time. */
  lemma EndsWellBy(c: Context, waker: Option<NodeId>, endTs: Timestamp, tid: ThreadId)
    requires c.Ok() && c.WakerOk(waker, endTs, tid) && tid != NETWORK_THREAD && Lives(c, tid, endTs)
    requires Crossing(c, tid, endTs).Some?
    requires var edge := c.OutEdge(Crossing(c, tid, endTs).value);
             && edge.to in c.g.nodes && endTs < c.Ts(edge.to)
             && (Blocking(edge.etype) && c.g.nodes[edge.to].inV.Some? ==>
                   EndsWell(c, Some(c.Waker(edge.to)), endTs, c.Tid(c.Waker(edge.to))))
    ensures EndsWell(c, waker, endTs, tid)
  {
    hide WellFormed, Lives, Crossing;
  }

  /**
    The hypotheses of the coverage theorem hold of this graph, wake-ups included, and two of its windows may be tiled.
   */
  lemma HypothesesHold()
    ensures Ranked(GRAPH).Ok() && Gapless(GRAPH) && NoNetworkWakeUps(Ranked(GRAPH))
    ensures MayBeTiled(Ranked(GRAPH), 0, 20, 1) && MayBeTiled(Ranked(GRAPH), 0, 5, 1)
  {
    hide Laid, Listed, Context.Ok, WellFormed, EndsWell, Silent;
    GraphIsLaid();
    LaidIsOk(GRAPH);
    LaidIsGapless(GRAPH);
    NoPackets(Ranked(GRAPH));
    WaitEnds(Ranked(GRAPH));
    MayEndAtNode(Ranked(GRAPH), 0, 4);
    MayEndInWait(Ranked(GRAPH));
  }

  // ----- Its paths

  const MARK := Segment(0, 0, 2, Epsilon)

  /** What thread 2 did until it woke thread 1, or until the window ends. */
  lemma WakersPath(c: Context, endTs: Timestamp)
    requires c.Ok() && Laid(c.g) && 0 < endTs <= 10 <= c.horizon && c.WakerOk(Some(2), endTs, 2)
    ensures c.Query(Some(2), 0, endTs, 2, [MARK]) == [MARK, Segment(0, endTs, 2, Run)]
  {
    hide Context.Ok, WellFormed, Laid, Context.Query, Context.Walk;
    Starts(c.g);
    RunOfWaker(c);
    WaitEnds(c);
    QueryFrom(c, Some(2), 0, endTs, 2, 1, [MARK]);
    WalkSteps(c, Some(2), 0, endTs, 2, 1, [MARK]);
    var path := [MARK, Segment(0, endTs, 2, Run)];
    assert StepOf(c, 0, endTs, 2, 1, [MARK]) == path;
    WalkEnds(c, Some(2), 0, endTs, 2, 2, path);
  }

  /** The wait of thread 1, up to the wake-up or the end of the window. */
  lemma WaitersPath(c: Context, endTs: Timestamp)
    requires c.Ok() && Laid(c.g) && 0 < endTs <= 10 <= c.horizon
    ensures 3 in c.g.nodes && c.Ts(3) == 10
    ensures c.Resolve(Edge(WaitBlocked, 0, 3), 0, endTs, []) == [MARK, Segment(0, endTs, 2, Run)]
  {
    hide Context.Ok, WellFormed, Laid, Context.Query, Context.Resolve;
    WaitEnds(c);
    WaitByThread(c, Edge(WaitBlocked, 0, 3), 0, endTs, []);
    assert InsertSegment([], MARK) == [MARK];
    WakersPath(c, endTs);
  }

  /** A window that ends within the wait gets what thread 2 did until then. */
  lemma WaitIsCut(c: Context)
    requires c.Ok() && Laid(c.g) && c.horizon == 20
    ensures c.Query(None, 0, 5, 1, []) == [Segment(0, 0, 2, Epsilon), Segment(0, 5, 2, Run)]
  {
    hide Context.Ok, WellFormed, Laid, Context.Query, Context.Walk, Context.Resolve;
    Starts(c.g);
    Wait(c);
    WaitersPath(c, 5);
    QueryFrom(c, None, 0, 5, 1, 0, []);
    WalkSteps(c, None, 0, 5, 1, 0, []);
    WalkEnds(c, None, 0, 5, 1, 3, [MARK, Segment(0, 5, 2, Run)]);
  }

  /** The wait of thread 1 is explained by what thread 2 did. */
  lemma WaitIsExplained(c: Context)
    requires c.Ok() && Laid(c.g) && c.horizon == 20
    ensures c.Query(None, 0, 20, 1, [])
         == [Segment(0, 0, 2, Epsilon), Segment(0, 10, 2, Run), Segment(10, 20, 1, Run)]
  {
    hide Context.Ok, WellFormed, Laid, Context.Query, Context.Walk, Context.Resolve;
    Starts(c.g);
    Wait(c);
    WaitEnds(c);
    WaitersPath(c, 10);
    QueryFrom(c, None, 0, 20, 1, 0, []);
    WalkSteps(c, None, 0, 20, 1, 0, []);
    var waited := [MARK, Segment(0, 10, 2, Run)];
    WalkSteps(c, None, 0, 20, 1, 3, waited);
    var path := waited + [Segment(10, 20, 1, Run)];
    assert StepOf(c, 0, 20, 1, 3, waited) == path;
    WalkEnds(c, None, 0, 20, 1, 4, path);
  }
}
