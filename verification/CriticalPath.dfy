/** Computing the critical path of a window, by loops and recursion over the graph object. */
module CriticalPaths {
  import opened Common
  import opened CriticalGraphs
  import opened GraphStore
  import opened PathSpec
  import opened PathCoverage
  import opened PathCoverageExact
  import opened PathCausality
  import opened PathMeaning

  class CriticalPath {
    var segments: Path

    constructor ()
      ensures segments == []
    {
      segments := [];
    }

    method Insert(segment: Segment)
      modifies this
      ensures segments == InsertSegment(old(segments), segment)
    {
      if segments != [] && Last(segments).etype == segment.etype && Last(segments).tid == segment.tid {
        segments := segments[|segments| - 1 := Last(segments).(endTs := segment.endTs)];
      } else {
        segments := segments + [segment];
      }
    }
  }

  method ResolveBlockedEdge(graph: CriticalGraph, ghost c: Context, edge: Edge,
                            startTs: Timestamp, endTs: Timestamp, path: CriticalPath)
    requires c.Ok() && c.g == graph.State()
    requires edge.to in c.g.nodes && startTs <= c.horizon && endTs <= c.horizon && endTs <= c.Ts(edge.to)
    modifies path
    ensures path.segments == c.Resolve(edge, startTs, endTs, old(path.segments))
    decreases c.horizon - startTs, false, c.rank[edge.to], 0, 0
  {
    hide Graph.Threaded, Graph.Resolved, Graph.StrictTimes, RankFollowsTime, EdgesOk, Context.Query;
    var toNode := edge.to;
    var wakeUp := graph.nodes[toNode].inV;
    if wakeUp.None? {
      path.Insert(Segment(startTs, endTs, graph.nodes[toNode].tid, edge.etype));
      return;
    }
    assert c.Waker(toNode) in c.g.nodes;
    var source := graph.GetEdge(wakeUp.value).from;
    var sourceThread := graph.nodes[source].tid;
    if sourceThread == NETWORK_THREAD {
      var networkIn := graph.nodes[source].inH;
      if networkIn.Some? {
        assert c.InEdge(source).from in c.g.nodes;
        var networkEdge := graph.GetEdge(networkIn.value);
        var sent := networkEdge.from;
        var networkWakeUp := graph.nodes[sent].inV;
        if networkWakeUp.Some? {
          assert c.Waker(sent) in c.g.nodes;
          var sender := graph.GetEdge(networkWakeUp.value).from;
          ComputeCriticalPathRecursive(graph, c, Some(sender), startTs, graph.nodes[sent].ts, graph.nodes[sender].tid,
                                       path);
          path.Insert(Segment(graph.nodes[sent].ts, graph.nodes[source].ts, graph.nodes[sent].tid, networkEdge.etype));
          return;
        }
      }
    }
    path.Insert(Segment(startTs, startTs, sourceThread, Epsilon));
    ComputeCriticalPathRecursive(graph, c, Some(source), startTs, endTs, sourceThread, path);
  }

  method ComputeCriticalPathRecursive(graph: CriticalGraph, ghost c: Context, ghost waker: Option<NodeId>,
                                      startTs: Timestamp, endTs: Timestamp, tid: ThreadId, path: CriticalPath)
    requires c.Ok() && c.g == graph.State() && endTs <= c.horizon && c.WakerOk(waker, endTs, tid)
    modifies path
    ensures path.segments == c.Query(waker, startTs, endTs, tid, old(path.segments))
    decreases c.horizon - startTs, waker.None?, c.WakerRank(waker), 2, 1
  {
    hide Graph.Threaded, Graph.Resolved, Graph.Intersecting, Graph.StartingAfter, Graph.StrictTimes, RankFollowsTime,
      EdgesOk, Context.FirstWoken, Context.Resolve;
    if endTs <= startTs { return; }
    ghost var result := c.Query(waker, startTs, endTs, tid, path.segments);

    var node := graph.GetNodeIntersecting(startTs, tid);
    c.g.IntersectingIsLast(startTs, tid);
    if node.None? {
      node := StartWithinWindow(graph, c, waker, startTs, endTs, tid, path);
    }

    while node.Some? && graph.nodes[node.value].ts <= endTs && graph.nodes[node.value].outH.Some?
      invariant node.None? ==> path.segments == result
      invariant node.Some? ==> c.WalkOk(startTs, tid, node.value)
                               && c.Walk(waker, startTs, endTs, tid, node.value, path.segments) == result
      decreases if node.Some? then c.horizon - c.Ts(node.value) else 0
    {
      c.OutEdgeOk(node.value);
      c.StepMeasure(waker, startTs, endTs, tid, node.value);
      var edge := graph.GetEdge(graph.nodes[node.value].outH.value);
      var nextNode := edge.to;
      var edgeStartTs := Max(startTs, graph.nodes[node.value].ts);
      var edgeEndTs := Min(endTs, graph.nodes[nextNode].ts);
      if edge.etype == WaitBlocked || edge.etype == Network {
        ResolveBlockedEdge(graph, c, edge, edgeStartTs, edgeEndTs, path);
      } else if edgeStartTs != edgeEndTs {
        path.Insert(Segment(edgeStartTs, edgeEndTs, tid, edge.etype));
      }
      node := Some(nextNode);
    }
  }

  /**
    The thread does not exist at `startTs`: account for the time before it does, by the thread that
    first woke it if there is one, and return the node from which to walk it.
   */
  method StartWithinWindow(graph: CriticalGraph, ghost c: Context, ghost waker: Option<NodeId>,
                           startTs: Timestamp, endTs: Timestamp, tid: ThreadId, path: CriticalPath)
    returns (node: Option<NodeId>)
    requires c.Ok() && c.g == graph.State() && endTs <= c.horizon && c.WakerOk(waker, endTs, tid)
    requires startTs < endTs && c.g.Intersecting(startTs, tid).None?
    modifies path
    ensures node.None? ==> path.segments == c.Query(waker, startTs, endTs, tid, old(path.segments))
    ensures node.Some? ==> c.WalkOk(startTs, tid, node.value)
                           && c.Walk(waker, startTs, endTs, tid, node.value, path.segments)
                              == c.Query(waker, startTs, endTs, tid, old(path.segments))
    decreases c.horizon - startTs, waker.None?, c.WakerRank(waker), 2, 0
  {
    hide Graph.Threaded, Graph.Resolved, Graph.Intersecting, Graph.StartingAfter, Graph.StrictTimes, RankFollowsTime,
      EdgesOk, Graph.LastUpTo, Context.Walk;
    node := graph.GetNodeStartingAfter(startTs, tid);
    ghost var first := node;
    var foundSomething := false;
    while node.Some? && graph.nodes[node.value].ts <= endTs
      invariant !foundSomething && path.segments == old(path.segments)
      invariant node.Some? == first.Some?
      invariant node.Some? ==> node.value in c.g.nodes && c.Tid(node.value) == tid && startTs < c.Ts(node.value)
      invariant node.Some? ==> c.FirstWoken(node.value, endTs) == c.FirstWoken(first.value, endTs)
      decreases if node.Some? then c.horizon - c.Ts(node.value) else 0
    {
      var wakeUp := graph.nodes[node.value].inV;
      if wakeUp.Some? {
        assert c.Waker(node.value) in c.g.nodes;
        var source := graph.GetEdge(wakeUp.value).from;
        c.RankBelowWaker(waker, endTs, tid, node.value);
        ComputeCriticalPathRecursive(graph, c, Some(source), startTs, graph.nodes[node.value].ts,
                                     graph.nodes[source].tid, path);
        foundSomething := true;
        break;
      }
      var next := graph.nodes[node.value].outH;
      if next.Some? {
        c.OutEdgeOk(node.value);
        node := Some(graph.GetEdge(next.value).to);
      } else {
        break;
      }
    }
    if !foundSomething {
      node := graph.GetNodeStartingAfter(startTs, tid);
      var segmentEnd := endTs;
      if node.Some? {
        segmentEnd := graph.nodes[node.value].ts;
      }
      path.Insert(Segment(startTs, segmentEnd, tid, WaitBlocked));
    }
  }

  /** The latest of a set of times, to bound the timestamps of a graph. */
  ghost function Latest(g: Graph, ids: set<NodeId>, floor: Timestamp): (h: Timestamp)
    requires ids <= g.nodes.Keys
    ensures floor <= h && forall n <- ids :: g.nodes[n].ts <= h
  {
    if ids == {} then floor
    else
      var n :| n in ids;
      Max(g.nodes[n].ts, Latest(g, ids - {n}, floor))
  }

  /** A well-formed graph, with a horizon that no node and no window up to `endTs` is beyond. */
  ghost function ContextOf(g: Graph, rank: map<NodeId, nat>, endTs: Timestamp): (c: Context)
    requires WellFormed(g, rank)
    ensures c.Ok() && c.g == g && c.rank == rank && endTs <= c.horizon
  {
    Context(g, rank, Latest(g, g.nodes.Keys, endTs))
  }

  /**
    The critical path of `tid` over a window of an acyclic graph. The path is whatever the query denotes. Where
    the query's way is unbroken, it is faithful, and tiles the window exactly if the window may end where it does; then
    it shows at every instant whom the end of the window waited for.
    Where no waker waits for a packet, all that it shows is the thread's own or led to what the thread did by the
    window's end, exactly if the thread does not itself begin, or go on with, a wait for a packet there.
   */
  method ComputeCriticalPath(graph: CriticalGraph, ghost rank: map<NodeId, nat>,
                             startTs: Timestamp, endTs: Timestamp, tid: ThreadId, path: CriticalPath)
    returns (ghost c: Context)
    requires WellFormed(graph.State(), rank) && path.segments == []
    modifies path
    ensures c == ContextOf(graph.State(), rank, endTs)
    ensures path.segments == c.Query(None, startTs, endTs, tid, [])
    ensures startTs <= endTs && tid != NETWORK_THREAD && Unbroken(c, None, startTs, endTs, tid) ==>
              && Faithful(c, path.segments)
              && (Tiles(path.segments, startTs, endTs) <==> MayBeTiled(c, startTs, endTs, tid))
    ensures startTs <= endTs && tid != NETWORK_THREAD && Unbroken(c, None, startTs, endTs, tid)
            && MayBeTiled(c, startTs, endTs, tid) ==>
              forall t | startTs <= t < endTs ::
                ShownAt(path.segments, t) == Some(Shows(c, None, startTs, endTs, tid, t))
    ensures Merged(path.segments)
    ensures tid != NETWORK_THREAD && WakersResume(c) ==>
              (AllExplained(c, tid, endTs, path.segments) <==> !EndOverruns(c, startTs, endTs, tid))
  {
    hide Context.Ok, WellFormed, Unbroken, Faithful, Tiles, MayBeTiled, WakersResume, AllExplained, EndOverruns,
      Context.Query, AccountedTime, Shows, ShownAt;
    c := ContextOf(graph.State(), rank, endTs);
    ComputeCriticalPathRecursive(graph, c, None, startTs, endTs, tid, path);
    if startTs <= endTs && tid != NETWORK_THREAD && Unbroken(c, None, startTs, endTs, tid) {
      WindowIsTiledIff(c, startTs, endTs, tid);
      forall t | startTs <= t < endTs && MayBeTiled(c, startTs, endTs, tid)
        ensures ShownAt(path.segments, t) == Some(Shows(c, None, startTs, endTs, tid, t))
      {
        WindowShows(c, startTs, endTs, tid, t);
      }
    }
    QueryMerges(c, None, startTs, endTs, tid, []);
    if tid != NETWORK_THREAD && WakersResume(c) {
      PathIsCausal(c, startTs, endTs, tid);
    }
  }
}
