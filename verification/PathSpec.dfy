/**
  What a critical-path query computes, as a function of the graph.

  The functions carry a ghost `Context`: the graph, a rank witnessing that it is acyclic,
  and a time horizon. Together with the ghost `waker` (the node whose wake-up led the
  query to this thread) these give the measure under which the mutual recursion ends:
  the time left after the start of the window, then the rank of the waker.
 */
module PathSpec {
  import opened Common
  import opened CriticalGraphs

  datatype Segment = Segment(startTs: Timestamp, endTs: Timestamp, tid: ThreadId, etype: EdgeType)

  type Path = seq<Segment>

  function Last(path: Path): Segment
    requires path != []
  {
    path[|path| - 1]
  }

  /** Appends `seg`, extending the last segment instead when thread and type agree. */
  function InsertSegment(path: Path, seg: Segment): Path {
    if path != [] && Last(path).etype == seg.etype && Last(path).tid == seg.tid then
      path[|path| - 1 := Last(path).(endTs := seg.endTs)]
    else
      path + [seg]
  }

  // ----- Well-formed graphs

  /** A graph whose edges respect time, threads and a rank; such a graph is acyclic. */
  ghost predicate WellFormed(g: Graph, rank: map<NodeId, nat>) {
    && g.Resolved() && g.Threaded() && g.StrictTimes()
    && g.nodes.Keys <= rank.Keys
    && RankFollowsTime(g, rank)
    && EdgesOk(g, rank)
  }

  ghost predicate RankFollowsTime(g: Graph, rank: map<NodeId, nat>)
    requires g.nodes.Keys <= rank.Keys
  {
    forall a <- g.nodes, b <- g.nodes | g.nodes[a].tid == g.nodes[b].tid && g.nodes[a].ts < g.nodes[b].ts ::
      rank[a] < rank[b]
  }

  ghost predicate EdgesOk(g: Graph, rank: map<NodeId, nat>)
    requires g.nodes.Keys <= rank.Keys && g.Resolved()
  {
    forall e <- g.edges :: EdgeOk(g, rank, g.edges[e])
  }

  ghost predicate EdgeOk(g: Graph, rank: map<NodeId, nat>, edge: Edge)
    requires g.nodes.Keys <= rank.Keys && edge.from in g.nodes && edge.to in g.nodes
  {
    var from, to := g.nodes[edge.from], g.nodes[edge.to];
    if edge.etype.Vertical? then
      from.ts == to.ts && rank[edge.from] < rank[edge.to]
    else
      && from.tid == to.tid && from.ts < to.ts && !edge.etype.Epsilon?
      && if from.tid == NETWORK_THREAD then !Blocking(edge.etype) else Consecutive(g, edge.from, edge.to)
  }

  /** No node of the thread lies strictly between `a` and `b`. */
  ghost predicate Consecutive(g: Graph, a: NodeId, b: NodeId)
    requires a in g.nodes && b in g.nodes
  {
    forall k <- g.nodes | g.nodes[k].tid == g.nodes[a].tid ::
      g.nodes[k].ts <= g.nodes[a].ts || g.nodes[b].ts <= g.nodes[k].ts
  }

  datatype Context = Context(g: Graph, rank: map<NodeId, nat>, horizon: nat) {
    ghost predicate Ok() {
      WellFormed(g, rank) && forall n <- g.nodes :: g.nodes[n].ts <= horizon
    }

    lemma OkIsThreaded()
      requires Ok()
      ensures g.Threaded()
    {
    }

    function Ts(n: NodeId): Timestamp requires n in g.nodes { g.nodes[n].ts }
    function Tid(n: NodeId): ThreadId requires n in g.nodes { g.nodes[n].tid }

    /** The waker is on thread `tid`, not before the end of the window. */
    ghost predicate WakerOk(waker: Option<NodeId>, endTs: Timestamp, tid: ThreadId) {
      waker.Some? ==> waker.value in g.nodes && Tid(waker.value) == tid && endTs <= Ts(waker.value)
    }

    ghost function WakerRank(waker: Option<NodeId>): nat
      requires Ok() && (waker.Some? ==> waker.value in g.nodes)
    {
      if waker.Some? then rank[waker.value] else 0
    }

    /** `n` is where a walk of `tid` from `startTs` may stand. */
    ghost predicate WalkOk(startTs: Timestamp, tid: ThreadId, n: NodeId) {
      n in g.nodes && Tid(n) == tid && (startTs < Ts(n) || g.LastUpTo(n, startTs, tid))
    }

    /** The horizontal edge out of `n`. */
    ghost function OutEdge(n: NodeId): (e: Edge)
      requires Ok() && n in g.nodes && g.nodes[n].outH.Some?
      ensures g.nodes[n].outH.value in g.edges && e == g.edges[g.nodes[n].outH.value]
    {
      g.SlotEdge(n, OutHorizontal);
      g.edges[g.nodes[n].outH.value]
    }

    lemma OutEdgeOk(n: NodeId)
      requires Ok() && n in g.nodes && g.nodes[n].outH.Some?
      ensures var e := OutEdge(n);
              e.from == n && e.to in g.nodes && !e.etype.Vertical? && Tid(n) == Tid(e.to) && Ts(n) < Ts(e.to)
              && EdgeOk(g, rank, e)
    {
      g.SlotEdge(n, OutHorizontal);
    }

    /** The node at the other end of the wake-up edge into `n`. */
    ghost function Waker(n: NodeId): (w: NodeId)
      requires Ok() && n in g.nodes && g.nodes[n].inV.Some?
      ensures w in g.nodes && Ts(w) == Ts(n) && rank[w] < rank[n]
      ensures g.nodes[n].inV.value in g.edges && w == g.edges[g.nodes[n].inV.value].from
    {
      g.SlotEdge(n, InVertical);
      assert EdgeOk(g, rank, g.edges[g.nodes[n].inV.value]);
      g.edges[g.nodes[n].inV.value].from
    }

    /** The horizontal edge into `n`. */
    ghost function InEdge(n: NodeId): (e: Edge)
      requires Ok() && n in g.nodes && g.nodes[n].inH.Some?
      ensures e.to == n && e.from in g.nodes && Ts(e.from) < Ts(n) && rank[e.from] < rank[n]
      ensures Tid(e.from) == Tid(n)
      ensures g.nodes[n].inH.value in g.edges && e == g.edges[g.nodes[n].inH.value]
    {
      g.SlotEdge(n, InHorizontal);
      assert EdgeOk(g, rank, g.edges[g.nodes[n].inH.value]);
      g.edges[g.nodes[n].inH.value]
    }

    /** A node of the window's thread, within the window, ranks no higher than the waker. */
    lemma RankBelowWaker(waker: Option<NodeId>, endTs: Timestamp, tid: ThreadId, n: NodeId)
      requires Ok() && WakerOk(waker, endTs, tid)
      requires n in g.nodes && Tid(n) == tid && (Ts(n) <= endTs || (waker.Some? && Ts(n) <= Ts(waker.value)))
      ensures waker.Some? ==> rank[n] <= rank[waker.value]
    {
    }

    /** Along the links from `n`, the first node with an incoming wake-up, up to `endTs`. */
    ghost function FirstWoken(n: NodeId, endTs: Timestamp): (r: Option<NodeId>)
      requires Ok() && n in g.nodes
      ensures r.Some? ==> && r.value in g.nodes && Tid(r.value) == Tid(n)
                          && Ts(n) <= Ts(r.value) <= endTs && g.nodes[r.value].inV.Some?
      decreases horizon - Ts(n)
    {
      if endTs < Ts(n) then None
      else if g.nodes[n].inV.Some? then Some(n)
      else if g.nodes[n].outH.None? then None
      else
        OutEdgeOk(n);
        FirstWoken(OutEdge(n).to, endTs)
    }

    // ----- The query

    ghost function Query(waker: Option<NodeId>, startTs: Timestamp, endTs: Timestamp, tid: ThreadId, path: Path): Path
      requires Ok() && endTs <= horizon && WakerOk(waker, endTs, tid)
      decreases horizon - startTs, waker.None?, WakerRank(waker), 2, 0
    {
      if endTs <= startTs then path
      else
        g.IntersectingIsLast(startTs, tid);
        match g.Intersecting(startTs, tid)
        case Some(n) => Walk(waker, startTs, endTs, tid, n, path)
        case None =>
          match g.StartingAfter(startTs, tid)
          case None => InsertSegment(path, Segment(startTs, endTs, tid, WaitBlocked))
          case Some(first) =>
            match FirstWoken(first, endTs)
            case None =>
              Walk(waker, startTs, endTs, tid, first,
                   InsertSegment(path, Segment(startTs, Ts(first), tid, WaitBlocked)))
            case Some(n) =>
              RankBelowWaker(waker, endTs, tid, n);
              Walk(waker, startTs, endTs, tid, n,
                   Query(Some(Waker(n)), startTs, Ts(n), Tid(Waker(n)), path))
    }

    /** Follows the links of `tid` from `n` up to `endTs`. */
    ghost function Walk(waker: Option<NodeId>, startTs: Timestamp, endTs: Timestamp, tid: ThreadId, n: NodeId,
                        path: Path): Path
      requires Ok() && startTs < endTs <= horizon && WakerOk(waker, endTs, tid) && WalkOk(startTs, tid, n)
      decreases horizon - startTs, waker.None?, WakerRank(waker), 1, horizon - Ts(n)
    {
      if endTs < Ts(n) || g.nodes[n].outH.None? then path
      else
        OutEdgeOk(n);
        var edge := OutEdge(n);
        var edgeStart, edgeEnd := Max(startTs, Ts(n)), Min(endTs, Ts(edge.to));
        StepMeasure(waker, startTs, endTs, tid, n);
        Walk(waker, startTs, endTs, tid, edge.to,
          if Blocking(edge.etype) then Resolve(edge, edgeStart, edgeEnd, path)
          else if edgeStart != edgeEnd then InsertSegment(path, Segment(edgeStart, edgeEnd, tid, edge.etype))
          else path)
    }

    /** Explains the blocked `edge`, clipped to a window, by the thread that ended the wait. */
    ghost function Resolve(edge: Edge, startTs: Timestamp, endTs: Timestamp, path: Path): Path
      requires Ok() && edge.to in g.nodes && startTs <= horizon && endTs <= horizon && endTs <= Ts(edge.to)
      decreases horizon - startTs, false, rank[edge.to], 0, 0
    {
      if g.nodes[edge.to].inV.None? then
        InsertSegment(path, Segment(startTs, endTs, Tid(edge.to), edge.etype))
      else
        var w := Waker(edge.to);
        if Tid(w) == NETWORK_THREAD && g.nodes[w].inH.Some? && g.nodes[InEdge(w).from].inV.Some? then
          var sent := InEdge(w).from;
          InsertSegment(
            Query(Some(Waker(sent)), startTs, Ts(sent), Tid(Waker(sent)), path),
            Segment(Ts(sent), Ts(w), Tid(sent), InEdge(w).etype))
        else
          Query(Some(w), startTs, endTs, Tid(w),
                InsertSegment(path, Segment(startTs, startTs, Tid(w), Epsilon)))
    }

    /** The query, unfolded where the thread does not exist yet at `startTs`. */
    lemma QueryBeforeThread(waker: Option<NodeId>, startTs: Timestamp, endTs: Timestamp, tid: ThreadId, path: Path)
      requires Ok() && endTs <= horizon && WakerOk(waker, endTs, tid)
      requires startTs < endTs && g.Intersecting(startTs, tid).None? && g.StartingAfter(startTs, tid).Some?
      ensures var first := g.StartingAfter(startTs, tid).value;
              var woken := FirstWoken(first, endTs);
              WalkOk(startTs, tid, first)
              && Query(waker, startTs, endTs, tid, path) ==
                 if woken.None? then
                   Walk(waker, startTs, endTs, tid, first,
                        InsertSegment(path, Segment(startTs, Ts(first), tid, WaitBlocked)))
                 else
                   Walk(waker, startTs, endTs, tid, woken.value,
                        Query(Some(Waker(woken.value)), startTs, Ts(woken.value), Tid(Waker(woken.value)), path))
    {
      hide Graph.Threaded, Graph.Resolved, Graph.Intersecting, Graph.StartingAfter, Graph.StrictTimes, RankFollowsTime,
        EdgesOk, Graph.LastUpTo, FirstWoken;
    }

    /** Why a step of a walk that starts no later than the window may recurse: rank goes down. */
    lemma StepMeasure(waker: Option<NodeId>, startTs: Timestamp, endTs: Timestamp, tid: ThreadId, n: NodeId)
      requires Ok() && startTs < endTs && WakerOk(waker, endTs, tid) && WalkOk(startTs, tid, n)
      requires Ts(n) <= endTs && g.nodes[n].outH.Some?
      ensures var edge := OutEdge(n);
              && edge.to in g.nodes && startTs < Ts(edge.to) && WalkOk(startTs, tid, edge.to)
              && (Blocking(edge.etype) && waker.Some? && Ts(n) <= startTs ==> rank[edge.to] <= rank[waker.value])
    {
      OutEdgeOk(n);
      var edge := OutEdge(n);
      assert startTs < Ts(edge.to) by {
        assert startTs < Ts(n) || g.LastUpTo(n, startTs, tid);
      }
      if Blocking(edge.etype) && waker.Some? && Ts(n) <= startTs {
        assert Ts(edge.to) <= Ts(waker.value);
        RankBelowWaker(waker, endTs, tid, edge.to);
      }
    }
  }
}
