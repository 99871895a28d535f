/**
  What a critical path promises about the window it was asked for: its segments tile the
  window, and each instant of it is given the type of the edge that covers that instant.
 */
module PathCoverage {
  import opened Common
  import opened CriticalGraphs
  import opened PathSpec

  /** Segments lie end to end from `a` to `b`. */
  ghost predicate Tiles(path: Path, a: Timestamp, b: Timestamp) {
    && (path == [] ==> a == b)
    && (path != [] ==> path[0].startTs == a && Last(path).endTs == b)
    && (forall i | 0 <= i < |path| :: path[i].startTs <= path[i].endTs)
    && (forall i | 0 < i < |path| :: path[i - 1].endTs == path[i].startTs)
  }

  /** `n` carries the edge of its thread that covers the instant `t`. */
  ghost predicate CoveredBy(c: Context, n: NodeId, tid: ThreadId, t: Timestamp)
    requires c.Ok()
  {
    n in c.g.nodes && c.Tid(n) == tid && c.g.nodes[n].outH.Some?
    && c.OutEdge(n).to in c.g.nodes && c.Ts(n) <= t < c.Ts(c.OutEdge(n).to)
  }

  /** The type a thread has at an instant; a thread with no edge there counts as blocked. */
  ghost predicate TypeAt(c: Context, tid: ThreadId, t: Timestamp, etype: EdgeType)
    requires c.Ok()
  {
    || (exists n | CoveredBy(c, n, tid, t) :: c.OutEdge(n).etype == etype)
    || (etype.WaitBlocked? && forall n :: !CoveredBy(c, n, tid, t))
    || (tid == NETWORK_THREAD && exists e <- c.g.edges :: OnItsWay(c, e, t) && c.g.edges[e].etype == etype)
  }

  /** A packet is on the network at an instant. */
  ghost predicate OnItsWay(c: Context, e: EdgeId, t: Timestamp)
    requires c.Ok() && e in c.g.edges
  {
    var edge := c.g.edges[e];
    && !edge.etype.Vertical? && edge.from in c.g.nodes && edge.to in c.g.nodes
    && c.Tid(edge.from) == NETWORK_THREAD && c.Ts(edge.from) <= t < c.Ts(edge.to)
  }

  ghost predicate FaithfulSegment(c: Context, seg: Segment)
    requires c.Ok()
  {
    if seg.etype.Epsilon? then seg.startTs == seg.endTs
    else forall t | seg.startTs <= t < seg.endTs :: TypeAt(c, seg.tid, t, seg.etype)
  }

  ghost predicate Faithful(c: Context, path: Path)
    requires c.Ok()
  {
    forall i | 0 <= i < |path| :: FaithfulSegment(c, path[i])
  }

  /** An instant of a thread has one type: the covering edge is unique. */
  lemma CoverIsUnique(c: Context, n: NodeId, m: NodeId, tid: ThreadId, t: Timestamp)
    requires c.Ok() && tid != NETWORK_THREAD && CoveredBy(c, n, tid, t) && CoveredBy(c, m, tid, t)
    ensures n == m
  {
    c.OutEdgeOk(n);
    c.OutEdgeOk(m);
  }

  // ----- Hypotheses of the coverage theorem

  /** Every node that is not the last of its thread is linked to a next one. */
  ghost predicate Gapless(g: Graph) {
    forall n <- g.nodes, m <- g.nodes |
      g.nodes[n].tid == g.nodes[m].tid != NETWORK_THREAD && g.nodes[n].ts < g.nodes[m].ts :: g.nodes[n].outH.Some?
  }

  /** No thread has a gap that meets the window from `a` to `b`. */
  ghost predicate GaplessIn(g: Graph, a: Timestamp, b: Timestamp) {
    forall n <- g.nodes, m <- g.nodes |
      && g.nodes[n].tid == g.nodes[m].tid != NETWORK_THREAD && g.nodes[n].ts < g.nodes[m].ts
      && g.nodes[n].ts < b && a < g.nodes[m].ts :: g.nodes[n].outH.Some?
  }

  ghost predicate NoNetworkWakeUps(c: Context)
    requires c.Ok()
  {
    forall n <- c.g.nodes | c.g.nodes[n].inV.Some? :: c.Tid(c.Waker(n)) != NETWORK_THREAD
  }

  /** `n` ends a wait that begins at `m`. */
  ghost predicate EndsWaitOf(c: Context, m: NodeId, n: NodeId)
    requires c.Ok()
  {
    m in c.g.nodes && c.g.nodes[m].outH.Some? && Blocking(c.OutEdge(m).etype) && c.OutEdge(m).to == n
  }

  /** A query of the window may ask who woke `n`: it is in the window, or ends a wait that begins by its end. */
  ghost predicate Met(c: Context, n: NodeId, a: Timestamp, b: Timestamp)
    requires c.Ok() && n in c.g.nodes
  {
    a < c.Ts(n) && (c.Ts(n) <= b || exists m :: EndsWaitOf(c, m, n) && c.Ts(m) <= b)
  }

  /** No wake-up that a query of the window may meet is by a packet. */
  ghost predicate NoNetworkIn(c: Context, a: Timestamp, b: Timestamp)
    requires c.Ok()
  {
    forall n <- c.g.nodes | c.g.nodes[n].inV.Some? && Met(c, n, a, b) :: c.Tid(c.Waker(n)) != NETWORK_THREAD
  }

  lemma HypothesesNarrow(c: Context, a: Timestamp, b: Timestamp, a': Timestamp, b': Timestamp)
    requires c.Ok() && a <= a' && b' <= b && GaplessIn(c.g, a, b) && NoNetworkIn(c, a, b)
    ensures GaplessIn(c.g, a', b') && NoNetworkIn(c, a', b')
  {
    hide Context.Ok, WellFormed;
    forall n <- c.g.nodes | c.g.nodes[n].inV.Some? && Met(c, n, a', b')
      ensures c.Tid(c.Waker(n)) != NETWORK_THREAD
    {
      assert Met(c, n, a, b);
    }
  }

  lemma HypothesesWiden(c: Context, a: Timestamp, b: Timestamp)
    requires c.Ok()
    ensures Gapless(c.g) ==> GaplessIn(c.g, a, b)
    ensures NoNetworkWakeUps(c) ==> NoNetworkIn(c, a, b)
  {
    hide Context.Ok, WellFormed, Met;
  }

  /** The node whose edge passes over the time `t`, if there is one. */
  ghost function Crossing(c: Context, tid: ThreadId, t: Timestamp): (r: Option<NodeId>)
    requires c.Ok()
    ensures r.Some? ==> CoveredBy(c, r.value, tid, t) && c.Ts(r.value) < t
    ensures r.None? ==> forall n | CoveredBy(c, n, tid, t) :: c.Ts(n) == t
  {
    if exists n :: CoveredBy(c, n, tid, t) && c.Ts(n) < t then
      var n :| CoveredBy(c, n, tid, t) && c.Ts(n) < t;
      Some(n)
    else None
  }

  /** The thread has a node at or before `t`, and one at or after it. */
  ghost predicate Lives(c: Context, tid: ThreadId, t: Timestamp) {
    && (exists k <- c.g.nodes :: c.g.nodes[k].tid == tid && c.g.nodes[k].ts <= t)
    && (exists k <- c.g.nodes :: c.g.nodes[k].tid == tid && t <= c.g.nodes[k].ts)
  }

  /**
    Where a window may end: the thread lives there, and if it is in a wait that a wake-up will end, then the
    window may end there on the thread that will do so.
   */
  ghost predicate EndsWell(c: Context, waker: Option<NodeId>, endTs: Timestamp, tid: ThreadId)
    requires c.Ok() && c.WakerOk(waker, endTs, tid)
    decreases waker.None?, c.WakerRank(waker)
  {
    && tid != NETWORK_THREAD && Lives(c, tid, endTs)
    && match Crossing(c, tid, endTs)
       case None => true
       case Some(n) =>
         CrossingRank(c, waker, endTs, tid, n);
         var edge := c.OutEdge(n);
         Blocking(edge.etype) && c.g.nodes[edge.to].inV.Some? ==>
           EndsWell(c, Some(c.Waker(edge.to)), endTs, c.Tid(c.Waker(edge.to)))
  }

  lemma CrossingRank(c: Context, waker: Option<NodeId>, endTs: Timestamp, tid: ThreadId, n: NodeId)
    requires c.Ok() && c.WakerOk(waker, endTs, tid) && tid != NETWORK_THREAD
    requires CoveredBy(c, n, tid, endTs) && c.Ts(n) < endTs
    ensures c.OutEdge(n).to in c.g.nodes && c.Tid(c.OutEdge(n).to) == tid && endTs < c.Ts(c.OutEdge(n).to)
    ensures waker.Some? ==> c.rank[c.OutEdge(n).to] <= c.rank[waker.value]
  {
    c.OutEdgeOk(n);
    if waker.Some? {
      assert c.Ts(c.OutEdge(n).to) <= c.Ts(waker.value);
      c.RankBelowWaker(waker, endTs, tid, c.OutEdge(n).to);
    }
  }

  /** A thread has one edge over a time. */
  lemma CrossingIs(c: Context, n: NodeId, tid: ThreadId, t: Timestamp)
    requires c.Ok() && tid != NETWORK_THREAD && CoveredBy(c, n, tid, t) && c.Ts(n) < t
    ensures Crossing(c, tid, t) == Some(n)
  {
    hide Context.Ok, WellFormed;
    CoverIsUnique(c, n, Crossing(c, tid, t).value, tid, t);
  }

  ghost predicate Good(c: Context, path: Path, a: Timestamp, b: Timestamp)
    requires c.Ok()
  {
    Tiles(path, a, b) && Faithful(c, path)
  }

  lemma InsertKeepsGood(c: Context, path: Path, seg: Segment, a: Timestamp)
    requires c.Ok() && Good(c, path, a, seg.startTs) && seg.startTs <= seg.endTs && FaithfulSegment(c, seg)
    ensures Good(c, InsertSegment(path, seg), a, seg.endTs)
  {
    if path != [] && Last(path).etype == seg.etype && Last(path).tid == seg.tid {
      var last := Last(path);
      var merged := last.(endTs := seg.endTs);
      assert FaithfulSegment(c, last);
      assert FaithfulSegment(c, merged);
    }
  }

  /** An edge of the walk gives its type to the instants it covers. */
  lemma EdgeGivesType(c: Context, n: NodeId, t: Timestamp)
    requires c.Ok() && n in c.g.nodes && c.g.nodes[n].outH.Some?
    requires c.OutEdge(n).to in c.g.nodes && c.Ts(n) <= t < c.Ts(c.OutEdge(n).to)
    ensures TypeAt(c, c.Tid(n), t, c.OutEdge(n).etype)
  {
    assert CoveredBy(c, n, c.Tid(n), t);
  }

  lemma EndsWellMeans(c: Context, waker: Option<NodeId>, endTs: Timestamp, tid: ThreadId)
    requires c.Ok() && c.WakerOk(waker, endTs, tid) && EndsWell(c, waker, endTs, tid)
    ensures tid != NETWORK_THREAD && Lives(c, tid, endTs)
  {
    hide Context.Ok, WellFormed;
  }

  /** A wait over the end of the window is ended by a thread on which the window may end. */
  lemma CrossingEndsWell(c: Context, waker: Option<NodeId>, endTs: Timestamp, tid: ThreadId, n: NodeId)
    requires c.Ok() && c.WakerOk(waker, endTs, tid) && EndsWell(c, waker, endTs, tid)
    requires CoveredBy(c, n, tid, endTs) && c.Ts(n) < endTs && Blocking(c.OutEdge(n).etype)
    requires c.g.nodes[c.OutEdge(n).to].inV.Some?
    ensures endTs <= c.Ts(c.OutEdge(n).to)
    ensures EndsWell(c, Some(c.Waker(c.OutEdge(n).to)), endTs, c.Tid(c.Waker(c.OutEdge(n).to)))
  {
    hide Context.Ok, WellFormed;
    CrossingIs(c, n, tid, endTs);
    CrossingRank(c, waker, endTs, tid, n);
  }

  // ----- The query, one rule at a time

  /** The path after the link out of `n`. */
  ghost function StepOf(c: Context, startTs: Timestamp, endTs: Timestamp, tid: ThreadId, n: NodeId, path: Path): Path
    requires c.Ok() && startTs <= c.horizon && endTs <= c.horizon && n in c.g.nodes && c.g.nodes[n].outH.Some?
  {
    c.OutEdgeOk(n);
    var edge := c.OutEdge(n);
    var edgeStart, edgeEnd := Max(startTs, c.Ts(n)), Min(endTs, c.Ts(edge.to));
    if Blocking(edge.etype) then c.Resolve(edge, edgeStart, edgeEnd, path)
    else if edgeStart != edgeEnd then InsertSegment(path, Segment(edgeStart, edgeEnd, tid, edge.etype))
    else path
  }

  lemma QueryFrom(c: Context, waker: Option<NodeId>, startTs: Timestamp, endTs: Timestamp, tid: ThreadId, n: NodeId,
                  path: Path)
    requires c.Ok() && c.WakerOk(waker, endTs, tid) && startTs < endTs <= c.horizon
    requires c.g.LastUpTo(n, startTs, tid) && c.g.CoversFrom(n, startTs)
    ensures c.WalkOk(startTs, tid, n)
    ensures c.Query(waker, startTs, endTs, tid, path) == c.Walk(waker, startTs, endTs, tid, n, path)
  {
    c.g.LastIsIntersecting(n, startTs, tid);
    hide WellFormed, Graph.Intersecting, Graph.LastUpTo, Graph.CoversFrom, Context.Walk;
  }

  lemma WalkEnds(c: Context, waker: Option<NodeId>, startTs: Timestamp, endTs: Timestamp, tid: ThreadId, n: NodeId,
                 path: Path)
    requires c.Ok() && c.WakerOk(waker, endTs, tid) && startTs < endTs <= c.horizon && c.WalkOk(startTs, tid, n)
    requires c.g.nodes[n].outH.None? || endTs < c.Ts(n)
    ensures c.Walk(waker, startTs, endTs, tid, n, path) == path
  {
    hide WellFormed;
  }

  lemma WalkSteps(c: Context, waker: Option<NodeId>, startTs: Timestamp, endTs: Timestamp, tid: ThreadId, n: NodeId,
                  path: Path)
    requires c.Ok() && c.WakerOk(waker, endTs, tid) && startTs < endTs <= c.horizon && c.WalkOk(startTs, tid, n)
    requires c.g.nodes[n].outH.Some? && c.Ts(n) <= endTs
    ensures c.OutEdge(n).to in c.g.nodes && c.WalkOk(startTs, tid, c.OutEdge(n).to)
    ensures c.Walk(waker, startTs, endTs, tid, n, path)
         == c.Walk(waker, startTs, endTs, tid, c.OutEdge(n).to, StepOf(c, startTs, endTs, tid, n, path))
  {
    c.OutEdgeOk(n);
    c.StepMeasure(waker, startTs, endTs, tid, n);
    hide WellFormed, Context.Resolve, InsertSegment, Graph.LastUpTo;
  }

  lemma WaitByThread(c: Context, edge: Edge, startTs: Timestamp, endTs: Timestamp, path: Path)
    requires c.Ok() && edge.to in c.g.nodes && startTs <= c.horizon && endTs <= c.horizon && endTs <= c.Ts(edge.to)
    requires c.g.nodes[edge.to].inV.Some? && c.Tid(c.Waker(edge.to)) != NETWORK_THREAD
    ensures var w := c.Waker(edge.to);
            c.Resolve(edge, startTs, endTs, path)
            == c.Query(Some(w), startTs, endTs, c.Tid(w),
                       InsertSegment(path, Segment(startTs, startTs, c.Tid(w), Epsilon)))
  {
    hide WellFormed, InsertSegment, Context.Query;
  }

  // ----- Packets

  /** A wait that `n` ends was ended by a packet that a thread had sent. */
  ghost predicate EndedByPacket(c: Context, n: NodeId)
    requires c.Ok()
  {
    && n in c.g.nodes && c.g.nodes[n].inV.Some?
    && var received := c.Waker(n);
       && c.Tid(received) == NETWORK_THREAD && c.g.nodes[received].inH.Some?
       && c.g.nodes[c.InEdge(received).from].inV.Some?
  }

  /** When it was sent. */
  ghost function SentBy(c: Context, n: NodeId): NodeId
    requires c.Ok() && EndedByPacket(c, n)
  {
    c.InEdge(c.Waker(n)).from
  }

  /** A wait that a packet ended is explained by its sender until it was sent, and by the network until it arrived. */
  lemma HopIs(c: Context, edge: Edge, startTs: Timestamp, endTs: Timestamp, path: Path)
    requires c.Ok() && EndedByPacket(c, edge.to) && startTs <= endTs <= c.horizon && endTs <= c.Ts(edge.to)
    ensures var sent := SentBy(c, edge.to);
            && sent in c.g.nodes && c.g.nodes[sent].inV.Some? && c.Ts(sent) < c.Ts(edge.to) <= c.horizon
            && c.Resolve(edge, startTs, endTs, path)
            == InsertSegment(c.Query(Some(c.Waker(sent)), startTs, c.Ts(sent), c.Tid(c.Waker(sent)), path),
                             Segment(c.Ts(sent), c.Ts(edge.to), c.Tid(sent), c.InEdge(c.Waker(edge.to)).etype))
  {
    hide WellFormed, InsertSegment, Context.Query;
  }

  /** The network thread has the type of a packet's link while the packet is on its way. */
  lemma HopGivesType(c: Context, n: NodeId, t: Timestamp)
    requires c.Ok() && EndedByPacket(c, n)
    requires c.Ts(SentBy(c, n)) <= t < c.Ts(n)
    ensures TypeAt(c, NETWORK_THREAD, t, c.InEdge(c.Waker(n)).etype) && c.Tid(SentBy(c, n)) == NETWORK_THREAD
    ensures !c.InEdge(c.Waker(n)).etype.Epsilon?
  {
    var received := c.Waker(n);
    c.g.SlotEdge(received, InHorizontal);
    var e := c.g.nodes[received].inH.value;
    assert EdgeOk(c.g, c.rank, c.g.edges[e]) && OnItsWay(c, e, t);
  }

  // ----- Unbroken ways

  /**
    On the way of a query there is no gap, and each wait that a packet ended has the packet sent within it, as far as
    the query has to explain it, and received where that ends.
   */
  ghost predicate Unbroken(c: Context, waker: Option<NodeId>, startTs: Timestamp, endTs: Timestamp, tid: ThreadId)
    requires c.Ok() && endTs <= c.horizon && c.WakerOk(waker, endTs, tid)
    decreases c.horizon - startTs, waker.None?, c.WakerRank(waker), 2, 0
  {
    startTs < endTs ==>
      (c.g.IntersectingIsLast(startTs, tid);
       match c.g.Intersecting(startTs, tid)
       case Some(n) => UnbrokenAlong(c, waker, startTs, endTs, tid, n)
       case None =>
         match c.g.StartingAfter(startTs, tid)
         case None => true
         case Some(first) =>
           && (c.Ts(first) <= endTs || forall k <- c.g.nodes | c.g.nodes[k].tid == tid :: endTs < c.g.nodes[k].ts)
           && match c.FirstWoken(first, endTs)
              case None => UnbrokenAlong(c, waker, startTs, endTs, tid, first)
              case Some(n) =>
                c.RankBelowWaker(waker, endTs, tid, n);
                && c.Tid(c.Waker(n)) != NETWORK_THREAD
                && Unbroken(c, Some(c.Waker(n)), startTs, c.Ts(n), c.Tid(c.Waker(n)))
                && UnbrokenAlong(c, waker, startTs, endTs, tid, n))
  }

  ghost predicate UnbrokenAlong(c: Context, waker: Option<NodeId>, startTs: Timestamp, endTs: Timestamp, tid: ThreadId,
                                n: NodeId)
    requires c.Ok() && startTs < endTs <= c.horizon && c.WakerOk(waker, endTs, tid) && c.WalkOk(startTs, tid, n)
    decreases c.horizon - startTs, waker.None?, c.WakerRank(waker), 1, c.horizon - c.Ts(n)
  {
    if endTs < c.Ts(n) then true
    else if c.g.nodes[n].outH.None? then
      c.Ts(n) == endTs || forall k <- c.g.nodes | c.g.nodes[k].tid == tid :: c.g.nodes[k].ts <= c.g.nodes[n].ts
    else
      c.OutEdgeOk(n);
      var edge := c.OutEdge(n);
      c.StepMeasure(waker, startTs, endTs, tid, n);
      && (Blocking(edge.etype) ==> UnbrokenWait(c, edge, Max(startTs, c.Ts(n)), Min(endTs, c.Ts(edge.to))))
      && UnbrokenAlong(c, waker, startTs, endTs, tid, edge.to)
  }

  ghost predicate UnbrokenWait(c: Context, edge: Edge, startTs: Timestamp, endTs: Timestamp)
    requires c.Ok() && edge.to in c.g.nodes && startTs <= c.horizon && endTs <= c.horizon && endTs <= c.Ts(edge.to)
    decreases c.horizon - startTs, false, c.rank[edge.to], 0, 0
  {
    c.g.nodes[edge.to].inV.Some? ==>
      if EndedByPacket(c, edge.to) then
        var sent := SentBy(c, edge.to);
        && startTs <= c.Ts(sent) && endTs == c.Ts(edge.to) && c.Tid(c.Waker(sent)) != NETWORK_THREAD
        && Unbroken(c, Some(c.Waker(sent)), startTs, c.Ts(sent), c.Tid(c.Waker(sent)))
      else
        var w := c.Waker(edge.to);
        c.Tid(w) != NETWORK_THREAD && Unbroken(c, Some(w), startTs, endTs, c.Tid(w))
  }

  // ----- Sufficiency, by the measure of the query

  lemma {:induction false} QueryIsGood(c: Context, waker: Option<NodeId>, startTs: Timestamp, endTs: Timestamp,
                                       tid: ThreadId, path: Path, a: Timestamp)
    requires c.Ok() && endTs <= c.horizon && c.WakerOk(waker, endTs, tid)
    requires Unbroken(c, waker, startTs, endTs, tid) && EndsWell(c, waker, endTs, tid)
    requires startTs <= endTs && Good(c, path, a, startTs)
    ensures Good(c, c.Query(waker, startTs, endTs, tid, path), a, endTs)
    decreases c.horizon - startTs, waker.None?, c.WakerRank(waker), 2, 0
  {
    hide Graph.Threaded, Graph.Resolved, Graph.StrictTimes, Graph.CoversFrom, RankFollowsTime, EdgesOk, UnbrokenAlong,
      EndsWell, Good;
    if startTs < endTs {
      c.g.IntersectingIsLast(startTs, tid);
      match c.g.Intersecting(startTs, tid) {
        case Some(n) =>
          assert Min(endTs, Max(startTs, c.Ts(n))) == startTs;
          WalkIsGood(c, waker, startTs, endTs, tid, n, path, a);
        case None =>
          QueryBeforeThreadIsGood(c, waker, startTs, endTs, tid, path, a);
      }
    }
  }

  /** The thread has no node or edge at `startTs`: it starts later, within the window. */
  lemma {:induction false} QueryBeforeThreadIsGood(c: Context, waker: Option<NodeId>, startTs: Timestamp,
                                                   endTs: Timestamp, tid: ThreadId, path: Path, a: Timestamp)
    requires c.Ok() && endTs <= c.horizon && c.WakerOk(waker, endTs, tid)
    requires Unbroken(c, waker, startTs, endTs, tid) && EndsWell(c, waker, endTs, tid)
    requires startTs < endTs && Good(c, path, a, startTs) && c.g.Intersecting(startTs, tid).None?
    ensures Good(c, c.Query(waker, startTs, endTs, tid, path), a, endTs)
    decreases c.horizon - startTs, waker.None?, c.WakerRank(waker), 1, c.horizon + 1
  {
    hide Graph.Threaded, Graph.Resolved, Graph.StrictTimes, Graph.Intersecting, Graph.LastUpTo, RankFollowsTime,
      EdgesOk, UnbrokenAlong, EndsWell, Lives, Good, TypeAt, Context.FirstWoken, Context.Walk, Context.Query,
      Graph.StartingAfter;
    EndsWellMeans(c, waker, endTs, tid);
    ThreadStartsWithin(c, waker, startTs, endTs, tid);
    c.QueryBeforeThread(waker, startTs, endTs, tid, path);
    var first := c.g.StartingAfter(startTs, tid).value;
    match c.FirstWoken(first, endTs) {
      case None =>
        var filler := Segment(startTs, c.Ts(first), tid, WaitBlocked);
        NothingCovers(c, startTs, tid);
        InsertKeepsGood(c, path, filler, a);
        WalkIsGood(c, waker, startTs, endTs, tid, first, InsertSegment(path, filler), a);
      case Some(n) =>
        var w := c.Waker(n);
        c.RankBelowWaker(waker, endTs, tid, n);
        NodeEndsWell(c, w);
        QueryIsGood(c, Some(w), startTs, c.Ts(n), c.Tid(w), path, a);
        WalkIsGood(c, waker, startTs, endTs, tid, n, c.Query(Some(w), startTs, c.Ts(n), c.Tid(w), path), a);
    }
  }

  lemma {:induction false} WalkIsGood(c: Context, waker: Option<NodeId>, startTs: Timestamp, endTs: Timestamp,
                                      tid: ThreadId, n: NodeId, path: Path, a: Timestamp)
    requires c.Ok() && startTs < endTs <= c.horizon && c.WakerOk(waker, endTs, tid) && c.WalkOk(startTs, tid, n)
    requires UnbrokenAlong(c, waker, startTs, endTs, tid, n) && EndsWell(c, waker, endTs, tid)
    requires Good(c, path, a, Min(endTs, Max(startTs, c.Ts(n))))
    ensures Good(c, c.Walk(waker, startTs, endTs, tid, n, path), a, endTs)
    decreases c.horizon - startTs, waker.None?, c.WakerRank(waker), 1, c.horizon - c.Ts(n)
  {
    hide Graph.Threaded, Graph.Resolved, Graph.StrictTimes, Graph.LastUpTo, RankFollowsTime, EdgesOk, UnbrokenWait,
      EndsWell, Good, TypeAt;
    if c.g.nodes[n].outH.None? {
      EndsWellMeans(c, waker, endTs, tid);
    } else if c.Ts(n) <= endTs {
      c.OutEdgeOk(n);
      c.StepMeasure(waker, startTs, endTs, tid, n);
      StepIsGood(c, waker, startTs, endTs, tid, n, path, a);
      WalkIsGood(c, waker, startTs, endTs, tid, c.OutEdge(n).to, StepOf(c, startTs, endTs, tid, n, path), a);
    }
  }

  /** One link of the walk; if it is a wait over the end of the window, the window must end well. */
  lemma {:induction false} StepIsGood(c: Context, waker: Option<NodeId>, startTs: Timestamp, endTs: Timestamp,
                                      tid: ThreadId, n: NodeId, path: Path, a: Timestamp)
    requires c.Ok() && startTs < endTs <= c.horizon && c.WakerOk(waker, endTs, tid) && c.WalkOk(startTs, tid, n)
    requires c.Ts(n) <= endTs && c.g.nodes[n].outH.Some? && c.OutEdge(n).to in c.g.nodes
    requires UnbrokenAlong(c, waker, startTs, endTs, tid, n)
    requires EndsWell(c, waker, endTs, tid) || c.Ts(c.OutEdge(n).to) <= endTs
    requires Good(c, path, a, Min(endTs, Max(startTs, c.Ts(n))))
    ensures Good(c, StepOf(c, startTs, endTs, tid, n, path), a, Min(endTs, c.Ts(c.OutEdge(n).to)))
    decreases c.horizon - startTs, waker.None?, c.WakerRank(waker), 1, c.horizon - c.Ts(n), 0
  {
    hide Graph.Threaded, Graph.Resolved, Graph.StrictTimes, Graph.LastUpTo, RankFollowsTime, EdgesOk, UnbrokenWait,
      EndsWell, Lives, Good, TypeAt;
    c.OutEdgeOk(n);
    c.StepMeasure(waker, startTs, endTs, tid, n);
    var edge := c.OutEdge(n);
    var edgeStart, edgeEnd := Max(startTs, c.Ts(n)), Min(endTs, c.Ts(edge.to));
    forall t | edgeStart <= t < edgeEnd
      ensures TypeAt(c, tid, t, edge.etype)
    {
      EdgeGivesType(c, n, t);
    }
    if Blocking(edge.etype) {
      BlockedStep(c, waker, startTs, endTs, tid, n);
      ResolveIsGood(c, edge, edgeStart, edgeEnd, path, a);
    } else if edgeStart != edgeEnd {
      InsertKeepsGood(c, path, Segment(edgeStart, edgeEnd, tid, edge.etype), a);
    }
  }

  /** What the walk knows of the thread that ends a wait: the clipped wait may end there. */
  lemma BlockedStep(c: Context, waker: Option<NodeId>, startTs: Timestamp, endTs: Timestamp, tid: ThreadId, n: NodeId)
    requires c.Ok() && startTs < endTs && c.WakerOk(waker, endTs, tid) && n in c.g.nodes && c.Tid(n) == tid
    requires c.Ts(n) <= endTs && c.g.nodes[n].outH.Some? && Blocking(c.OutEdge(n).etype) && c.OutEdge(n).to in c.g.nodes
    requires startTs < c.Ts(c.OutEdge(n).to)
    requires EndsWell(c, waker, endTs, tid) || c.Ts(c.OutEdge(n).to) <= endTs
    ensures var edge := c.OutEdge(n);
            var edgeStart, edgeEnd := Max(startTs, c.Ts(n)), Min(endTs, c.Ts(edge.to));
            c.g.nodes[edge.to].inV.Some? && c.Tid(c.Waker(edge.to)) != NETWORK_THREAD && edgeStart < edgeEnd ==>
              EndsWell(c, Some(c.Waker(edge.to)), edgeEnd, c.Tid(c.Waker(edge.to)))
  {
    hide Context.Ok, WellFormed, EndsWell;
    var to := c.OutEdge(n).to;
    if c.g.nodes[to].inV.Some? && c.Tid(c.Waker(to)) != NETWORK_THREAD {
      if c.Ts(to) <= endTs {
        NodeEndsWell(c, c.Waker(to));
      } else if c.Ts(n) < endTs {
        CrossingEndsWell(c, waker, endTs, tid, n);
      }
    }
  }

  lemma {:induction false} ResolveIsGood(c: Context, edge: Edge, startTs: Timestamp, endTs: Timestamp, path: Path,
                                         a: Timestamp)
    requires c.Ok() && edge.to in c.g.nodes && !edge.etype.Epsilon?
    requires startTs <= endTs <= c.horizon && endTs <= c.Ts(edge.to)
    requires forall t | startTs <= t < endTs :: TypeAt(c, c.Tid(edge.to), t, edge.etype)
    requires UnbrokenWait(c, edge, startTs, endTs) && Good(c, path, a, startTs)
    requires c.g.nodes[edge.to].inV.Some? && c.Tid(c.Waker(edge.to)) != NETWORK_THREAD && startTs < endTs ==>
               EndsWell(c, Some(c.Waker(edge.to)), endTs, c.Tid(c.Waker(edge.to)))
    ensures Good(c, c.Resolve(edge, startTs, endTs, path), a, endTs)
    decreases c.horizon - startTs, false, c.rank[edge.to], 0, 0
  {
    hide Graph.Threaded, Graph.Resolved, Graph.StrictTimes, RankFollowsTime, EdgesOk, Unbroken, EndsWell, Good, TypeAt;
    if c.g.nodes[edge.to].inV.None? {
      InsertKeepsGood(c, path, Segment(startTs, endTs, c.Tid(edge.to), edge.etype), a);
    } else if EndedByPacket(c, edge.to) {
      var sent := SentBy(c, edge.to);
      var w := c.Waker(sent);
      HopIs(c, edge, startTs, endTs, path);
      NodeEndsWell(c, w);
      QueryIsGood(c, Some(w), startTs, c.Ts(sent), c.Tid(w), path, a);
      var hop := Segment(c.Ts(sent), c.Ts(edge.to), c.Tid(sent), c.InEdge(c.Waker(edge.to)).etype);
      HopIsFaithful(c, edge.to);
      InsertKeepsGood(c, c.Query(Some(w), startTs, c.Ts(sent), c.Tid(w), path), hop, a);
    } else {
      var w := c.Waker(edge.to);
      var mark := Segment(startTs, startTs, c.Tid(w), Epsilon);
      InsertKeepsGood(c, path, mark, a);
      if startTs < endTs {
        QueryIsGood(c, Some(w), startTs, endTs, c.Tid(w), InsertSegment(path, mark), a);
      } else {
        assert c.Query(Some(w), startTs, endTs, c.Tid(w), InsertSegment(path, mark)) == InsertSegment(path, mark);
      }
    }
  }

  lemma HopIsFaithful(c: Context, n: NodeId)
    requires c.Ok() && EndedByPacket(c, n)
    ensures var sent := SentBy(c, n);
            sent in c.g.nodes
            && FaithfulSegment(c, Segment(c.Ts(sent), c.Ts(n), c.Tid(sent), c.InEdge(c.Waker(n)).etype))
  {
    hide WellFormed, TypeAt;
    var sent := SentBy(c, n);
    SentBefore(c, n);
    HopGivesType(c, n, c.Ts(sent));
    forall t | c.Ts(sent) <= t < c.Ts(n)
      ensures TypeAt(c, c.Tid(sent), t, c.InEdge(c.Waker(n)).etype)
    {
      HopGivesType(c, n, t);
    }
  }

  lemma SentBefore(c: Context, n: NodeId)
    requires c.Ok() && EndedByPacket(c, n)
    ensures SentBy(c, n) in c.g.nodes && c.Ts(SentBy(c, n)) < c.Ts(n)
  {
  }

  /** A window may end at any node of a thread. */
  lemma NodeEndsWell(c: Context, w: NodeId)
    requires c.Ok() && w in c.g.nodes && c.Tid(w) != NETWORK_THREAD
    ensures EndsWell(c, Some(w), c.Ts(w), c.Tid(w)) && EndsWell(c, None, c.Ts(w), c.Tid(w))
  {
    assert Lives(c, c.Tid(w), c.Ts(w));
    if Crossing(c, c.Tid(w), c.Ts(w)).Some? {
      var n := Crossing(c, c.Tid(w), c.Ts(w)).value;
      c.OutEdgeOk(n);
    }
  }

  /** A thread that lives at the end of the window but has no node or edge at its start, starts within it. */
  lemma ThreadStartsWithin(c: Context, waker: Option<NodeId>, startTs: Timestamp, endTs: Timestamp, tid: ThreadId)
    requires c.Ok() && startTs < endTs <= c.horizon && c.WakerOk(waker, endTs, tid)
    requires Unbroken(c, waker, startTs, endTs, tid) && Lives(c, tid, endTs) && c.g.Intersecting(startTs, tid).None?
    ensures var first := c.g.StartingAfter(startTs, tid);
            first.Some? && c.Ts(first.value) <= endTs
  {
    hide Graph.Threaded, Graph.Resolved, Graph.StrictTimes, RankFollowsTime, EdgesOk, Graph.Intersecting, UnbrokenAlong,
      Context.FirstWoken;
  }

  /** When no node intersects `startTs`, the thread has no edge from there to its next node. */
  lemma NothingThere(c: Context, startTs: Timestamp, tid: ThreadId, t: Timestamp)
    requires c.Ok() && tid != NETWORK_THREAD && c.g.Intersecting(startTs, tid).None? && startTs <= t
    requires var next := c.g.StartingAfter(startTs, tid); next.Some? && t < c.Ts(next.value)
    ensures forall n :: !CoveredBy(c, n, tid, t)
  {
    hide Graph.Threaded, Graph.Resolved, Graph.StrictTimes, RankFollowsTime, EdgesOk, Graph.Intersecting;
    forall n
      ensures !CoveredBy(c, n, tid, t)
    {
      if CoveredBy(c, n, tid, t) {
        c.OutEdgeOk(n);
        c.g.HorizontalEdge(n);
        c.g.LastIsIntersecting(n, startTs, tid);
      }
    }
  }

  lemma NothingCovers(c: Context, startTs: Timestamp, tid: ThreadId)
    requires c.Ok() && tid != NETWORK_THREAD && c.g.Intersecting(startTs, tid).None?
    ensures var next := c.g.StartingAfter(startTs, tid);
            next.Some? ==>
              forall t | startTs <= t < c.Ts(next.value) :: TypeAt(c, tid, t, WaitBlocked)
  {
    hide Graph.Threaded, Graph.Resolved, Graph.StrictTimes, RankFollowsTime, EdgesOk, Graph.Intersecting;
    var next := c.g.StartingAfter(startTs, tid);
    if next.Some? {
      forall t | startTs <= t < c.Ts(next.value)
        ensures TypeAt(c, tid, t, WaitBlocked)
      {
        NothingThere(c, startTs, tid, t);
      }
    }
  }

  // ----- Hypotheses that do not follow the query

  lemma LinkedThreadIntersects(c: Context, t: Timestamp, endTs: Timestamp, tid: ThreadId, before: NodeId, after: NodeId)
    requires c.Ok() && GaplessIn(c.g, t, endTs) && tid != NETWORK_THREAD && before in c.g.nodes && after in c.g.nodes
    requires c.Tid(before) == c.Tid(after) == tid && c.Ts(before) <= t < c.Ts(after) && t < endTs
    ensures c.g.Intersecting(t, tid).Some?
  {
    hide Graph.Threaded, Graph.Resolved, Graph.StrictTimes, RankFollowsTime, EdgesOk, Graph.Intersecting;
    forall n <- c.g.nodes | c.g.LastUpTo(n, t, tid)
      ensures c.g.CoversFrom(n, t)
    {
      assert c.g.nodes[n].ts < c.g.nodes[after].ts;
      c.OutEdgeOk(n);
      c.g.HorizontalEdge(n);
    }
    c.g.ReachingThreadIntersects(t, tid, before);
  }

  /** Where no gap and no packet's wake-up meets a window, the query's way is unbroken. */
  lemma {:induction false} MetIsUnbroken(c: Context, waker: Option<NodeId>, startTs: Timestamp, endTs: Timestamp,
                                         tid: ThreadId)
    requires c.Ok() && endTs <= c.horizon && c.WakerOk(waker, endTs, tid) && tid != NETWORK_THREAD
    requires GaplessIn(c.g, startTs, endTs) && NoNetworkIn(c, startTs, endTs)
    ensures Unbroken(c, waker, startTs, endTs, tid)
    decreases c.horizon - startTs, waker.None?, c.WakerRank(waker), 2, 0
  {
    hide Graph.Threaded, Graph.Resolved, Graph.StrictTimes, Graph.Intersecting, RankFollowsTime, EdgesOk, GaplessIn,
      NoNetworkIn, Met, Context.FirstWoken, UnbrokenAlong;
    if startTs < endTs {
      c.g.IntersectingIsLast(startTs, tid);
      match c.g.Intersecting(startTs, tid) {
        case Some(n) => MetIsUnbrokenAlong(c, waker, startTs, endTs, tid, n);
        case None =>
          var next := c.g.StartingAfter(startTs, tid);
          if next.Some? {
            NotAcross(c, startTs, endTs, tid);
            MetIsUnbrokenAlong(c, waker, startTs, endTs, tid, next.value);
            match c.FirstWoken(next.value, endTs) {
              case None =>
              case Some(n) =>
                c.RankBelowWaker(waker, endTs, tid, n);
                WokenByThread(c, n, startTs, endTs);
                HypothesesNarrow(c, startTs, endTs, startTs, c.Ts(n));
                MetIsUnbroken(c, Some(c.Waker(n)), startTs, c.Ts(n), c.Tid(c.Waker(n)));
                MetIsUnbrokenAlong(c, waker, startTs, endTs, tid, n);
            }
          }
      }
    }
  }

  lemma NotAcross(c: Context, startTs: Timestamp, endTs: Timestamp, tid: ThreadId)
    requires c.Ok() && startTs < endTs && tid != NETWORK_THREAD && GaplessIn(c.g, startTs, endTs)
    requires c.g.Intersecting(startTs, tid).None? && c.g.StartingAfter(startTs, tid).Some?
    ensures var first := c.g.StartingAfter(startTs, tid).value;
            c.Ts(first) <= endTs || forall k <- c.g.nodes | c.g.nodes[k].tid == tid :: endTs < c.g.nodes[k].ts
  {
    hide Graph.Threaded, Graph.Resolved, Graph.StrictTimes, RankFollowsTime, EdgesOk, Graph.Intersecting, GaplessIn;
    var first := c.g.StartingAfter(startTs, tid).value;
    if endTs < c.Ts(first) {
      forall k <- c.g.nodes | c.g.nodes[k].tid == tid
        ensures endTs < c.g.nodes[k].ts
      {
        if c.Ts(k) <= startTs { LinkedThreadIntersects(c, startTs, endTs, tid, k, first); }
      }
    }
  }

  lemma WokenByThread(c: Context, n: NodeId, startTs: Timestamp, endTs: Timestamp)
    requires c.Ok() && NoNetworkIn(c, startTs, endTs) && n in c.g.nodes && c.g.nodes[n].inV.Some?
    requires startTs < c.Ts(n) <= endTs
    ensures c.Tid(c.Waker(n)) != NETWORK_THREAD
  {
    hide Context.Ok, WellFormed;
    assert Met(c, n, startTs, endTs);
  }

  lemma {:induction false} MetIsUnbrokenAlong(c: Context, waker: Option<NodeId>, startTs: Timestamp, endTs: Timestamp,
                                              tid: ThreadId, n: NodeId)
    requires c.Ok() && startTs < endTs <= c.horizon && c.WakerOk(waker, endTs, tid) && c.WalkOk(startTs, tid, n)
    requires GaplessIn(c.g, startTs, endTs) && NoNetworkIn(c, startTs, endTs) && tid != NETWORK_THREAD
    ensures UnbrokenAlong(c, waker, startTs, endTs, tid, n)
    decreases c.horizon - startTs, waker.None?, c.WakerRank(waker), 1, c.horizon - c.Ts(n)
  {
    hide Graph.Threaded, Graph.Resolved, Graph.StrictTimes, RankFollowsTime, EdgesOk, NoNetworkIn, Met, UnbrokenWait;
    if c.g.nodes[n].outH.Some? && c.Ts(n) <= endTs {
      hide GaplessIn, Graph.LastUpTo;
      c.OutEdgeOk(n);
      var edge := c.OutEdge(n);
      c.StepMeasure(waker, startTs, endTs, tid, n);
      if Blocking(edge.etype) {
        var edgeStart, edgeEnd := Max(startTs, c.Ts(n)), Min(endTs, c.Ts(edge.to));
        WaitEndedByThread(c, n, startTs, endTs);
        HypothesesNarrow(c, startTs, endTs, edgeStart, edgeEnd);
        MetIsUnbrokenWait(c, edge, edgeStart, edgeEnd);
      }
      MetIsUnbrokenAlong(c, waker, startTs, endTs, tid, edge.to);
    }
  }

  lemma WaitEndedByThread(c: Context, n: NodeId, startTs: Timestamp, endTs: Timestamp)
    requires c.Ok() && NoNetworkIn(c, startTs, endTs) && n in c.g.nodes && c.Ts(n) <= endTs
    requires c.g.nodes[n].outH.Some? && Blocking(c.OutEdge(n).etype) && c.OutEdge(n).to in c.g.nodes
    requires startTs < c.Ts(c.OutEdge(n).to)
    ensures c.g.nodes[c.OutEdge(n).to].inV.Some? ==> c.Tid(c.Waker(c.OutEdge(n).to)) != NETWORK_THREAD
  {
    hide Context.Ok, WellFormed;
    assert EndsWaitOf(c, n, c.OutEdge(n).to) && Met(c, c.OutEdge(n).to, startTs, endTs);
  }

  lemma {:induction false} MetIsUnbrokenWait(c: Context, edge: Edge, startTs: Timestamp, endTs: Timestamp)
    requires c.Ok() && edge.to in c.g.nodes && startTs <= endTs <= c.horizon && endTs <= c.Ts(edge.to)
    requires GaplessIn(c.g, startTs, endTs) && NoNetworkIn(c, startTs, endTs)
    requires c.g.nodes[edge.to].inV.Some? ==> c.Tid(c.Waker(edge.to)) != NETWORK_THREAD
    ensures UnbrokenWait(c, edge, startTs, endTs)
    decreases c.horizon - startTs, false, c.rank[edge.to], 0, 0
  {
    hide Graph.Threaded, Graph.Resolved, Graph.StrictTimes, RankFollowsTime, EdgesOk, GaplessIn, NoNetworkIn, Unbroken;
    if c.g.nodes[edge.to].inV.Some? {
      MetIsUnbroken(c, Some(c.Waker(edge.to)), startTs, endTs, c.Tid(c.Waker(edge.to)));
    }
  }

  // ----- The whole query

  /** Time a path accounts for; `Epsilon` segments only mark a change of thread. */
  function AccountedTime(path: Path): nat {
    if path == [] then 0
    else
      AccountedTime(path[..|path| - 1])
      + if Last(path).etype.Epsilon? then 0 else Sub64(Last(path).endTs, Last(path).startTs)
  }

  lemma {:induction false} TiledTime(c: Context, path: Path, a: Timestamp, b: Timestamp)
    requires c.Ok() && Good(c, path, a, b) && b < TWO_64
    ensures a <= b && AccountedTime(path) == b - a
  {
    if path != [] {
      assert FaithfulSegment(c, Last(path));
      TiledTime(c, path[..|path| - 1], a, Last(path).startTs);
    }
  }

  /** A window that opens on an unlinked node and closes at a later node of the thread gets no path. */
  lemma GapIsNotCovered(c: Context, n: NodeId, m: NodeId)
    requires c.Ok() && n in c.g.nodes && m in c.g.nodes
    requires c.Tid(n) == c.Tid(m) && c.Ts(n) < c.Ts(m) && c.g.nodes[n].outH.None?
    ensures c.Query(None, c.Ts(n), c.Ts(m), c.Tid(n), []) == []
  {
    c.g.IntersectingIsLast(c.Ts(n), c.Tid(n));
    assert c.g.LastUpTo(n, c.Ts(n), c.Tid(n)) && c.g.CoversFrom(n, c.Ts(n));
  }

  /** On a thread that has no node at or before the start of the window, a filler runs up to its next node, if any. */
  lemma QueryBeforeNext(c: Context, waker: Option<NodeId>, startTs: Timestamp, endTs: Timestamp, tid: ThreadId,
                        path: Path)
    requires c.Ok() && c.WakerOk(waker, endTs, tid) && startTs < endTs <= c.horizon
    requires c.g.Intersecting(startTs, tid).None?
    ensures var result, next := c.Query(waker, startTs, endTs, tid, path), c.g.StartingAfter(startTs, tid);
            && (next.None? ==> result == InsertSegment(path, Segment(startTs, endTs, tid, WaitBlocked)))
            && (next.Some? && endTs < c.Ts(next.value) ==>
                  result == InsertSegment(path, Segment(startTs, c.Ts(next.value), tid, WaitBlocked)))
  {
    var next := c.g.StartingAfter(startTs, tid);
    if next.Some? && endTs < c.Ts(next.value) {
      c.QueryBeforeThread(waker, startTs, endTs, tid, path);
      hide Graph.Threaded, Graph.Resolved, Graph.Intersecting, Graph.StrictTimes, RankFollowsTime, EdgesOk;
    } else if next.None? {
      c.g.IntersectingIsLast(startTs, tid);
      hide Graph.Threaded, Graph.Resolved, Graph.Intersecting, Graph.StartingAfter, Graph.StrictTimes, RankFollowsTime,
        EdgesOk;
    }
  }
}
