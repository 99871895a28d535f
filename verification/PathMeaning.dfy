/**
  What a critical path shows at each instant of its window, said of the nodes and links of the graph: the thread that
  the end of the window waited for, and what that thread did.
 */
module PathMeaning {
  import opened Common
  import opened CriticalGraphs
  import opened PathSpec
  import opened PathCoverage
  import opened PathCoverageExact

  datatype Shown = Shown(tid: ThreadId, etype: EdgeType)

  /** The thread has no node at `t`, and no link that reaches `t`. */
  ghost predicate Absent(c: Context, tid: ThreadId, t: Timestamp) {
    forall n <- c.g.nodes | c.g.LastUpTo(n, t, tid) :: !c.g.CoversFrom(n, t)
  }

  /** `n` is the thread's earliest wake-up after `startTs`, and no later than `endTs`. */
  ghost predicate WokenFirst(c: Context, n: NodeId, tid: ThreadId, startTs: Timestamp, endTs: Timestamp) {
    && n in c.g.nodes && c.Tid(n) == tid && startTs < c.Ts(n) <= endTs && c.g.nodes[n].inV.Some?
    && forall m <- c.g.nodes | c.Tid(m) == tid && startTs < c.Ts(m) < c.Ts(n) :: c.g.nodes[m].inV.None?
  }

  /** Where a thread that is absent at the start of a window is first woken in it. */
  ghost function Arrival(c: Context, tid: ThreadId, startTs: Timestamp, endTs: Timestamp): (r: Option<NodeId>)
    ensures r.Some? ==> Absent(c, tid, startTs) && WokenFirst(c, r.value, tid, startTs, endTs)
    ensures r.None? && Absent(c, tid, startTs) ==> forall n :: !WokenFirst(c, n, tid, startTs, endTs)
  {
    if Absent(c, tid, startTs) && exists n :: WokenFirst(c, n, tid, startTs, endTs) then
      var n :| WokenFirst(c, n, tid, startTs, endTs);
      Some(n)
    else None
  }

  /** The node whose link covers an instant of a thread. */
  ghost function CoverAt(c: Context, tid: ThreadId, t: Timestamp): (r: Option<NodeId>)
    requires c.Ok()
    ensures r.Some? ==> CoveredBy(c, r.value, tid, t)
    ensures r.None? ==> forall n :: !CoveredBy(c, n, tid, t)
  {
    if exists n :: CoveredBy(c, n, tid, t) then
      var n :| CoveredBy(c, n, tid, t);
      Some(n)
    else None
  }

  /**
    Whom and what a window of `tid` shows at `t`. Before the thread's arrival, what the thread that woke it shows.
    Then the thread itself, unless it is in a wait that something ended: that shows what the thread that ended it
    shows, or for a packet what its sender shows until it was sent, and the network from there.
   */
  ghost function Shows(c: Context, waker: Option<NodeId>, startTs: Timestamp, endTs: Timestamp, tid: ThreadId,
                       t: Timestamp): Shown
    requires c.Ok() && endTs <= c.horizon && c.WakerOk(waker, endTs, tid) && startTs <= t < endTs
    decreases waker.None?, c.WakerRank(waker), 2
  {
    if tid == NETWORK_THREAD then Shown(tid, Unknown)
    else
      var arrival := Arrival(c, tid, startTs, endTs);
      if arrival.Some? && t < c.Ts(arrival.value) then
        c.RankBelowWaker(waker, endTs, tid, arrival.value);
        var w := c.Waker(arrival.value);
        Shows(c, Some(w), startTs, c.Ts(arrival.value), c.Tid(w), t)
      else ShowsOwn(c, waker, startTs, endTs, tid, t)
  }

  ghost function ShowsOwn(c: Context, waker: Option<NodeId>, startTs: Timestamp, endTs: Timestamp, tid: ThreadId,
                          t: Timestamp): Shown
    requires c.Ok() && endTs <= c.horizon && c.WakerOk(waker, endTs, tid) && startTs <= t < endTs
    requires tid != NETWORK_THREAD
    decreases waker.None?, c.WakerRank(waker), 1
  {
    match CoverAt(c, tid, t)
    case None => Shown(tid, WaitBlocked)
    case Some(n) =>
      CoverRank(c, waker, endTs, tid, n, t);
      var edge := c.OutEdge(n);
      if Blocking(edge.etype) then ShowsWait(c, edge, Max(startTs, c.Ts(n)), Min(endTs, c.Ts(edge.to)), t)
      else Shown(tid, edge.etype)
  }

  /** What a wait, clipped to a window, shows. */
  ghost function ShowsWait(c: Context, edge: Edge, startTs: Timestamp, endTs: Timestamp, t: Timestamp): Shown
    requires c.Ok() && edge.to in c.g.nodes && startTs <= t < endTs <= c.horizon && endTs <= c.Ts(edge.to)
    decreases false, c.rank[edge.to], 0
  {
    if c.g.nodes[edge.to].inV.None? then Shown(c.Tid(edge.to), edge.etype)
    else if EndedByPacket(c, edge.to) then
      PacketRank(c, edge.to);
      var w := c.Waker(SentBy(c, edge.to));
      if t < c.Ts(w) then Shows(c, Some(w), startTs, c.Ts(w), c.Tid(w), t)
      else Shown(NETWORK_THREAD, c.InEdge(c.Waker(edge.to)).etype)
    else Shows(c, Some(c.Waker(edge.to)), startTs, endTs, c.Tid(c.Waker(edge.to)), t)
  }

  lemma CoverRank(c: Context, waker: Option<NodeId>, endTs: Timestamp, tid: ThreadId, n: NodeId, t: Timestamp)
    requires c.Ok() && c.WakerOk(waker, endTs, tid) && tid != NETWORK_THREAD && CoveredBy(c, n, tid, t) && t < endTs
    ensures c.OutEdge(n).to in c.g.nodes && t < c.Ts(c.OutEdge(n).to)
    ensures waker.Some? ==> c.rank[c.OutEdge(n).to] <= c.rank[waker.value]
  {
    c.OutEdgeOk(n);
    if waker.Some? {
      assert c.Ts(c.OutEdge(n).to) <= c.Ts(waker.value);
      c.RankBelowWaker(waker, endTs, tid, c.OutEdge(n).to);
    }
  }

  lemma PacketRank(c: Context, n: NodeId)
    requires c.Ok() && EndedByPacket(c, n)
    ensures var sent := SentBy(c, n);
            sent in c.g.nodes && c.g.nodes[sent].inV.Some? && c.rank[c.Waker(sent)] < c.rank[n]
            && c.Ts(c.Waker(sent)) == c.Ts(sent)
  {
  }

  // ----- What a path shows

  /** The thread and type of the last segment over an instant. */
  function ShownAt(path: Path, t: Timestamp): Option<Shown> {
    if path == [] then None
    else if Last(path).startTs <= t < Last(path).endTs then Some(Shown(Last(path).tid, Last(path).etype))
    else ShownAt(path[..|path| - 1], t)
  }

  ghost predicate EndsAt(path: Path, t: Timestamp) { path == [] || Last(path).startTs <= Last(path).endTs == t }

  lemma InsertShows(path: Path, seg: Segment, t: Timestamp)
    requires EndsAt(path, seg.startTs) && t < seg.endTs && seg.startTs <= seg.endTs
    ensures ShownAt(InsertSegment(path, seg), t)
         == if t < seg.startTs then ShownAt(path, t) else Some(Shown(seg.tid, seg.etype))
  {
  }

  lemma MarkShows(path: Path, seg: Segment, t: Timestamp)
    requires EndsAt(path, seg.startTs) && t < seg.startTs == seg.endTs
    ensures ShownAt(InsertSegment(path, seg), t) == ShownAt(path, t)
  {
  }

  lemma GoodEndsAt(c: Context, path: Path, a: Timestamp, b: Timestamp)
    requires c.Ok() && Good(c, path, a, b)
    ensures EndsAt(path, b)
  {
  }

  // ----- The earliest wake-up

  /** Along the links of an unbroken way, the wake-up found is the earliest, and where none is found there is none. */
  lemma {:induction false} FirstWokenIsEarliest(c: Context, startTs: Timestamp, endTs: Timestamp, tid: ThreadId,
                                                n: NodeId)
    requires c.Ok() && n in c.g.nodes && c.Tid(n) == tid != NETWORK_THREAD && endTs <= c.horizon && startTs < c.Ts(n)
    requires forall m <- c.g.nodes | c.Tid(m) == tid && startTs < c.Ts(m) < c.Ts(n) :: c.g.nodes[m].inV.None?
    ensures c.FirstWoken(n, endTs).Some? ==> WokenFirst(c, c.FirstWoken(n, endTs).value, tid, startTs, endTs)
    decreases c.horizon - c.Ts(n)
  {
    if c.Ts(n) <= endTs && c.g.nodes[n].inV.None? && c.g.nodes[n].outH.Some? {
      c.OutEdgeOk(n);
      NextIsNext(c, startTs, n);
      hide Context.Ok, WellFormed;
      FirstWokenIsEarliest(c, startTs, endTs, tid, c.OutEdge(n).to);
    }
  }

  lemma NextIsNext(c: Context, startTs: Timestamp, n: NodeId)
    requires c.Ok() && n in c.g.nodes && c.Tid(n) != NETWORK_THREAD && c.g.nodes[n].inV.None? && c.g.nodes[n].outH.Some?
    requires forall m <- c.g.nodes | c.Tid(m) == c.Tid(n) && startTs < c.Ts(m) < c.Ts(n) :: c.g.nodes[m].inV.None?
    ensures c.OutEdge(n).to in c.g.nodes
    ensures forall m <- c.g.nodes | c.Tid(m) == c.Tid(n) && startTs < c.Ts(m) < c.Ts(c.OutEdge(n).to) ::
              c.g.nodes[m].inV.None?
  {
    c.OutEdgeOk(n);
    hide Graph.Threaded, Graph.Resolved, RankFollowsTime, EdgesOk;
    forall m <- c.g.nodes | c.Tid(m) == c.Tid(n) && startTs < c.Ts(m) < c.Ts(c.OutEdge(n).to)
      ensures c.g.nodes[m].inV.None?
    {
      if c.Ts(m) == c.Ts(n) { c.g.OnlyOneAt(m, n); }
    }
  }

  lemma {:induction false} NoneWokenAlong(c: Context, waker: Option<NodeId>, startTs: Timestamp, endTs: Timestamp,
                                          tid: ThreadId, n: NodeId)
    requires c.Ok() && startTs < endTs <= c.horizon && c.WakerOk(waker, endTs, tid) && c.WalkOk(startTs, tid, n)
    requires UnbrokenAlong(c, waker, startTs, endTs, tid, n) && c.FirstWoken(n, endTs).None? && startTs < c.Ts(n)
    requires tid != NETWORK_THREAD
    requires forall m <- c.g.nodes | c.Tid(m) == tid && startTs < c.Ts(m) < c.Ts(n) :: c.g.nodes[m].inV.None?
    ensures forall m :: !WokenFirst(c, m, tid, startTs, endTs)
    decreases c.horizon - c.Ts(n)
  {
    if c.Ts(n) <= endTs {
      if c.g.nodes[n].outH.Some? {
        c.OutEdgeOk(n);
        c.StepMeasure(waker, startTs, endTs, tid, n);
        NextIsNext(c, startTs, n);
        hide Context.Ok, WellFormed, UnbrokenWait, Graph.LastUpTo, WokenFirst;
        NoneWokenAlong(c, waker, startTs, endTs, tid, c.OutEdge(n).to);
      } else {
        NoneAfterLast(c, startTs, endTs, tid, n);
      }
    }
  }

  lemma NoneAfterLast(c: Context, startTs: Timestamp, endTs: Timestamp, tid: ThreadId, n: NodeId)
    requires c.Ok() && n in c.g.nodes && c.Tid(n) == tid && c.g.nodes[n].inV.None?
    requires c.Ts(n) == endTs || forall k <- c.g.nodes | c.g.nodes[k].tid == tid :: c.g.nodes[k].ts <= c.g.nodes[n].ts
    requires forall m <- c.g.nodes | c.Tid(m) == tid && startTs < c.Ts(m) < c.Ts(n) :: c.g.nodes[m].inV.None?
    ensures forall m :: !WokenFirst(c, m, tid, startTs, endTs)
  {
    hide Graph.Threaded, Graph.Resolved, RankFollowsTime, EdgesOk;
  }

  /** On an unbroken way, a query that finds its thread absent asks for the earliest wake-up of all. */
  lemma ArrivalIs(c: Context, waker: Option<NodeId>, startTs: Timestamp, endTs: Timestamp, tid: ThreadId)
    requires c.Ok() && startTs < endTs <= c.horizon && c.WakerOk(waker, endTs, tid) && tid != NETWORK_THREAD
    requires Unbroken(c, waker, startTs, endTs, tid) && c.g.Intersecting(startTs, tid).None?
    requires c.g.StartingAfter(startTs, tid).Some?
    ensures Arrival(c, tid, startTs, endTs) == c.FirstWoken(c.g.StartingAfter(startTs, tid).value, endTs)
  {
    var first := c.g.StartingAfter(startTs, tid).value;
    c.g.IntersectingIsLast(startTs, tid);
    FirstWokenIsEarliest(c, startTs, endTs, tid, first);
    if c.FirstWoken(first, endTs).None? { NoneWokenAlong(c, waker, startTs, endTs, tid, first); }
    else { OneArrival(c, tid, startTs, endTs); }
  }

  lemma OneArrival(c: Context, tid: ThreadId, startTs: Timestamp, endTs: Timestamp)
    requires c.Ok()
    ensures forall m, n | WokenFirst(c, m, tid, startTs, endTs) && WokenFirst(c, n, tid, startTs, endTs) :: m == n
  {
  }

  // ----- Queries

  lemma {:induction false} QueryShows(c: Context, waker: Option<NodeId>, startTs: Timestamp, endTs: Timestamp,
                                      tid: ThreadId, path: Path, a: Timestamp, t: Timestamp)
    requires c.Ok() && endTs <= c.horizon && c.WakerOk(waker, endTs, tid) && tid != NETWORK_THREAD
    requires Unbroken(c, waker, startTs, endTs, tid) && EndsWell(c, waker, endTs, tid)
    requires startTs <= endTs && Good(c, path, a, startTs) && t < endTs
    ensures ShownAt(c.Query(waker, startTs, endTs, tid, path), t)
         == if t < startTs then ShownAt(path, t) else Some(Shows(c, waker, startTs, endTs, tid, t))
    decreases c.horizon - startTs, waker.None?, c.WakerRank(waker), 2, 0
  {
    hide Graph.Threaded, Graph.Resolved, Graph.StrictTimes, Graph.CoversFrom, RankFollowsTime, EdgesOk, UnbrokenAlong,
      EndsWell, Good, Graph.Intersecting, ShowsOwn, ShownAt, Context.Walk;
    if startTs < endTs {
      c.g.IntersectingIsLast(startTs, tid);
      match c.g.Intersecting(startTs, tid) {
        case Some(n) =>
          assert Min(endTs, Max(startTs, c.Ts(n))) == startTs;
          WalkShows(c, waker, startTs, endTs, tid, n, path, a, t);
        case None =>
          QueryBeforeThreadShows(c, waker, startTs, endTs, tid, path, a, t);
      }
    }
  }

  lemma {:induction false} QueryBeforeThreadShows(c: Context, waker: Option<NodeId>, startTs: Timestamp,
                                                  endTs: Timestamp, tid: ThreadId, path: Path, a: Timestamp,
                                                  t: Timestamp)
    requires c.Ok() && endTs <= c.horizon && c.WakerOk(waker, endTs, tid) && tid != NETWORK_THREAD
    requires Unbroken(c, waker, startTs, endTs, tid) && EndsWell(c, waker, endTs, tid)
    requires startTs < endTs && Good(c, path, a, startTs) && c.g.Intersecting(startTs, tid).None? && t < endTs
    ensures ShownAt(c.Query(waker, startTs, endTs, tid, path), t)
         == if t < startTs then ShownAt(path, t) else Some(Shows(c, waker, startTs, endTs, tid, t))
    decreases c.horizon - startTs, waker.None?, c.WakerRank(waker), 1, c.horizon + 1
  {
    hide Graph.Threaded, Graph.Resolved, Graph.StrictTimes, Graph.Intersecting, Graph.LastUpTo, RankFollowsTime,
      EdgesOk, UnbrokenAlong, EndsWell, Lives, Good, TypeAt, Context.FirstWoken, Context.Walk, Context.Query,
      Graph.StartingAfter, ShownAt, Absent, WokenFirst;
    EndsWellMeans(c, waker, endTs, tid);
    ThreadStartsWithin(c, waker, startTs, endTs, tid);
    c.QueryBeforeThread(waker, startTs, endTs, tid, path);
    ArrivalIs(c, waker, startTs, endTs, tid);
    GoodEndsAt(c, path, a, startTs);
    var first := c.g.StartingAfter(startTs, tid).value;
    match c.FirstWoken(first, endTs) {
      case None =>
        var filler := Segment(startTs, c.Ts(first), tid, WaitBlocked);
        NothingCovers(c, startTs, tid);
        InsertKeepsGood(c, path, filler, a);
        WalkShows(c, waker, startTs, endTs, tid, first, InsertSegment(path, filler), a, t);
        if t < c.Ts(first) {
          InsertShows(path, filler, t);
          if startTs <= t { NothingThere(c, startTs, tid, t); }
        }
      case Some(n) =>
        var w := c.Waker(n);
        c.RankBelowWaker(waker, endTs, tid, n);
        NodeEndsWell(c, w);
        QueryIsGood(c, Some(w), startTs, c.Ts(n), c.Tid(w), path, a);
        if t < c.Ts(n) { QueryShows(c, Some(w), startTs, c.Ts(n), c.Tid(w), path, a, t); }
        WalkShows(c, waker, startTs, endTs, tid, n, c.Query(Some(w), startTs, c.Ts(n), c.Tid(w), path), a, t);
    }
  }

  lemma {:induction false} WalkShows(c: Context, waker: Option<NodeId>, startTs: Timestamp, endTs: Timestamp,
                                     tid: ThreadId, n: NodeId, path: Path, a: Timestamp, t: Timestamp)
    requires c.Ok() && startTs < endTs <= c.horizon && c.WakerOk(waker, endTs, tid) && c.WalkOk(startTs, tid, n)
    requires UnbrokenAlong(c, waker, startTs, endTs, tid, n) && EndsWell(c, waker, endTs, tid)
    requires Good(c, path, a, Min(endTs, Max(startTs, c.Ts(n)))) && t < endTs && tid != NETWORK_THREAD
    ensures ShownAt(c.Walk(waker, startTs, endTs, tid, n, path), t)
         == if t < Max(startTs, c.Ts(n)) then ShownAt(path, t) else Some(ShowsOwn(c, waker, startTs, endTs, tid, t))
    decreases c.horizon - startTs, waker.None?, c.WakerRank(waker), 1, c.horizon - c.Ts(n)
  {
    hide Graph.Threaded, Graph.Resolved, Graph.StrictTimes, Graph.LastUpTo, RankFollowsTime, EdgesOk, UnbrokenWait,
      EndsWell, Good, TypeAt, ShownAt, ShowsOwn, StepOf;
    if c.g.nodes[n].outH.None? {
      EndsWellMeans(c, waker, endTs, tid);
    } else if c.Ts(n) <= endTs {
      c.OutEdgeOk(n);
      c.StepMeasure(waker, startTs, endTs, tid, n);
      WalkSteps(c, waker, startTs, endTs, tid, n, path);
      hide Context.Walk;
      StepIsGood(c, waker, startTs, endTs, tid, n, path, a);
      if t < c.Ts(c.OutEdge(n).to) { StepShows(c, waker, startTs, endTs, tid, n, path, a, t); }
      WalkShows(c, waker, startTs, endTs, tid, c.OutEdge(n).to, StepOf(c, startTs, endTs, tid, n, path), a, t);
    }
  }

  lemma {:induction false} StepShows(c: Context, waker: Option<NodeId>, startTs: Timestamp, endTs: Timestamp,
                                     tid: ThreadId, n: NodeId, path: Path, a: Timestamp, t: Timestamp)
    requires c.Ok() && startTs < endTs <= c.horizon && c.WakerOk(waker, endTs, tid) && c.WalkOk(startTs, tid, n)
    requires c.Ts(n) <= endTs && c.g.nodes[n].outH.Some? && c.OutEdge(n).to in c.g.nodes && tid != NETWORK_THREAD
    requires UnbrokenAlong(c, waker, startTs, endTs, tid, n) && EndsWell(c, waker, endTs, tid)
    requires Good(c, path, a, Min(endTs, Max(startTs, c.Ts(n)))) && t < Min(endTs, c.Ts(c.OutEdge(n).to))
    ensures ShownAt(StepOf(c, startTs, endTs, tid, n, path), t)
         == if t < Max(startTs, c.Ts(n)) then ShownAt(path, t) else Some(ShowsOwn(c, waker, startTs, endTs, tid, t))
    decreases c.horizon - startTs, waker.None?, c.WakerRank(waker), 1, c.horizon - c.Ts(n), 0
  {
    hide Graph.Threaded, Graph.Resolved, Graph.StrictTimes, Graph.LastUpTo, RankFollowsTime, EdgesOk, UnbrokenWait,
      EndsWell, Lives, Good, TypeAt, ShownAt, Shows, EndedByPacket;
    c.OutEdgeOk(n);
    c.StepMeasure(waker, startTs, endTs, tid, n);
    var edge := c.OutEdge(n);
    var edgeStart, edgeEnd := Max(startTs, c.Ts(n)), Min(endTs, c.Ts(edge.to));
    GoodEndsAt(c, path, a, edgeStart);
    if edgeStart <= t {
      assert CoveredBy(c, n, tid, t);
      CoverIsUnique(c, n, CoverAt(c, tid, t).value, tid, t);
    }
    if Blocking(edge.etype) {
      BlockedStep(c, waker, startTs, endTs, tid, n);
      EdgeGives(c, n, edgeStart, edgeEnd);
      ResolveShows(c, edge, edgeStart, edgeEnd, path, a, t);
    } else if edgeStart != edgeEnd {
      InsertShows(path, Segment(edgeStart, edgeEnd, tid, edge.etype), t);
    }
  }

  lemma EdgeGives(c: Context, n: NodeId, startTs: Timestamp, endTs: Timestamp)
    requires c.Ok() && n in c.g.nodes && c.g.nodes[n].outH.Some? && c.OutEdge(n).to in c.g.nodes
    requires c.Ts(n) <= startTs && endTs <= c.Ts(c.OutEdge(n).to)
    ensures forall t | startTs <= t < endTs :: TypeAt(c, c.Tid(n), t, c.OutEdge(n).etype)
  {
    hide TypeAt, Context.Ok;
    forall t | startTs <= t < endTs
      ensures TypeAt(c, c.Tid(n), t, c.OutEdge(n).etype)
    {
      EdgeGivesType(c, n, t);
    }
  }

  lemma {:induction false} ResolveShows(c: Context, edge: Edge, startTs: Timestamp, endTs: Timestamp, path: Path,
                                        a: Timestamp, t: Timestamp)
    requires c.Ok() && edge.to in c.g.nodes && !edge.etype.Epsilon?
    requires startTs <= endTs <= c.horizon && endTs <= c.Ts(edge.to)
    requires UnbrokenWait(c, edge, startTs, endTs) && Good(c, path, a, startTs) && t < endTs
    requires c.g.nodes[edge.to].inV.Some? && c.Tid(c.Waker(edge.to)) != NETWORK_THREAD && startTs < endTs ==>
               EndsWell(c, Some(c.Waker(edge.to)), endTs, c.Tid(c.Waker(edge.to)))
    ensures ShownAt(c.Resolve(edge, startTs, endTs, path), t)
         == if t < startTs then ShownAt(path, t) else Some(ShowsWait(c, edge, startTs, endTs, t))
    decreases c.horizon - startTs, false, c.rank[edge.to], 0, 0
  {
    hide Graph.Threaded, Graph.Resolved, Graph.StrictTimes, RankFollowsTime, EdgesOk, Unbroken, EndsWell, Good, TypeAt,
      ShownAt, Shows;
    GoodEndsAt(c, path, a, startTs);
    if c.g.nodes[edge.to].inV.None? {
      InsertShows(path, Segment(startTs, endTs, c.Tid(edge.to), edge.etype), t);
    } else if EndedByPacket(c, edge.to) {
      var sent := SentBy(c, edge.to);
      var w := c.Waker(sent);
      HopIs(c, edge, startTs, endTs, path);
      NodeEndsWell(c, w);
      QueryIsGood(c, Some(w), startTs, c.Ts(sent), c.Tid(w), path, a);
      var before := c.Query(Some(w), startTs, c.Ts(sent), c.Tid(w), path);
      var hop := Segment(c.Ts(sent), c.Ts(edge.to), c.Tid(sent), c.InEdge(c.Waker(edge.to)).etype);
      GoodEndsAt(c, before, a, c.Ts(sent));
      InsertShows(before, hop, t);
      HopGivesType(c, edge.to, c.Ts(sent));
      if t < c.Ts(sent) { QueryShows(c, Some(w), startTs, c.Ts(sent), c.Tid(w), path, a, t); }
    } else {
      var w := c.Waker(edge.to);
      var mark := Segment(startTs, startTs, c.Tid(w), Epsilon);
      InsertKeepsGood(c, path, mark, a);
      if startTs < endTs {
        QueryShows(c, Some(w), startTs, endTs, c.Tid(w), InsertSegment(path, mark), a, t);
      }
      if t < startTs { MarkShows(path, mark, t); }
    }
  }

  // ----- Whole windows

  /** Where segments lie end to end, the one over an instant is what is shown there. */
  lemma {:induction false} ShownIsSegment(path: Path, a: Timestamp, b: Timestamp, i: nat, t: Timestamp)
    requires Tiles(path, a, b) && i < |path| && path[i].startTs <= t < path[i].endTs
    ensures ShownAt(path, t) == Some(Shown(path[i].tid, path[i].etype))
  {
    if i < |path| - 1 {
      var init := path[..|path| - 1];
      TiledInOrder(path, a, b, i);
      ShownIsSegment(init, a, Last(path).startTs, i, t);
    }
  }

  lemma {:induction false} TiledInOrder(path: Path, a: Timestamp, b: Timestamp, i: nat)
    requires Tiles(path, a, b) && i < |path| - 1
    ensures path[i].endTs <= Last(path).startTs
    decreases |path| - i
  {
    if i < |path| - 2 { TiledInOrder(path, a, b, i + 1); }
  }

  /** A thread that ended before a window shows nothing but a wait. */
  lemma SilentShows(c: Context, startTs: Timestamp, endTs: Timestamp, tid: ThreadId, t: Timestamp)
    requires c.Ok() && startTs <= t < endTs <= c.horizon && tid != NETWORK_THREAD && Silent(c, tid, startTs)
    ensures Shows(c, None, startTs, endTs, tid, t) == Shown(tid, WaitBlocked)
  {
    hide Graph.Threaded, Graph.Resolved, Graph.StrictTimes, RankFollowsTime, EdgesOk;
    forall n
      ensures !CoveredBy(c, n, tid, t) && !WokenFirst(c, n, tid, startTs, endTs)
    {
      if CoveredBy(c, n, tid, t) { c.OutEdgeOk(n); }
    }
  }

  lemma WindowShows(c: Context, startTs: Timestamp, endTs: Timestamp, tid: ThreadId, t: Timestamp)
    requires c.Ok() && startTs <= t < endTs <= c.horizon && tid != NETWORK_THREAD
    requires Unbroken(c, None, startTs, endTs, tid) && MayBeTiled(c, startTs, endTs, tid)
    ensures ShownAt(c.Query(None, startTs, endTs, tid, []), t) == Some(Shows(c, None, startTs, endTs, tid, t))
  {
    hide Context.Ok, WellFormed, Unbroken, EndsWell, Silent, Context.Query, Shows;
    if Silent(c, tid, startTs) {
      SilentPath(c, startTs, endTs, tid);
      SilentShows(c, startTs, endTs, tid, t);
    } else {
      NothingIsGood(c, startTs);
      QueryShows(c, None, startTs, endTs, tid, [], startTs, t);
    }
  }

  /**
    Where the query's way is unbroken and its path tiles the window, each segment shows, at every instant, the thread
    that the end of the window waited for there, and that thread's type.
   */
  lemma PathShows(c: Context, startTs: Timestamp, endTs: Timestamp, tid: ThreadId, i: nat, t: Timestamp)
    requires c.Ok() && startTs <= endTs <= c.horizon && tid != NETWORK_THREAD
    requires Unbroken(c, None, startTs, endTs, tid) && Tiles(c.Query(None, startTs, endTs, tid, []), startTs, endTs)
    requires var path := c.Query(None, startTs, endTs, tid, []); i < |path| && path[i].startTs <= t < path[i].endTs
    ensures startTs <= t < endTs
    ensures var seg := c.Query(None, startTs, endTs, tid, [])[i];
            Shown(seg.tid, seg.etype) == Shows(c, None, startTs, endTs, tid, t)
  {
    hide Context.Ok, WellFormed, Unbroken, MayBeTiled, Context.Query, Shows, Tiles, Faithful, AccountedTime;
    var path := c.Query(None, startTs, endTs, tid, []);
    WindowIsTiledIff(c, startTs, endTs, tid);
    SegmentIsWithin(path, startTs, endTs, i);
    WindowShows(c, startTs, endTs, tid, t);
    ShownIsSegment(path, startTs, endTs, i, t);
  }

  lemma {:induction false} SegmentIsWithin(path: Path, a: Timestamp, b: Timestamp, i: nat)
    requires Tiles(path, a, b) && i < |path|
    ensures a <= path[i].startTs && path[i].endTs <= b
  {
    if i < |path| - 1 { TiledInOrder(path, a, b, i); }
    if i > 0 { SegmentIsWithin(path[..i], a, path[i - 1].endTs, i - 1); }
  }

  /**
    From a thread's earliest wake-up in the window on, if it is absent before, and otherwise from the start, the path
    shows the thread itself at every instant at which its own link is not a wait.
   */
  lemma OwnRunsAreShown(c: Context, startTs: Timestamp, endTs: Timestamp, tid: ThreadId, n: NodeId, t: Timestamp)
    requires c.Ok() && startTs <= t < endTs <= c.horizon && tid != NETWORK_THREAD
    requires Unbroken(c, None, startTs, endTs, tid) && MayBeTiled(c, startTs, endTs, tid)
    requires CoveredBy(c, n, tid, t) && !Blocking(c.OutEdge(n).etype)
    requires Absent(c, tid, startTs) ==> forall m | WokenFirst(c, m, tid, startTs, endTs) :: c.Ts(m) <= t
    ensures ShownAt(c.Query(None, startTs, endTs, tid, []), t) == Some(Shown(tid, c.OutEdge(n).etype))
  {
    WindowShows(c, startTs, endTs, tid, t);
    hide Context.Ok, WellFormed, Unbroken, MayBeTiled, Context.Query, Absent, WokenFirst;
    CoverIsUnique(c, n, CoverAt(c, tid, t).value, tid, t);
  }

  /** Before the earliest wake-up of a thread that was absent, the path shows whatever the thread that woke it shows. */
  lemma ArrivalIsExplained(c: Context, startTs: Timestamp, endTs: Timestamp, tid: ThreadId, n: NodeId, t: Timestamp)
    requires c.Ok() && startTs <= t < endTs <= c.horizon && tid != NETWORK_THREAD
    requires Unbroken(c, None, startTs, endTs, tid) && MayBeTiled(c, startTs, endTs, tid)
    requires Absent(c, tid, startTs) && WokenFirst(c, n, tid, startTs, endTs) && t < c.Ts(n)
    ensures ShownAt(c.Query(None, startTs, endTs, tid, []), t)
         == Some(Shows(c, Some(c.Waker(n)), startTs, c.Ts(n), c.Tid(c.Waker(n)), t))
  {
    WindowShows(c, startTs, endTs, tid, t);
    OneArrival(c, tid, startTs, endTs);
    assert c.WakerOk(Some(c.Waker(n)), c.Ts(n), c.Tid(c.Waker(n)));
    hide Context.Ok, WellFormed, Unbroken, MayBeTiled, Context.Query, Absent, WokenFirst;
  }

  // ----- Segments are as long as they can be

  ghost predicate Merged(path: Path) {
    forall i, j | 0 <= i < j < |path| && j == i + 1 :: path[i].tid != path[j].tid || path[i].etype != path[j].etype
  }

  lemma InsertMerges(path: Path, seg: Segment)
    requires Merged(path)
    ensures Merged(InsertSegment(path, seg))
  {
  }

  /** Segments that follow each other differ in thread or type. */
  lemma {:induction false} QueryMerges(c: Context, waker: Option<NodeId>, startTs: Timestamp, endTs: Timestamp,
                                       tid: ThreadId, path: Path)
    requires c.Ok() && endTs <= c.horizon && c.WakerOk(waker, endTs, tid) && Merged(path)
    ensures Merged(c.Query(waker, startTs, endTs, tid, path))
    decreases c.horizon - startTs, waker.None?, c.WakerRank(waker), 2, 0
  {
    hide Graph.Threaded, Graph.Resolved, Graph.StrictTimes, Graph.LastUpTo, Graph.CoversFrom, RankFollowsTime, EdgesOk,
      Graph.Intersecting, Graph.StartingAfter, Merged, Context.FirstWoken;
    if startTs < endTs {
      c.g.IntersectingIsLast(startTs, tid);
      match c.g.Intersecting(startTs, tid) {
        case Some(n) => WalkOkAt(c, startTs, tid, n); WalkMerges(c, waker, startTs, endTs, tid, n, path);
        case None =>
          var next := c.g.StartingAfter(startTs, tid);
          if next.None? {
            InsertMerges(path, Segment(startTs, endTs, tid, WaitBlocked));
          } else {
            var first := next.value;
            match c.FirstWoken(first, endTs) {
              case None =>
                var filler := Segment(startTs, c.Ts(first), tid, WaitBlocked);
                InsertMerges(path, filler);
                WalkMerges(c, waker, startTs, endTs, tid, first, InsertSegment(path, filler));
              case Some(n) =>
                var w := c.Waker(n);
                c.RankBelowWaker(waker, endTs, tid, n);
                QueryMerges(c, Some(w), startTs, c.Ts(n), c.Tid(w), path);
                WalkMerges(c, waker, startTs, endTs, tid, n, c.Query(Some(w), startTs, c.Ts(n), c.Tid(w), path));
            }
          }
      }
    }
  }

  lemma WalkOkAt(c: Context, startTs: Timestamp, tid: ThreadId, n: NodeId)
    requires c.g.LastUpTo(n, startTs, tid)
    ensures c.WalkOk(startTs, tid, n)
  {
  }

  lemma {:induction false} WalkMerges(c: Context, waker: Option<NodeId>, startTs: Timestamp, endTs: Timestamp,
                                      tid: ThreadId, n: NodeId, path: Path)
    requires c.Ok() && startTs < endTs <= c.horizon && c.WakerOk(waker, endTs, tid) && c.WalkOk(startTs, tid, n)
    requires Merged(path)
    ensures Merged(c.Walk(waker, startTs, endTs, tid, n, path))
    decreases c.horizon - startTs, waker.None?, c.WakerRank(waker), 1, c.horizon - c.Ts(n)
  {
    hide Graph.Threaded, Graph.Resolved, Graph.StrictTimes, Graph.LastUpTo, RankFollowsTime, EdgesOk, Merged,
      Context.Resolve, InsertSegment;
    if c.Ts(n) <= endTs && c.g.nodes[n].outH.Some? {
      c.OutEdgeOk(n);
      c.StepMeasure(waker, startTs, endTs, tid, n);
      var edge := c.OutEdge(n);
      var edgeStart, edgeEnd := Max(startTs, c.Ts(n)), Min(endTs, c.Ts(edge.to));
      if Blocking(edge.etype) { ResolveMerges(c, edge, edgeStart, edgeEnd, path); }
      else { InsertMerges(path, Segment(edgeStart, edgeEnd, tid, edge.etype)); }
      WalkSteps(c, waker, startTs, endTs, tid, n, path);
      WalkMerges(c, waker, startTs, endTs, tid, edge.to, StepOf(c, startTs, endTs, tid, n, path));
    }
  }

  lemma {:induction false} ResolveMerges(c: Context, edge: Edge, startTs: Timestamp, endTs: Timestamp, path: Path)
    requires c.Ok() && edge.to in c.g.nodes && startTs <= c.horizon && endTs <= c.horizon && endTs <= c.Ts(edge.to)
    requires Merged(path)
    ensures Merged(c.Resolve(edge, startTs, endTs, path))
    decreases c.horizon - startTs, false, c.rank[edge.to], 0, 0
  {
    hide Graph.Threaded, Graph.Resolved, Graph.StrictTimes, RankFollowsTime, EdgesOk, Merged, Context.Query,
      InsertSegment;
    if c.g.nodes[edge.to].inV.None? {
      InsertMerges(path, Segment(startTs, endTs, c.Tid(edge.to), edge.etype));
    } else if EndedByPacket(c, edge.to) {
      var sent := SentBy(c, edge.to);
      var w := c.Waker(sent);
      PacketRank(c, edge.to);
      QueryMerges(c, Some(w), startTs, c.Ts(sent), c.Tid(w), path);
      InsertMerges(c.Query(Some(w), startTs, c.Ts(sent), c.Tid(w), path),
                   Segment(c.Ts(sent), c.Ts(c.Waker(edge.to)), c.Tid(sent), c.InEdge(c.Waker(edge.to)).etype));
    } else {
      var w := c.Waker(edge.to);
      var mark := Segment(startTs, startTs, c.Tid(w), Epsilon);
      InsertMerges(path, mark);
      QueryMerges(c, Some(w), startTs, endTs, c.Tid(w), InsertSegment(path, mark));
    }
  }
}
