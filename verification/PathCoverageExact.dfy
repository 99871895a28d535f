/**
  Exactly which windows a critical path meets. A path always tiles and is faithful from the start of its
  window up to some time; that time is the window's end if and only if the window may end there.
 */
module PathCoverageExact {
  import opened Common
  import opened CriticalGraphs
  import opened PathSpec
  import opened PathCoverage

  /** The thread has nothing at or after `t`. */
  ghost predicate Silent(c: Context, tid: ThreadId, t: Timestamp) {
    forall k <- c.g.nodes | c.g.nodes[k].tid == tid :: c.g.nodes[k].ts < t
  }

  /** The window is empty, or its thread had ended before it, or it may end where it does. */
  ghost predicate MayBeTiled(c: Context, startTs: Timestamp, endTs: Timestamp, tid: ThreadId)
    requires c.Ok()
  {
    startTs == endTs || Silent(c, tid, startTs) || EndsWell(c, None, endTs, tid)
  }

  // ----- Windows that do not end well are overshot

  /** A thread whose first node is after the window is filled up to that node. */
  lemma LateThreadOvershoots(c: Context, waker: Option<NodeId>, startTs: Timestamp, endTs: Timestamp, tid: ThreadId,
                             m: NodeId, path: Path, a: Timestamp) returns (end: Timestamp)
    requires c.Ok() && startTs < endTs <= c.horizon && c.WakerOk(waker, endTs, tid) && tid != NETWORK_THREAD
    requires m in c.g.nodes && c.Tid(m) == tid
    requires forall k <- c.g.nodes | c.g.nodes[k].tid == tid :: endTs < c.g.nodes[k].ts
    requires Good(c, path, a, startTs)
    ensures endTs < end <= c.horizon && Good(c, c.Query(waker, startTs, endTs, tid, path), a, end)
  {
    NotYetFound(c, startTs, tid);
    hide Graph.Threaded, Graph.Resolved, Graph.Intersecting, Graph.StartingAfter, Graph.StrictTimes, RankFollowsTime,
      EdgesOk, Good, Context.Query;
    QueryBeforeNext(c, waker, startTs, endTs, tid, path);
    NothingCovers(c, startTs, tid);
    var first := c.g.StartingAfter(startTs, tid).value;
    end := c.Ts(first);
    InsertKeepsGood(c, path, Segment(startTs, end, tid, WaitBlocked), a);
  }

  lemma NotYetFound(c: Context, t: Timestamp, tid: ThreadId)
    requires c.Ok() && forall k <- c.g.nodes | c.g.nodes[k].tid == tid :: t < c.g.nodes[k].ts
    ensures c.g.Intersecting(t, tid).None?
  {
    c.g.IntersectingIsLast(t, tid);
    hide Graph.Threaded, Graph.Resolved, Graph.Intersecting, Graph.StrictTimes, RankFollowsTime, EdgesOk;
  }

  /** The wait out of `n` is over the end of the window, and ended by a thread on which the window may not end. */
  ghost predicate EndsBadly(c: Context, endTs: Timestamp, tid: ThreadId, n: NodeId)
    requires c.Ok()
  {
    && tid != NETWORK_THREAD && CoveredBy(c, n, tid, endTs) && c.Ts(n) < endTs && Blocking(c.OutEdge(n).etype)
    && var to := c.OutEdge(n).to;
       && c.g.nodes[to].inV.Some? && endTs < c.Ts(to)
       && !EndsWell(c, Some(c.Waker(to)), endTs, c.Tid(c.Waker(to)))
  }

  /** A window that does not end well on a thread with a later node begins before that thread, or ends badly. */
  lemma WhyNotWell(c: Context, waker: Option<NodeId>, endTs: Timestamp, tid: ThreadId, m: NodeId)
    returns (n: Option<NodeId>)
    requires c.Ok() && c.WakerOk(waker, endTs, tid) && tid != NETWORK_THREAD && !EndsWell(c, waker, endTs, tid)
    requires m in c.g.nodes && c.Tid(m) == tid && endTs <= c.Ts(m)
    ensures n.None? ==> forall k <- c.g.nodes | c.g.nodes[k].tid == tid :: endTs < c.g.nodes[k].ts
    ensures n.Some? ==> EndsBadly(c, endTs, tid, n.value)
  {
    hide Context.Ok, WellFormed;
    n := None;
    if Lives(c, tid, endTs) {
      n := Crossing(c, tid, endTs);
      CrossingRank(c, waker, endTs, tid, n.value);
    }
  }

  lemma {:induction false} QueryOvershoots(c: Context, waker: Option<NodeId>, startTs: Timestamp, endTs: Timestamp,
                                           tid: ThreadId, m: NodeId, path: Path, a: Timestamp) returns (end: Timestamp)
    requires c.Ok() && startTs < endTs <= c.horizon && c.WakerOk(waker, endTs, tid) && tid != NETWORK_THREAD
    requires Unbroken(c, waker, startTs, endTs, tid) && !EndsWell(c, waker, endTs, tid)
    requires m in c.g.nodes && c.Tid(m) == tid && endTs <= c.Ts(m) && Good(c, path, a, startTs)
    ensures endTs < end <= c.horizon && Good(c, c.Query(waker, startTs, endTs, tid, path), a, end)
    decreases c.horizon - startTs, waker.None?, c.WakerRank(waker), 2, 0
  {
    var n := WhyNotWell(c, waker, endTs, tid, m);
    if n.None? {
      end := LateThreadOvershoots(c, waker, startTs, endTs, tid, m, path, a);
    } else {
      end := BadEndOvershoots(c, waker, startTs, endTs, tid, n.value, path, a);
    }
  }

  /** Where a query starts to walk, when the wait over the end of its window is out of `n`. */
  lemma StartsUpTo(c: Context, startTs: Timestamp, endTs: Timestamp, tid: ThreadId, n: NodeId)
    requires c.Ok() && startTs < endTs && EndsBadly(c, endTs, tid, n)
    ensures c.g.Intersecting(startTs, tid).Some? ==>
              var k := c.g.Intersecting(startTs, tid).value;
              k in c.g.nodes && c.Tid(k) == tid && c.Ts(k) <= startTs && c.Ts(k) <= c.Ts(n)
    ensures c.g.Intersecting(startTs, tid).None? ==>
              && startTs < c.Ts(n) && c.g.StartingAfter(startTs, tid).Some?
              && c.Ts(c.g.StartingAfter(startTs, tid).value) <= c.Ts(n)
    ensures forall k <- c.g.nodes | c.g.nodes[k].tid == tid && c.g.nodes[k].ts <= endTs ::
              c.g.nodes[k].ts <= c.g.nodes[n].ts
  {
    c.OutEdgeOk(n);
    c.g.IntersectingIsLast(startTs, tid);
    hide Graph.Threaded, Graph.Resolved, Graph.Intersecting, Graph.StrictTimes, RankFollowsTime, EdgesOk, EndsWell;
    if c.Ts(n) <= startTs {
      c.g.HorizontalEdge(n);
      assert c.g.LastUpTo(n, startTs, tid) && c.g.CoversFrom(n, startTs);
    }
  }

  lemma {:induction false} BadEndOvershoots(c: Context, waker: Option<NodeId>, startTs: Timestamp, endTs: Timestamp,
                                            tid: ThreadId, n: NodeId, path: Path, a: Timestamp) returns (end: Timestamp)
    requires c.Ok() && startTs < endTs <= c.horizon && c.WakerOk(waker, endTs, tid)
    requires Unbroken(c, waker, startTs, endTs, tid) && EndsBadly(c, endTs, tid, n)
    requires Good(c, path, a, startTs)
    ensures endTs < end <= c.horizon && Good(c, c.Query(waker, startTs, endTs, tid, path), a, end)
    decreases c.horizon - startTs, waker.None?, c.WakerRank(waker), 1, c.horizon + 1
  {
    hide Graph.Threaded, Graph.Resolved, Graph.StrictTimes, Graph.Intersecting, Graph.LastUpTo, Graph.StartingAfter,
      RankFollowsTime, EdgesOk, UnbrokenAlong, EndsWell, EndsBadly, Good, Context.FirstWoken, Context.Walk;
    c.g.IntersectingIsLast(startTs, tid);
    EndsBadlyMeans(c, endTs, tid, n);
    StartsUpTo(c, startTs, endTs, tid, n);
    match c.g.Intersecting(startTs, tid) {
      case Some(k) =>
        assert Min(endTs, Max(startTs, c.Ts(k))) == startTs;
        end := WalkOvershoots(c, waker, startTs, endTs, tid, k, n, path, a);
      case None =>
        c.QueryBeforeThread(waker, startTs, endTs, tid, path);
        var first := c.g.StartingAfter(startTs, tid).value;
        match c.FirstWoken(first, endTs) {
          case None =>
            NothingCovers(c, startTs, tid);
            var filler := Segment(startTs, c.Ts(first), tid, WaitBlocked);
            InsertKeepsGood(c, path, filler, a);
            end := WalkOvershoots(c, waker, startTs, endTs, tid, first, n, InsertSegment(path, filler), a);
          case Some(k) =>
            var w := c.Waker(k);
            assert c.g.nodes[k].tid == tid && c.g.nodes[k].ts <= endTs;
            NodeEndsWell(c, w);
            QueryIsGood(c, Some(w), startTs, c.Ts(k), c.Tid(w), path, a);
            end := WalkOvershoots(c, waker, startTs, endTs, tid, k, n,
                                  c.Query(Some(w), startTs, c.Ts(k), c.Tid(w), path), a);
        }
    }
  }

  lemma EndsBadlyMeans(c: Context, endTs: Timestamp, tid: ThreadId, n: NodeId)
    requires c.Ok() && EndsBadly(c, endTs, tid, n)
    ensures tid != NETWORK_THREAD && n in c.g.nodes && c.Tid(n) == tid && c.Ts(n) < endTs && c.g.nodes[n].outH.Some?
    ensures Blocking(c.OutEdge(n).etype) && c.OutEdge(n).to in c.g.nodes && endTs < c.Ts(c.OutEdge(n).to)
    ensures c.Tid(c.OutEdge(n).to) == tid && c.g.nodes[c.OutEdge(n).to].inV.Some?
    ensures !EndsWell(c, Some(c.Waker(c.OutEdge(n).to)), endTs, c.Tid(c.Waker(c.OutEdge(n).to)))
  {
    c.OutEdgeOk(n);
  }

  lemma LeadsUpTo(c: Context, waker: Option<NodeId>, startTs: Timestamp, endTs: Timestamp, tid: ThreadId, k: NodeId,
                  n: NodeId)
    requires c.Ok() && startTs < endTs <= c.horizon && c.WakerOk(waker, endTs, tid) && c.WalkOk(startTs, tid, k)
    requires UnbrokenAlong(c, waker, startTs, endTs, tid, k) && EndsBadly(c, endTs, tid, n)
    requires n in c.g.nodes && c.Ts(k) < c.Ts(n)
    ensures c.g.nodes[k].outH.Some? && c.OutEdge(k).to in c.g.nodes && c.Ts(c.OutEdge(k).to) <= c.Ts(n)
  {
    EndsBadlyMeans(c, endTs, tid, n);
    var to := c.OutEdge(n).to;
    assert c.g.nodes[k].outH.Some?;
    c.OutEdgeOk(k);
    hide EndsBadly, UnbrokenAlong;
  }

  lemma SameTime(c: Context, k: NodeId, n: NodeId)
    requires c.Ok() && k in c.g.nodes && n in c.g.nodes && c.Tid(k) == c.Tid(n) && c.Ts(k) == c.Ts(n)
    ensures k == n
  {
  }

  lemma {:induction false} WalkOvershoots(c: Context, waker: Option<NodeId>, startTs: Timestamp, endTs: Timestamp,
                                          tid: ThreadId, k: NodeId, n: NodeId, path: Path, a: Timestamp)
    returns (end: Timestamp)
    requires c.Ok() && startTs < endTs <= c.horizon && c.WakerOk(waker, endTs, tid) && c.WalkOk(startTs, tid, k)
    requires UnbrokenAlong(c, waker, startTs, endTs, tid, k) && EndsBadly(c, endTs, tid, n)
    requires n in c.g.nodes && c.Ts(k) <= c.Ts(n) && Good(c, path, a, Min(endTs, Max(startTs, c.Ts(k))))
    ensures endTs < end <= c.horizon && Good(c, c.Walk(waker, startTs, endTs, tid, k, path), a, end)
    decreases c.horizon - startTs, waker.None?, c.WakerRank(waker), 1, c.horizon - c.Ts(k)
  {
    hide Graph.Threaded, Graph.Resolved, Graph.StrictTimes, Graph.LastUpTo, RankFollowsTime, EdgesOk, Unbroken,
      EndsWell, EndsBadly, Good, TypeAt;
    EndsBadlyMeans(c, endTs, tid, n);
    if c.Ts(k) < c.Ts(n) {
      LeadsUpTo(c, waker, startTs, endTs, tid, k, n);
      c.OutEdgeOk(k);
      c.StepMeasure(waker, startTs, endTs, tid, k);
      StepIsGood(c, waker, startTs, endTs, tid, k, path, a);
      end := WalkOvershoots(c, waker, startTs, endTs, tid, c.OutEdge(k).to, n, StepOf(c, startTs, endTs, tid, k, path),
                            a);
    } else {
      SameTime(c, k, n);
      c.StepMeasure(waker, startTs, endTs, tid, n);
      var edge := c.OutEdge(n);
      var w, from := c.Waker(edge.to), Max(startTs, c.Ts(n));
      var mark := Segment(from, from, c.Tid(w), Epsilon);
      InsertKeepsGood(c, path, mark, a);
      end := QueryOvershoots(c, Some(w), from, endTs, c.Tid(w), w, InsertSegment(path, mark), a);
      assert c.Resolve(edge, from, endTs, path) == c.Query(Some(w), from, endTs, c.Tid(w), InsertSegment(path, mark));
    }
  }

  // ----- Threads that end within the window

  /** `l` is the last node of its thread, before `endTs`. */
  ghost predicate LastBefore(c: Context, tid: ThreadId, l: NodeId, endTs: Timestamp) {
    && l in c.g.nodes && c.g.nodes[l].tid == tid && c.g.nodes[l].ts < endTs
    && forall k <- c.g.nodes | c.g.nodes[k].tid == tid :: c.g.nodes[k].ts <= c.g.nodes[l].ts
  }

  lemma FindLast(c: Context, tid: ThreadId, endTs: Timestamp, k: NodeId) returns (l: NodeId)
    requires c.Ok() && k in c.g.nodes && c.g.nodes[k].tid == tid && Silent(c, tid, endTs)
    ensures LastBefore(c, tid, l, endTs)
  {
    hide Context.Ok, WellFormed, Graph.Threaded;
    c.OkIsThreaded();
    var _ := c.g.IndexOf(k);
    c.g.SearchFindsLast(endTs, tid);
    l := c.g.threads[tid][UpperBound(c.g.Times(tid), endTs) - 1];
  }

  lemma LastIsUnlinked(c: Context, tid: ThreadId, l: NodeId, endTs: Timestamp)
    requires c.Ok() && LastBefore(c, tid, l, endTs)
    ensures c.g.nodes[l].outH.None?
  {
    hide Context.Ok, WellFormed;
    if c.g.nodes[l].outH.Some? { c.OutEdgeOk(l); }
  }

  lemma {:induction false} FirstWokenSame(c: Context, n: NodeId, tid: ThreadId, l: NodeId, endTs: Timestamp)
    requires c.Ok() && LastBefore(c, tid, l, endTs) && n in c.g.nodes && c.g.nodes[n].tid == tid
    ensures c.FirstWoken(n, endTs) == c.FirstWoken(n, c.Ts(l))
    decreases c.horizon - c.Ts(n)
  {
    hide WellFormed;
    if c.g.nodes[n].inV.None? && c.g.nodes[n].outH.Some? {
      c.OutEdgeOk(n);
      FirstWokenSame(c, c.OutEdge(n).to, tid, l, endTs);
    }
  }

  lemma {:induction false} WalkSame(c: Context, startTs: Timestamp, endTs: Timestamp, tid: ThreadId, l: NodeId,
                                    n: NodeId, path: Path)
    requires c.Ok() && LastBefore(c, tid, l, endTs) && startTs < c.Ts(l) && endTs <= c.horizon
    requires c.WalkOk(startTs, tid, n)
    ensures c.Walk(None, startTs, endTs, tid, n, path) == c.Walk(None, startTs, c.Ts(l), tid, n, path)
    decreases c.horizon - c.Ts(n)
  {
    hide WellFormed, Context.Resolve, Graph.LastUpTo, InsertSegment;
    if c.g.nodes[n].outH.Some? {
      c.OutEdgeOk(n);
      c.StepMeasure(None, startTs, endTs, tid, n);
      WalkSame(c, startTs, endTs, tid, l, c.OutEdge(n).to, StepOf(c, startTs, endTs, tid, n, path));
    }
  }

  /** A window that outlasts its thread gets the path of the window that ends with the thread. */
  lemma QuerySame(c: Context, startTs: Timestamp, endTs: Timestamp, tid: ThreadId, l: NodeId)
    requires c.Ok() && LastBefore(c, tid, l, endTs) && startTs < c.Ts(l) && endTs <= c.horizon
    ensures c.Query(None, startTs, endTs, tid, []) == c.Query(None, startTs, c.Ts(l), tid, [])
  {
    c.g.IntersectingIsLast(startTs, tid);
    assert c.g.StartingAfter(startTs, tid).Some?;
    hide Graph.Threaded, Graph.Resolved, Graph.StrictTimes, Graph.Intersecting, Graph.LastUpTo, Graph.StartingAfter,
      RankFollowsTime, EdgesOk, Context.FirstWoken, Context.Walk;
    match c.g.Intersecting(startTs, tid) {
      case Some(n) => WalkSame(c, startTs, endTs, tid, l, n, []);
      case None =>
        var first := c.g.StartingAfter(startTs, tid).value;
        c.QueryBeforeThread(None, startTs, endTs, tid, []);
        c.QueryBeforeThread(None, startTs, c.Ts(l), tid, []);
        FirstWokenSame(c, first, tid, l, endTs);
        match c.FirstWoken(first, endTs) {
          case None =>
            WalkSame(c, startTs, endTs, tid, l, first,
                     InsertSegment([], Segment(startTs, c.Ts(first), tid, WaitBlocked)));
          case Some(n) =>
            WalkSame(c, startTs, endTs, tid, l, n, c.Query(Some(c.Waker(n)), startTs, c.Ts(n), c.Tid(c.Waker(n)), []));
        }
    }
  }

  lemma {:induction false} UnbrokenAlongSame(c: Context, startTs: Timestamp, endTs: Timestamp, tid: ThreadId, l: NodeId,
                                             n: NodeId)
    requires c.Ok() && LastBefore(c, tid, l, endTs) && startTs < c.Ts(l) && endTs <= c.horizon
    requires c.WalkOk(startTs, tid, n) && UnbrokenAlong(c, None, startTs, endTs, tid, n)
    ensures UnbrokenAlong(c, None, startTs, c.Ts(l), tid, n)
    decreases c.horizon - c.Ts(n)
  {
    hide WellFormed, Graph.LastUpTo, UnbrokenWait;
    if c.g.nodes[n].outH.Some? {
      c.OutEdgeOk(n);
      c.StepMeasure(None, startTs, endTs, tid, n);
      UnbrokenAlongSame(c, startTs, endTs, tid, l, c.OutEdge(n).to);
    }
  }

  /** The way of a window that outlasts its thread is that of the window that ends with the thread. */
  lemma UnbrokenSame(c: Context, startTs: Timestamp, endTs: Timestamp, tid: ThreadId, l: NodeId)
    requires c.Ok() && LastBefore(c, tid, l, endTs) && startTs < c.Ts(l) && endTs <= c.horizon
    requires Unbroken(c, None, startTs, endTs, tid)
    ensures Unbroken(c, None, startTs, c.Ts(l), tid)
  {
    c.g.IntersectingIsLast(startTs, tid);
    hide Graph.Threaded, Graph.Resolved, Graph.StrictTimes, Graph.Intersecting, RankFollowsTime, EdgesOk,
      Context.FirstWoken, UnbrokenAlong;
    match c.g.Intersecting(startTs, tid) {
      case Some(n) => UnbrokenAlongSame(c, startTs, endTs, tid, l, n);
      case None =>
        var first := c.g.StartingAfter(startTs, tid).value;
        FirstWokenSame(c, first, tid, l, endTs);
        match c.FirstWoken(first, endTs) {
          case None => UnbrokenAlongSame(c, startTs, endTs, tid, l, first);
          case Some(n) => UnbrokenAlongSame(c, startTs, endTs, tid, l, n);
        }
    }
  }

  /** A window that opens on the last node of its thread, and outlasts it, gets no path. */
  lemma QueryFromLast(c: Context, endTs: Timestamp, tid: ThreadId, l: NodeId)
    requires c.Ok() && LastBefore(c, tid, l, endTs) && endTs <= c.horizon
    ensures c.Query(None, c.Ts(l), endTs, tid, []) == []
  {
    LastIsUnlinked(c, tid, l, endTs);
    c.g.IntersectingIsLast(c.Ts(l), tid);
    hide Graph.Threaded, Graph.Resolved, Graph.StrictTimes, Graph.Intersecting, RankFollowsTime, EdgesOk;
    assert c.g.LastUpTo(l, c.Ts(l), tid) && c.g.CoversFrom(l, c.Ts(l));
  }

  lemma EndedThread(c: Context, startTs: Timestamp, endTs: Timestamp, tid: ThreadId, l: NodeId)
    requires c.Ok() && LastBefore(c, tid, l, endTs) && startTs <= c.Ts(l) && endTs <= c.horizon && tid != NETWORK_THREAD
    requires Unbroken(c, None, startTs, endTs, tid)
    ensures Good(c, c.Query(None, startTs, endTs, tid, []), startTs, c.Ts(l))
  {
    hide Context.Ok, WellFormed, EndsWell, Unbroken, Good, Context.Query;
    NothingIsGood(c, startTs);
    if startTs == c.Ts(l) {
      QueryFromLast(c, endTs, tid, l);
    } else {
      NodeEndsWell(c, l);
      UnbrokenSame(c, startTs, endTs, tid, l);
      QueryIsGood(c, None, startTs, c.Ts(l), tid, [], startTs);
      QuerySame(c, startTs, endTs, tid, l);
    }
  }

  lemma NothingIsGood(c: Context, t: Timestamp)
    requires c.Ok()
    ensures Good(c, [], t, t)
  {
  }

  // ----- Threads that have ended before the window

  /** A window that opens after its thread has ended is one wait. */
  lemma SilentPath(c: Context, startTs: Timestamp, endTs: Timestamp, tid: ThreadId)
    requires c.Ok() && startTs < endTs <= c.horizon && tid != NETWORK_THREAD && Silent(c, tid, startTs)
    ensures c.Query(None, startTs, endTs, tid, []) == [Segment(startTs, endTs, tid, WaitBlocked)]
  {
    c.g.IntersectingIsLast(startTs, tid);
    hide Graph.Threaded, Graph.Resolved, Graph.StrictTimes, Graph.Intersecting, Graph.StartingAfter, RankFollowsTime,
      EdgesOk;
    if c.g.Intersecting(startTs, tid).Some? {
      LastIsUnlinked(c, tid, c.g.Intersecting(startTs, tid).value, startTs);
    }
    QueryBeforeNext(c, None, startTs, endTs, tid, []);
  }

  lemma SilentThread(c: Context, startTs: Timestamp, endTs: Timestamp, tid: ThreadId)
    requires c.Ok() && startTs < endTs <= c.horizon && tid != NETWORK_THREAD && Silent(c, tid, startTs)
    ensures Good(c, c.Query(None, startTs, endTs, tid, []), startTs, endTs)
  {
    SilentPath(c, startTs, endTs, tid);
    hide Context.Ok, WellFormed, Context.Query;
    forall t, n | startTs <= t
      ensures !CoveredBy(c, n, tid, t)
    {
      if CoveredBy(c, n, tid, t) { c.OutEdgeOk(n); }
    }
  }

  // ----- The theorem

  /** A path tiles, faithfully, from the start of its window up to some time: the end exactly where that may be. */
  lemma PathReaches(c: Context, startTs: Timestamp, endTs: Timestamp, tid: ThreadId) returns (end: Timestamp)
    requires c.Ok() && startTs <= endTs <= c.horizon && tid != NETWORK_THREAD
    requires Unbroken(c, None, startTs, endTs, tid)
    ensures Good(c, c.Query(None, startTs, endTs, tid, []), startTs, end) && end <= c.horizon
    ensures end == endTs <==> MayBeTiled(c, startTs, endTs, tid)
  {
    NothingIsGood(c, startTs);
    hide WellFormed, EndsWell, Unbroken, Good, Silent;
    end := endTs;
    if startTs == endTs {
      assert c.Query(None, startTs, endTs, tid, []) == [];
    } else if EndsWell(c, None, endTs, tid) {
      QueryIsGood(c, None, startTs, endTs, tid, [], startTs);
    } else if Silent(c, tid, startTs) {
      SilentThread(c, startTs, endTs, tid);
    } else if Silent(c, tid, endTs) {
      end := EndsBefore(c, startTs, endTs, tid);
    } else {
      var m := NotSilent(c, tid, endTs);
      end := QueryOvershoots(c, None, startTs, endTs, tid, m, [], startTs);
    }
  }

  lemma NotSilent(c: Context, tid: ThreadId, t: Timestamp) returns (m: NodeId)
    requires !Silent(c, tid, t)
    ensures m in c.g.nodes && c.g.nodes[m].tid == tid && t <= c.g.nodes[m].ts
  {
    m :| m in c.g.nodes && c.g.nodes[m].tid == tid && t <= c.g.nodes[m].ts;
  }

  lemma EndsBefore(c: Context, startTs: Timestamp, endTs: Timestamp, tid: ThreadId) returns (end: Timestamp)
    requires c.Ok() && startTs < endTs <= c.horizon && tid != NETWORK_THREAD
    requires Unbroken(c, None, startTs, endTs, tid)
    requires Silent(c, tid, endTs) && !Silent(c, tid, startTs)
    ensures Good(c, c.Query(None, startTs, endTs, tid, []), startTs, end) && end < endTs
  {
    hide Context.Ok, WellFormed, Unbroken, Good, Context.Query;
    var k := NotSilent(c, tid, startTs);
    var l := FindLast(c, tid, endTs, k);
    EndedThread(c, startTs, endTs, tid, l);
    end := c.Ts(l);
  }

  /**
    Coverage, exactly: where the query's way is unbroken, its path tiles the window if and only if the window may end
    where it does. If so the path is faithful and accounts for exactly the window's duration;
    if not, it accounts for a different duration.
   */
  lemma WindowIsTiledIff(c: Context, startTs: Timestamp, endTs: Timestamp, tid: ThreadId)
    requires c.Ok() && startTs <= endTs <= c.horizon && tid != NETWORK_THREAD
    requires Unbroken(c, None, startTs, endTs, tid)
    ensures var path := c.Query(None, startTs, endTs, tid, []);
            && Faithful(c, path)
            && (Tiles(path, startTs, endTs) <==> MayBeTiled(c, startTs, endTs, tid))
            && (c.horizon < TWO_64 ==>
                  (AccountedTime(path) % TWO_64 == endTs - startTs <==> MayBeTiled(c, startTs, endTs, tid)))
  {
    var path := c.Query(None, startTs, endTs, tid, []);
    hide Context.Ok, WellFormed, MayBeTiled, Unbroken, Good, Tiles, Faithful, AccountedTime,
      Context.Query;
    var end := PathReaches(c, startTs, endTs, tid);
    GoodMeans(c, path, startTs, end);
    TilesUpToOneTime(path, startTs, end, endTs);
    if c.horizon < TWO_64 {
      TiledTime(c, path, startTs, end);
      SmallIsSame(AccountedTime(path));
    }
  }

  lemma GoodMeans(c: Context, path: Path, a: Timestamp, b: Timestamp)
    requires c.Ok() && Good(c, path, a, b)
    ensures Tiles(path, a, b) && Faithful(c, path)
  {
  }

  lemma TilesUpToOneTime(path: Path, a: Timestamp, b: Timestamp, t: Timestamp)
    requires Tiles(path, a, b)
    ensures Tiles(path, a, t) <==> t == b
  {
  }

  lemma SmallIsSame(n: nat)
    ensures n < TWO_64 ==> n % TWO_64 == n
  {
  }

  /** Every window that may end where it does is tiled. */
  ghost predicate AlwaysCovers(c: Context)
    requires c.Ok()
  {
    forall startTs: nat, endTs: nat, tid: ThreadId | startTs <= endTs <= c.horizon && tid != NETWORK_THREAD
                                                     && MayBeTiled(c, startTs, endTs, tid) ::
      Tiles(c.Query(None, startTs, endTs, tid, []), startTs, endTs)
  }

  /** Absence of gaps is exactly what coverage of all windows needs. */
  lemma CoverageIffGapless(c: Context)
    requires c.Ok() && NoNetworkWakeUps(c)
    ensures AlwaysCovers(c) <==> Gapless(c.g)
  {
    hide WellFormed, MayBeTiled, GaplessIn, NoNetworkIn, Unbroken, Context.Query, Faithful, AccountedTime;
    if Gapless(c.g) {
      forall startTs: nat, endTs: nat, tid: ThreadId | startTs <= endTs <= c.horizon && tid != NETWORK_THREAD
                                                       && MayBeTiled(c, startTs, endTs, tid)
        ensures Tiles(c.Query(None, startTs, endTs, tid, []), startTs, endTs)
      {
        HypothesesWiden(c, startTs, endTs);
        MetIsUnbroken(c, None, startTs, endTs, tid);
        WindowIsTiledIff(c, startTs, endTs, tid);
      }
    } else {
      var n, m :| n in c.g.nodes && m in c.g.nodes && c.g.nodes[n].tid == c.g.nodes[m].tid != NETWORK_THREAD
                  && c.g.nodes[n].ts < c.g.nodes[m].ts && c.g.nodes[n].outH.None?;
      GapIsNotCovered(c, n, m);
      assert MayBeTiled(c, c.Ts(n), c.Ts(m), c.Tid(n)) by { MayEndAtNode(c, c.Ts(n), m); }
      assert !Tiles([], c.Ts(n), c.Ts(m));
    }
  }

  lemma MayEndAtNode(c: Context, startTs: Timestamp, m: NodeId)
    requires c.Ok() && m in c.g.nodes && c.Tid(m) != NETWORK_THREAD
    ensures MayBeTiled(c, startTs, c.Ts(m), c.Tid(m))
  {
    hide WellFormed, EndsWell;
    NodeEndsWell(c, m);
  }

  // ----- Packets

  lemma InsertKeepsTiles(path: Path, seg: Segment, a: Timestamp)
    requires Tiles(path, a, seg.startTs) && seg.startTs <= seg.endTs
    ensures Tiles(InsertSegment(path, seg), a, seg.endTs)
  {
  }

  /** Whatever the window, a hop ends when the packet arrived; it begins when it was sent, if that is no later. */
  lemma HopIsUnclamped(c: Context, edge: Edge, startTs: Timestamp, endTs: Timestamp)
    requires c.Ok() && EndedByPacket(c, edge.to) && startTs <= endTs <= c.horizon && endTs <= c.Ts(edge.to)
    ensures var path := c.Resolve(edge, startTs, endTs, []);
            && path != [] && Last(path).endTs == c.Ts(edge.to)
            && (c.Ts(SentBy(c, edge.to)) <= startTs ==> path[0].startTs == c.Ts(SentBy(c, edge.to)))
  {
    hide WellFormed, EndedByPacket;
    HopIs(c, edge, startTs, endTs, []);
    var sent := SentBy(c, edge.to);
    if c.Ts(sent) <= startTs {
      assert c.Query(Some(c.Waker(sent)), startTs, c.Ts(sent), c.Tid(c.Waker(sent)), []) == [];
    }
  }

  /** A wait within a window is tiled by a hop exactly if the packet was sent within it and arrived at its end. */
  lemma HopTilesIff(c: Context, edge: Edge, startTs: Timestamp, endTs: Timestamp)
    requires c.Ok() && EndedByPacket(c, edge.to) && startTs <= endTs <= c.horizon && endTs <= c.Ts(edge.to)
    requires var sent := SentBy(c, edge.to);
             && c.Tid(c.Waker(sent)) != NETWORK_THREAD
             && (startTs <= c.Ts(sent) ==> Unbroken(c, Some(c.Waker(sent)), startTs, c.Ts(sent), c.Tid(c.Waker(sent))))
    ensures Tiles(c.Resolve(edge, startTs, endTs, []), startTs, endTs)
       <==> startTs <= c.Ts(SentBy(c, edge.to)) && c.Ts(edge.to) == endTs
  {
    hide Context.Ok, WellFormed, Unbroken, EndsWell, InsertSegment, Context.Resolve;
    HopIs(c, edge, startTs, endTs, []);
    HopIsUnclamped(c, edge, startTs, endTs);
    var sent := SentBy(c, edge.to);
    var w := c.Waker(sent);
    if startTs <= c.Ts(sent) {
      NothingIsGood(c, startTs);
      NodeEndsWell(c, w);
      QueryIsGood(c, Some(w), startTs, c.Ts(sent), c.Tid(w), [], startTs);
      var before := c.Query(Some(w), startTs, c.Ts(sent), c.Tid(w), []);
      InsertKeepsTiles(before, Segment(c.Ts(sent), c.Ts(edge.to), c.Tid(sent), c.InEdge(c.Waker(edge.to)).etype),
                       startTs);
    }
  }

  /** A path may be extended by a segment that lies before its end, if it merges with the last one. */
  lemma InsertEarlyTilesIff(path: Path, seg: Segment, a: Timestamp, b: Timestamp)
    requires Tiles(path, a, b) && seg.startTs < b <= seg.endTs
    ensures Tiles(InsertSegment(path, seg), a, seg.endTs)
       <==> path != [] && Last(path).tid == seg.tid && Last(path).etype == seg.etype
  {
    var next := InsertSegment(path, seg);
    if path != [] && !(Last(path).tid == seg.tid && Last(path).etype == seg.etype) {
      assert next == path + [seg] && next[|path| - 1] == Last(path) && next[|path|] == seg;
    }
  }

  /**
    A packet that was sent before the wait it ended breaks the tiling, unless the path so far ends on the network in a
    segment of the same type, which then hides the break.
   */
  lemma EarlyHopTilesIff(c: Context, edge: Edge, startTs: Timestamp, path: Path, a: Timestamp)
    requires c.Ok() && EndedByPacket(c, edge.to) && Tiles(path, a, startTs)
    requires c.Ts(SentBy(c, edge.to)) < startTs <= c.Ts(edge.to)
    ensures !UnbrokenWait(c, edge, startTs, c.Ts(edge.to))
    ensures Tiles(c.Resolve(edge, startTs, c.Ts(edge.to), path), a, c.Ts(edge.to))
       <==> path != [] && Last(path).tid == NETWORK_THREAD && Last(path).etype == c.InEdge(c.Waker(edge.to)).etype
  {
    hide WellFormed, Tiles, InsertSegment, Context.Resolve, Unbroken;
    HopIs(c, edge, startTs, c.Ts(edge.to), path);
    var sent := SentBy(c, edge.to);
    assert c.Query(Some(c.Waker(sent)), startTs, c.Ts(sent), c.Tid(c.Waker(sent)), path) == path;
    InsertEarlyTilesIff(path, Segment(c.Ts(sent), c.Ts(edge.to), c.Tid(sent), c.InEdge(c.Waker(edge.to)).etype), a,
                        startTs);
  }
}
