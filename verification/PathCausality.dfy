/**
  Why a path is critical: whatever it shows led, through the threads' own order, wake-ups and packets, to the moment
  that is being explained. Exactly the waits for packets that begin at that moment spoil this.
 */
module PathCausality {
  import opened Common
  import opened CriticalGraphs
  import opened PathSpec
  import opened PathCoverage
  import opened PathCoverageExact

  // ----- Chains of causes

  ghost predicate Wakes(c: Context, a: NodeId, b: NodeId) {
    exists e <- c.g.edges :: c.g.edges[e].etype.Vertical? && c.g.edges[e].from == a && c.g.edges[e].to == b
  }

  ghost predicate Links(c: Context, a: NodeId, b: NodeId) {
    exists e <- c.g.edges :: !c.g.edges[e].etype.Vertical? && c.g.edges[e].from == a && c.g.edges[e].to == b
  }

  /** No link leads to `first`. */
  ghost predicate Opens(c: Context, first: NodeId)
    requires c.Ok()
  {
    first in c.g.nodes && forall p <- c.g.nodes | c.g.nodes[p].tid == c.g.nodes[first].tid && c.g.nodes[p].outH.Some? ::
      c.OutEdge(p).to != first
  }

  /** `n` is the first wake-up along the links from where its thread, or a later part of it, begins. */
  ghost predicate FirstWakeUp(c: Context, n: NodeId)
    requires c.Ok() && n in c.g.nodes
  {
    exists first <- c.g.nodes :: Opens(c, first) && c.FirstWoken(first, c.Ts(n)) == Some(n)
  }

  /**
    The network woke a node, and a query does not ask with which packet: the packet's sending is not known, or the
    node is no end of a wait.
   */
  ghost predicate Untraced(c: Context, b: NodeId)
    requires c.Ok()
  {
    exists n <- c.g.nodes :: c.g.nodes[n].inV.Some? && c.Waker(n) == b
                             && (!EndedByPacket(c, n) || c.Tid(n) == NETWORK_THREAD || FirstWakeUp(c, n))
  }

  /**
    `a` wakes `b`, is linked to it, or comes no later on the same thread. What is on the network at once is not
    ordered: there only links count, except into a node of which a query does not ask what packet it was.
   */
  ghost predicate Step(c: Context, a: NodeId, b: NodeId)
    requires c.Ok()
  {
    && a in c.g.nodes && b in c.g.nodes
    && (|| Wakes(c, a, b) || Links(c, a, b)
        || (c.Tid(a) == c.Tid(b) && c.Ts(a) <= c.Ts(b) && (c.Tid(b) == NETWORK_THREAD ==> Untraced(c, b))))
  }

  ghost predicate Chain(c: Context, walk: seq<NodeId>)
    requires c.Ok()
  {
    && walk != [] && (forall i | 0 <= i < |walk| :: walk[i] in c.g.nodes)
    && forall i, j | 0 <= i < j < |walk| && j == i + 1 :: Step(c, walk[i], walk[j])
  }

  /** A chain leads from `n` to `goal`. */
  ghost predicate LeadsTo(c: Context, n: NodeId, goal: NodeId)
    requires c.Ok()
  {
    exists walk :: Chain(c, walk) && walk[0] == n && walk[|walk| - 1] == goal
  }

  lemma StepLeads(c: Context, a: NodeId, b: NodeId, goal: NodeId)
    requires c.Ok() && Step(c, a, b) && LeadsTo(c, b, goal)
    ensures LeadsTo(c, a, goal)
  {
    hide Step, Context.Ok;
    var walk :| Chain(c, walk) && walk[0] == b && walk[|walk| - 1] == goal;
    assert a in c.g.nodes by { StepFromNode(c, a, b); }
    assert Chain(c, [a] + walk);
  }

  lemma StepFromNode(c: Context, a: NodeId, b: NodeId)
    requires c.Ok() && Step(c, a, b)
    ensures a in c.g.nodes
  {
  }

  lemma OwnLeads(c: Context, n: NodeId)
    requires c.Ok() && n in c.g.nodes
    ensures LeadsTo(c, n, n)
  {
    hide Context.Ok;
    assert Chain(c, [n]);
  }

  lemma StepForward(c: Context, a: NodeId, b: NodeId)
    requires c.Ok() && Step(c, a, b)
    ensures a in c.g.nodes && b in c.g.nodes && c.Ts(a) <= c.Ts(b)
  {
    hide Graph.Threaded, Graph.StrictTimes, RankFollowsTime, Untraced;
    if Wakes(c, a, b) {
      var e :| e in c.g.edges && c.g.edges[e].etype.Vertical? && c.g.edges[e].from == a && c.g.edges[e].to == b;
      assert EdgeOk(c.g, c.rank, c.g.edges[e]);
    } else if Links(c, a, b) {
      var e :| e in c.g.edges && !c.g.edges[e].etype.Vertical? && c.g.edges[e].from == a && c.g.edges[e].to == b;
      assert EdgeOk(c.g, c.rank, c.g.edges[e]);
    }
  }

  lemma {:induction false} ChainForward(c: Context, walk: seq<NodeId>, i: nat)
    requires c.Ok() && Chain(c, walk) && i < |walk|
    ensures walk[0] in c.g.nodes && walk[i] in c.g.nodes && c.Ts(walk[0]) <= c.Ts(walk[i])
  {
    hide Context.Ok, Step;
    if i > 0 {
      ChainForward(c, walk, i - 1);
      StepForward(c, walk[i - 1], walk[i]);
    }
  }

  /** Chains go forward in time. */
  lemma LeadsForward(c: Context, n: NodeId, goal: NodeId)
    requires c.Ok() && LeadsTo(c, n, goal)
    ensures n in c.g.nodes && goal in c.g.nodes && c.Ts(n) <= c.Ts(goal)
  {
    hide Context.Ok, Step;
    var walk :| Chain(c, walk) && walk[0] == n && walk[|walk| - 1] == goal;
    ChainForward(c, walk, |walk| - 1);
  }

  /** The waker of a node leads where the node does. */
  lemma WakerLeads(c: Context, n: NodeId, goal: NodeId)
    requires c.Ok() && n in c.g.nodes && c.g.nodes[n].inV.Some? && LeadsTo(c, n, goal)
    ensures LeadsTo(c, c.Waker(n), goal)
  {
    c.g.SlotEdge(n, InVertical);
    hide Context.Ok, WellFormed, LeadsTo, Links, Untraced;
    assert Wakes(c, c.Waker(n), n);
    StepLeads(c, c.Waker(n), n, goal);
  }

  /** So does the node that is linked to it. */
  lemma LinkLeads(c: Context, n: NodeId, goal: NodeId)
    requires c.Ok() && n in c.g.nodes && c.g.nodes[n].inH.Some? && LeadsTo(c, n, goal)
    ensures LeadsTo(c, c.InEdge(n).from, goal)
  {
    c.g.SlotEdge(n, InHorizontal);
    hide Context.Ok, WellFormed, LeadsTo, Wakes, Untraced;
    assert Links(c, c.InEdge(n).from, n);
    StepLeads(c, c.InEdge(n).from, n, goal);
  }

  /** A query may be asked of the thread of `w`, up to `w`. */
  ghost predicate Asked(c: Context, w: NodeId)
    requires c.Ok()
  {
    w in c.g.nodes && (c.Tid(w) == NETWORK_THREAD ==> Untraced(c, w))
  }

  lemma NodeLeads(c: Context, n: NodeId, w: NodeId, goal: NodeId)
    requires c.Ok() && Asked(c, w) && LeadsTo(c, w, goal)
    requires n in c.g.nodes && c.Tid(n) == c.Tid(w) && c.Ts(n) <= c.Ts(w)
    ensures LeadsTo(c, n, goal)
  {
    hide Context.Ok, WellFormed, LeadsTo, Wakes, Links, Untraced;
    assert Step(c, n, w);
    StepLeads(c, n, w, goal);
  }

  // ----- Segments that led to a node

  /** Some node of the segment's thread, at or after the segment's end, led to `goal`. */
  ghost predicate Caused(c: Context, goal: NodeId, seg: Segment)
    requires c.Ok()
  {
    seg.etype.Epsilon? || exists n <- c.g.nodes :: c.Tid(n) == seg.tid && seg.endTs <= c.Ts(n) && LeadsTo(c, n, goal)
  }

  ghost predicate AllCaused(c: Context, goal: NodeId, path: Path)
    requires c.Ok()
  {
    forall i | 0 <= i < |path| :: Caused(c, goal, path[i])
  }

  lemma InsertKeepsCaused(c: Context, goal: NodeId, path: Path, seg: Segment)
    requires c.Ok() && AllCaused(c, goal, path) && Caused(c, goal, seg)
    ensures AllCaused(c, goal, InsertSegment(path, seg))
  {
    hide LeadsTo, Context.Ok, WellFormed;
  }

  lemma OwnIsCaused(c: Context, w: NodeId, goal: NodeId, seg: Segment)
    requires c.Ok() && LeadsTo(c, w, goal) && w in c.g.nodes && seg.tid == c.Tid(w) && seg.endTs <= c.Ts(w)
    ensures Caused(c, goal, seg)
  {
    hide LeadsTo, Context.Ok, WellFormed;
  }

  // ----- Wakers that wait for a packet

  /** A walk that starts at `s` comes to `w`: no gap of the thread is in between. */
  ghost predicate ReachedFrom(c: Context, w: NodeId, s: Timestamp)
    requires c.Ok() && w in c.g.nodes
  {
    && s < c.Ts(w)
    && forall p <- c.g.nodes | c.g.nodes[p].tid == c.g.nodes[w].tid && s <= c.g.nodes[p].ts < c.g.nodes[w].ts ::
         c.g.nodes[p].outH.Some?
  }

  /** A walk from `s` up to `w` goes on into a wait that begins there, and that a packet will end. */
  ghost predicate Overruns(c: Context, w: NodeId, s: Timestamp)
    requires c.Ok() && w in c.g.nodes
  {
    && ReachedFrom(c, w, s)
    && c.g.nodes[w].outH.Some? && Blocking(c.OutEdge(w).etype) && EndedByPacket(c, c.OutEdge(w).to)
  }

  ghost predicate Resumes(c: Context, w: NodeId)
    requires c.Ok() && w in c.g.nodes
  {
    c.Ts(w) > 0 ==> !Overruns(c, w, c.Ts(w) - 1)
  }

  /** No thread, when it wakes another, begins or goes on with a wait that a packet will end. */
  ghost predicate WakersResume(c: Context)
    requires c.Ok()
  {
    forall n <- c.g.nodes | c.g.nodes[n].inV.Some? :: Resumes(c, c.Waker(n))
  }

  lemma WakerDoesNotOverrun(c: Context, n: NodeId, s: Timestamp)
    requires c.Ok() && WakersResume(c) && n in c.g.nodes && c.g.nodes[n].inV.Some?
    ensures !Overruns(c, c.Waker(n), s)
  {
    hide Context.Ok, WellFormed, Overruns;
    OverrunsShort(c, c.Waker(n), s);
  }

  /** If a walk overruns at all, the shortest one does. */
  lemma OverrunsShort(c: Context, w: NodeId, s: Timestamp)
    requires c.Ok() && w in c.g.nodes
    ensures Overruns(c, w, s) ==> c.Ts(w) > 0 && Overruns(c, w, c.Ts(w) - 1)
  {
    hide Context.Ok, WellFormed, EndedByPacket;
  }

  /** `n` is where the walk starts, or is reached from there. */
  ghost predicate Along(c: Context, startTs: Timestamp, n: NodeId)
    requires c.Ok() && n in c.g.nodes
  {
    startTs < c.Ts(n) && c.Tid(n) != NETWORK_THREAD ==> ReachedFrom(c, n, startTs)
  }

  lemma AlongLink(c: Context, startTs: Timestamp, n: NodeId)
    requires c.Ok() && n in c.g.nodes && Along(c, startTs, n) && c.g.nodes[n].outH.Some?
    ensures c.OutEdge(n).to in c.g.nodes && Along(c, startTs, c.OutEdge(n).to)
  {
    c.OutEdgeOk(n);
    var to := c.OutEdge(n).to;
    hide Graph.Threaded, Graph.Resolved, RankFollowsTime, EdgesOk;
    if startTs < c.Ts(to) && c.Tid(to) != NETWORK_THREAD {
      forall p <- c.g.nodes | c.g.nodes[p].tid == c.g.nodes[to].tid && startTs <= c.g.nodes[p].ts < c.g.nodes[to].ts
        ensures c.g.nodes[p].outH.Some?
      {
        if c.g.nodes[p].ts == c.g.nodes[n].ts { c.g.OnlyOneAt(p, n); }
      }
    }
  }

  lemma AlongFirst(c: Context, startTs: Timestamp, tid: ThreadId)
    requires c.Ok() && c.g.Intersecting(startTs, tid).None? && c.g.StartingAfter(startTs, tid).Some?
    requires tid != NETWORK_THREAD
    ensures var first := c.g.StartingAfter(startTs, tid).value; Along(c, startTs, first) && Opens(c, first)
  {
    var first := c.g.StartingAfter(startTs, tid).value;
    c.g.IntersectingIsLast(startTs, tid);
    hide Graph.Threaded, Graph.Resolved, Graph.StrictTimes, RankFollowsTime, EdgesOk, Graph.Intersecting;
    forall p <- c.g.nodes | c.g.nodes[p].tid == tid && startTs <= c.g.nodes[p].ts < c.g.nodes[first].ts
      ensures c.g.nodes[p].outH.Some?
    {
      assert c.g.nodes[p].ts == startTs && c.g.LastUpTo(p, startTs, tid);
    }
    forall p <- c.g.nodes | c.g.nodes[p].tid == c.g.nodes[first].tid && c.g.nodes[p].outH.Some?
      ensures c.OutEdge(p).to != first
    {
      if c.OutEdge(p).to == first {
        c.OutEdgeOk(p);
        c.g.HorizontalEdge(p);
        NextIsLast(c, p, startTs, first);
        assert false;
      }
    }
  }

  /** A node linked to the first one after `startTs` is the last up to `startTs`. */
  lemma NextIsLast(c: Context, p: NodeId, startTs: Timestamp, first: NodeId)
    requires c.Ok() && first in c.g.nodes && p in c.g.nodes && c.g.nodes[p].outH.Some? && c.OutEdge(p).to == first
    requires startTs < c.Ts(first) && c.Tid(first) != NETWORK_THREAD
    requires forall m <- c.g.nodes | c.g.nodes[m].tid == c.Tid(first) && startTs < c.g.nodes[m].ts ::
               c.Ts(first) <= c.g.nodes[m].ts
    ensures c.g.LastUpTo(p, startTs, c.Tid(first))
  {
    c.OutEdgeOk(p);
    hide Graph.Threaded, Graph.Resolved, Graph.StrictTimes, RankFollowsTime, EdgesOk;
  }

  // ----- Sufficiency, by the measure of the query

  lemma {:induction false} QueryIsCausal(c: Context, w: NodeId, startTs: Timestamp, endTs: Timestamp, path: Path,
                                         goal: NodeId)
    requires c.Ok() && w in c.g.nodes && endTs <= c.Ts(w) <= c.horizon
    requires WakersResume(c) && (c.Ts(w) == endTs ==> !Overruns(c, w, startTs))
    requires Asked(c, w) && LeadsTo(c, w, goal) && AllCaused(c, goal, path)
    ensures AllCaused(c, goal, c.Query(Some(w), startTs, endTs, c.Tid(w), path))
    decreases c.horizon - startTs, false, c.WakerRank(Some(w)), 2, 0
  {
    hide Graph.Threaded, Graph.Resolved, Graph.StrictTimes, Graph.CoversFrom, RankFollowsTime, EdgesOk, WakersResume,
      Overruns, Asked, LeadsTo, AllCaused, Caused;
    if startTs < endTs {
      c.g.IntersectingIsLast(startTs, c.Tid(w));
      match c.g.Intersecting(startTs, c.Tid(w)) {
        case Some(n) => WalkIsCausal(c, w, startTs, endTs, n, path, goal);
        case None => QueryBeforeThreadIsCausal(c, w, startTs, endTs, path, goal);
      }
    }
  }

  lemma {:induction false} QueryBeforeThreadIsCausal(c: Context, w: NodeId, startTs: Timestamp, endTs: Timestamp,
                                                     path: Path, goal: NodeId)
    requires c.Ok() && w in c.g.nodes && startTs < endTs <= c.Ts(w) <= c.horizon
    requires c.g.Intersecting(startTs, c.Tid(w)).None?
    requires WakersResume(c) && (c.Ts(w) == endTs ==> !Overruns(c, w, startTs))
    requires Asked(c, w) && LeadsTo(c, w, goal) && AllCaused(c, goal, path)
    ensures AllCaused(c, goal, c.Query(Some(w), startTs, endTs, c.Tid(w), path))
    decreases c.horizon - startTs, false, c.WakerRank(Some(w)), 1, c.horizon + 1
  {
    hide Graph.Threaded, Graph.Resolved, Graph.StrictTimes, Graph.Intersecting, Graph.LastUpTo, RankFollowsTime,
      EdgesOk, WakersResume, Overruns, Asked, LeadsTo, AllCaused, Caused, Along, Opens, Context.FirstWoken,
      Context.Walk;
    var tid := c.Tid(w);
    var first := c.g.StartingAfter(startTs, tid).value;
    c.QueryBeforeThread(Some(w), startTs, endTs, tid, path);
    AlongAfter(c, startTs, tid, endTs);
    match c.FirstWoken(first, endTs) {
      case None =>
        var filler := Segment(startTs, c.Ts(first), tid, WaitBlocked);
        OwnIsCaused(c, w, goal, filler);
        InsertKeepsCaused(c, goal, path, filler);
        WalkIsCausal(c, w, startTs, endTs, first, InsertSegment(path, filler), goal);
      case Some(n) =>
        var u := c.Waker(n);
        c.RankBelowWaker(Some(w), endTs, tid, n);
        NodeLeads(c, n, w, goal);
        WakerLeads(c, n, goal);
        WakerDoesNotOverrun(c, n, startTs);
        FirstIsAsked(c, startTs, tid, endTs);
        QueryIsCausal(c, u, startTs, c.Ts(n), path, goal);
        WalkIsCausal(c, w, startTs, endTs, n, c.Query(Some(u), startTs, c.Ts(n), c.Tid(u), path), goal);
    }
  }

  /** Where a query goes on when its thread has no node or edge at its start. */
  lemma AlongAfter(c: Context, startTs: Timestamp, tid: ThreadId, endTs: Timestamp)
    requires c.Ok() && c.g.Intersecting(startTs, tid).None? && c.g.StartingAfter(startTs, tid).Some?
    ensures var first := c.g.StartingAfter(startTs, tid).value;
            && Along(c, startTs, first)
            && (c.FirstWoken(first, endTs).Some? ==> Along(c, startTs, c.FirstWoken(first, endTs).value))
  {
    hide Context.Ok, WellFormed, Graph.Threaded, Graph.Intersecting, ReachedFrom, Opens;
    c.OkIsThreaded();
    var first := c.g.StartingAfter(startTs, tid).value;
    if tid != NETWORK_THREAD { AlongFirst(c, startTs, tid); }
    AlongWoken(c, startTs, first, endTs);
  }

  lemma {:induction false} AlongWoken(c: Context, startTs: Timestamp, n: NodeId, endTs: Timestamp)
    requires c.Ok() && n in c.g.nodes && Along(c, startTs, n)
    ensures c.FirstWoken(n, endTs).Some? ==> Along(c, startTs, c.FirstWoken(n, endTs).value)
    decreases c.horizon - c.Ts(n)
  {
    hide WellFormed, ReachedFrom, Along;
    if c.Ts(n) <= endTs && c.g.nodes[n].inV.None? && c.g.nodes[n].outH.Some? {
      c.OutEdgeOk(n);
      AlongLink(c, startTs, n);
      AlongWoken(c, startTs, c.OutEdge(n).to, endTs);
    }
  }

  lemma {:induction false} WokenByItself(c: Context, n: NodeId, endTs: Timestamp)
    requires c.Ok() && n in c.g.nodes && c.FirstWoken(n, endTs).Some?
    ensures var z := c.FirstWoken(n, endTs).value; c.FirstWoken(n, c.Ts(z)) == Some(z)
    decreases c.horizon - c.Ts(n)
  {
    hide WellFormed;
    if c.g.nodes[n].inV.None? {
      c.OutEdgeOk(n);
      WokenByItself(c, c.OutEdge(n).to, endTs);
    }
  }

  lemma FirstIsAsked(c: Context, startTs: Timestamp, tid: ThreadId, endTs: Timestamp)
    requires c.Ok() && c.g.Intersecting(startTs, tid).None? && c.g.StartingAfter(startTs, tid).Some?
    requires c.FirstWoken(c.g.StartingAfter(startTs, tid).value, endTs).Some?
    ensures Asked(c, c.Waker(c.FirstWoken(c.g.StartingAfter(startTs, tid).value, endTs).value))
  {
    hide Context.Ok, WellFormed, Graph.Threaded, Graph.Intersecting, Along, Opens, EndedByPacket, Context.FirstWoken;
    c.OkIsThreaded();
    var first := c.g.StartingAfter(startTs, tid).value;
    var n := c.FirstWoken(first, endTs).value;
    if tid != NETWORK_THREAD {
      AlongFirst(c, startTs, tid);
      WokenByItself(c, first, endTs);
      assert FirstWakeUp(c, n);
    }
  }

  lemma {:induction false} WalkIsCausal(c: Context, w: NodeId, startTs: Timestamp, endTs: Timestamp, n: NodeId,
                                        path: Path, goal: NodeId)
    requires c.Ok() && w in c.g.nodes && startTs < endTs <= c.Ts(w) <= c.horizon
    requires c.WalkOk(startTs, c.Tid(w), n) && Along(c, startTs, n)
    requires WakersResume(c) && (c.Ts(w) == endTs ==> !Overruns(c, w, startTs))
    requires Asked(c, w) && LeadsTo(c, w, goal) && AllCaused(c, goal, path)
    ensures AllCaused(c, goal, c.Walk(Some(w), startTs, endTs, c.Tid(w), n, path))
    decreases c.horizon - startTs, false, c.WakerRank(Some(w)), 1, c.horizon - c.Ts(n)
  {
    hide Graph.Threaded, Graph.Resolved, Graph.StrictTimes, Graph.LastUpTo, RankFollowsTime, EdgesOk, WakersResume,
      Overruns, Asked, LeadsTo, AllCaused, Caused, Along;
    if c.g.nodes[n].outH.Some? && c.Ts(n) <= endTs {
      c.OutEdgeOk(n);
      c.StepMeasure(Some(w), startTs, endTs, c.Tid(w), n);
      AlongLink(c, startTs, n);
      var edge := c.OutEdge(n);
      var edgeStart, edgeEnd := Max(startTs, c.Ts(n)), Min(endTs, c.Ts(edge.to));
      var seg := Segment(edgeStart, edgeEnd, c.Tid(w), edge.etype);
      OwnIsCaused(c, w, goal, seg);
      if Blocking(edge.etype) {
        WaitLeads(c, w, startTs, endTs, goal, n);
        ResolveIsCausal(c, edge, edgeStart, edgeEnd, path, goal);
        WalkIsCausal(c, w, startTs, endTs, edge.to, c.Resolve(edge, edgeStart, edgeEnd, path), goal);
      } else if edgeStart != edgeEnd {
        InsertKeepsCaused(c, goal, path, seg);
        WalkIsCausal(c, w, startTs, endTs, edge.to, InsertSegment(path, seg), goal);
      } else {
        WalkIsCausal(c, w, startTs, endTs, edge.to, path, goal);
      }
    }
  }

  /** A wait that a walk meets ends no later than at `w`, or begins there and is ended by no packet. */
  lemma WaitLeads(c: Context, w: NodeId, startTs: Timestamp, endTs: Timestamp, goal: NodeId, n: NodeId)
    requires c.Ok() && Asked(c, w) && LeadsTo(c, w, goal) && startTs < endTs <= c.Ts(w)
    requires n in c.g.nodes && c.Tid(n) == c.Tid(w) && c.Ts(n) <= endTs && c.g.nodes[n].outH.Some?
    requires Along(c, startTs, n) && (c.Ts(w) == endTs ==> !Overruns(c, w, startTs))
    requires Blocking(c.OutEdge(n).etype) && c.OutEdge(n).to in c.g.nodes
    ensures var to := c.OutEdge(n).to;
            LeadsTo(c, to, goal) || (c.Ts(n) == endTs && !EndedByPacket(c, to))
  {
    var to := c.OutEdge(n).to;
    hide Context.Ok, WellFormed, LeadsTo, EndedByPacket, ReachedFrom;
    WaitIsOrdinary(c, n);
    if c.Ts(to) <= c.Ts(w) {
      NodeLeads(c, to, w, goal);
    } else {
      SameNode(c, n, w);
    }
  }

  lemma WaitIsOrdinary(c: Context, n: NodeId)
    requires c.Ok() && n in c.g.nodes && c.g.nodes[n].outH.Some? && Blocking(c.OutEdge(n).etype)
    ensures c.Tid(n) != NETWORK_THREAD && c.OutEdge(n).to in c.g.nodes && c.Tid(c.OutEdge(n).to) == c.Tid(n)
  {
    c.OutEdgeOk(n);
  }

  lemma SameNode(c: Context, n: NodeId, w: NodeId)
    requires c.Ok() && n in c.g.nodes && w in c.g.nodes && c.Tid(n) == c.Tid(w) && c.Ts(n) <= c.Ts(w)
    requires c.g.nodes[n].outH.Some? && Blocking(c.OutEdge(n).etype) && c.OutEdge(n).to in c.g.nodes
    requires c.Ts(w) < c.Ts(c.OutEdge(n).to)
    ensures n == w
  {
    c.OutEdgeOk(n);
  }

  lemma {:induction false} ResolveIsCausal(c: Context, edge: Edge, startTs: Timestamp, endTs: Timestamp, path: Path,
                                           goal: NodeId)
    requires c.Ok() && edge.to in c.g.nodes && startTs <= endTs <= c.horizon && endTs <= c.Ts(edge.to)
    requires WakersResume(c) && AllCaused(c, goal, path)
    requires Caused(c, goal, Segment(startTs, endTs, c.Tid(edge.to), edge.etype))
    requires LeadsTo(c, edge.to, goal) || (startTs == endTs && !EndedByPacket(c, edge.to))
    ensures AllCaused(c, goal, c.Resolve(edge, startTs, endTs, path))
    decreases c.horizon - startTs, false, c.rank[edge.to], 0, 0
  {
    hide Graph.Threaded, Graph.Resolved, Graph.StrictTimes, RankFollowsTime, EdgesOk, WakersResume, AllCaused, LeadsTo,
      Asked, Overruns;
    if c.g.nodes[edge.to].inV.None? {
      InsertKeepsCaused(c, goal, path, Segment(startTs, endTs, c.Tid(edge.to), edge.etype));
    } else if EndedByPacket(c, edge.to) {
      var w := c.Waker(edge.to);
      var sent := c.InEdge(w).from;
      WakerLeads(c, edge.to, goal);
      LinkLeads(c, w, goal);
      WakerLeads(c, sent, goal);
      SenderIsAsked(c, sent);
      WakerDoesNotOverrun(c, sent, startTs);
      QueryIsCausal(c, c.Waker(sent), startTs, c.Ts(sent), path, goal);
      var before := c.Query(Some(c.Waker(sent)), startTs, c.Ts(sent), c.Tid(c.Waker(sent)), path);
      InsertKeepsCaused(c, goal, before, Segment(c.Ts(sent), c.Ts(w), c.Tid(sent), c.InEdge(w).etype));
    } else {
      var w := c.Waker(edge.to);
      var mark := Segment(startTs, startTs, c.Tid(w), Epsilon);
      InsertKeepsCaused(c, goal, path, mark);
      if startTs < endTs {
        WakerLeads(c, edge.to, goal);
        UnknownIsAsked(c, edge.to);
        WakerDoesNotOverrun(c, edge.to, startTs);
        QueryIsCausal(c, w, startTs, endTs, InsertSegment(path, mark), goal);
      } else {
        assert c.Query(Some(w), startTs, endTs, c.Tid(w), InsertSegment(path, mark)) == InsertSegment(path, mark);
      }
    }
  }

  lemma UnknownIsAsked(c: Context, n: NodeId)
    requires c.Ok() && n in c.g.nodes && c.g.nodes[n].inV.Some? && !EndedByPacket(c, n)
    ensures Asked(c, c.Waker(n))
  {
    hide Context.Ok, WellFormed, EndedByPacket, FirstWakeUp;
  }

  lemma SenderIsAsked(c: Context, sent: NodeId)
    requires c.Ok() && sent in c.g.nodes && c.g.nodes[sent].inV.Some? && c.Tid(sent) == NETWORK_THREAD
    ensures Asked(c, c.Waker(sent))
  {
    hide Context.Ok, WellFormed, EndedByPacket, FirstWakeUp;
  }

  // ----- Necessity

  lemma {:induction false} WalkReaches(c: Context, waker: Option<NodeId>, startTs: Timestamp, w: NodeId, n: NodeId,
                                       path: Path) returns (at: Path)
    requires c.Ok() && w in c.g.nodes && c.Tid(w) != NETWORK_THREAD && ReachedFrom(c, w, startTs)
    requires c.Ts(w) <= c.horizon && c.WakerOk(waker, c.Ts(w), c.Tid(w))
    requires c.WalkOk(startTs, c.Tid(w), n) && c.Ts(n) <= c.Ts(w)
    requires c.Ts(n) < startTs ==> c.g.nodes[n].outH.Some?
    ensures c.WalkOk(startTs, c.Tid(w), w)
    ensures c.Walk(waker, startTs, c.Ts(w), c.Tid(w), n, path) == c.Walk(waker, startTs, c.Ts(w), c.Tid(w), w, at)
    decreases c.Ts(w) - c.Ts(n)
  {
    hide Graph.Threaded, Graph.Resolved, RankFollowsTime, EdgesOk, Graph.LastUpTo, Context.Walk;
    at := path;
    if c.Ts(n) == c.Ts(w) {
      c.g.OnlyOneAt(n, w);
    } else {
      c.OutEdgeOk(n);
      c.StepMeasure(waker, startTs, c.Ts(w), c.Tid(w), n);
      WalkSteps(c, waker, startTs, c.Ts(w), c.Tid(w), n, path);
      at := WalkReaches(c, waker, startTs, w, c.OutEdge(n).to, StepOf(c, startTs, c.Ts(w), c.Tid(w), n, path));
    }
  }

  lemma QueryReaches(c: Context, waker: Option<NodeId>, startTs: Timestamp, w: NodeId) returns (at: Path)
    requires c.Ok() && w in c.g.nodes && c.Tid(w) != NETWORK_THREAD && ReachedFrom(c, w, startTs)
    requires c.Ts(w) <= c.horizon && c.WakerOk(waker, c.Ts(w), c.Tid(w))
    ensures startTs < c.Ts(w) && c.WalkOk(startTs, c.Tid(w), w)
    ensures c.Query(waker, startTs, c.Ts(w), c.Tid(w), []) == c.Walk(waker, startTs, c.Ts(w), c.Tid(w), w, at)
  {
    var tid, endTs := c.Tid(w), c.Ts(w);
    c.g.IntersectingIsLast(startTs, tid);
    hide Graph.Threaded, Graph.Resolved, Graph.StrictTimes, Graph.Intersecting, Graph.LastUpTo, RankFollowsTime,
      EdgesOk, ReachedFrom, Context.FirstWoken, Context.Walk;
    match c.g.Intersecting(startTs, tid) {
      case Some(n) => at := WalkReaches(c, waker, startTs, w, n, []);
      case None =>
        var first := c.g.StartingAfter(startTs, tid).value;
        c.QueryBeforeThread(waker, startTs, endTs, tid, []);
        match c.FirstWoken(first, endTs) {
          case None =>
            at := WalkReaches(c, waker, startTs, w, first,
                              InsertSegment([], Segment(startTs, c.Ts(first), tid, WaitBlocked)));
          case Some(n) =>
            at := WalkReaches(c, waker, startTs, w, n,
                              c.Query(Some(c.Waker(n)), startTs, c.Ts(n), c.Tid(c.Waker(n)), []));
        }
    }
  }

  /** A window that ends where a wait for a packet begins is given the packet's way beyond it. */
  lemma OverrunIsShown(c: Context, waker: Option<NodeId>, startTs: Timestamp, w: NodeId)
    requires c.Ok() && w in c.g.nodes && Overruns(c, w, startTs)
    requires c.Ts(w) <= c.horizon && c.WakerOk(waker, c.Ts(w), c.Tid(w))
    ensures var path := c.Query(waker, startTs, c.Ts(w), c.Tid(w), []);
            && path != [] && !Last(path).etype.Epsilon? && Last(path).tid == NETWORK_THREAD
            && c.Ts(w) < Last(path).endTs
  {
    hide WellFormed, Context.Query, Context.Walk, Context.Resolve, EndedByPacket, ReachedFrom, Graph.LastUpTo;
    c.OutEdgeOk(w);
    var edge, tid, endTs := c.OutEdge(w), c.Tid(w), c.Ts(w);
    var at := QueryReaches(c, waker, startTs, w);
    WalkSteps(c, waker, startTs, endTs, tid, w, at);
    var path := c.Resolve(edge, endTs, endTs, at);
    assert StepOf(c, startTs, endTs, tid, w, at) == path;
    HopIs(c, edge, endTs, endTs, at);
    WalkEnds(c, waker, startTs, endTs, tid, edge.to, path);
    PacketEdge(c, edge.to);
  }

  lemma PacketEdge(c: Context, n: NodeId)
    requires c.Ok() && EndedByPacket(c, n)
    ensures !c.InEdge(c.Waker(n)).etype.Epsilon? && c.Tid(SentBy(c, n)) == NETWORK_THREAD
  {
    var received := c.Waker(n);
    c.g.SlotEdge(received, InHorizontal);
    assert EdgeOk(c.g, c.rank, c.InEdge(received));
  }

  /** Nothing that ends after a node led to it. */
  lemma LateIsNotCaused(c: Context, goal: NodeId, seg: Segment)
    requires c.Ok() && goal in c.g.nodes && !seg.etype.Epsilon? && c.Ts(goal) < seg.endTs
    ensures !Caused(c, goal, seg)
  {
    hide Context.Ok, WellFormed, LeadsTo;
    forall n <- c.g.nodes | LeadsTo(c, n, goal)
      ensures c.Ts(n) <= c.Ts(goal)
    {
      LeadsForward(c, n, goal);
    }
  }

  /** Everything that is shown of the time before `w` led to `w`, however early the window starts. */
  ghost predicate Explains(c: Context, w: NodeId)
    requires c.Ok() && w in c.g.nodes
  {
    forall s: nat | s < c.Ts(w) :: AllCaused(c, w, c.Query(Some(w), s, c.Ts(w), c.Tid(w), []))
  }

  lemma ResumingExplains(c: Context, n: NodeId)
    requires c.Ok() && WakersResume(c) && n in c.g.nodes && c.g.nodes[n].inV.Some?
    requires c.Tid(c.Waker(n)) != NETWORK_THREAD
    ensures Explains(c, c.Waker(n))
  {
    hide WellFormed, WakersResume, Overruns, LeadsTo, Caused, Context.Query;
    var w := c.Waker(n);
    OwnLeads(c, w);
    forall s: nat | s < c.Ts(w)
      ensures AllCaused(c, w, c.Query(Some(w), s, c.Ts(w), c.Tid(w), []))
    {
      WakerDoesNotOverrun(c, n, s);
      QueryIsCausal(c, w, s, c.Ts(w), [], w);
    }
  }

  lemma OverrunningDoesNotExplain(c: Context, w: NodeId)
    requires c.Ok() && w in c.g.nodes && !Resumes(c, w)
    ensures c.Tid(w) != NETWORK_THREAD && !Explains(c, w)
  {
    hide WellFormed, Overruns, Caused, Context.Query;
    var s := c.Ts(w) - 1;
    var path := c.Query(Some(w), s, c.Ts(w), c.Tid(w), []);
    OverrunIsOrdinary(c, w, s);
    OverrunIsShown(c, Some(w), s, w);
    LateIsNotCaused(c, w, Last(path));
    assert path[|path| - 1] == Last(path);
  }

  lemma OverrunIsOrdinary(c: Context, w: NodeId, s: Timestamp)
    requires c.Ok() && w in c.g.nodes && Overruns(c, w, s)
    ensures c.Tid(w) != NETWORK_THREAD
  {
    WaitIsOrdinary(c, w);
  }

  /**
    Causality, exactly: all that paths show of the time before threads wake others led to those wake-ups, if and only
    if no thread, when it wakes another, begins or goes on with a wait that a packet will end.
   */
  lemma WakersExplainIff(c: Context)
    requires c.Ok()
    ensures (forall n <- c.g.nodes | c.g.nodes[n].inV.Some? && c.Tid(c.Waker(n)) != NETWORK_THREAD ::
               Explains(c, c.Waker(n)))
       <==> WakersResume(c)
  {
    hide Context.Ok, WellFormed, Resumes, Explains;
    if WakersResume(c) {
      forall n <- c.g.nodes | c.g.nodes[n].inV.Some? && c.Tid(c.Waker(n)) != NETWORK_THREAD
        ensures Explains(c, c.Waker(n))
      {
        ResumingExplains(c, n);
      }
    } else {
      var n :| n in c.g.nodes && c.g.nodes[n].inV.Some? && !Resumes(c, c.Waker(n));
      OverrunningDoesNotExplain(c, c.Waker(n));
    }
  }

  // ----- Whole windows

  /** `b` is on the thread, no later than its first node at or after the window's end. */
  ghost predicate Bounded(c: Context, tid: ThreadId, endTs: Timestamp, b: NodeId) {
    && b in c.g.nodes && c.g.nodes[b].tid == tid
    && forall k <- c.g.nodes | c.g.nodes[k].tid == tid && endTs <= c.g.nodes[k].ts :: c.g.nodes[b].ts <= c.g.nodes[k].ts
  }

  /** The segment is the thread's own in the window, or led to what the thread did by the window's end. */
  ghost predicate Explained(c: Context, tid: ThreadId, endTs: Timestamp, seg: Segment)
    requires c.Ok()
  {
    (seg.tid == tid && seg.endTs <= endTs) || exists b :: Bounded(c, tid, endTs, b) && Caused(c, b, seg)
  }

  ghost predicate AllExplained(c: Context, tid: ThreadId, endTs: Timestamp, path: Path)
    requires c.Ok()
  {
    forall i | 0 <= i < |path| :: Explained(c, tid, endTs, path[i])
  }

  /** The window ends where its thread's walk goes on into a wait that a packet will end. */
  ghost predicate EndOverruns(c: Context, startTs: Timestamp, endTs: Timestamp, tid: ThreadId)
    requires c.Ok()
  {
    exists w <- c.g.nodes :: c.g.nodes[w].tid == tid && c.g.nodes[w].ts == endTs && Overruns(c, w, startTs)
  }

  lemma CausedIsExplained(c: Context, tid: ThreadId, endTs: Timestamp, b: NodeId, path: Path)
    requires c.Ok() && Bounded(c, tid, endTs, b) && AllCaused(c, b, path)
    ensures AllExplained(c, tid, endTs, path)
  {
    hide Context.Ok, WellFormed, Caused, Bounded;
  }

  /** A query's answer does not depend on what it is asked for. */
  lemma QueryAnyWaker(c: Context, w: NodeId, startTs: Timestamp, endTs: Timestamp, path: Path)
    requires c.Ok() && w in c.g.nodes && endTs <= c.Ts(w) <= c.horizon
    ensures c.Query(Some(w), startTs, endTs, c.Tid(w), path) == c.Query(None, startTs, endTs, c.Tid(w), path)
  {
    var tid := c.Tid(w);
    if startTs < endTs {
      c.g.IntersectingIsLast(startTs, tid);
      hide Graph.Threaded, Graph.Resolved, Graph.StrictTimes, Graph.Intersecting, Graph.LastUpTo, RankFollowsTime,
        EdgesOk, Context.FirstWoken, Context.Walk;
      match c.g.Intersecting(startTs, tid) {
        case Some(n) => WalkAnyWaker(c, w, startTs, endTs, n, path);
        case None =>
          c.QueryBeforeThread(Some(w), startTs, endTs, tid, path);
          c.QueryBeforeThread(None, startTs, endTs, tid, path);
          var first := c.g.StartingAfter(startTs, tid).value;
          match c.FirstWoken(first, endTs) {
            case None =>
              WalkAnyWaker(c, w, startTs, endTs, first,
                           InsertSegment(path, Segment(startTs, c.Ts(first), tid, WaitBlocked)));
            case Some(n) =>
              WalkAnyWaker(c, w, startTs, endTs, n,
                           c.Query(Some(c.Waker(n)), startTs, c.Ts(n), c.Tid(c.Waker(n)), path));
          }
      }
    }
  }

  lemma {:induction false} WalkAnyWaker(c: Context, w: NodeId, startTs: Timestamp, endTs: Timestamp, n: NodeId,
                                        path: Path)
    requires c.Ok() && w in c.g.nodes && startTs < endTs <= c.Ts(w) <= c.horizon && c.WalkOk(startTs, c.Tid(w), n)
    ensures c.Walk(Some(w), startTs, endTs, c.Tid(w), n, path) == c.Walk(None, startTs, endTs, c.Tid(w), n, path)
    decreases c.horizon - c.Ts(n)
  {
    hide WellFormed, Graph.LastUpTo, Context.Walk, Context.Resolve;
    if c.g.nodes[n].outH.None? || endTs < c.Ts(n) {
      WalkEnds(c, Some(w), startTs, endTs, c.Tid(w), n, path);
      WalkEnds(c, None, startTs, endTs, c.Tid(w), n, path);
    } else {
      c.OutEdgeOk(n);
      WalkSteps(c, Some(w), startTs, endTs, c.Tid(w), n, path);
      WalkSteps(c, None, startTs, endTs, c.Tid(w), n, path);
      WalkAnyWaker(c, w, startTs, endTs, c.OutEdge(n).to, StepOf(c, startTs, endTs, c.Tid(w), n, path));
    }
  }

  /** The first node of a thread at or after a time, if it has any there. */
  lemma FirstFrom(c: Context, tid: ThreadId, t: Timestamp) returns (w: NodeId)
    requires c.Ok() && !Silent(c, tid, t)
    ensures w in c.g.nodes && c.Tid(w) == tid && t <= c.Ts(w) && Bounded(c, tid, t, w)
  {
    hide Context.Ok, WellFormed, Graph.Threaded;
    c.OkIsThreaded();
    var m := NotSilent(c, tid, t);
    if k :| k in c.g.nodes && c.g.nodes[k].tid == tid && c.g.nodes[k].ts == t {
      w := k;
    } else {
      w := c.g.StartingAfter(t, tid).value;
    }
  }

  lemma WindowIsCausal(c: Context, startTs: Timestamp, endTs: Timestamp, tid: ThreadId)
    requires c.Ok() && endTs <= c.horizon && tid != NETWORK_THREAD && WakersResume(c)
    requires !Silent(c, tid, endTs) && !EndOverruns(c, startTs, endTs, tid)
    ensures AllExplained(c, tid, endTs, c.Query(None, startTs, endTs, tid, []))
  {
    hide WellFormed, WakersResume, Overruns, Silent, Bounded, LeadsTo, AllCaused, AllExplained, Context.Query;
    var w := FirstFrom(c, tid, endTs);
    OwnLeads(c, w);
    NoneCaused(c, w);
    QueryIsCausal(c, w, startTs, endTs, [], w);
    QueryAnyWaker(c, w, startTs, endTs, []);
    CausedIsExplained(c, tid, endTs, w, c.Query(None, startTs, endTs, tid, []));
  }

  lemma NoneCaused(c: Context, goal: NodeId)
    requires c.Ok()
    ensures AllCaused(c, goal, [])
  {
  }

  /** A window that outlasts its thread gets what led up to the thread's end, and the thread's own silence. */
  lemma SilentIsCausal(c: Context, startTs: Timestamp, endTs: Timestamp, tid: ThreadId)
    requires c.Ok() && startTs < endTs <= c.horizon && tid != NETWORK_THREAD && WakersResume(c)
    requires Silent(c, tid, endTs)
    ensures AllExplained(c, tid, endTs, c.Query(None, startTs, endTs, tid, []))
  {
    hide WellFormed, WakersResume, Overruns, Silent, LeadsTo, Caused, Context.Query;
    if Silent(c, tid, startTs) {
      SilentPath(c, startTs, endTs, tid);
    } else {
      var k := NotSilent(c, tid, startTs);
      var l := FindLast(c, tid, endTs, k);
      if startTs == c.Ts(l) {
        QueryFromLast(c, endTs, tid, l);
      } else {
        LastIsUnlinked(c, tid, l, endTs);
        LastIsBounded(c, tid, endTs, l);
        QuerySame(c, startTs, endTs, tid, l);
        OwnLeads(c, l);
        UnlinkedDoesNotOverrun(c, l, startTs);
        QueryIsCausal(c, l, startTs, c.Ts(l), [], l);
        QueryAnyWaker(c, l, startTs, c.Ts(l), []);
        CausedIsExplained(c, tid, endTs, l, c.Query(None, startTs, endTs, tid, []));
      }
    }
  }

  lemma UnlinkedDoesNotOverrun(c: Context, l: NodeId, s: Timestamp)
    requires c.Ok() && l in c.g.nodes && c.g.nodes[l].outH.None?
    ensures !Overruns(c, l, s)
  {
  }

  lemma LastIsBounded(c: Context, tid: ThreadId, endTs: Timestamp, l: NodeId)
    requires LastBefore(c, tid, l, endTs)
    ensures Bounded(c, tid, endTs, l)
  {
  }

  /**
    Where no waker waits for a packet, all that a path shows is its thread's own or led to what the thread did by the
    window's end, if and only if the thread does not itself begin, or go on with, a wait for a packet there.
   */
  lemma PathIsCausal(c: Context, startTs: Timestamp, endTs: Timestamp, tid: ThreadId)
    requires c.Ok() && endTs <= c.horizon && tid != NETWORK_THREAD && WakersResume(c)
    ensures AllExplained(c, tid, endTs, c.Query(None, startTs, endTs, tid, []))
       <==> !EndOverruns(c, startTs, endTs, tid)
  {
    hide Context.Ok, WellFormed, WakersResume, Silent, AllExplained, EndOverruns, Context.Query;
    if EndOverruns(c, startTs, endTs, tid) {
      OverrunIsNotExplained(c, startTs, endTs, tid);
    } else if endTs <= startTs {
      EmptyWindow(c, startTs, endTs, tid);
    } else if Silent(c, tid, endTs) {
      SilentIsCausal(c, startTs, endTs, tid);
    } else {
      WindowIsCausal(c, startTs, endTs, tid);
    }
  }

  lemma EmptyWindow(c: Context, startTs: Timestamp, endTs: Timestamp, tid: ThreadId)
    requires c.Ok() && endTs <= c.horizon && endTs <= startTs
    ensures c.Query(None, startTs, endTs, tid, []) == [] && AllExplained(c, tid, endTs, [])
  {
    hide WellFormed;
  }

  lemma OverrunIsNotExplained(c: Context, startTs: Timestamp, endTs: Timestamp, tid: ThreadId)
    requires c.Ok() && endTs <= c.horizon && tid != NETWORK_THREAD && EndOverruns(c, startTs, endTs, tid)
    ensures !AllExplained(c, tid, endTs, c.Query(None, startTs, endTs, tid, []))
  {
    hide WellFormed, Overruns, Caused, Context.Query;
    var w :| w in c.g.nodes && c.g.nodes[w].tid == tid && c.g.nodes[w].ts == endTs && Overruns(c, w, startTs);
    var path := c.Query(None, startTs, endTs, tid, []);
    OverrunIsShown(c, None, startTs, w);
    forall b | Bounded(c, tid, endTs, b)
      ensures !Caused(c, b, Last(path))
    {
      LateIsNotCaused(c, b, Last(path));
    }
    assert path[|path| - 1] == Last(path);
  }
}
