/** Critical paths of a graph after everything before a cut has been removed from it. */
module GraphCleanupPaths {
  import opened Common
  import opened CriticalGraphs
  import opened PathSpec
  import opened PathCoverage
  import opened PathCoverageExact
  import opened GraphCleanupSpec

  /** `h` has some of the nodes and edges of `g`, and the slots that name those. */
  ghost predicate PartOf(h: Graph, g: Graph) {
    && (forall n <- h.nodes :: n in g.nodes && h.nodes[n].ts == g.nodes[n].ts && h.nodes[n].tid == g.nodes[n].tid)
    && (forall e <- h.edges :: e in g.edges && h.edges[e] == g.edges[e])
  }

  lemma TrimIsPart(g: Graph, cut: Timestamp)
    requires g.Threaded()
    ensures PartOf(Trim(g, cut), g)
    ensures forall n <- Trim(g, cut).nodes :: cut <= g.nodes[n].ts
    ensures forall n <- g.nodes | cut <= g.nodes[n].ts :: n in Trim(g, cut).nodes
  {
    hide Graph.Threaded;
  }

  /** A kept node keeps the edges to and from kept nodes, and gets no others. */
  lemma SlotAfterTrim(g: Graph, cut: Timestamp, n: NodeId, p: Position)
    requires g.Threaded() && n in g.nodes && cut <= g.nodes[n].ts
    ensures n in Trim(g, cut).nodes
    ensures Trim(g, cut).nodes[n].Slot(p) == Keep(g.nodes[n].Slot(p), Alive(g, Early(g, cut)))
  {
    hide Graph.Threaded, Alive, Early;
  }

  /** A link from a kept node leads to a later one, so it is kept. */
  lemma LinkIsKept(g: Graph, cut: Timestamp, n: NodeId)
    requires g.Threaded() && n in g.nodes && cut <= g.nodes[n].ts
    requires g.nodes[n].outH.Some? ==>
               && g.nodes[n].outH.value in g.edges
               && var edge := g.edges[g.nodes[n].outH.value];
                  edge.from == n && edge.to in g.nodes && g.nodes[n].ts <= g.nodes[edge.to].ts
    ensures n in Trim(g, cut).nodes && Trim(g, cut).nodes[n].outH == g.nodes[n].outH
  {
    hide Graph.Threaded, Trim;
    SlotAfterTrim(g, cut, n, OutHorizontal);
    assert g.nodes[n].Slot(OutHorizontal) == g.nodes[n].outH;
  }

  lemma WakeUpWasThere(g: Graph, cut: Timestamp, n: NodeId)
    requires g.Threaded() && n in Trim(g, cut).nodes && Trim(g, cut).nodes[n].inV.Some?
    ensures n in g.nodes && g.nodes[n].inV == Trim(g, cut).nodes[n].inV
  {
    hide Graph.Threaded, Alive, Early;
  }

  lemma PartIsStrict(h: Graph, g: Graph, rank: map<NodeId, nat>)
    requires PartOf(h, g) && g.StrictTimes() && g.nodes.Keys <= rank.Keys && RankFollowsTime(g, rank)
    ensures h.StrictTimes() && h.nodes.Keys <= rank.Keys && RankFollowsTime(h, rank)
  {
    assert h.nodes.Keys <= g.nodes.Keys;
  }

  lemma PartEdgeOk(h: Graph, g: Graph, rank: map<NodeId, nat>, edge: Edge)
    requires PartOf(h, g) && g.nodes.Keys <= rank.Keys && h.nodes.Keys <= rank.Keys
    requires edge.from in h.nodes && edge.to in h.nodes && edge.from in g.nodes && edge.to in g.nodes
    requires EdgeOk(g, rank, edge)
    ensures EdgeOk(h, rank, edge)
  {
  }

  /** A well-formed graph is well-formed after a cleanup, so queries on it end. */
  lemma TrimIsWellFormed(g: Graph, rank: map<NodeId, nat>, cut: Timestamp)
    requires WellFormed(g, rank) && Agrees(g)
    ensures WellFormed(Trim(g, cut), rank)
  {
    var h := Trim(g, cut);
    TrimIsPart(g, cut);
    TrimAgrees(g, cut);
    TrimThreaded(g, cut);
    PartIsStrict(h, g, rank);
    hide Graph.Threaded, Graph.StrictTimes, RankFollowsTime, Trim, EdgeOk;
    forall e <- h.edges
      ensures EdgeOk(h, rank, h.edges[e])
    {
      assert EdgeOk(g, rank, g.edges[e]);
      PartEdgeOk(h, g, rank, h.edges[e]);
    }
  }

  /** The context of the cleaned graph. */
  function Cleaned(c: Context, cut: Timestamp): Context
    requires c.g.Threaded()
  {
    c.(g := Trim(c.g, cut))
  }

  lemma CleanedIsOk(c: Context, cut: Timestamp)
    requires c.Ok() && Agrees(c.g)
    ensures Cleaned(c, cut).Ok()
  {
    TrimIsWellFormed(c.g, c.rank, cut);
    TrimIsPart(c.g, cut);
    hide WellFormed, Trim;
  }

  lemma OutEdgeIsKept(c: Context, cut: Timestamp, n: NodeId)
    requires c.Ok() && c.g.Threaded() && n in c.g.nodes && cut <= c.Ts(n)
    ensures n in Trim(c.g, cut).nodes && Trim(c.g, cut).nodes[n].outH == c.g.nodes[n].outH
  {
    hide Context.Ok, Graph.Threaded, WellFormed, Trim, EdgeOk;
    if c.g.nodes[n].outH.Some? { c.OutEdgeOk(n); }
    LinkIsKept(c.g, cut, n);
  }

  /** What is left has no gaps but those after the cut. */
  lemma CleanedIsGapless(c: Context, cut: Timestamp, a: Timestamp, b: Timestamp)
    requires c.Ok() && c.g.Threaded() && GaplessIn(c.g, Max(a, cut), b)
    ensures GaplessIn(Trim(c.g, cut), a, b)
  {
    hide Context.Ok, Graph.Threaded, WellFormed, Trim;
    TrimIsPart(c.g, cut);
    var h := Trim(c.g, cut);
    forall n <- h.nodes, m <- h.nodes |
        && h.nodes[n].tid == h.nodes[m].tid != NETWORK_THREAD && h.nodes[n].ts < h.nodes[m].ts
        && h.nodes[n].ts < b && a < h.nodes[m].ts
      ensures h.nodes[n].outH.Some?
    {
      OutEdgeIsKept(c, cut, n);
    }
  }

  lemma WakerIsKept(c: Context, cut: Timestamp, n: NodeId)
    requires c.Ok() && c.g.Threaded() && Cleaned(c, cut).Ok() && n in Trim(c.g, cut).nodes
    requires Trim(c.g, cut).nodes[n].inV.Some?
    ensures n in c.g.nodes && c.g.nodes[n].inV == Trim(c.g, cut).nodes[n].inV
    ensures Cleaned(c, cut).Waker(n) == c.Waker(n)
  {
    hide Context.Ok, Graph.Threaded, WellFormed, Trim;
    TrimIsPart(c.g, cut);
    WakeUpWasThere(c.g, cut, n);
    var w, v := Cleaned(c, cut).Waker(n), c.Waker(n);
  }

  lemma CleanedMeets(c: Context, cut: Timestamp, n: NodeId, a: Timestamp, b: Timestamp)
    requires c.Ok() && c.g.Threaded() && Cleaned(c, cut).Ok() && n in Trim(c.g, cut).nodes && n in c.g.nodes
    requires Met(Cleaned(c, cut), n, a, b)
    ensures Met(c, n, a, b)
  {
    hide Context.Ok, Graph.Threaded, WellFormed, Trim;
    TrimIsPart(c.g, cut);
    var d := Cleaned(c, cut);
    if b < d.Ts(n) {
      var m :| EndsWaitOf(d, m, n) && d.Ts(m) <= b;
      WaitWasThere(c, cut, m, n);
      assert EndsWaitOf(c, m, n) && c.Ts(m) <= b;
    }
  }

  lemma WaitWasThere(c: Context, cut: Timestamp, m: NodeId, n: NodeId)
    requires c.Ok() && c.g.Threaded() && Cleaned(c, cut).Ok() && EndsWaitOf(Cleaned(c, cut), m, n)
    ensures EndsWaitOf(c, m, n) && c.Ts(m) == Cleaned(c, cut).Ts(m)
  {
    hide Context.Ok, Graph.Threaded, WellFormed, Trim;
    TrimIsPart(c.g, cut);
    OutEdgeIsKept(c, cut, m);
    var e, f := Cleaned(c, cut).OutEdge(m), c.OutEdge(m);
  }

  lemma CleanedHasNoNetworkWakeUps(c: Context, cut: Timestamp, a: Timestamp, b: Timestamp)
    requires c.Ok() && c.g.Threaded() && NoNetworkIn(c, a, b) && Cleaned(c, cut).Ok()
    ensures NoNetworkIn(Cleaned(c, cut), a, b)
  {
    hide Context.Ok, Graph.Threaded, WellFormed, Trim, Context.Waker, Met;
    TrimIsPart(c.g, cut);
    var d := Cleaned(c, cut);
    forall n <- d.g.nodes | d.g.nodes[n].inV.Some? && Met(d, n, a, b)
      ensures d.Tid(d.Waker(n)) != NETWORK_THREAD
    {
      WakerIsKept(c, cut, n);
      CleanedMeets(c, cut, n, a, b);
    }
  }

  /**
    Coverage survives cleanup: where the query's way is unbroken on what is left, its path is faithful there, and
    tiles the window exactly if the window may end there. It is unbroken where no gap after the cut and no packet's
    wake-up met the window before the cleanup.
   */
  lemma CleanedPathsCover(c: Context, cut: Timestamp, startTs: Timestamp, endTs: Timestamp, tid: ThreadId)
    requires c.Ok() && Agrees(c.g) && startTs <= endTs <= c.horizon && tid != NETWORK_THREAD
    ensures var d := Cleaned(c, cut);
            && d.Ok()
            && (GaplessIn(c.g, Max(startTs, cut), endTs) && NoNetworkIn(c, startTs, endTs) ==>
                  Unbroken(d, None, startTs, endTs, tid))
            && (Unbroken(d, None, startTs, endTs, tid) ==>
                  var path := d.Query(None, startTs, endTs, tid, []);
                  Faithful(d, path) && (Tiles(path, startTs, endTs) <==> MayBeTiled(d, startTs, endTs, tid)))
  {
    hide Context.Ok, Agrees, GaplessIn, NoNetworkIn, Unbroken, MayBeTiled, Trim, Tiles, Faithful, Context.Query,
      AccountedTime;
    c.OkIsThreaded();
    CleanedIsOk(c, cut);
    var d := Cleaned(c, cut);
    if GaplessIn(c.g, Max(startTs, cut), endTs) && NoNetworkIn(c, startTs, endTs) {
      CleanedIsGapless(c, cut, startTs, endTs);
      CleanedHasNoNetworkWakeUps(c, cut, startTs, endTs);
      MetIsUnbroken(d, None, startTs, endTs, tid);
    }
    if Unbroken(d, None, startTs, endTs, tid) {
      WindowIsTiledIff(d, startTs, endTs, tid);
    }
  }

  /** From a thread's first kept node on, cleanup changes no instant's type. */
  lemma CleanedTypesAgree(c: Context, cut: Timestamp, n: NodeId, tid: ThreadId, t: Timestamp)
    requires c.Ok() && c.g.Threaded() && Cleaned(c, cut).Ok() && n in c.g.nodes && cut <= c.Ts(n)
    ensures CoveredBy(c, n, tid, t) <==> CoveredBy(Cleaned(c, cut), n, tid, t)
    ensures CoveredBy(c, n, tid, t) ==> Cleaned(c, cut).OutEdge(n) == c.OutEdge(n)
  {
    hide Context.Ok, Graph.Threaded, WellFormed, Trim;
    TrimIsPart(c.g, cut);
    OutEdgeIsKept(c, cut, n);
    var d := Cleaned(c, cut);
    if c.g.nodes[n].outH.Some? {
      c.OutEdgeOk(n);
      d.OutEdgeOk(n);
      assert d.OutEdge(n) == c.OutEdge(n);
    }
  }
}
