/** Turning a completed execution into metrics and samples: from its window to its critical path to call stacks. */
module BuildBlocks {
  import opened Common
  import opened CriticalGraphs
  import opened GraphStore
  import opened PathSpec
  import opened PathCoverage
  import opened PathCoverageExact
  import opened CriticalPaths
  import opened HashConsSpec
  import opened Executions
  import opened StackLogSpec
  import opened StackChargesSpec
  import opened StackCredits
  import opened ExtractStacks
  import opened ExtractMetrics

  /** No disk or CPU waits, run segments within the timelines of their threads, and identifiers for all cells. */
  ghost predicate MayBeSampled(x: StacksExtractor, path: Path)
    reads x, x.stacks, x.db
    requires x.Valid()
  {
    ExtractorKnows(x);
    var s := x.db.store;
    && (forall i | 0 <= i < |path| :: SegmentOk(path[i], x.stacks.stacks))
    && s.nextName + 2 * |path| < TWO_32
    && s.nextStack + PathCells(s, x.stacks.stacks, x.stacks.ts, path) < TWO_32
  }

  /**
    The execution's window is accounted for three times over. Where the query's way is unbroken, the mismatch report
    is raised exactly if the window may not end where it does; if it may, the segments of the path tile it and the
    samples grow by exactly its duration.
   */
  method SaveExecution(graph: CriticalGraph, ghost rank: map<NodeId, nat>, x: StacksExtractor, thread: ThreadId,
                       name: ThreadId -> string)
    returns (mismatch: bool, path: CriticalPath, ghost c: Context)
    requires x.Valid() && WellFormed(graph.State(), rank) && x.execution.startTs <= x.execution.endTs
    requires ContextOf(graph.State(), rank, x.execution.endTs).horizon < TWO_64
    requires MayBeSampled(x, ContextOf(graph.State(), rank, x.execution.endTs).Query(
                               None, x.execution.startTs, x.execution.endTs, thread, []))
    modifies x`concatenationCache, x.db`store, x.db`functionNamesCache, x.db`stacksCache
    modifies x.execution`samples, x.execution`metrics
    ensures x.Valid() && c == ContextOf(graph.State(), rank, x.execution.endTs) && fresh(path)
    ensures path.segments == c.Query(None, x.execution.startTs, x.execution.endTs, thread, [])
    ensures var s := old(x.db.store);
            && x.db.store.Consistent() && AllContiguous(x.stacks.stacks)
            && var charges := PathCharges(s, x.stacks.stacks, [], path.segments, name);
               && AllInterned(x.db.store, charges)
               && x.execution.samples == Charged(x.db.store, old(x.execution.samples), charges)
    ensures Sum(x.execution.samples) == Sum(old(x.execution.samples)) + AccountedTime(path.segments)
    ensures mismatch <==> x.execution.endTs - x.execution.startTs != AccountedTime(path.segments) % TWO_64
    ensures var start, end := x.execution.startTs, x.execution.endTs;
            thread != NETWORK_THREAD && Unbroken(c, None, start, end, thread) ==>
              && (mismatch <==> !MayBeTiled(c, start, end, thread))
              && (!mismatch ==> Tiles(path.segments, start, end) && Faithful(c, path.segments)
                                && Sum(x.execution.samples) == Sum(old(x.execution.samples)) + (end - start))
  {
    hide Context.Ok, WellFormed, Unbroken, MayBeTiled, Tiles, Faithful, Context.Query, Sum, AccountedTime,
      SegmentOk, PathCells, Store.Consistent, Store.Extends, StacksExtractor.Valid, TimelinesOk,
      PathCharges, AllInterned, Charged, AllContiguous;
    path := new CriticalPath();
    var start, end := x.execution.startTs, x.execution.endTs;
    c := ComputeCriticalPath(graph, rank, start, end, thread, path);
    ExtractorKnows(x);
    NothingBelow(x.db.store);
    x.ExtractStacks(path.segments, EMPTY_STACK, name);
    mismatch := ExtractTimingMetrics(path.segments, x.execution);
    DurationIs(start, end);
    if thread != NETWORK_THREAD && Unbroken(c, None, start, end, thread) {
      WindowIsTiledIff(c, start, end, thread);
      if !mismatch { TiledPathTime(c, path.segments, start, end); }
    }
  }

  lemma NothingBelow(s: Store)
    ensures SymbolsOf(s, EMPTY_STACK) == []
  {
  }

  lemma TiledPathTime(c: Context, path: Path, start: Timestamp, end: Timestamp)
    requires c.Ok() && Tiles(path, start, end) && Faithful(c, path) && end < TWO_64
    ensures AccountedTime(path) == end - start
  {
    TiledTime(c, path, start, end);
  }
}
