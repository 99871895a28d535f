/** Turning the run segments of a critical path into samples of full call stacks. */
module ExtractStacks {
  import opened Common
  import opened HashConsSpec
  import opened StackTimelineSpec
  import opened StackLogSpec
  import opened Databases
  import opened StacksBuilders
  import opened Executions
  import opened CriticalGraphs
  import opened PathSpec
  import opened ExtractMetrics
  import opened StackChargesSpec
  import PathCoverage
  import opened StackCredits

  class StacksExtractor {
    const stacks: StacksBuilder
    const db: Database
    const execution: Execution
    var concatenationCache: Cache

    ghost predicate Valid()
      reads this, stacks, db
    {
      stacks.db == db && stacks.Valid() && CacheOk(db.store, concatenationCache)
    }

    constructor (stacks: StacksBuilder, execution: Execution)
      requires stacks.Valid()
      ensures Valid() && this.stacks == stacks && db == stacks.db && this.execution == execution
    {
      this.stacks, this.db, this.execution := stacks, stacks.db, execution;
      concatenationCache := map[];
    }

    method PushOnStack(bottom: StackId, callee: string) returns (id: StackId)
      requires Valid() && db.store.IsStack(bottom) && db.store.Room(1)
      modifies db`store, db`functionNamesCache, db`stacksCache
      ensures Valid() && (db.store, id) == PushName(old(db.store), bottom, callee)
      ensures old(db.store).Extends(db.store) && db.store.IsStack(id)
      ensures db.store.nextStack <= old(db.store).nextStack + 1 && db.store.nextName <= old(db.store).nextName + 1
    {
      hide Store.Consistent, Store.Extends, Store.AddName, Store.AddStack, CacheOk, TimelineOk;
      AddNameConsistent(db.store, callee);
      PushNameRoom(db.store, bottom, callee);
      ghost var before := db.store;
      var f := db.AddFunctionName(callee);
      ghost var named := db.store;
      AddStackConsistent(db.store, Stack(f, bottom));
      id := db.AddStack(Stack(f, bottom));
      ExtendsTransitive(before, named, db.store);
      CacheKept(before, db.store, concatenationCache);
      TimelinesKept(before, db.store, stacks.stacks, stacks.ts);
    }

    /** The functions of a stack, bottom first, walked from its top. */
    method FunctionsOf(top: StackId) returns (functions: seq<FunctionId>)
      requires db.Valid() && db.store.IsStack(top)
      modifies db`stacksCache
      ensures db.Valid() && functions == db.store.Functions(top)
    {
      functions := [];
      var rest := top;
      while rest != EMPTY_STACK
        invariant db.Valid() && db.store.IsStack(rest)
        invariant db.store.Functions(rest) + functions == db.store.Functions(top)
        decreases rest
      {
        var step := db.GetStack(rest);
        functions := [step.value.callee] + functions;
        rest := step.value.bottom;
      }
    }

    /** Puts one stack on another; remembered answers are the ones that would be computed. */
    method ConcatenateStacks(bottom: StackId, top: StackId) returns (id: StackId)
      requires Valid() && db.store.IsStack(bottom) && db.store.IsStack(top)
      requires db.store.nextStack + |db.store.Functions(top)| < TWO_32
      modifies this`concatenationCache, db`store, db`stacksCache
      ensures Valid() && (db.store, id) == Concat(old(db.store), bottom, top)
      ensures old(db.store).Extends(db.store) && db.store.IsStack(id)
      ensures db.store.Functions(id) == old(db.store.Functions(bottom) + db.store.Functions(top))
      ensures db.store.nextStack <= old(db.store.nextStack + |db.store.Functions(top)|)
      ensures db.store.nextName == old(db.store).nextName
    {
      hide Store.Consistent, Store.Extends, Store.AddStack, Store.Functions, Store.Push, TimelineOk, CacheOk;
      ghost var s, cache := db.store, concatenationCache;
      PushAppends(s, bottom, s.Functions(top));
      if top == EMPTY_STACK {
        ConcatUnit(s, bottom);
        ExtendsSelf(s);
        return bottom;
      }
      var key := (bottom, top);
      if key in concatenationCache {
        CacheNeverChangesAnswer(s, concatenationCache, bottom, top);
        return concatenationCache[key];
      }
      var functions := FunctionsOf(top);
      id := PushFunctions(bottom, functions);
      CacheKept(s, db.store, cache);
      FunctionsKept(s, db.store, bottom);
      FunctionsKept(s, db.store, top);
      TimelinesKept(s, db.store, stacks.stacks, stacks.ts);
      concatenationCache := concatenationCache[key := id];
      CacheExtended(db.store, cache, bottom, top, id);
    }

    /** Pushes functions, bottom first, cell by cell. */
    method PushFunctions(bottom: StackId, functions: seq<FunctionId>) returns (id: StackId)
      requires db.Valid() && db.store.IsStack(bottom) && db.store.nextStack + |functions| < TWO_32
      modifies db`store, db`stacksCache
      ensures db.Valid() && (db.store, id) == old(db.store).Push(bottom, functions)
    {
      hide Store.Consistent, Store.Extends, Store.AddStack, Store.Functions;
      ghost var result := db.store.Push(bottom, functions);
      id := bottom;
      var i := 0;
      assert functions[0..] == functions;
      while i < |functions|
        invariant 0 <= i <= |functions| && db.Valid() && db.store.IsStack(id)
        invariant db.store.Push(id, functions[i..]) == result
        invariant db.store.nextStack + (|functions| - i) < TWO_32
      {
        AddStackConsistent(db.store, Stack(functions[i], id));
        assert functions[i..][0] == functions[i] && functions[i..][1..] == functions[i + 1..];
        id := db.AddStack(Stack(functions[i], id));
        i := i + 1;
      }
    }

    /** Credits one sample of a thread to its stack on top of the thread's clean stack. */
    method SampleCallback(stackId: StackId, value: nat, cleanStack: StackId)
      requires Valid() && db.store.IsStack(cleanStack) && db.store.IsStack(stackId)
      requires db.store.nextStack + |db.store.Functions(stackId)| < TWO_32
      modifies this`concatenationCache, db`store, db`stacksCache, execution`samples
      ensures Valid() && old(db.store).Extends(db.store)
      ensures var (t, id) := Concat(old(db.store), cleanStack, stackId);
              db.store == t && execution.samples == Increment(old(execution.samples), id, value)
    {
      hide Store.Consistent, Store.Extends, Store.AddStack, Store.Functions, TimelineOk, CacheOk;
      var id := ConcatenateStacks(cleanStack, stackId);
      execution.IncrementSample(id, value);
    }

    /** Credits the samples of an enumeration in order; returns the time they account for. */
    method CreditCalls(calls: seq<Sample>, cleanStack: StackId) returns (total: nat)
      requires Valid() && CallsOk(db.store, cleanStack, calls)
      requires db.store.nextStack + CellsNeeded(db.store, calls) < TWO_32
      modifies this`concatenationCache, db`store, db`stacksCache, execution`samples
      ensures Valid() && total == Total(calls)
      ensures (db.store, execution.samples) == Credit(old(db.store), old(execution.samples), cleanStack, calls)
    {
      hide Store.Consistent, Store.Extends, Store.AddStack, Store.Functions, CacheOk, Concat, TimelineOk;
      ghost var s, m := db.store, execution.samples;
      total := 0;
      var i := 0;
      assert calls[0..] == calls;
      while i < |calls|
        invariant 0 <= i <= |calls| && Valid()
        invariant CallsOk(db.store, cleanStack, calls[i..])
        invariant db.store.nextStack + CellsNeeded(db.store, calls[i..]) < TWO_32
        invariant Credit(db.store, execution.samples, cleanStack, calls[i..]) == Credit(s, m, cleanStack, calls)
        invariant total + Total(calls[i..]) == Total(calls)
      {
        assert calls[i..][0] == calls[i] && calls[i..][1..] == calls[i + 1..];
        CallsKept(db.store, cleanStack, calls[i..]);
        SampleCallback(calls[i].stackId, calls[i].duration, cleanStack);
        total := total + calls[i].duration;
        i := i + 1;
      }
    }

    /** Samples a run segment; the samples of the execution grow by exactly its duration. */
    method AddRunSegment(thread: ThreadId, start: Timestamp, end: Timestamp, cleanStack: StackId)
      requires Valid() && db.store.IsStack(cleanStack) && start <= end < TWO_64
      requires var tl := TimelineOf(stacks.stacks, thread); tl != [] ==> end <= EndOf(tl)
      requires db.store.nextName + 1 < TWO_32
      requires RoomFor(db.store, TimelineOf(stacks.stacks, thread), start, end)
      modifies this`concatenationCache, db`store, db`functionNamesCache, db`stacksCache, execution`samples
      ensures Valid() && old(db.store).Extends(db.store)
      ensures Sum(execution.samples) == Sum(old(execution.samples)) + (end - start)
      ensures db.store.nextName <= old(db.store).nextName + 1
      ensures var s, calls := old(db.store), Enumerate(TimelineOf(stacks.stacks, thread), start, end);
              && CallsOk(s, cleanStack, calls) && s.nextStack + CellsNeeded(s, calls) + 1 < TWO_32
              && db.store.nextStack <= s.nextStack + CellsNeeded(s, calls) + 1
              && (db.store, execution.samples)
                 == RunCredit(s, old(execution.samples), cleanStack, calls, end - start)
    {
      hide Store.Consistent, Store.Extends, Store.AddStack, Store.Functions, CacheOk, Sum, Credit, Contiguous,
        TimelineOk, TimelinesOk, PushName, CellsNeeded, Enumerate, TimelineOf, StacksExtractor.Valid,
        StacksBuilder.Valid;
      ExtractorKnows(this);
      ghost var s, m := db.store, execution.samples;
      var segmentDuration := end - start;
      ExtendsSelf(s);
      var calls := stacks.EnumerateStacks(thread, start, end);
      KnownAreContiguous(db.store, stacks.stacks, stacks.ts);
      EnumeratedIs(stacks.stacks, thread, start, end, calls);
      TimelineIsKnown(db.store, stacks.stacks, stacks.ts, thread);
      SampledStacksKnown(db.store, TimelineOf(stacks.stacks, thread), stacks.ts, start, end);
      RunSegmentIsAccounted(TimelineOf(stacks.stacks, thread), start, end);
      CreditAdds(s, m, cleanStack, calls);
      var total := CreditCalls(calls, cleanStack);
      if total < segmentDuration {
        ghost var before := db.store;
        var noStack := PushOnStack(cleanStack, "No stack");
        ExtendsTransitive(s, before, db.store);
        IncrementAdds(execution.samples, noStack, segmentDuration - total);
        execution.IncrementSample(noStack, segmentDuration - total);
      }
    }

    /** Recomputes the full stack of the top thread, from its own stack at a time. */
    method FillStack(threads: seq<ThreadInfo>, tid: ThreadId, t: Timestamp) returns (r: seq<ThreadInfo>)
      requires Valid() && TimelinesOk(db.store, stacks.stacks, stacks.ts)
      requires threads != [] && ThreadsKnown(db.store, threads) && ThreadsDiffer(threads)
      requires db.store.nextStack + Height(db.store, stacks.stacks, stacks.ts, tid, t) < TWO_32
      modifies this`concatenationCache, db`store, db`stacksCache
      ensures Valid() && old(db.store).Extends(db.store) && ThreadsKnown(db.store, r) && ThreadsDiffer(r)
      ensures old(db.store).IsStack(StackAt(stacks.stacks, tid, t))
      ensures (db.store, r) == Filled(old(db.store), threads, StackAt(stacks.stacks, tid, t))
      ensures |r| == |threads| && r[|r| - 1].tid == threads[|r| - 1].tid
      ensures db.store.nextStack <= old(db.store.nextStack + Height(db.store, stacks.stacks, stacks.ts, tid, t))
      ensures db.store.nextName == old(db.store).nextName
    {
      hide Store.Consistent, Store.Extends, Store.Functions, CacheOk, TimelineOk, Concat, LinearScan;
      StackAtIsKnown(db.store, stacks.stacks, stacks.ts, tid, t);
      FilledMeans(db.store, threads, StackAt(stacks.stacks, tid, t));
      var n := |threads| - 1;
      var id := ConcatenateStacks(threads[n].cleanStack, stacks.GetStack(tid, t));
      r := threads[n := threads[n].(stack := id)];
    }

    /** Brings the thread of a segment to the top of the stack of threads. */
    method EnsureCurrentThreadIsOnThreadsStack(seg: Segment, base: StackId, threads: seq<ThreadInfo>, name: string)
      returns (r: seq<ThreadInfo>)
      requires Valid() && TimelinesOk(db.store, stacks.stacks, stacks.ts) && db.store.IsStack(base)
      requires ThreadsKnown(db.store, threads) && ThreadsDiffer(threads) && db.store.nextName + 1 < TWO_32
      requires db.store.nextStack + 1 + Height(db.store, stacks.stacks, stacks.ts, seg.tid, seg.endTs) < TWO_32
      modifies this`concatenationCache, db`store, db`functionNamesCache, db`stacksCache
      ensures Valid() && old(db.store).Extends(db.store) && ThreadsKnown(db.store, r) && ThreadsDiffer(r)
      ensures var (t, raised) := OnTop(old(db.store), threads, base, seg.tid, name);
              && t.Consistent() && t.IsStack(StackAt(stacks.stacks, seg.tid, seg.endTs)) && raised != []
              && (db.store, r) == Filled(t, raised, StackAt(stacks.stacks, seg.tid, seg.endTs))
      ensures r != [] && r[|r| - 1].tid == seg.tid
      ensures db.store.nextStack <=
                old(db.store.nextStack + 1 + Height(db.store, stacks.stacks, stacks.ts, seg.tid, seg.endTs))
      ensures db.store.nextName <= old(db.store).nextName + 1
    {
      hide Store.Consistent, Store.Extends, Store.Functions, CacheOk, TimelineOk, TimelinesOk, Concat, PushName,
        LinearScan, Height;
      ghost var s := db.store;
      OnTopMeans(s, threads, base, seg.tid, name);
      var depth := 0;
      while depth < |threads|
        invariant depth <= |threads| && forall i | 0 <= i < depth :: threads[i].tid != seg.tid
      {
        if threads[depth].tid == seg.tid { break; }
        depth := depth + 1;
      }
      DepthIs(threads, seg.tid, depth);
      if depth == |threads| {
        var below := if threads == [] then base else threads[|threads| - 1].stack;
        var cleanStack := PushOnStack(below, "[thread " + name + "]");
        r := threads + [ThreadInfo(seg.tid, cleanStack, cleanStack)];
      } else {
        r := threads[..depth + 1];
      }
      ghost var t := db.store;
      assert (t, r) == OnTop(s, threads, base, seg.tid, name);
      TimelinesStillOk(s, t, stacks.stacks, stacks.ts);
      HeightKept(s, t, stacks.stacks, stacks.ts, seg.tid, seg.endTs);
      FilledKeepsTop(t, r, seg.tid);
      r := FillStack(r, seg.tid, seg.endTs);
      ExtendsTransitive(s, t, db.store);
    }

    /** Credits a whole segment to its status on top of a stack. */
    method AddStatusSample(bottom: StackId, status: string, duration: nat)
      requires Valid() && db.store.IsStack(bottom) && db.store.Room(1)
      modifies db`store, db`functionNamesCache, db`stacksCache, execution`samples
      ensures Valid() && old(db.store).Extends(db.store)
      ensures var (t, id) := PushName(old(db.store), bottom, status);
              db.store == t && execution.samples == Increment(old(execution.samples), id, duration)
      ensures Sum(execution.samples) == Sum(old(execution.samples)) + duration
      ensures db.store.nextStack <= old(db.store).nextStack + 1 && db.store.nextName <= old(db.store).nextName + 1
    {
      hide Store.Consistent, Store.Extends, CacheOk, TimelineOk, PushName, Sum;
      var id := PushOnStack(bottom, status);
      IncrementAdds(execution.samples, id, duration);
      execution.IncrementSample(id, duration);
    }

    /** A wait: credited to its status on the full stack of the thread, found now if not known yet. */
    method AddBlockedSegment(seg: Segment, threads: seq<ThreadInfo>) returns (r: seq<ThreadInfo>)
      requires !seg.etype.Epsilon? && Valid() && TimelinesOk(db.store, stacks.stacks, stacks.ts)
      requires threads != [] && ThreadsKnown(db.store, threads) && ThreadsDiffer(threads)
      requires db.store.nextName + 1 < TWO_32
      requires db.store.nextStack + 1 + Height(db.store, stacks.stacks, stacks.ts, seg.tid, seg.startTs) < TWO_32
      modifies this`concatenationCache, db`store, db`functionNamesCache, db`stacksCache, execution`samples
      ensures Valid() && old(db.store).Extends(db.store) && ThreadsKnown(db.store, r) && ThreadsDiffer(r)
      ensures |r| == |threads| && r[|r| - 1].tid == threads[|r| - 1].tid
      ensures old(db.store).IsStack(StackAt(stacks.stacks, seg.tid, seg.startTs))
      ensures (db.store, execution.samples, r)
           == WaitCredit(old(db.store), old(execution.samples), threads, StackAt(stacks.stacks, seg.tid, seg.startTs),
                         StatusString(seg.etype), Sub64(seg.endTs, seg.startTs))
      ensures Sum(execution.samples) == Sum(old(execution.samples)) + Sub64(seg.endTs, seg.startTs)
      ensures db.store.nextStack <=
                old(db.store.nextStack + 1 + Height(db.store, stacks.stacks, stacks.ts, seg.tid, seg.startTs))
      ensures db.store.nextName <= old(db.store).nextName + 1
    {
      hide Store.Consistent, Store.Extends, Store.Functions, CacheOk, TimelineOk, TimelinesOk, PushName, Sum, Concat,
        LinearScan, StackAt, Height, Sub64, Filled, ThreadsKnown, ThreadsDiffer, StacksExtractor.Valid, StatusString;
      ghost var s := db.store;
      ExtractorKnows(this);
      StackAtIsKnown(s, stacks.stacks, stacks.ts, seg.tid, seg.startTs);
      ExtendsSelf(s);
      var n := |threads| - 1;
      r := threads;
      if threads[n].stack == threads[n].cleanStack {
        r := FillStack(threads, seg.tid, seg.startTs);
      }
      ghost var t := db.store;
      FilledIsKnown(t, r);
      AddStatusSample(r[n].stack, StatusString(seg.etype), Sub64(seg.endTs, seg.startTs));
      KnownKept(t, db.store, r);
      ExtendsTransitive(s, t, db.store);
    }

    /**
      One segment of any type but disk and CPU waits: it is charged to what its thread was put on, and the samples grow
      by exactly its duration.
     */
    method AddSegment(seg: Segment, threads: seq<ThreadInfo>, ghost frames: seq<Frame>) returns (r: seq<ThreadInfo>)
      requires Valid() && TimelinesOk(db.store, stacks.stacks, stacks.ts) && !seg.etype.Epsilon?
      requires FramesOk(db.store, threads, frames) && TopIsAtEnd(db.store, stacks.stacks, frames, seg)
      requires threads != [] && ThreadsKnown(db.store, threads) && ThreadsDiffer(threads)
      requires db.store.nextName + 1 < TWO_32
      requires SegmentOk(seg, stacks.stacks)
      requires db.store.nextStack + 2 + Height(db.store, stacks.stacks, stacks.ts, seg.tid, seg.startTs)
               + RunCells(db.store, stacks.stacks, stacks.ts, seg) < TWO_32
      modifies this`concatenationCache, db`store, db`functionNamesCache, db`stacksCache, execution`samples
      ensures Valid() && old(db.store).Extends(db.store) && ThreadsKnown(db.store, r) && ThreadsDiffer(r)
      ensures |r| == |threads| && r[|r| - 1].tid == threads[|r| - 1].tid && FramesBelowOk(db.store, r, frames)
      ensures Contiguous(TimelineOf(stacks.stacks, seg.tid))
      ensures var charges := SegmentCharges(old(db.store), stacks.stacks, frames[|frames| - 1].clean, seg);
              AllInterned(db.store, charges) && execution.samples == Charged(db.store, old(execution.samples), charges)
      ensures Sum(execution.samples) == Sum(old(execution.samples)) + Sub64(seg.endTs, seg.startTs)
      ensures db.store.nextStack <=
                old(db.store.nextStack + 1 + Height(db.store, stacks.stacks, stacks.ts, seg.tid, seg.startTs)
                                        + RunCells(db.store, stacks.stacks, stacks.ts, seg))
      ensures db.store.nextName <= old(db.store).nextName + 1
    {
      hide Store.Consistent, Store.Extends, CacheOk, TimelineOk, TimelinesOk, PushName, Sum, Filled, Credit, LinearScan,
        Height, CellsNeeded, SegmentCharges, FramesOk, FramesBelowOk, TopIsAtEnd, Denotes, AllInterned, Charged,
        SampleCharges, Enumerate, Contiguous, RunCredit, WaitCredit, WaitCharges, Sub64;
      ghost var s, m := db.store, execution.samples;
      var clean := threads[|threads| - 1].cleanStack;
      r := threads;
      DurationIs(seg.startTs, seg.endTs);
      RunRoom(s, stacks.stacks, stacks.ts, seg);
      TopFrame(s, threads, frames);
      KindsOfCharges(s, stacks.stacks, stacks.ts, frames[|frames| - 1].clean, seg);
      if seg.etype.Run? {
        AddRunSegment(seg.tid, seg.startTs, seg.endTs, clean);
        RunIsCredited(s, m, clean, frames[|frames| - 1].clean,
                      Enumerate(TimelineOf(stacks.stacks, seg.tid), seg.startTs, seg.endTs), seg.endTs - seg.startTs);
        KnownKept(s, db.store, r);
        FramesKept(s, db.store, threads, frames);
      } else if seg.etype.WaitBlocked? || seg.etype.Timer? || seg.etype.Network? || seg.etype.UserInput? {
        WaitIsCredited(s, m, stacks.stacks, stacks.ts, threads, frames, seg);
        r := AddBlockedSegment(seg, threads);
      } else {
        LabelIsCharged(s, m, clean, frames[|frames| - 1].clean, StatusString(seg.etype), Sub64(seg.endTs, seg.startTs));
        AddStatusSample(clean, StatusString(seg.etype), Sub64(seg.endTs, seg.startTs));
        KnownKept(s, db.store, r);
        FramesKept(s, db.store, threads, frames);
      }
    }

    /**
      Samples a whole critical path that has no disk or CPU waits: each segment is charged to the stacks of its thread,
      on the stacks of those that the path came from, and the samples grow by exactly the time of the path.
     */
    method ExtractStacks(path: Path, base: StackId, name: ThreadId -> string)
      requires Valid() && TimelinesOk(db.store, stacks.stacks, stacks.ts) && db.store.IsStack(base)
      requires forall i | 0 <= i < |path| :: SegmentOk(path[i], stacks.stacks)
      requires db.store.nextName + 2 * |path| < TWO_32
      requires db.store.nextStack + PathCells(db.store, stacks.stacks, stacks.ts, path) < TWO_32
      modifies this`concatenationCache, db`store, db`functionNamesCache, db`stacksCache, execution`samples
      ensures Valid() && old(db.store).Extends(db.store) && db.store.Consistent() && AllContiguous(stacks.stacks)
      ensures var s := old(db.store);
              var charges := PathCharges(s, stacks.stacks, SymbolsOf(s, base), path, name);
              AllInterned(db.store, charges) && execution.samples == Charged(db.store, old(execution.samples), charges)
      ensures Sum(execution.samples) == Sum(old(execution.samples)) + PathCoverage.AccountedTime(path)
    {
      hide Store.Consistent, Store.Extends, CacheOk, TimelineOk, TimelinesOk, Sum, OnTop, Filled, LinearScan, SegmentOk,
        Height, RunCells, PathCoverage.AccountedTime, Sub64, StacksExtractor.Valid, PathCharges, FramesAfter,
        FramesNext,
        SegmentCharges, FramesOk, AllInterned, Charged, SymbolsOf, AllContiguous;
      ghost var s, tls, now, m, l := db.store, stacks.stacks, stacks.ts, execution.samples, SymbolsOf(db.store, base);
      var threads: seq<ThreadInfo> := [];
      var i := 0;
      StartOfPath(path);
      ExtractorKnows(this);
      ExtendsSelf(s);
      KnownAreContiguous(s, tls, now);
      NothingIsCharged(s, m, tls, l, path, name);
      while i < |path|
        invariant 0 <= i <= |path| && Valid() && s.Extends(db.store) && TimelinesOk(db.store, tls, now)
        invariant ThreadsKnown(db.store, threads) && ThreadsDiffer(threads)
        invariant db.store.Consistent() && db.store.IsStack(base)
        invariant db.store.nextName + 2 * (|path| - i) < TWO_32
        invariant db.store.nextStack + PathCells(db.store, tls, now, path[i..]) < TWO_32
        invariant FramesOk(db.store, threads, FramesAfter(s, tls, l, path[..i], name))
        invariant AllInterned(db.store, PathCharges(s, tls, l, path[..i], name))
        invariant execution.samples == Charged(db.store, m, PathCharges(s, tls, l, path[..i], name))
        invariant Sum(execution.samples) == Sum(old(execution.samples)) + PathCoverage.AccountedTime(path[..i])
      {
        ghost var s0, rest := db.store, path[i + 1..];
        PathStep(db.store, tls, now, path, i);
        threads := ExtractSegment(path[i], base, threads, name(path[i].tid), FramesAfter(s, tls, l, path[..i], name));
        PathCellsKept(s0, db.store, tls, now, rest);
        ExtendsTransitive(s, s0, db.store);
        StackKept(s0, db.store, base);
        FramesNextKept(s, s0, tls, now, base, FramesAfter(s, tls, l, path[..i], name), path[i], name(path[i].tid));
        NextSegment(s, tls, l, path, i, name);
        ghost var next := FramesAfter(s, tls, l, path[..i + 1], name);
        SegmentChargesKept(s, s0, tls, now, next[|next| - 1].clean, path[i]);
        ChargedInTurn(s0, db.store, m, PathCharges(s, tls, l, path[..i], name),
                      SegmentCharges(s, tls, next[|next| - 1].clean, path[i]));
        i := i + 1;
      }
      assert path[..i] == path;
    }

    /** One round of the loop over the path. */
    method ExtractSegment(seg: Segment, base: StackId, threads: seq<ThreadInfo>, name: string,
                          ghost frames: seq<Frame>)
      returns (r: seq<ThreadInfo>)
      requires Valid() && TimelinesOk(db.store, stacks.stacks, stacks.ts) && db.store.IsStack(base)
      requires ThreadsKnown(db.store, threads) && ThreadsDiffer(threads) && SegmentOk(seg, stacks.stacks)
      requires FramesOk(db.store, threads, frames) && db.store.nextName + 2 < TWO_32
      requires db.store.nextStack + SegmentCells(db.store, stacks.stacks, stacks.ts, seg) < TWO_32
      modifies this`concatenationCache, db`store, db`functionNamesCache, db`stacksCache, execution`samples
      ensures Valid() && db.store.Consistent() && old(db.store).Extends(db.store)
      ensures ThreadsKnown(db.store, r) && ThreadsDiffer(r) && r != [] && r[|r| - 1].tid == seg.tid
      ensures Contiguous(TimelineOf(stacks.stacks, seg.tid))
      ensures var s := old(db.store);
              var next := FramesNext(s, stacks.stacks, SymbolsOf(s, base), frames, seg, name);
              var charges := SegmentCharges(s, stacks.stacks, next[|next| - 1].clean, seg);
              && FramesOk(db.store, r, next) && AllInterned(db.store, charges)
              && execution.samples == Charged(db.store, old(execution.samples), charges)
      ensures Sum(execution.samples)
           == Sum(old(execution.samples)) + if seg.etype.Epsilon? then 0 else Sub64(seg.endTs, seg.startTs)
      ensures db.store.nextStack <= old(db.store.nextStack + SegmentCells(db.store, stacks.stacks, stacks.ts, seg))
      ensures db.store.nextName <= old(db.store).nextName + 2
    {
      hide Store.Consistent, Store.Extends, CacheOk, TimelineOk, TimelinesOk, Sum, OnTop, Filled, LinearScan, SegmentOk,
        Height, RunCells, Sub64, StacksExtractor.Valid, FramesOk, FramesBelowOk, FramesNext, SymbolsOf, AllInterned,
        Charged, TopIsAtEnd, Contiguous;
      ghost var s, tls, now, m := db.store, stacks.stacks, stacks.ts, execution.samples;
      ghost var next := FramesNext(s, tls, SymbolsOf(s, base), frames, seg, name);
      ghost var clean := next[|next| - 1].clean;
      ExtractorKnows(this);
      EnsuredFrames(s, threads, frames, base, tls, now, seg, name);
      KnownAreContiguous(s, tls, now);
      r := EnsureCurrentThreadIsOnThreadsStack(seg, base, threads, name);
      ExtractorKnows(this);
      if seg.etype.Epsilon? {
        NoCharge(db.store, m);
        return;
      }
      hide SegmentCharges;
      ghost var t := db.store;
      TimelinesStillOk(s, t, tls, now);
      SegmentCellsKept(s, t, tls, now, seg);
      HeightKept(s, t, tls, now, seg.tid, seg.startTs);
      OwnKept(s, t, tls, now, seg.tid, seg.endTs);
      StillAtEnd(s, t, tls, next, seg);
      SegmentChargesKept(s, t, tls, now, clean, seg);
      r := AddSegment(seg, r, next);
      ghost var u := db.store;
      ExtractorKnows(this);
      TimelinesStillOk(t, u, tls, now);
      HeightKept(s, t, tls, now, seg.tid, seg.endTs);
      HeightKept(t, u, tls, now, seg.tid, seg.endTs);
      ghost var n := |r| - 1;
      ExtendsTransitive(s, t, u);
      RefilledFrames(s, u, tls, now, r, next, seg);
      r := FillStack(r, seg.tid, seg.endTs);
      ExtractorKnows(this);
      ExtendsTransitive(s, u, db.store);
      ChargedKept(u, db.store, m, SegmentCharges(s, tls, clean, seg));
    }
  }

  lemma FilledIsKnown(s: Store, threads: seq<ThreadInfo>)
    requires ThreadsKnown(s, threads) && threads != []
    ensures s.IsStack(threads[|threads| - 1].stack)
  {
  }

  lemma ExtractorKnows(x: StacksExtractor)
    requires x.Valid()
    ensures x.stacks.Valid() && x.db.store.Consistent() && x.db == x.stacks.db
    ensures TimelinesOk(x.db.store, x.stacks.stacks, x.stacks.ts)
  {
  }
}
