/**
  Crediting the segments of a critical path, on identifiers: what each step stores and adds to the samples, and that
  this is what the segments are charged to.
 */
module StackCredits {
  import opened Common
  import opened HashConsSpec
  import opened StackTimelineSpec
  import opened StackLogSpec
  import opened StacksBuilders
  import opened Executions
  import opened CriticalGraphs
  import opened PathSpec
  import opened ExtractMetrics
  import opened StackChargesSpec
  import PathCoverage

  /** The samples of a timeline, each credited to its stack put on top of `clean`. */
  ghost function Credit(s: Store, m: Samples, clean: StackId, calls: seq<Sample>): (Store, Samples)
    requires CallsOk(s, clean, calls) && s.nextStack + CellsNeeded(s, calls) < TWO_32
    decreases |calls|
  {
    if calls == [] then (s, m)
    else
      var (t, id) := Concat(s, clean, calls[0].stackId);
      CallsKept(s, clean, calls);
      Credit(t, Increment(m, id, calls[0].duration), clean, calls[1..])
  }

  /** The stacks involved are known. */
  ghost predicate CallsOk(s: Store, clean: StackId, calls: seq<Sample>) {
    s.Consistent() && s.IsStack(clean) && forall i | 0 <= i < |calls| :: s.IsStack(calls[i].stackId)
  }

  /** How many cells crediting may have to add. */
  ghost function CellsNeeded(s: Store, calls: seq<Sample>): nat
    requires s.Consistent() && forall i | 0 <= i < |calls| :: s.IsStack(calls[i].stackId)
    decreases |calls|
  {
    if calls == [] then 0 else |s.Functions(calls[0].stackId)| + CellsNeeded(s, calls[1..])
  }

  lemma {:induction false} CellsKept(s: Store, t: Store, calls: seq<Sample>)
    requires s.Consistent() && t.Consistent() && s.Extends(t)
    requires forall i | 0 <= i < |calls| :: s.IsStack(calls[i].stackId)
    ensures forall i | 0 <= i < |calls| :: t.IsStack(calls[i].stackId)
    ensures CellsNeeded(t, calls) == CellsNeeded(s, calls)
    decreases |calls|
  {
    hide Store.Consistent, Store.Extends, Store.Functions;
    if calls != [] {
      FunctionsKept(s, t, calls[0].stackId);
      CellsKept(s, t, calls[1..]);
    }
  }

  /** One concatenation leaves the rest of the samples as they were. */
  lemma CallsKept(s: Store, clean: StackId, calls: seq<Sample>)
    requires CallsOk(s, clean, calls) && calls != [] && s.nextStack + CellsNeeded(s, calls) < TWO_32
    ensures var (t, id) := Concat(s, clean, calls[0].stackId);
            && s.Extends(t) && CallsOk(t, clean, calls[1..]) && t.IsStack(id)
            && t.nextStack + CellsNeeded(t, calls[1..]) <= s.nextStack + CellsNeeded(s, calls)
  {
    hide Store.Consistent, Store.Extends, Store.Functions, Store.Push;
    PushAppends(s, clean, s.Functions(calls[0].stackId));
    var (t, id) := Concat(s, clean, calls[0].stackId);
    FunctionsKept(s, t, clean);
    CellsKept(s, t, calls[1..]);
  }

  /** Crediting conserves time: the samples grow by the total of the durations. */
  lemma {:induction false} CreditAdds(s: Store, m: Samples, clean: StackId, calls: seq<Sample>)
    requires CallsOk(s, clean, calls) && s.nextStack + CellsNeeded(s, calls) < TWO_32
    ensures var (t, n) := Credit(s, m, clean, calls);
            && Sum(n) == Sum(m) + Total(calls)
            && t.Consistent() && s.Extends(t) && t.IsStack(clean)
            && t.nextStack <= s.nextStack + CellsNeeded(s, calls) && t.nextName == s.nextName
    decreases |calls|
  {
    if calls == [] {
      ExtendsSelf(s);
    } else {
      CallsKept(s, clean, calls);
      PushAppends(s, clean, s.Functions(calls[0].stackId));
      var (t, id) := Concat(s, clean, calls[0].stackId);
      hide Store.Consistent, Store.Extends, Store.Functions, Store.Push, Sum, Concat;
      IncrementAdds(m, id, calls[0].duration);
      CreditAdds(t, Increment(m, id, calls[0].duration), clean, calls[1..]);
      ExtendsTransitive(s, t, Credit(t, Increment(m, id, calls[0].duration), clean, calls[1..]).0);
    }
  }

  /** Identifiers enough for every cell that sampling a window may add, and one more. */
  ghost predicate RoomFor(s: Store, tl: Timeline, start: Timestamp, end: Timestamp)
    requires s.Consistent() && Contiguous(tl)
  {
    var calls := Enumerate(tl, start, end);
    (forall i | 0 <= i < |calls| :: s.IsStack(calls[i].stackId)) ==> s.nextStack + CellsNeeded(s, calls) + 1 < TWO_32
  }

  // ----- Whole paths

  /** A thread met along the path: its stack below the path's current one, and the stack it was put on. */
  datatype ThreadInfo = ThreadInfo(tid: ThreadId, stack: StackId, cleanStack: StackId)

  /** Where a thread is on the stack of threads, or the height of that. */
  function DepthOf(threads: seq<ThreadInfo>, tid: ThreadId): (d: nat)
    ensures d <= |threads| && (d < |threads| ==> threads[d].tid == tid)
    ensures forall i | 0 <= i < d :: threads[i].tid != tid
  {
    if threads == [] || threads[0].tid == tid then 0 else 1 + DepthOf(threads[1..], tid)
  }

  /** Brings a thread to the top: drops what is above it, or puts it on the full stack of the last one. */
  function OnTop(s: Store, threads: seq<ThreadInfo>, base: StackId, tid: ThreadId, name: string)
    : (Store, seq<ThreadInfo>)
  {
    var d := DepthOf(threads, tid);
    if d < |threads| then (s, threads[..d + 1])
    else
      var below := if threads == [] then base else threads[|threads| - 1].stack;
      var (t, id) := PushName(s, below, "[thread " + name + "]");
      (t, threads + [ThreadInfo(tid, id, id)])
  }

  /** The top thread's stack becomes `top` on its clean stack. */
  ghost function Filled(s: Store, threads: seq<ThreadInfo>, top: StackId): (Store, seq<ThreadInfo>)
    requires s.Consistent() && s.IsStack(top) && threads != []
  {
    var n := |threads| - 1;
    var (t, id) := Concat(s, threads[n].cleanStack, top);
    (t, threads[n := threads[n].(stack := id)])
  }

  ghost predicate ThreadsKnown(s: Store, threads: seq<ThreadInfo>) {
    forall i | 0 <= i < |threads| :: s.IsStack(threads[i].stack) && s.IsStack(threads[i].cleanStack)
  }

  /** Each thread is on the stack of threads at most once. */
  ghost predicate ThreadsDiffer(threads: seq<ThreadInfo>) {
    forall i, j | 0 <= i < j < |threads| :: threads[i].tid != threads[j].tid
  }

  lemma PushNameGrows(s: Store, bottom: StackId, name: string)
    requires s.Consistent() && s.IsStack(bottom) && s.nextName + 1 < TWO_32 && s.nextStack + 1 < TWO_32
    ensures var (t, id) := PushName(s, bottom, name);
            && t.Consistent() && s.Extends(t) && t.IsStack(id)
            && t.nextName <= s.nextName + 1 && t.nextStack <= s.nextStack + 1
  {
    hide Store.Consistent, Store.AddName, Store.AddStack, Store.Extends;
    AddNameConsistent(s, name);
    var (u, f) := s.AddName(name);
    AddStackConsistent(u, Stack(f, bottom));
    ExtendsTransitive(s, u, u.AddStack(Stack(f, bottom)).0);
  }

  lemma OnTopMeans(s: Store, threads: seq<ThreadInfo>, base: StackId, tid: ThreadId, name: string)
    requires s.Consistent() && s.nextName + 1 < TWO_32 && s.nextStack + 1 < TWO_32
    requires s.IsStack(base) && ThreadsKnown(s, threads) && ThreadsDiffer(threads)
    ensures var (t, r) := OnTop(s, threads, base, tid, name);
            && t.Consistent() && s.Extends(t) && ThreadsKnown(t, r) && ThreadsDiffer(r)
            && r != [] && r[|r| - 1].tid == tid && t.nextName <= s.nextName + 1 && t.nextStack <= s.nextStack + 1
  {
    hide Store.Consistent, Store.Extends, PushName;
    ExtendsSelf(s);
    if DepthOf(threads, tid) == |threads| {
      var below := if threads == [] then base else threads[|threads| - 1].stack;
      PushNameGrows(s, below, "[thread " + name + "]");
      KnownKept(s, PushName(s, below, "[thread " + name + "]").0, threads);
    }
  }

  lemma FilledMeans(s: Store, threads: seq<ThreadInfo>, top: StackId)
    requires s.Consistent() && s.IsStack(top) && threads != [] && ThreadsKnown(s, threads) && ThreadsDiffer(threads)
    requires s.nextStack + |s.Functions(top)| < TWO_32
    ensures var (t, r) := Filled(s, threads, top);
            && t.Consistent() && s.Extends(t) && ThreadsKnown(t, r) && ThreadsDiffer(r)
            && t.nextName == s.nextName && t.nextStack <= s.nextStack + |s.Functions(top)|
            && |r| == |threads| && r[|r| - 1].tid == threads[|r| - 1].tid
            && r[|r| - 1].cleanStack == threads[|r| - 1].cleanStack
  {
    hide Store.Consistent, Store.Extends, Store.Push, Store.Functions;
    PushAppends(s, threads[|threads| - 1].cleanStack, s.Functions(top));
    KnownKept(s, Concat(s, threads[|threads| - 1].cleanStack, top).0, threads);
  }

  lemma KnownKept(s: Store, t: Store, threads: seq<ThreadInfo>)
    requires s.Extends(t) && ThreadsKnown(s, threads)
    ensures ThreadsKnown(t, threads)
  {
  }

  ghost predicate TimelinesOk(s: Store, tls: Timelines, now: Timestamp) {
    forall t <- tls :: TimelineOk(s, tls[t], now)
  }

  lemma {:induction false} ScanIsKnown(s: Store, tl: Timeline, t: Timestamp)
    requires forall i | 0 <= i < |tl| :: s.IsStack(tl[i].stackId)
    ensures s.IsStack(LinearScan(tl, t))
  {
    if tl != [] { ScanIsKnown(s, tl[1..], t); }
  }

  lemma StackAtIsKnown(s: Store, tls: Timelines, now: Timestamp, tid: ThreadId, t: Timestamp)
    requires TimelinesOk(s, tls, now)
    ensures s.IsStack(StackAt(tls, tid, t))
  {
    hide UpTo;
    ScanIsKnown(s, TimelineOf(tls, tid), t);
  }

  /** How many functions the stack of a thread has. */
  ghost function Height(s: Store, tls: Timelines, now: Timestamp, tid: ThreadId, t: Timestamp): nat
    requires s.Consistent() && TimelinesOk(s, tls, now)
  {
    StackAtIsKnown(s, tls, now, tid, t);
    |s.Functions(StackAt(tls, tid, t))|
  }

  ghost function RunCells(s: Store, tls: Timelines, now: Timestamp, seg: Segment): nat
    requires s.Consistent() && TimelinesOk(s, tls, now)
  {
    var tl := TimelineOf(tls, seg.tid);
    SampledStacksKnown(s, tl, now, seg.startTs, seg.endTs);
    CellsNeeded(s, Enumerate(tl, seg.startTs, seg.endTs))
  }

  /** A bound on the cells that one segment may add. */
  ghost function SegmentCells(s: Store, tls: Timelines, now: Timestamp, seg: Segment): nat
    requires s.Consistent() && TimelinesOk(s, tls, now)
  {
    3 + Height(s, tls, now, seg.tid, seg.startTs) + 2 * Height(s, tls, now, seg.tid, seg.endTs)
      + RunCells(s, tls, now, seg)
  }

  ghost function PathCells(s: Store, tls: Timelines, now: Timestamp, path: Path): nat
    requires s.Consistent() && TimelinesOk(s, tls, now)
    decreases |path|
  {
    if path == [] then 0 else SegmentCells(s, tls, now, path[0]) + PathCells(s, tls, now, path[1..])
  }

  lemma HeightKept(s: Store, u: Store, tls: Timelines, now: Timestamp, tid: ThreadId, t: Timestamp)
    requires s.Consistent() && u.Consistent() && s.Extends(u) && TimelinesOk(s, tls, now) && TimelinesOk(u, tls, now)
    ensures Height(u, tls, now, tid, t) == Height(s, tls, now, tid, t)
  {
    hide Store.Consistent, Store.Extends, Store.Functions, TimelineOk;
    StackAtIsKnown(s, tls, now, tid, t);
    FunctionsKept(s, u, StackAt(tls, tid, t));
  }

  lemma SegmentCellsKept(s: Store, u: Store, tls: Timelines, now: Timestamp, seg: Segment)
    requires s.Consistent() && u.Consistent() && s.Extends(u) && TimelinesOk(s, tls, now) && TimelinesOk(u, tls, now)
    ensures SegmentCells(u, tls, now, seg) == SegmentCells(s, tls, now, seg)
    ensures RunCells(u, tls, now, seg) == RunCells(s, tls, now, seg)
  {
    hide Store.Consistent, Store.Extends, Store.Functions, Height;
    HeightKept(s, u, tls, now, seg.tid, seg.startTs);
    HeightKept(s, u, tls, now, seg.tid, seg.endTs);
    var tl := TimelineOf(tls, seg.tid);
    SampledStacksKnown(s, tl, now, seg.startTs, seg.endTs);
    CellsKept(s, u, Enumerate(tl, seg.startTs, seg.endTs));
  }

  lemma {:induction false} PathCellsKept(s: Store, u: Store, tls: Timelines, now: Timestamp, path: Path)
    requires s.Consistent() && u.Consistent() && s.Extends(u) && TimelinesOk(s, tls, now)
    ensures TimelinesOk(u, tls, now) && PathCells(u, tls, now, path) == PathCells(s, tls, now, path)
    decreases |path|
  {
    hide Store.Consistent, Store.Extends, SegmentCells, RunCells, TimelineOk;
    TimelinesKept(s, u, tls, now);
    if path != [] {
      SegmentCellsKept(s, u, tls, now, path[0]);
      PathCellsKept(s, u, tls, now, path[1..]);
    }
  }

  // ----- Identifiers and frames

  /** The identifiers of a thread on the stack of threads stand for its frame. */
  ghost predicate FrameOk(s: Store, thread: ThreadInfo, frame: Frame)
    requires s.Consistent()
  {
    thread.tid == frame.tid && Denotes(s, thread.cleanStack, frame.clean) && Denotes(s, thread.stack, frame.full)
  }

  ghost predicate FramesOk(s: Store, threads: seq<ThreadInfo>, frames: seq<Frame>)
    requires s.Consistent()
  {
    |threads| == |frames| && forall i | 0 <= i < |threads| :: FrameOk(s, threads[i], frames[i])
  }

  /** So do those of all but the top thread, and its clean stack. */
  ghost predicate FramesBelowOk(s: Store, threads: seq<ThreadInfo>, frames: seq<Frame>)
    requires s.Consistent()
  {
    && |threads| == |frames| > 0
    && (forall i | 0 <= i < |threads| - 1 :: FrameOk(s, threads[i], frames[i]))
    && threads[|threads| - 1].tid == frames[|threads| - 1].tid
    && Denotes(s, threads[|threads| - 1].cleanStack, frames[|threads| - 1].clean)
  }

  lemma FrameKept(s: Store, t: Store, thread: ThreadInfo, frame: Frame)
    requires s.Consistent() && t.Consistent() && s.Extends(t) && FrameOk(s, thread, frame)
    ensures FrameOk(t, thread, frame)
  {
    hide Store.Consistent, Store.Extends, Denotes;
    DenotesKept(s, t, thread.cleanStack, frame.clean);
    DenotesKept(s, t, thread.stack, frame.full);
  }

  lemma FramesKept(s: Store, t: Store, threads: seq<ThreadInfo>, frames: seq<Frame>)
    requires s.Consistent() && t.Consistent() && s.Extends(t)
    ensures FramesOk(s, threads, frames) ==> FramesOk(t, threads, frames)
    ensures FramesBelowOk(s, threads, frames) ==> FramesBelowOk(t, threads, frames)
  {
    hide Store.Consistent, Store.Extends, Denotes, FrameOk;
    forall i | 0 <= i < |threads| && i < |frames| && FrameOk(s, threads[i], frames[i])
      ensures FrameOk(t, threads[i], frames[i])
    {
      FrameKept(s, t, threads[i], frames[i]);
    }
    if FramesBelowOk(s, threads, frames) {
      DenotesKept(s, t, threads[|threads| - 1].cleanStack, frames[|threads| - 1].clean);
    }
  }

  lemma FilledFrames(s: Store, threads: seq<ThreadInfo>, frames: seq<Frame>, top: StackId)
    requires s.Consistent() && s.IsStack(top) && s.nextStack + |s.Functions(top)| < TWO_32
    requires FramesBelowOk(s, threads, frames)
    requires frames[|frames| - 1].full == frames[|frames| - 1].clean + SymbolsOf(s, top)
    ensures var (t, r) := Filled(s, threads, top); t.Consistent() && s.Extends(t) && FramesOk(t, r, frames)
  {
    hide Store.Consistent, Store.Extends, Store.Functions, Denotes, SymbolsOf, Concat;
    var n := |threads| - 1;
    ConcatDenotesList(s, threads[n].cleanStack, frames[n].clean, top);
    FramesKept(s, Concat(s, threads[n].cleanStack, top).0, threads, frames);
  }

  lemma SameDepth(s: Store, threads: seq<ThreadInfo>, frames: seq<Frame>, tid: ThreadId)
    requires s.Consistent() && FramesOk(s, threads, frames)
    ensures DepthOf(threads, tid) == DepthIn(frames, tid)
  {
    hide Store.Consistent, Denotes;
    var d := DepthIn(frames, tid);
    assert forall i | 0 <= i < |threads| :: FrameOk(s, threads[i], frames[i]);
    DepthIs(threads, tid, d);
  }

  lemma OnTopFrames(s: Store, threads: seq<ThreadInfo>, frames: seq<Frame>, base: StackId, tls: Timelines, seg: Segment,
                    name: string)
    requires s.Consistent() && s.nextName + 1 < TWO_32 && s.nextStack + 1 < TWO_32 && s.IsStack(base)
    requires FramesOk(s, threads, frames)
    ensures var (t, raised) := OnTop(s, threads, base, seg.tid, name);
            && t.Consistent() && s.Extends(t) && t.nextStack <= s.nextStack + 1
            && FramesBelowOk(t, raised, FramesNext(s, tls, SymbolsOf(s, base), frames, seg, name))
  {
    hide Store.Consistent, Store.Extends, Denotes, SymbolsOf, PushName, Own;
    SameDepth(s, threads, frames, seg.tid);
    var d := DepthIn(frames, seg.tid);
    if d < |frames| {
      ExtendsSelf(s);
      assert FrameOk(s, threads[d], frames[d]);
    } else {
      var below := if threads == [] then base else threads[|threads| - 1].stack;
      var list := if frames == [] then SymbolsOf(s, base) else frames[|frames| - 1].full;
      if frames == [] { SymbolsDenote(s, base); }
      else { assert FrameOk(s, threads[|threads| - 1], frames[|frames| - 1]); }
      PushNameDenotesList(s, below, list, "[thread " + name + "]");
      FramesKept(s, PushName(s, below, "[thread " + name + "]").0, threads, frames);
    }
  }

  // ----- Identifiers and charges

  lemma {:induction false} CallsAreCharged(s: Store, m: Samples, clean: StackId, l: Symbols, calls: seq<Sample>)
    requires CallsOk(s, clean, calls) && s.nextStack + CellsNeeded(s, calls) < TWO_32 && Denotes(s, clean, l)
    ensures var (t, n) := Credit(s, m, clean, calls);
            && t.Consistent() && s.Extends(t) && AllInterned(t, CallCharges(s, l, calls))
            && n == Charged(t, m, CallCharges(s, l, calls))
    decreases |calls|
  {
    if calls == [] {
      ExtendsSelf(s);
    } else {
      hide Store.Consistent, Store.Extends, Store.Functions, Store.Push, Concat, Denotes, AllInterned, SymbolsOf, IdOf,
        CallsOk, CellsNeeded, Charged, CallCharges, Increment;
      CallsKept(s, clean, calls);
      FirstIsKnown(s, clean, calls);
      ConcatDenotesList(s, clean, l, calls[0].stackId);
      var (t, id) := Concat(s, clean, calls[0].stackId);
      var list, k := l + SymbolsOf(s, calls[0].stackId), Increment(m, id, calls[0].duration);
      DenotesKept(s, t, clean, l);
      CallsAreCharged(t, k, clean, l, calls[1..]);
      var u := Credit(t, k, clean, calls[1..]).0;
      ExtendsTransitive(s, t, u);
      DenotesKept(t, u, id, list);
      CallChargesKept(s, t, l, calls[1..]);
      FirstCharge(u, m, id, Charge(list, calls[0].duration), CallCharges(s, l, calls[1..]));
      CallChargesFrom(s, l, calls);
    }
  }

  lemma CallChargesFrom(s: Store, l: Symbols, calls: seq<Sample>)
    requires calls != []
    ensures CallCharges(s, l, calls)
         == [Charge(l + SymbolsOf(s, calls[0].stackId), calls[0].duration)] + CallCharges(s, l, calls[1..])
  {
  }

  lemma FirstCharge(s: Store, m: Samples, id: StackId, charge: Charge, rest: seq<Charge>)
    requires s.Consistent() && Denotes(s, id, charge.stack) && AllInterned(s, rest)
    ensures AllInterned(s, [charge] + rest)
    ensures Charged(s, m, [charge] + rest) == Charged(s, Increment(m, id, charge.time), rest)
  {
    hide Store.Consistent, Denotes, Interned, IdOf, Increment;
    IdIs(s, id, charge.stack);
    InternedBy(s, id, charge.stack);
    assert ([charge] + rest)[1..] == rest;
  }

  lemma FirstIsKnown(s: Store, clean: StackId, calls: seq<Sample>)
    requires CallsOk(s, clean, calls) && calls != [] && s.nextStack + CellsNeeded(s, calls) < TWO_32
    ensures s.IsStack(calls[0].stackId) && s.nextStack + |s.Functions(calls[0].stackId)| < TWO_32
    ensures forall i | 0 <= i < |calls[1..]| :: s.IsStack(calls[1..][i].stackId)
  {
    hide Store.Consistent, Store.Functions;
  }

  lemma InternedBy(s: Store, id: StackId, l: Symbols)
    requires s.Consistent() && Denotes(s, id, l)
    ensures Interned(s, l)
  {
  }

  lemma {:induction false} CallChargesKept(s: Store, t: Store, l: Symbols, calls: seq<Sample>)
    requires s.Consistent() && t.Consistent() && s.Extends(t)
    requires forall i | 0 <= i < |calls| :: s.IsStack(calls[i].stackId)
    ensures CallCharges(t, l, calls) == CallCharges(s, l, calls)
    decreases |calls|
  {
    hide Store.Consistent, Store.Extends, SymbolsOf;
    if calls != [] {
      SymbolsKept(s, t, calls[0].stackId);
      CallChargesKept(s, t, l, calls[1..]);
    }
  }

  /** One more charge, to a label on a stack. */
  lemma LabelIsCharged(s: Store, m: Samples, bottom: StackId, l: Symbols, name: string, time: nat)
    requires s.Consistent() && Denotes(s, bottom, l) && s.nextName + 1 < TWO_32 && s.nextStack + 1 < TWO_32
    ensures var (t, id) := PushName(s, bottom, name);
            var charges := [Charge(l + [Label(name)], time)];
            && t.Consistent() && s.Extends(t) && AllInterned(t, charges)
            && Increment(m, id, time) == Charged(t, m, charges)
  {
    hide Store.Consistent, Store.Extends, PushName, Denotes, Interned, IdOf;
    PushNameDenotesList(s, bottom, l, name);
    var (t, id) := PushName(s, bottom, name);
    IdIs(t, id, l + [Label(name)]);
    InternedBy(t, id, l + [Label(name)]);
    assert [Charge(l + [Label(name)], time)][1..] == [];
  }

  /** Charges one after the other, to stores of which the second has all of the first. */
  lemma ChargedInTurn(s: Store, t: Store, m: Samples, first: seq<Charge>, second: seq<Charge>)
    requires s.Consistent() && t.Consistent() && s.Extends(t) && AllInterned(s, first) && AllInterned(t, second)
    ensures AllInterned(t, first + second)
    ensures Charged(t, Charged(s, m, first), second) == Charged(t, m, first + second)
  {
    hide Store.Consistent, Store.Extends, Interned, Charged;
    ChargedKept(s, t, m, first);
    ChargedMore(t, m, first, second);
  }

  /** The thread of the segment is on top, with its stack of the end of the segment. */
  ghost predicate TopIsAtEnd(s: Store, tls: Timelines, frames: seq<Frame>, seg: Segment) {
    frames != [] && var top := frames[|frames| - 1];
                    top.tid == seg.tid && top.full == top.clean + Own(s, tls, seg.tid, seg.endTs)
  }

  /** The samples of a run, and what they do not account for, credited on top of `clean`. */
  ghost function RunCredit(s: Store, m: Samples, clean: StackId, calls: seq<Sample>, duration: nat): (Store, Samples)
    requires CallsOk(s, clean, calls) && s.nextStack + CellsNeeded(s, calls) < TWO_32
  {
    var (t, n) := Credit(s, m, clean, calls);
    if Total(calls) < duration then
      var (u, id) := PushName(t, clean, "No stack");
      (u, Increment(n, id, duration - Total(calls)))
    else (t, n)
  }

  /** So a run is charged to its thread's stacks. */
  lemma RunIsCredited(s: Store, m: Samples, clean: StackId, l: Symbols, calls: seq<Sample>, duration: nat)
    requires CallsOk(s, clean, calls) && s.nextStack + CellsNeeded(s, calls) + 1 < TWO_32 && s.nextName + 1 < TWO_32
    requires Denotes(s, clean, l)
    ensures var (u, n) := RunCredit(s, m, clean, calls, duration);
            && u.Consistent() && AllInterned(u, SampleCharges(s, l, calls, duration))
            && n == Charged(u, m, SampleCharges(s, l, calls, duration))
  {
    CallsAreCharged(s, m, clean, l, calls);
    CreditAdds(s, m, clean, calls);
    hide Store.Consistent, Store.Extends, Credit, CallsOk, CellsNeeded, Denotes, AllInterned, Charged, CallCharges, Sum,
      Total, PushName;
    var (t, n) := Credit(s, m, clean, calls);
    var time := duration - Total(calls);
    if time > 0 {
      DenotesKept(s, t, clean, l);
      LabelIsCharged(t, n, clean, l, "No stack", time);
      var u := PushName(t, clean, "No stack").0;
      ChargedInTurn(t, u, m, CallCharges(s, l, calls), [Charge(l + [Label("No stack")], time)]);
    } else {
      assert SampleCharges(s, l, calls, duration) == CallCharges(s, l, calls);
    }
  }

  lemma SameIffEmpty(s: Store, full: StackId, clean: StackId, l: Symbols, own: Symbols)
    requires s.Consistent() && Denotes(s, clean, l) && Denotes(s, full, l + own)
    ensures full == clean <==> own == []
  {
    if own == [] {
      assert l + own == l;
      hide Denotes;
      DenotesOne(s, full, clean, l);
    } else {
      hide Store.Consistent, Store.Functions;
    }
  }

  /** A wait: its status credited on the full stack of the top thread, filled from `top` if that is its clean stack. */
  ghost function WaitCredit(s: Store, m: Samples, threads: seq<ThreadInfo>, top: StackId, status: string, time: nat)
    : (Store, Samples, seq<ThreadInfo>)
    requires s.Consistent() && s.IsStack(top) && threads != []
  {
    var n := |threads| - 1;
    var (t, filled) := if threads[n].stack == threads[n].cleanStack then Filled(s, threads, top) else (s, threads);
    var (u, id) := PushName(t, filled[n].stack, status);
    (u, Increment(m, id, time), filled)
  }

  /** So is a wait. */
  lemma WaitIsCredited(s: Store, m: Samples, tls: Timelines, now: Timestamp, threads: seq<ThreadInfo>,
                       frames: seq<Frame>, seg: Segment)
    requires s.Consistent() && TimelinesOk(s, tls, now) && !seg.etype.Epsilon? && threads != []
    requires FramesOk(s, threads, frames) && TopIsAtEnd(s, tls, frames, seg)
    requires s.nextName + 1 < TWO_32 && s.nextStack + 1 + Height(s, tls, now, seg.tid, seg.startTs) < TWO_32
    ensures |frames| == |threads| && s.IsStack(StackAt(tls, seg.tid, seg.startTs))
    ensures var (u, k, r) := WaitCredit(s, m, threads, StackAt(tls, seg.tid, seg.startTs), StatusString(seg.etype),
                                        Duration(seg));
            var charges := WaitCharges(s, tls, frames[|frames| - 1].clean, seg);
            && u.Consistent() && AllInterned(u, charges) && k == Charged(u, m, charges) && FramesBelowOk(u, r, frames)
  {
    var n := |threads| - 1;
    StackAtIsKnown(s, tls, now, seg.tid, seg.startTs);
    hide Store.Consistent, Store.Extends, Store.Functions, Denotes, AllInterned, Charged, PushName, Filled, SymbolsOf,
      StackAt, FramesOk, FramesBelowOk, TimelinesOk;
    TopFrame(s, threads, frames);
    SameIffEmpty(s, threads[n].stack, threads[n].cleanStack, frames[n].clean, Own(s, tls, seg.tid, seg.endTs));
    var top := StackAt(tls, seg.tid, seg.startTs);
    var t, filled, full := s, threads, frames[n].full;
    if threads[n].stack == threads[n].cleanStack {
      full := frames[n].clean + Own(s, tls, seg.tid, seg.startTs);
      FilledAtStart(s, threads, frames, top);
      t, filled := Filled(s, threads, top).0, Filled(s, threads, top).1;
    }
    LabelIsCharged(t, m, filled[n].stack, full, StatusString(seg.etype), Duration(seg));
    FramesKept(t, PushName(t, filled[n].stack, StatusString(seg.etype)).0, filled, frames);
  }

  lemma TopFrame(s: Store, threads: seq<ThreadInfo>, frames: seq<Frame>)
    requires s.Consistent() && FramesOk(s, threads, frames) && threads != []
    ensures |threads| == |frames| && FramesBelowOk(s, threads, frames)
    ensures Denotes(s, threads[|threads| - 1].cleanStack, frames[|frames| - 1].clean)
    ensures Denotes(s, threads[|threads| - 1].stack, frames[|frames| - 1].full)
  {
    hide Store.Consistent, Denotes;
    assert FrameOk(s, threads[|threads| - 1], frames[|threads| - 1]);
  }

  lemma FilledAtStart(s: Store, threads: seq<ThreadInfo>, frames: seq<Frame>, top: StackId)
    requires s.Consistent() && s.IsStack(top) && s.nextStack + |s.Functions(top)| < TWO_32
    requires FramesBelowOk(s, threads, frames)
    ensures var (t, r) := Filled(s, threads, top);
            && t.Consistent() && s.Extends(t) && FramesBelowOk(t, r, frames)
            && t.nextName == s.nextName && t.nextStack <= s.nextStack + |s.Functions(top)| && |r| == |threads|
            && Denotes(t, r[|r| - 1].stack, frames[|frames| - 1].clean + SymbolsOf(s, top))
  {
    hide Store.Consistent, Store.Extends, Store.Functions, Denotes, SymbolsOf, Concat;
    var n := |threads| - 1;
    ConcatDenotesList(s, threads[n].cleanStack, frames[n].clean, top);
    FramesKept(s, Concat(s, threads[n].cleanStack, top).0, threads, frames);
  }

  /** The frames after a thread has been brought to the top, and its stack filled. */
  lemma EnsuredFrames(s: Store, threads: seq<ThreadInfo>, frames: seq<Frame>, base: StackId, tls: Timelines,
                      now: Timestamp, seg: Segment, name: string)
    requires s.Consistent() && TimelinesOk(s, tls, now) && s.IsStack(base) && FramesOk(s, threads, frames)
    requires s.nextName + 1 < TWO_32 && s.nextStack + 1 + Height(s, tls, now, seg.tid, seg.endTs) < TWO_32
    ensures var top := StackAt(tls, seg.tid, seg.endTs);
            var next := FramesNext(s, tls, SymbolsOf(s, base), frames, seg, name);
            var (t, raised) := OnTop(s, threads, base, seg.tid, name);
            && t.Consistent() && t.IsStack(top) && raised != []
            && var (u, r) := Filled(t, raised, top);
               u.Consistent() && FramesOk(u, r, next) && TopIsAtEnd(s, tls, next, seg)
  {
    hide Store.Consistent, Store.Extends, Store.Functions, TimelinesOk, OnTop, Filled, FramesOk, FramesBelowOk,
      SymbolsOf,
      StackAt;
    StackAtIsKnown(s, tls, now, seg.tid, seg.endTs);
    OnTopFrames(s, threads, frames, base, tls, seg, name);
    var (t, raised) := OnTop(s, threads, base, seg.tid, name);
    SymbolsKept(s, t, StackAt(tls, seg.tid, seg.endTs));
    FunctionsKept(s, t, StackAt(tls, seg.tid, seg.endTs));
    BelowIsSome(t, raised, FramesNext(s, tls, SymbolsOf(s, base), frames, seg, name));
    FilledFrames(t, raised, FramesNext(s, tls, SymbolsOf(s, base), frames, seg, name),
                 StackAt(tls, seg.tid, seg.endTs));
  }

  /** They are so again when the top thread's stack has been filled again. */
  lemma RefilledFrames(s: Store, u: Store, tls: Timelines, now: Timestamp, threads: seq<ThreadInfo>,
                       frames: seq<Frame>, seg: Segment)
    requires s.Consistent() && u.Consistent() && s.Extends(u) && TimelinesOk(s, tls, now) && TimelinesOk(u, tls, now)
    requires FramesBelowOk(u, threads, frames) && TopIsAtEnd(s, tls, frames, seg)
    requires u.nextStack + Height(u, tls, now, seg.tid, seg.endTs) < TWO_32
    ensures u.IsStack(StackAt(tls, seg.tid, seg.endTs))
    ensures threads != []
    ensures var (t, r) := Filled(u, threads, StackAt(tls, seg.tid, seg.endTs)); t.Consistent() && FramesOk(t, r, frames)
  {
    hide Store.Consistent, Store.Extends, Store.Functions, TimelinesOk, Filled, FramesOk, FramesBelowOk, SymbolsOf,
      StackAt;
    StackAtIsKnown(s, tls, now, seg.tid, seg.endTs);
    SymbolsKept(s, u, StackAt(tls, seg.tid, seg.endTs));
    BelowIsSome(u, threads, frames);
    FilledFrames(u, threads, frames, StackAt(tls, seg.tid, seg.endTs));
  }

  lemma BelowIsSome(s: Store, threads: seq<ThreadInfo>, frames: seq<Frame>)
    requires s.Consistent() && FramesBelowOk(s, threads, frames)
    ensures threads != []
  {
  }

  lemma KnownAreContiguous(s: Store, tls: Timelines, now: Timestamp)
    requires TimelinesOk(s, tls, now)
    ensures AllContiguous(tls) && forall tid: ThreadId :: Contiguous(TimelineOf(tls, tid))
  {
    hide Contiguous;
    NothingIsUpTo(now);
  }

  lemma NoCharge(s: Store, m: Samples)
    requires s.Consistent()
    ensures AllInterned(s, []) && Charged(s, m, []) == m
  {
  }

  // ----- What later stores keep

  lemma OwnKept(s: Store, t: Store, tls: Timelines, now: Timestamp, tid: ThreadId, at: Timestamp)
    requires s.Consistent() && t.Consistent() && s.Extends(t) && TimelinesOk(s, tls, now)
    ensures Own(t, tls, tid, at) == Own(s, tls, tid, at)
  {
    hide Store.Consistent, Store.Extends, TimelinesOk, SymbolsOf, StackAt;
    StackAtIsKnown(s, tls, now, tid, at);
    SymbolsKept(s, t, StackAt(tls, tid, at));
  }

  lemma SegmentChargesKept(s: Store, t: Store, tls: Timelines, now: Timestamp, clean: Symbols, seg: Segment)
    requires s.Consistent() && t.Consistent() && s.Extends(t) && TimelinesOk(s, tls, now)
    requires Contiguous(TimelineOf(tls, seg.tid))
    ensures SegmentCharges(t, tls, clean, seg) == SegmentCharges(s, tls, clean, seg)
  {
    hide Store.Consistent, Store.Extends, TimelinesOk, Own, Contiguous, Enumerate, CallCharges, TimelineOk;
    OwnKept(s, t, tls, now, seg.tid, seg.startTs);
    OwnKept(s, t, tls, now, seg.tid, seg.endTs);
    RunStacksKnown(s, tls, now, seg);
    CallChargesKept(s, t, clean, Enumerate(TimelineOf(tls, seg.tid), seg.startTs, seg.endTs));
  }

  lemma RunStacksKnown(s: Store, tls: Timelines, now: Timestamp, seg: Segment)
    requires TimelinesOk(s, tls, now) && Contiguous(TimelineOf(tls, seg.tid))
    ensures var calls := Enumerate(TimelineOf(tls, seg.tid), seg.startTs, seg.endTs);
            forall i | 0 <= i < |calls| :: s.IsStack(calls[i].stackId)
  {
    hide TimelineOk, Contiguous, Enumerate;
    SampledStacksKnown(s, TimelineOf(tls, seg.tid), now, seg.startTs, seg.endTs);
  }

  lemma FramesNextKept(s: Store, t: Store, tls: Timelines, now: Timestamp, base: StackId, frames: seq<Frame>,
                       seg: Segment, name: string)
    requires s.Consistent() && t.Consistent() && s.Extends(t) && TimelinesOk(s, tls, now) && s.IsStack(base)
    ensures FramesNext(t, tls, SymbolsOf(t, base), frames, seg, name)
         == FramesNext(s, tls, SymbolsOf(s, base), frames, seg, name)
  {
    hide Store.Consistent, Store.Extends, TimelinesOk, Own, SymbolsOf;
    OwnKept(s, t, tls, now, seg.tid, seg.endTs);
    SymbolsKept(s, t, base);
  }

  /** What the extension of a path by one segment adds. */
  lemma NextSegment(s: Store, tls: Timelines, base: Symbols, path: Path, i: nat, name: ThreadId -> string)
    requires i < |path| && AllContiguous(tls) && Contiguous(TimelineOf(tls, path[i].tid))
    ensures var frames, seg := FramesAfter(s, tls, base, path[..i], name), path[i];
            var next := FramesNext(s, tls, base, frames, seg, name(seg.tid));
            && FramesAfter(s, tls, base, path[..i + 1], name) == next
            && PathCharges(s, tls, base, path[..i + 1], name)
               == PathCharges(s, tls, base, path[..i], name) + SegmentCharges(s, tls, next[|next| - 1].clean, seg)
  {
    hide SegmentCharges, FramesNext, Contiguous;
    assert path[..i + 1][..i] == path[..i] && Last(path[..i + 1]) == path[i];
  }

  lemma NothingIsCharged(s: Store, m: Samples, tls: Timelines, base: Symbols, path: Path, name: ThreadId -> string)
    requires s.Consistent() && AllContiguous(tls)
    ensures path[..0] == [] && FramesOk(s, [], FramesAfter(s, tls, base, path[..0], name))
    ensures AllInterned(s, PathCharges(s, tls, base, path[..0], name))
    ensures Charged(s, m, PathCharges(s, tls, base, path[..0], name)) == m
  {
  }

  lemma StillAtEnd(s: Store, t: Store, tls: Timelines, frames: seq<Frame>, seg: Segment)
    requires TopIsAtEnd(s, tls, frames, seg) && Own(t, tls, seg.tid, seg.endTs) == Own(s, tls, seg.tid, seg.endTs)
    ensures TopIsAtEnd(t, tls, frames, seg)
  {
  }

  /** What a segment is charged to, by its type. */
  lemma KindsOfCharges(s: Store, tls: Timelines, now: Timestamp, clean: Symbols, seg: Segment)
    requires TimelinesOk(s, tls, now) && seg.startTs <= seg.endTs < TWO_64 && !seg.etype.Epsilon?
    ensures Contiguous(TimelineOf(tls, seg.tid))
    ensures var charges, calls := SegmentCharges(s, tls, clean, seg),
                                  Enumerate(TimelineOf(tls, seg.tid), seg.startTs, seg.endTs);
            charges == if seg.etype.Run? then SampleCharges(s, clean, calls, seg.endTs - seg.startTs)
                       else if OnOwnStack(seg.etype) then WaitCharges(s, tls, clean, seg)
                       else [Charge(clean + [Label(StatusString(seg.etype))], Sub64(seg.endTs, seg.startTs))]
  {
    hide TimelinesOk, Contiguous, SampleCharges, WaitCharges, Enumerate;
    KnownAreContiguous(s, tls, now);
    DurationOf(seg);
  }

  /** Time goes forward within a segment, and a run segment ends no later than its thread's timeline. */
  predicate SegmentOk(seg: Segment, tls: Timelines) {
    && seg.startTs <= seg.endTs < TWO_64 && !seg.etype.BlockDevice? && !seg.etype.WaitCpu?
    && var tl := TimelineOf(tls, seg.tid);
       seg.etype.Run? && tl != [] ==> seg.endTs <= EndOf(tl)
  }

  lemma DurationIs(start: Timestamp, end: Timestamp)
    requires start <= end < TWO_64
    ensures Sub64(end, start) == end - start
  {
  }

  lemma RunRoom(s: Store, tls: Timelines, now: Timestamp, seg: Segment)
    requires s.Consistent() && TimelinesOk(s, tls, now) && s.nextStack + RunCells(s, tls, now, seg) + 1 < TWO_32
    ensures Contiguous(TimelineOf(tls, seg.tid)) && RoomFor(s, TimelineOf(tls, seg.tid), seg.startTs, seg.endTs)
    ensures seg.tid !in tls || CallsOk(s, EMPTY_STACK, Enumerate(tls[seg.tid], seg.startTs, seg.endTs))
  {
    hide Store.Consistent, TimelineOk, CellsNeeded;
    SampledStacksKnown(s, TimelineOf(tls, seg.tid), now, seg.startTs, seg.endTs);
  }

  lemma EnumeratedIs(tls: Timelines, thread: ThreadId, start: Timestamp, end: Timestamp, calls: seq<Sample>)
    requires AllContiguous(tls)
    requires if thread in tls then calls == Enumerate(tls[thread], start, end) else calls == []
    ensures Contiguous(TimelineOf(tls, thread)) && calls == Enumerate(TimelineOf(tls, thread), start, end)
  {
    TimelineIsContiguous(tls, thread);
    hide Contiguous;
  }

  lemma TimelineIsKnown(s: Store, tls: Timelines, now: Timestamp, thread: ThreadId)
    requires TimelinesOk(s, tls, now)
    ensures TimelineOf(tls, thread) == [] || TimelineOk(s, TimelineOf(tls, thread), now)
  {
  }

  lemma StartOfPath(path: Path)
    ensures path[0..] == path && PathCoverage.AccountedTime(path[..0]) == 0
  {
  }

  lemma PathStep(s: Store, tls: Timelines, now: Timestamp, path: Path, i: nat)
    requires s.Consistent() && TimelinesOk(s, tls, now) && i < |path|
    ensures PathCells(s, tls, now, path[i..])
              == SegmentCells(s, tls, now, path[i]) + PathCells(s, tls, now, path[i + 1..])
    ensures PathCoverage.AccountedTime(path[..i + 1]) ==
            PathCoverage.AccountedTime(path[..i])
            + if path[i].etype.Epsilon? then 0 else Sub64(path[i].endTs, path[i].startTs)
  {
    assert path[i..][0] == path[i] && path[i..][1..] == path[i + 1..];
    assert path[..i + 1][..i] == path[..i] && Last(path[..i + 1]) == path[i];
  }

  lemma StackKept(s: Store, t: Store, id: StackId)
    requires s.Extends(t) && s.IsStack(id)
    ensures t.IsStack(id)
  {
  }

  lemma DepthIs(threads: seq<ThreadInfo>, tid: ThreadId, d: nat)
    requires d <= |threads| && (d < |threads| ==> threads[d].tid == tid)
    requires forall i | 0 <= i < d :: threads[i].tid != tid
    ensures DepthOf(threads, tid) == d
  {
  }

  lemma TimelinesStillOk(s: Store, t: Store, tls: Timelines, now: Timestamp)
    requires s.Extends(t) && TimelinesOk(s, tls, now)
    ensures TimelinesOk(t, tls, now)
  {
    TimelinesKept(s, t, tls, now);
  }

  lemma FilledKeepsTop(s: Store, threads: seq<ThreadInfo>, tid: ThreadId)
    requires s.Consistent() && threads != [] && threads[|threads| - 1].tid == tid
    ensures forall top | s.IsStack(top) :: Filled(s, threads, top).1 != [] && |Filled(s, threads, top).1| == |threads|
                                           && Filled(s, threads, top).1[|threads| - 1].tid == tid
  {
  }

  lemma CacheExtended(s: Store, cache: Cache, bottom: StackId, top: StackId, id: StackId)
    requires s.Consistent() && CacheOk(s, cache) && s.IsStack(bottom) && s.IsStack(top) && s.IsStack(id)
    requires s.Functions(id) == s.Functions(bottom) + s.Functions(top)
    ensures CacheOk(s, cache[(bottom, top) := id])
  {
    hide Store.Consistent, Store.Functions;
  }

  lemma SampledStacksKnown(s: Store, tl: Timeline, now: Timestamp, start: Timestamp, end: Timestamp)
    requires tl == [] || TimelineOk(s, tl, now)
    ensures Contiguous(tl)
    ensures forall i | 0 <= i < |Enumerate(tl, start, end)| :: s.IsStack(Enumerate(tl, start, end)[i].stackId)
  {
    SamplesAreOfTimeline(tl, StartIndex(tl, start), start, end);
    var calls := Enumerate(tl, start, end);
    hide Enumerate, Contiguous;
    forall i | 0 <= i < |calls|
      ensures s.IsStack(calls[i].stackId)
    {
      assert calls[i] in calls;
    }
  }
}
