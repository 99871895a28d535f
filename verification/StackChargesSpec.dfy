/**
  Which stacks a critical path is charged to, as lists of functions: whose stacks they are, what they are put on, and
  for how long. How identifiers stand for such lists.
 */
module StackChargesSpec {
  import opened Common
  import opened HashConsSpec
  import opened StackTimelineSpec
  import opened StackLogSpec
  import opened Executions
  import opened CriticalGraphs
  import opened PathSpec
  import opened ExtractMetrics

  /** A function on a stack: a label by its name, or a function of the trace by its identifier. */
  datatype Symbol = Label(name: string) | Called(f: FunctionId)

  type Symbols = seq<Symbol>

  datatype Charge = Charge(stack: Symbols, time: nat)

  // ----- Identifiers of lists

  predicate Reads(s: Store, f: FunctionId, symbol: Symbol) {
    if symbol.Label? then f in s.names && s.names[f] == symbol.name else f == symbol.f
  }

  /** The functions of the stack, bottom first, are the list. */
  ghost predicate Denotes(s: Store, id: StackId, l: Symbols)
    requires s.Consistent()
  {
    s.IsStack(id) && |s.Functions(id)| == |l| && forall i | 0 <= i < |l| :: Reads(s, s.Functions(id)[i], l[i])
  }

  /** A list has one identifier. */
  lemma DenotesOne(s: Store, a: StackId, b: StackId, l: Symbols)
    requires s.Consistent() && Denotes(s, a, l) && Denotes(s, b, l)
    ensures a == b
  {
    assert forall f <- s.names, g <- s.names | s.names[f] == s.names[g] :: f == g;
    hide Store.Consistent, Store.Functions;
    assert s.Functions(a) == s.Functions(b);
    FunctionsInjective(s, a, b);
  }

  lemma DenotesKept(s: Store, t: Store, id: StackId, l: Symbols)
    requires s.Consistent() && t.Consistent() && s.Extends(t) && Denotes(s, id, l)
    ensures Denotes(t, id, l)
  {
    FunctionsKept(s, t, id);
    hide Store.Consistent, Store.Functions;
  }

  ghost predicate Interned(s: Store, l: Symbols)
    requires s.Consistent()
  {
    exists id: StackId :: Denotes(s, id, l)
  }

  /** The identifier of a list, if it has one. */
  ghost function IdOf(s: Store, l: Symbols): (id: StackId)
    requires s.Consistent()
    ensures Interned(s, l) ==> Denotes(s, id, l)
  {
    if Interned(s, l) then var a: StackId :| Denotes(s, a, l); a else EMPTY_STACK
  }

  lemma IdIs(s: Store, id: StackId, l: Symbols)
    requires s.Consistent() && Denotes(s, id, l)
    ensures IdOf(s, l) == id
  {
    hide Store.Consistent, Denotes;
    DenotesOne(s, id, IdOf(s, l), l);
  }

  /** The list of a stack of the trace. */
  ghost function SymbolsOf(s: Store, id: StackId): Symbols {
    if s.Consistent() && s.IsStack(id) then
      seq(|s.Functions(id)|, i requires 0 <= i < |s.Functions(id)| => Called(s.Functions(id)[i]))
    else []
  }

  lemma SymbolsDenote(s: Store, id: StackId)
    requires s.Consistent() && s.IsStack(id)
    ensures Denotes(s, id, SymbolsOf(s, id)) && |SymbolsOf(s, id)| == |s.Functions(id)|
  {
    hide Store.Consistent, Store.Functions;
  }

  lemma SymbolsKept(s: Store, t: Store, id: StackId)
    requires s.Consistent() && t.Consistent() && s.Extends(t) && s.IsStack(id)
    ensures t.IsStack(id) && SymbolsOf(t, id) == SymbolsOf(s, id)
  {
    FunctionsKept(s, t, id);
    hide Store.Consistent, Store.Functions, Store.Extends;
  }

  lemma JoinDenotes(s: Store, id: StackId, bottom: StackId, l: Symbols, fs: seq<FunctionId>, m: Symbols)
    requires s.Consistent() && Denotes(s, bottom, l) && s.IsStack(id) && s.Functions(id) == s.Functions(bottom) + fs
    requires |fs| == |m| && forall i | 0 <= i < |fs| :: Reads(s, fs[i], m[i])
    ensures Denotes(s, id, l + m)
  {
    hide Store.Consistent, Store.Functions, Reads;
  }

  lemma PushNameDenotesList(s: Store, bottom: StackId, l: Symbols, name: string)
    requires s.Consistent() && Denotes(s, bottom, l) && s.nextName + 1 < TWO_32 && s.nextStack + 1 < TWO_32
    ensures var (t, id) := PushName(s, bottom, name);
            && t.Consistent() && s.Extends(t) && Denotes(t, id, l + [Label(name)])
            && t.nextName <= s.nextName + 1 && t.nextStack <= s.nextStack + 1
  {
    AddNameConsistent(s, name);
    var (u, f) := s.AddName(name);
    hide Store.Consistent, Store.Extends, Store.Functions, Store.AddName, Store.AddStack, Denotes;
    DenotesIsStack(s, bottom, l);
    DenotesKept(s, u, bottom, l);
    DenotesIsStack(u, bottom, l);
    AddStackConsistent(u, Stack(f, bottom));
    AddStackDenotes(u, Stack(f, bottom));
    var (t, id) := u.AddStack(Stack(f, bottom));
    DenotesKept(u, t, bottom, l);
    FunctionsKept(u, t, bottom);
    ExtendsTransitive(s, u, t);
    JoinDenotes(t, id, bottom, l, [f], [Label(name)]);
  }

  lemma DenotesIsStack(s: Store, id: StackId, l: Symbols)
    requires s.Consistent() && Denotes(s, id, l)
    ensures s.IsStack(id)
  {
  }

  lemma ConcatDenotesList(s: Store, bottom: StackId, l: Symbols, top: StackId)
    requires s.Consistent() && Denotes(s, bottom, l) && s.IsStack(top) && s.nextStack + |s.Functions(top)| < TWO_32
    ensures var (t, id) := Concat(s, bottom, top);
            && t.Consistent() && s.Extends(t) && Denotes(t, id, l + SymbolsOf(s, top))
            && t.nextName == s.nextName && t.nextStack <= s.nextStack + |s.Functions(top)|
  {
    hide Store.Consistent, Store.Extends, Store.Push, Store.Functions, Denotes;
    DenotesIsStack(s, bottom, l);
    PushAppends(s, bottom, s.Functions(top));
    var (t, id) := Concat(s, bottom, top);
    DenotesKept(s, t, bottom, l);
    FunctionsKept(s, t, bottom);
    JoinDenotes(t, id, bottom, l, s.Functions(top), SymbolsOf(s, top));
  }

  // ----- Samples charged

  /** The samples with the charges added, in their order. */
  ghost function Charged(s: Store, m: Samples, charges: seq<Charge>): Samples
    requires s.Consistent()
    decreases |charges|
  {
    if charges == [] then m
    else Charged(s, Increment(m, IdOf(s, charges[0].stack), charges[0].time), charges[1..])
  }

  /** Every list charged has its identifier. */
  ghost predicate AllInterned(s: Store, charges: seq<Charge>)
    requires s.Consistent()
  {
    forall i | 0 <= i < |charges| :: Interned(s, charges[i].stack)
  }

  lemma InternedKept(s: Store, t: Store, l: Symbols)
    requires s.Consistent() && t.Consistent() && s.Extends(t) && Interned(s, l)
    ensures Interned(t, l) && IdOf(t, l) == IdOf(s, l)
  {
    hide Store.Consistent, Store.Extends, Denotes;
    DenotesKept(s, t, IdOf(s, l), l);
    IdIs(t, IdOf(s, l), l);
  }

  lemma {:induction false} ChargedKept(s: Store, t: Store, m: Samples, charges: seq<Charge>)
    requires s.Consistent() && t.Consistent() && s.Extends(t) && AllInterned(s, charges)
    ensures AllInterned(t, charges) && Charged(t, m, charges) == Charged(s, m, charges)
    decreases |charges|
  {
    hide Store.Consistent, Store.Extends, Interned, IdOf;
    if charges != [] {
      InternedKept(s, t, charges[0].stack);
      assert AllInterned(s, charges[1..]);
      ChargedKept(s, t, Increment(m, IdOf(s, charges[0].stack), charges[0].time), charges[1..]);
      assert forall i | 0 < i < |charges| :: charges[i] == charges[1..][i - 1];
    }
  }

  lemma {:induction false} ChargedMore(s: Store, m: Samples, first: seq<Charge>, then_: seq<Charge>)
    requires s.Consistent()
    ensures Charged(s, m, first + then_) == Charged(s, Charged(s, m, first), then_)
    decreases |first|
  {
    hide Store.Consistent, IdOf;
    if first == [] {
      assert first + then_ == then_;
    } else {
      assert (first + then_)[1..] == first[1..] + then_;
      ChargedMore(s, Increment(m, IdOf(s, first[0].stack), first[0].time), first[1..], then_);
    }
  }

  // ----- Whose stacks

  type Timelines = map<ThreadId, Timeline>

  /** The stack of a thread at a time. */
  function StackAt(tls: Timelines, tid: ThreadId, t: Timestamp): StackId { LinearScan(TimelineOf(tls, tid), t) }

  ghost function Own(s: Store, tls: Timelines, tid: ThreadId, t: Timestamp): Symbols {
    SymbolsOf(s, StackAt(tls, tid, t))
  }

  /** A thread that the path is on, or came from: what it was put on with its label, and that with its own stack. */
  datatype Frame = Frame(tid: ThreadId, clean: Symbols, full: Symbols)

  function DepthIn(frames: seq<Frame>, tid: ThreadId): (d: nat)
    ensures d <= |frames| && (d < |frames| ==> frames[d].tid == tid)
    ensures forall i | 0 <= i < d :: frames[i].tid != tid
  {
    if frames == [] || frames[0].tid == tid then 0 else 1 + DepthIn(frames[1..], tid)
  }

  function ThreadLabel(name: string): Symbol { Label("[thread " + name + "]") }

  ghost function FramesNext(s: Store, tls: Timelines, base: Symbols, frames: seq<Frame>, seg: Segment, name: string)
    : (r: seq<Frame>)
    ensures r != []
  {
    var d, own := DepthIn(frames, seg.tid), Own(s, tls, seg.tid, seg.endTs);
    if d < |frames| then frames[..d] + [Frame(seg.tid, frames[d].clean, frames[d].clean + own)]
    else
      var below := if frames == [] then base else frames[|frames| - 1].full;
      var clean := below + [ThreadLabel(name)];
      frames + [Frame(seg.tid, clean, clean + own)]
  }

  ghost function FramesAfter(s: Store, tls: Timelines, base: Symbols, path: Path, name: ThreadId -> string): seq<Frame>
  {
    if path == [] then []
    else FramesNext(s, tls, base, FramesAfter(s, tls, base, path[..|path| - 1], name), Last(path), name(Last(path).tid))
  }

  /** What the thread of a segment was put on, with its label. */
  ghost function CleanAt(s: Store, tls: Timelines, base: Symbols, path: Path, name: ThreadId -> string): Symbols
    requires path != []
  {
    var frames := FramesAfter(s, tls, base, path, name);
    frames[|frames| - 1].clean
  }

  // ----- What a segment is charged to

  function Duration(seg: Segment): nat { Sub64(seg.endTs, seg.startTs) }

  lemma DurationOf(seg: Segment)
    requires seg.startTs <= seg.endTs < TWO_64
    ensures Duration(seg) == seg.endTs - seg.startTs
  {
  }

  /** Samples of a run, each on top of the clean stack. */
  ghost function CallCharges(s: Store, clean: Symbols, calls: seq<Sample>): seq<Charge> {
    if calls == [] then []
    else [Charge(clean + SymbolsOf(s, calls[0].stackId), calls[0].duration)] + CallCharges(s, clean, calls[1..])
  }

  /** Samples of a run; time that they do not account for is on no stack of the thread. */
  ghost function SampleCharges(s: Store, clean: Symbols, calls: seq<Sample>, duration: nat): seq<Charge> {
    CallCharges(s, clean, calls)
    + if Total(calls) < duration then [Charge(clean + [Label("No stack")], duration - Total(calls))] else []
  }

  ghost function RunCharges(s: Store, tls: Timelines, clean: Symbols, seg: Segment): seq<Charge>
    requires Contiguous(TimelineOf(tls, seg.tid))
  {
    SampleCharges(s, clean, Enumerate(TimelineOf(tls, seg.tid), seg.startTs, seg.endTs), Duration(seg))
  }

  /** A wait is charged to its status on the thread's stack at its end, or if there is none then at its start. */
  ghost function WaitCharges(s: Store, tls: Timelines, clean: Symbols, seg: Segment): seq<Charge>
    requires !seg.etype.Epsilon?
  {
    var own := if Own(s, tls, seg.tid, seg.endTs) != [] then Own(s, tls, seg.tid, seg.endTs)
               else Own(s, tls, seg.tid, seg.startTs);
    [Charge(clean + own + [Label(StatusString(seg.etype))], Duration(seg))]
  }

  predicate OnOwnStack(etype: EdgeType) { etype.WaitBlocked? || etype.Timer? || etype.Network? || etype.UserInput? }

  ghost function SegmentCharges(s: Store, tls: Timelines, clean: Symbols, seg: Segment): seq<Charge>
    requires Contiguous(TimelineOf(tls, seg.tid))
  {
    if seg.etype.Epsilon? then []
    else if seg.etype.Run? then RunCharges(s, tls, clean, seg)
    else if OnOwnStack(seg.etype) then WaitCharges(s, tls, clean, seg)
    else [Charge(clean + [Label(StatusString(seg.etype))], Duration(seg))]
  }

  lemma TimelineIsContiguous(tls: Timelines, tid: ThreadId)
    requires AllContiguous(tls)
    ensures Contiguous(TimelineOf(tls, tid))
  {
  }

  ghost function PathCharges(s: Store, tls: Timelines, base: Symbols, path: Path, name: ThreadId -> string): seq<Charge>
    requires AllContiguous(tls)
  {
    if path == [] then []
    else
      TimelineIsContiguous(tls, Last(path).tid);
      PathCharges(s, tls, base, path[..|path| - 1], name)
      + SegmentCharges(s, tls, CleanAt(s, tls, base, path, name), Last(path))
  }

  // ----- Frames

  /** The thread of the last segment is on top, with its stack of the end of that segment. */
  lemma TopIs(s: Store, tls: Timelines, base: Symbols, path: Path, name: ThreadId -> string)
    requires path != []
    ensures var frames := FramesAfter(s, tls, base, path, name);
            var top := frames[|frames| - 1];
            && top.tid == Last(path).tid && top.clean == CleanAt(s, tls, base, path, name)
            && top.full == top.clean + Own(s, tls, Last(path).tid, Last(path).endTs)
  {
  }

  function Tids(frames: seq<Frame>): (r: seq<ThreadId>)
    ensures |r| == |frames| && forall i | 0 <= i < |r| :: r[i] == frames[i].tid
  {
    seq(|frames|, i requires 0 <= i < |frames| => frames[i].tid)
  }

  ghost predicate Distinct(tids: seq<ThreadId>) { forall i, j | 0 <= i < j < |tids| :: tids[i] != tids[j] }

  lemma DepthMeans(frames: seq<Frame>, tid: ThreadId)
    ensures DepthIn(frames, tid) == |frames| <==> tid !in Tids(frames)
  {
    if DepthIn(frames, tid) < |frames| { assert Tids(frames)[DepthIn(frames, tid)] == tid; }
  }

  lemma NextTids(s: Store, tls: Timelines, base: Symbols, frames: seq<Frame>, seg: Segment, name: string)
    ensures Tids(FramesNext(s, tls, base, frames, seg, name)) ==
            if seg.tid in Tids(frames) then Tids(frames)[..DepthIn(frames, seg.tid) + 1] else Tids(frames) + [seg.tid]
  {
    DepthMeans(frames, seg.tid);
    hide Own, DepthIn;
  }

  /** Going back to a thread leaves those that came after it; another thread comes on top. */
  lemma FramesNest(s: Store, tls: Timelines, base: Symbols, path: Path, name: ThreadId -> string)
    requires path != []
    ensures var before := Tids(FramesAfter(s, tls, base, path[..|path| - 1], name));
            var after, tid := Tids(FramesAfter(s, tls, base, path, name)), Last(path).tid;
            if tid in before then after <= before && after != [] && after[|after| - 1] == tid
            else after == before + [tid]
  {
    var frames := FramesAfter(s, tls, base, path[..|path| - 1], name);
    NextTids(s, tls, base, frames, Last(path), name(Last(path).tid));
    DepthMeans(frames, Last(path).tid);
    hide FramesNext, Own;
  }

  lemma {:induction false} FramesDiffer(s: Store, tls: Timelines, base: Symbols, path: Path, name: ThreadId -> string)
    ensures Distinct(Tids(FramesAfter(s, tls, base, path, name)))
  {
    if path != [] {
      var init := path[..|path| - 1];
      FramesDiffer(s, tls, base, init, name);
      NextTids(s, tls, base, FramesAfter(s, tls, base, init, name), Last(path), name(Last(path).tid));
      hide FramesNext, DepthIn;
    }
  }

  /** A thread that the path comes to is put on the stack that the one before it has then. */
  lemma ComesOnTop(s: Store, tls: Timelines, base: Symbols, path: Path, name: ThreadId -> string)
    requires path != [] && Last(path).tid !in Tids(FramesAfter(s, tls, base, path[..|path| - 1], name))
    ensures var init := path[..|path| - 1];
            var below := if init == [] then base
                         else CleanAt(s, tls, base, init, name) + Own(s, tls, Last(init).tid, Last(init).endTs);
            CleanAt(s, tls, base, path, name) == below + [ThreadLabel(name(Last(path).tid))]
  {
    var init := path[..|path| - 1];
    var frames := FramesAfter(s, tls, base, init, name);
    if init != [] { TopIs(s, tls, base, init, name); }
    DepthMeans(frames, Last(path).tid);
    hide Own, DepthIn, Tids;
  }

  /** A frame is as it was when the path was last on its thread. */
  lemma {:induction false} FrameStays(s: Store, tls: Timelines, base: Symbols, path: Path, name: ThreadId -> string,
                                      j: nat, i: nat)
    requires j < |path| && forall k | j < k < |path| :: path[k].tid != path[j].tid
    requires var frames := FramesAfter(s, tls, base, path, name); i < |frames| && frames[i].tid == path[j].tid
    ensures FramesAfter(s, tls, base, path, name)[i].clean == CleanAt(s, tls, base, path[..j + 1], name)
    decreases |path|
  {
    var init := path[..|path| - 1];
    if j == |path| - 1 {
      assert path[..j + 1] == path;
      FramesDiffer(s, tls, base, path, name);
      TopIs(s, tls, base, path, name);
      var tids := Tids(FramesAfter(s, tls, base, path, name));
      assert tids[i] == tids[|tids| - 1];
    } else {
      assert init[..j + 1] == path[..j + 1];
      NextKeeps(s, tls, base, FramesAfter(s, tls, base, init, name), Last(path), name(Last(path).tid), i);
      FrameStays(s, tls, base, init, name, j, i);
    }
  }

  lemma NextKeeps(s: Store, tls: Timelines, base: Symbols, frames: seq<Frame>, seg: Segment, name: string, i: nat)
    requires i < |FramesNext(s, tls, base, frames, seg, name)|
    requires FramesNext(s, tls, base, frames, seg, name)[i].tid != seg.tid
    ensures i < |frames| && FramesNext(s, tls, base, frames, seg, name)[i] == frames[i]
  {
    hide Own, DepthIn;
  }

  /** Going back to a thread is going back to what it was put on. */
  lemma GoesBack(s: Store, tls: Timelines, base: Symbols, path: Path, name: ThreadId -> string, j: nat)
    requires j < |path| - 1 && path[j].tid == Last(path).tid
    requires forall k | j < k < |path| - 1 :: path[k].tid != path[j].tid
    requires Last(path).tid in Tids(FramesAfter(s, tls, base, path[..|path| - 1], name))
    ensures CleanAt(s, tls, base, path, name) == CleanAt(s, tls, base, path[..j + 1], name)
  {
    var init := path[..|path| - 1];
    var frames := FramesAfter(s, tls, base, init, name);
    var d := DepthIn(frames, Last(path).tid);
    DepthMeans(frames, Last(path).tid);
    assert init[..j + 1] == path[..j + 1];
    hide Own, DepthIn, Tids;
    assert CleanAt(s, tls, base, path, name) == frames[d].clean;
    hide FramesAfter, FramesNext, CleanAt;
    FrameStays(s, tls, base, init, name, j, d);
  }

  // ----- Charges

  function TimeOf(charges: seq<Charge>): nat {
    if charges == [] then 0 else charges[0].time + TimeOf(charges[1..])
  }

  /** The time charged to one stack. */
  function TimeTo(charges: seq<Charge>, l: Symbols): nat {
    if charges == [] then 0
    else (if charges[0].stack == l then charges[0].time else 0) + TimeTo(charges[1..], l)
  }

  lemma {:induction false} TimesAdd(first: seq<Charge>, last: seq<Charge>, l: Symbols)
    ensures TimeOf(first + last) == TimeOf(first) + TimeOf(last)
    ensures TimeTo(first + last, l) == TimeTo(first, l) + TimeTo(last, l)
    decreases |first|
  {
    if first == [] {
      assert first + last == last;
    } else {
      assert (first + last)[1..] == first[1..] + last;
      TimesAdd(first[1..], last, l);
    }
  }

  lemma {:induction false} CallTimes(s: Store, clean: Symbols, calls: seq<Sample>)
    ensures TimeOf(CallCharges(s, clean, calls)) == Total(calls)
    ensures forall i | 0 <= i < |CallCharges(s, clean, calls)| :: clean <= CallCharges(s, clean, calls)[i].stack
    decreases |calls|
  {
    if calls != [] {
      CallTimes(s, clean, calls[1..]);
      assert CallCharges(s, clean, calls)[1..] == CallCharges(s, clean, calls[1..]);
    }
  }

  lemma RunTimes(s: Store, clean: Symbols, calls: seq<Sample>, duration: nat, l: Symbols)
    requires Total(calls) <= duration
    ensures var charges := SampleCharges(s, clean, calls, duration);
            && TimeOf(charges) == duration
            && (forall i | 0 <= i < |charges| :: clean <= charges[i].stack)
            && (l != clean + [Label("No stack")] ==> TimeTo(charges, l) == TimeTo(CallCharges(s, clean, calls), l))
  {
    CallTimes(s, clean, calls);
    var rest := if Total(calls) < duration then [Charge(clean + [Label("No stack")], duration - Total(calls))] else [];
    TimesAdd(CallCharges(s, clean, calls), rest, l);
    hide Total, CallCharges;
    assert rest != [] ==> rest[1..] == [];
  }

  /** A segment is charged, to its last instant, to stacks that stand on what its thread was put on. */
  lemma SegmentIsCharged(s: Store, tls: Timelines, clean: Symbols, seg: Segment)
    requires var tl := TimelineOf(tls, seg.tid);
             Contiguous(tl) && (seg.etype.Run? && tl != [] ==> seg.endTs <= EndOf(tl))
    requires seg.startTs <= seg.endTs < TWO_64
    ensures var charges := SegmentCharges(s, tls, clean, seg);
            && TimeOf(charges) == (if seg.etype.Epsilon? then 0 else seg.endTs - seg.startTs)
            && forall i | 0 <= i < |charges| :: clean <= charges[i].stack
  {
    if seg.etype.Run? {
      RunIsWhole(s, tls, clean, seg);
    } else if !seg.etype.Epsilon? {
      WaitIsCharged(s, tls, clean, seg);
    }
    hide Own, RunCharges;
  }

  lemma RunIsWhole(s: Store, tls: Timelines, clean: Symbols, seg: Segment)
    requires var tl := TimelineOf(tls, seg.tid); Contiguous(tl) && (tl != [] ==> seg.endTs <= EndOf(tl))
    requires seg.startTs <= seg.endTs < TWO_64
    ensures var charges := RunCharges(s, tls, clean, seg);
            TimeOf(charges) == seg.endTs - seg.startTs && forall i | 0 <= i < |charges| :: clean <= charges[i].stack
  {
    var tl := TimelineOf(tls, seg.tid);
    hide Contiguous, Enumerate, EndOf, Total, Duration, SampleCharges, TimeOf;
    DurationOf(seg);
    RunSegmentIsAccounted(tl, seg.startTs, seg.endTs);
    RunTimes(s, clean, Enumerate(tl, seg.startTs, seg.endTs), Duration(seg), []);
  }

  lemma SymbolsDiffer(s: Store, a: StackId, b: StackId)
    requires s.Consistent() && s.IsStack(a) && s.IsStack(b) && SymbolsOf(s, a) == SymbolsOf(s, b)
    ensures a == b
  {
    SymbolsDenote(s, a);
    SymbolsDenote(s, b);
    hide Store.Consistent, Store.Functions, SymbolsOf;
    DenotesOne(s, a, b, SymbolsOf(s, a));
  }

  lemma {:induction false} CallTimesTo(s: Store, clean: Symbols, calls: seq<Sample>, id: StackId)
    requires s.Consistent() && s.IsStack(id) && forall i | 0 <= i < |calls| :: s.IsStack(calls[i].stackId)
    ensures TimeTo(CallCharges(s, clean, calls), clean + SymbolsOf(s, id)) == TimeOn(calls, id)
    decreases |calls|
  {
    hide Store.Consistent, SymbolsOf;
    if calls != [] {
      CallTimesTo(s, clean, calls[1..], id);
      var charges := CallCharges(s, clean, calls);
      assert charges[1..] == CallCharges(s, clean, calls[1..]);
      if charges[0].stack == clean + SymbolsOf(s, id) {
        assert SymbolsOf(s, calls[0].stackId) == charges[0].stack[|clean|..] == SymbolsOf(s, id);
        SymbolsDiffer(s, calls[0].stackId, id);
      }
    }
  }

  /** A run is charged, on each stack, for the instants at which its thread was on that stack. */
  lemma RunIsCharged(s: Store, tls: Timelines, clean: Symbols, seg: Segment, id: StackId)
    requires var tl := TimelineOf(tls, seg.tid);
             && Contiguous(tl) && (tl != [] ==> seg.endTs <= EndOf(tl))
             && forall i | 0 <= i < |tl| :: s.IsStack(tl[i].stackId)
    requires seg.etype.Run? && seg.startTs <= seg.endTs < TWO_64 && s.Consistent() && s.IsStack(id)
    ensures TimeTo(SegmentCharges(s, tls, clean, seg), clean + SymbolsOf(s, id))
         == InstantsOn(TimelineOf(tls, seg.tid), id, seg.startTs, seg.endTs)
  {
    var tl := TimelineOf(tls, seg.tid);
    var calls := Enumerate(tl, seg.startTs, seg.endTs);
    RunSegmentIsAccounted(tl, seg.startTs, seg.endTs);
    EnumerateByStack(tl, seg.startTs, seg.endTs, id);
    SamplesAreOfTimeline(tl, StartIndex(tl, seg.startTs), seg.startTs, seg.endTs);
    NotALabel(s, clean, id);
    hide Store.Consistent, SymbolsOf, Contiguous, Own, InstantsOn, CallCharges, TimeOn;
    forall i | 0 <= i < |calls|
      ensures s.IsStack(calls[i].stackId)
    {
      assert calls[i] in calls;
    }
    CallTimesTo(s, clean, calls, id);
    hide Enumerate, SampleCharges;
    RunTimes(s, clean, calls, Duration(seg), clean + SymbolsOf(s, id));
  }

  lemma NotALabel(s: Store, clean: Symbols, id: StackId)
    ensures clean + SymbolsOf(s, id) != clean + [Label("No stack")]
  {
    var l := SymbolsOf(s, id);
    if |l| == 1 { assert (clean + l)[|clean|] == l[0] && (clean + [Label("No stack")])[|clean|] == Label("No stack"); }
  }

  lemma {:induction false} SamplesAreOfTimeline(tl: Timeline, i: nat, start: Timestamp, end: Timestamp)
    ensures forall c <- SamplesFrom(tl, i, start, end) :: exists k :: 0 <= k < |tl| && tl[k].stackId == c.stackId
    decreases |tl| - i
  {
    if i < |tl| && tl[i].startTs <= end {
      SamplesAreOfTimeline(tl, i + 1, start, end);
    }
  }

  /** A segment that is no run is charged to its status, whole: a wait on its thread's own stack, if that is known. */
  lemma WaitIsCharged(s: Store, tls: Timelines, clean: Symbols, seg: Segment)
    requires Contiguous(TimelineOf(tls, seg.tid)) && !seg.etype.Run? && !seg.etype.Epsilon?
    ensures var atStart, atEnd := Own(s, tls, seg.tid, seg.startTs), Own(s, tls, seg.tid, seg.endTs);
            var own := if !OnOwnStack(seg.etype) then [] else if atEnd == [] then atStart else atEnd;
            SegmentCharges(s, tls, clean, seg)
              == [Charge(clean + own + [Label(StatusString(seg.etype))], Duration(seg))]
  {
    hide Own;
    assert clean + [] == clean;
  }
}
