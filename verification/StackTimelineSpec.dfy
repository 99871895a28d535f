/** The stacks of one thread over time, as contiguous intervals. */
module StackTimelineSpec {
  import opened Common
  import opened HashConsSpec

  datatype StackWrapper = StackWrapper(stackId: StackId, startTs: Timestamp, endTs: Timestamp,
                                       isSyscall: bool, isResolved: bool)

  type Timeline = seq<StackWrapper>

  function Starts(tl: Timeline): (ks: seq<Timestamp>)
    ensures |ks| == |tl| && forall i | 0 <= i < |tl| :: ks[i] == tl[i].startTs
  {
    seq(|tl|, i requires 0 <= i < |tl| => tl[i].startTs)
  }

  /** Each interval ends where the next starts. */
  ghost predicate Contiguous(tl: Timeline) {
    && (forall i | 0 <= i < |tl| :: tl[i].startTs <= tl[i].endTs)
    && (forall i, j | 0 <= i < j < |tl| && j == i + 1 :: tl[i].endTs == tl[j].startTs)
  }

  lemma {:induction false} ContiguousIsSorted(tl: Timeline)
    requires Contiguous(tl)
    ensures Sorted(Starts(tl))
    ensures forall i | 0 <= i < |tl| :: tl[i].endTs <= tl[|tl| - 1].endTs
  {
    if tl != [] {
      var init := tl[..|tl| - 1];
      ContiguousIsSorted(init);
      forall i, j | 0 <= i < j < |tl|
        ensures Starts(tl)[i] <= Starts(tl)[j]
      {
        if j < |init| { assert Starts(init)[i] <= Starts(init)[j]; }
        else { assert init[i].endTs <= init[|init| - 1].endTs; }
      }
    }
  }

  function EndOf(tl: Timeline): Timestamp
    requires tl != []
  {
    tl[|tl| - 1].endTs
  }

  function Close(tl: Timeline, now: Timestamp): Timeline {
    if tl == [] then tl else tl[|tl| - 1 := tl[|tl| - 1].(endTs := now)]
  }

  function SetStack(tl: Timeline, now: Timestamp, id: StackId, isSyscall: bool): Timeline {
    var closed := Close(tl, now);
    if closed == [] || closed[|closed| - 1].stackId != id then closed + [StackWrapper(id, now, now, isSyscall, false)]
    else closed
  }

  function Truncate(tl: Timeline, cut: Timestamp): Timeline
    requires Contiguous(tl)
  {
    ContiguousIsSorted(tl);
    var i := LowerBound(Starts(tl), cut);
    if i == 0 then tl else tl[i - 1..]
  }

  /** The timeline never runs ahead of the clock. */
  ghost predicate UpTo(tl: Timeline, now: Timestamp) {
    Contiguous(tl) && (tl != [] ==> EndOf(tl) <= now)
  }

  lemma CloseKeepsContiguous(tl: Timeline, now: Timestamp)
    requires UpTo(tl, now)
    ensures UpTo(Close(tl, now), now) && (tl != [] ==> Close(tl, now) != [] && EndOf(Close(tl, now)) == now)
  {
  }

  /** A new stack ends the current interval now and, if it differs, starts another. */
  lemma SetStackKeepsContiguous(tl: Timeline, now: Timestamp, id: StackId, isSyscall: bool)
    requires UpTo(tl, now)
    ensures var r := SetStack(tl, now, id, isSyscall);
            && UpTo(r, now) && r != [] && EndOf(r) == now && r[|r| - 1].stackId == id
            && (tl != [] ==> r[0].startTs == tl[0].startTs)
  {
    CloseKeepsContiguous(tl, now);
    var closed := Close(tl, now);
    hide Close;
    assert tl != [] ==> closed != [] && closed[0].startTs == tl[0].startTs by { CloseKeepsStart(tl, now); }
  }

  lemma CloseKeepsStart(tl: Timeline, now: Timestamp)
    ensures |Close(tl, now)| == |tl| && forall i | 0 <= i < |tl| :: Close(tl, now)[i].startTs == tl[i].startTs
  {
  }

  lemma SuffixIsContiguous(tl: Timeline, k: nat)
    requires Contiguous(tl) && k <= |tl|
    ensures Contiguous(tl[k..]) && (k < |tl| ==> tl[k..] != [] && EndOf(tl[k..]) == EndOf(tl))
  {
  }

  /** Truncation keeps the intervals from the last one on that starts before the cut, or all of them. */
  lemma TruncateIsSuffix(tl: Timeline, cut: Timestamp)
    requires Contiguous(tl)
    ensures var k := |tl| - |Truncate(tl, cut)|;
            && 0 <= k <= |tl| && Truncate(tl, cut) == tl[k..]
            && (k > 0 ==> k < |tl| && tl[k].startTs < cut)
  {
    hide Contiguous;
    ContiguousIsSorted(tl);
  }

  lemma TruncateKeepsContiguous(tl: Timeline, now: Timestamp, cut: Timestamp)
    requires UpTo(tl, now)
    ensures var r := Truncate(tl, cut);
            UpTo(r, now) && (tl != [] ==> r != [] && EndOf(r) == EndOf(tl))
  {
    hide Contiguous, Truncate;
    TruncateIsSuffix(tl, cut);
    SuffixIsContiguous(tl, |tl| - |Truncate(tl, cut)|);
  }

  lemma {:induction false} EndedBefore(tl: Timeline, k: nat, i: nat)
    requires Contiguous(tl) && i < k < |tl|
    ensures tl[i].endTs <= tl[k].startTs
    decreases k - i
  {
    if i + 1 < k { EndedBefore(tl, k, i + 1); }
  }

  /** Truncation drops a prefix that has ended by the cut. */
  lemma TruncateDropsEnded(tl: Timeline, cut: Timestamp)
    requires Contiguous(tl)
    ensures var k := |tl| - |Truncate(tl, cut)|;
            && 0 <= k <= |tl| && Truncate(tl, cut) == tl[k..] && Contiguous(tl[k..])
            && forall i | 0 <= i < k :: tl[i].endTs <= cut
  {
    hide Contiguous, Truncate;
    TruncateIsSuffix(tl, cut);
    var k := |tl| - |Truncate(tl, cut)|;
    SuffixIsContiguous(tl, k);
    forall i | 0 <= i < k
      ensures tl[i].endTs <= cut
    {
      EndedBefore(tl, k, i);
    }
  }

  /** From the time of a truncation on, lookups answer as before. */
  lemma TruncateKeepsLookups(tl: Timeline, cut: Timestamp, ts: Timestamp)
    requires Contiguous(tl) && cut <= ts
    ensures Contiguous(Truncate(tl, cut)) && GetStack(Truncate(tl, cut), ts) == GetStack(tl, ts)
  {
    hide Contiguous, GetStack, LinearScan, Truncate;
    TruncateDropsEnded(tl, cut);
    var k := |tl| - |Truncate(tl, cut)|;
    GetStackIsScan(tl, ts);
    GetStackIsScan(tl[k..], ts);
    ScanSkips(tl, ts, k);
  }

  lemma {:induction false} ScanSkips(tl: Timeline, ts: Timestamp, k: nat)
    requires Contiguous(tl) && k <= |tl| && forall i | 0 <= i < k :: tl[i].endTs <= ts
    ensures LinearScan(tl, ts) == LinearScan(tl[k..], ts)
  {
    if k > 0 {
      ScanSkips(tl[1..], ts, k - 1);
      assert tl[1..][k - 1..] == tl[k..];
    }
  }

  // ----- Lookup

  function GetStack(tl: Timeline, ts: Timestamp): StackId
    requires Contiguous(tl)
  {
    ContiguousIsSorted(tl);
    var u := UpperBound(Starts(tl), ts);
    var i := if u == 0 then 0 else u - 1;
    if i == |tl| then EMPTY_STACK
    else if tl[i].startTs <= ts < tl[i].endTs then tl[i].stackId
    else EMPTY_STACK
  }

  /** The first interval that contains `ts`. */
  function LinearScan(tl: Timeline, ts: Timestamp): StackId {
    if tl == [] then EMPTY_STACK
    else if tl[0].startTs <= ts < tl[0].endTs then tl[0].stackId
    else LinearScan(tl[1..], ts)
  }

  lemma {:induction false} ScanFinds(tl: Timeline, ts: Timestamp, k: nat)
    requires Contiguous(tl) && k < |tl| && tl[k].startTs <= ts < tl[k].endTs
    ensures LinearScan(tl, ts) == tl[k].stackId
  {
    ContiguousIsSorted(tl);
    if k > 0 {
      assert Starts(tl)[0] <= Starts(tl)[k];
      assert tl[0].endTs <= tl[k].startTs by { assert Starts(tl)[1] <= Starts(tl)[k]; }
      ScanFinds(tl[1..], ts, k - 1);
    }
  }

  lemma {:induction false} ScanFindsNothing(tl: Timeline, ts: Timestamp)
    requires forall k | 0 <= k < |tl| :: !(tl[k].startTs <= ts < tl[k].endTs)
    ensures LinearScan(tl, ts) == EMPTY_STACK
  {
    if tl != [] { ScanFindsNothing(tl[1..], ts); }
  }

  /** The binary search finds what a scan of all intervals finds. */
  lemma GetStackIsScan(tl: Timeline, ts: Timestamp)
    requires Contiguous(tl)
    ensures GetStack(tl, ts) == LinearScan(tl, ts)
  {
    ContiguousIsSorted(tl);
    var u := UpperBound(Starts(tl), ts);
    if u > 0 && ts < tl[u - 1].endTs {
      assert Starts(tl)[u - 1] <= ts;
      ScanFinds(tl, ts, u - 1);
    } else {
      forall k | 0 <= k < |tl|
        ensures !(tl[k].startTs <= ts < tl[k].endTs)
      {
        if k + 1 < u { assert Starts(tl)[k + 1] <= ts; }
        if u <= k { assert ts < Starts(tl)[k]; }
      }
      ScanFindsNothing(tl, ts);
      if u == 0 && tl != [] { assert ts < Starts(tl)[0]; }
    }
  }

  // ----- Enumeration

  datatype Sample = Sample(stackId: StackId, duration: Word64)

  function StartIndex(tl: Timeline, start: Timestamp): (i: nat)
    requires Contiguous(tl)
    ensures i <= |tl| && (tl != [] ==> i < |tl|)
  {
    ContiguousIsSorted(tl);
    var i := LowerBound(Starts(tl), start);
    if i == 0 then 0 else i - 1
  }

  function SamplesFrom(tl: Timeline, i: nat, start: Timestamp, end: Timestamp): seq<Sample>
    decreases |tl| - i
  {
    if i >= |tl| || end < tl[i].startTs then []
    else
      [Sample(tl[i].stackId, Sub64(Min(end, tl[i].endTs), Max(start, tl[i].startTs)))]
        + SamplesFrom(tl, i + 1, start, end)
  }

  /** The callbacks of an enumeration of the stacks in a window. */
  function Enumerate(tl: Timeline, start: Timestamp, end: Timestamp): seq<Sample>
    requires Contiguous(tl)
  {
    SamplesFrom(tl, StartIndex(tl, start), start, end)
  }

  function Total(samples: seq<Sample>): nat {
    if samples == [] then 0 else samples[0].duration + Total(samples[1..])
  }

  /** From `i` on, no interval ends before the window or its own clipped start. */
  ghost predicate Clips(tl: Timeline, i: nat, start: Timestamp, end: Timestamp) {
    forall k | i <= k < |tl| && tl[k].startTs <= end :: Max(start, tl[k].startTs) <= Min(end, tl[k].endTs)
  }

  lemma IntervalAt(tl: Timeline, i: nat)
    requires Contiguous(tl) && i < |tl|
    ensures tl[i].startTs <= tl[i].endTs <= EndOf(tl)
    ensures i + 1 < |tl| ==> tl[i].endTs == tl[i + 1].startTs
  {
    ContiguousIsSorted(tl);
  }

  lemma LaterStarts(tl: Timeline, i: nat, end: Timestamp)
    requires Contiguous(tl) && i < |tl| && end < tl[i].startTs
    ensures forall k | i <= k < |tl| :: end < tl[k].startTs
  {
    ContiguousIsSorted(tl);
    assert forall k | i < k < |tl| :: Starts(tl)[i] <= Starts(tl)[k];
  }

  lemma {:induction false} SamplesTotal(tl: Timeline, i: nat, start: Timestamp, end: Timestamp)
    requires Contiguous(tl) && i < |tl| && start <= end < TWO_64 && start <= tl[i].endTs && tl[i].startTs <= end
    ensures Clips(tl, i, start, end)
    ensures Total(SamplesFrom(tl, i, start, end)) == Min(end, EndOf(tl)) - Max(start, tl[i].startTs)
    decreases |tl| - i
  {
    IntervalAt(tl, i);
    var samples := SamplesFrom(tl, i, start, end);
    assert samples[1..] == SamplesFrom(tl, i + 1, start, end);
    if i + 1 < |tl| {
      if tl[i + 1].startTs <= end {
        SamplesTotal(tl, i + 1, start, end);
      } else {
        LaterStarts(tl, i + 1, end);
      }
    }
    hide Contiguous;
  }

  /** The window clipped to the timeline. */
  function Overlap(tl: Timeline, start: Timestamp, end: Timestamp): nat {
    if tl == [] then 0
    else
      var a, b := Max(start, tl[0].startTs), Min(end, EndOf(tl));
      if a <= b then b - a else 0
  }

  lemma StartIndexReaches(tl: Timeline, start: Timestamp)
    requires Contiguous(tl) && tl != [] && start <= EndOf(tl)
    ensures var i := StartIndex(tl, start);
            start <= tl[i].endTs && Max(start, tl[i].startTs) == Max(start, tl[0].startTs)
  {
    ContiguousIsSorted(tl);
    var l := LowerBound(Starts(tl), start);
    assert Starts(tl)[0] == tl[0].startTs;
    if l > 0 {
      assert Starts(tl)[l - 1] < start && Starts(tl)[0] <= Starts(tl)[l - 1];
      assert l < |tl| ==> start <= Starts(tl)[l];
    }
  }

  /** Durations add up to the part of the window the timeline covers. */
  lemma EnumerateTotal(tl: Timeline, start: Timestamp, end: Timestamp)
    requires Contiguous(tl) && start <= end < TWO_64 && (tl != [] ==> start <= EndOf(tl))
    ensures Clips(tl, StartIndex(tl, start), start, end)
    ensures Total(Enumerate(tl, start, end)) == Overlap(tl, start, end)
  {
    if tl != [] {
      StartIndexReaches(tl, start);
      var i := StartIndex(tl, start);
      if tl[i].startTs <= end {
        SamplesTotal(tl, i, start, end);
        ContiguousIsSorted(tl);
        assert Starts(tl)[0] <= Starts(tl)[i];
      } else {
        ContiguousIsSorted(tl);
        forall k | i <= k < |tl|
          ensures end < tl[k].startTs
        {
          assert Starts(tl)[i] <= Starts(tl)[k];
        }
      }
    }
  }

  /** The unsigned subtraction goes below zero exactly for windows that open after the timeline ends. */
  lemma UnderflowsExactly(tl: Timeline, start: Timestamp, end: Timestamp)
    requires Contiguous(tl) && tl != [] && start <= end < TWO_64
    ensures Clips(tl, StartIndex(tl, start), start, end) <==> start <= EndOf(tl)
  {
    if start <= EndOf(tl) {
      EnumerateTotal(tl, start, end);
    } else {
      ContiguousIsSorted(tl);
      var n := |tl| - 1;
      assert Starts(tl)[n] < start;
      assert StartIndex(tl, start) <= n && tl[n].startTs <= end;
    }
  }

  // ----- Samples of a run segment

  // ----- What each stack is credited with

  /** What the samples credit to one stack. */
  function TimeOn(samples: seq<Sample>, id: StackId): nat {
    if samples == [] then 0
    else (if samples[0].stackId == id then samples[0].duration else 0) + TimeOn(samples[1..], id)
  }

  /** The thread is on a stack at an instant. */
  ghost predicate Holds(tl: Timeline, id: StackId, t: Timestamp) {
    exists k :: 0 <= k < |tl| && tl[k].startTs <= t < tl[k].endTs && tl[k].stackId == id
  }

  /** How many instants from `a` up to `b` the thread is on a stack. */
  ghost function InstantsOn(tl: Timeline, id: StackId, a: Timestamp, b: Timestamp): nat {
    if b <= a then 0 else InstantsOn(tl, id, a, b - 1) + if Holds(tl, id, b - 1) then 1 else 0
  }

  lemma {:induction false} InstantsSplit(tl: Timeline, id: StackId, a: Timestamp, m: Timestamp, b: Timestamp)
    requires a <= m <= b
    ensures InstantsOn(tl, id, a, b) == InstantsOn(tl, id, a, m) + InstantsOn(tl, id, m, b)
  {
    hide Holds;
    if m < b { InstantsSplit(tl, id, a, m, b - 1); }
  }

  lemma {:induction false} InstantsAlike(tl: Timeline, id: StackId, a: Timestamp, b: Timestamp, on: bool)
    requires a <= b && forall t | a <= t < b :: Holds(tl, id, t) == on
    ensures InstantsOn(tl, id, a, b) == if on then b - a else 0
  {
    hide Holds;
    if a < b { InstantsAlike(tl, id, a, b - 1, on); }
  }

  lemma HoldsIn(tl: Timeline, i: nat, id: StackId, t: Timestamp)
    requires Contiguous(tl) && i < |tl| && tl[i].startTs <= t < tl[i].endTs
    ensures Holds(tl, id, t) <==> tl[i].stackId == id
  {
    hide Contiguous;
    forall k | 0 <= k < |tl| && tl[k].startTs <= t < tl[k].endTs
      ensures k == i
    {
      if k < i { EndedBefore(tl, i, k); }
      if i < k { EndedBefore(tl, k, i); }
    }
  }

  lemma HoldsNothing(tl: Timeline, id: StackId, t: Timestamp)
    requires Contiguous(tl) && (tl == [] || t < tl[0].startTs || EndOf(tl) <= t)
    ensures !Holds(tl, id, t)
  {
    ContiguousIsSorted(tl);
    if tl != [] { assert forall k | 0 <= k < |tl| :: Starts(tl)[0] <= Starts(tl)[k]; }
  }

  /** Within one interval the thread is on its stack. */
  lemma IntervalInstants(tl: Timeline, i: nat, id: StackId, lo: Timestamp, hi: Timestamp)
    requires Contiguous(tl) && i < |tl| && tl[i].startTs <= lo <= hi <= tl[i].endTs
    ensures InstantsOn(tl, id, lo, hi) == if tl[i].stackId == id then hi - lo else 0
  {
    hide Contiguous, Holds;
    forall t | lo <= t < hi
      ensures Holds(tl, id, t) == (tl[i].stackId == id)
    {
      HoldsIn(tl, i, id, t);
    }
    InstantsAlike(tl, id, lo, hi, tl[i].stackId == id);
  }

  lemma {:induction false} SamplesByStack(tl: Timeline, i: nat, start: Timestamp, end: Timestamp, id: StackId)
    requires Contiguous(tl) && i < |tl| && start <= end < TWO_64 && start <= tl[i].endTs && tl[i].startTs <= end
    ensures Max(start, tl[i].startTs) <= Min(end, EndOf(tl))
    ensures TimeOn(SamplesFrom(tl, i, start, end), id)
         == InstantsOn(tl, id, Max(start, tl[i].startTs), Min(end, EndOf(tl)))
    decreases |tl| - i
  {
    hide Contiguous, Holds, InstantsOn;
    IntervalAt(tl, i);
    var lo, hi := Max(start, tl[i].startTs), Min(end, tl[i].endTs);
    IntervalInstants(tl, i, id, lo, hi);
    var samples := SamplesFrom(tl, i, start, end);
    assert samples[1..] == SamplesFrom(tl, i + 1, start, end);
    if i + 1 < |tl| {
      IntervalAt(tl, i + 1);
      if tl[i + 1].startTs <= end {
        SamplesByStack(tl, i + 1, start, end, id);
        InstantsSplit(tl, id, lo, hi, Min(end, EndOf(tl)));
      } else {
        LaterStarts(tl, i + 1, end);
      }
    }
  }

  /** Outside the timeline the thread is on no stack. */
  lemma InstantsOutside(tl: Timeline, id: StackId, a: Timestamp, b: Timestamp)
    requires Contiguous(tl) && a <= b && (a == b || tl == [] || b <= tl[0].startTs || EndOf(tl) <= a)
    ensures InstantsOn(tl, id, a, b) == 0
  {
    hide Contiguous, Holds;
    forall t: nat | a <= t < b
      ensures !Holds(tl, id, t)
    {
      HoldsNothing(tl, id, t);
    }
    InstantsAlike(tl, id, a, b, false);
  }

  /** An enumeration credits each stack with the instants of the window that the thread was on it. */
  lemma EnumerateByStack(tl: Timeline, start: Timestamp, end: Timestamp, id: StackId)
    requires Contiguous(tl) && start <= end < TWO_64 && (tl != [] ==> start <= EndOf(tl))
    ensures TimeOn(Enumerate(tl, start, end), id) == InstantsOn(tl, id, start, end)
  {
    hide Contiguous, Holds, InstantsOn, StartIndex;
    if tl == [] {
      InstantsOutside(tl, id, start, end);
    } else {
      var i := StartIndex(tl, start);
      StartIndexReaches(tl, start);
      IntervalAt(tl, i);
      if tl[i].startTs <= end {
        var lo, hi := Max(start, tl[i].startTs), Min(end, EndOf(tl));
        SamplesByStack(tl, i, start, end, id);
        InstantsSplit(tl, id, start, lo, end);
        InstantsSplit(tl, id, lo, hi, end);
        InstantsOutside(tl, id, start, lo);
        InstantsOutside(tl, id, hi, end);
      } else {
        InstantsOutside(tl, id, start, end);
      }
    }
  }

  /** What a run segment leaves unexplained by the timeline. */
  function Remainder(total: nat, duration: nat): nat { if total < duration then duration - total else 0 }

  /** Sampled and unexplained time of a run segment add up to exactly its duration. */
  lemma RunSegmentIsAccounted(tl: Timeline, start: Timestamp, end: Timestamp)
    requires Contiguous(tl) && start <= end < TWO_64 && (tl != [] ==> end <= EndOf(tl))
    ensures var total := Total(Enumerate(tl, start, end));
            total <= end - start && total + Remainder(total, end - start) == end - start
  {
    EnumerateTotal(tl, start, end);
  }
}
