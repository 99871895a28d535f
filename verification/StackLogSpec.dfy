/** What the stacks of a thread are at a time, said of the log of what was set, and that timelines answer so. */
module StackLogSpec {
  import opened Common
  import opened HashConsSpec
  import opened StackTimelineSpec

  /** A stack that was set, and whether it was set as a system call's. */
  datatype Setting = Setting(id: StackId, isSyscall: bool)

  /** `Relabel` renames the stack of the interval `back` places before the last, which spans `lo` to `hi`. */
  datatype StackOp =
    | Put(ts: Timestamp, id: StackId, isSyscall: bool)
    | End(ts: Timestamp)
    | Drop(cut: Timestamp)
    | Relabel(back: nat, lo: Timestamp, hi: Timestamp, id: StackId)

  /** The setting in force after the log; setting the same stack again changes nothing. */
  function Current(log: seq<StackOp>): Option<Setting> {
    if log == [] then None
    else
      var before := Current(log[..|log| - 1]);
      match log[|log| - 1]
      case Put(_, id, isSyscall) =>
        if before.Some? && before.value.id == id then before else Some(Setting(id, isSyscall))
      case Relabel(back, _, _, id) => if back == 0 && before.Some? then Some(before.value.(id := id)) else before
      case _ => before
  }

  /** The setting in force before the current one was set. */
  function Previous(log: seq<StackOp>): Option<Setting> {
    if log == [] then None
    else
      var init := log[..|log| - 1];
      match log[|log| - 1]
      case Put(_, id, _) =>
        if Current(init).Some? && Current(init).value.id == id then Previous(init) else Current(init)
      case Relabel(back, _, _, id) =>
        if back == 1 && Previous(init).Some? then Some(Previous(init).value.(id := id)) else Previous(init)
      case _ => Previous(init)
  }

  /** The setting in force at a time: the last one set by then, and renamed since. */
  function SettingAt(log: seq<StackOp>, t: Timestamp): Option<Setting> {
    if log == [] then None
    else
      var before := SettingAt(log[..|log| - 1], t);
      match log[|log| - 1]
      case Put(ts, _, _) => if ts <= t then Current(log) else before
      case Relabel(back, lo, hi, id) =>
        if lo <= t && (back == 0 || t < hi) && before.Some? then Some(before.value.(id := id)) else before
      case _ => before
  }

  /** When the current setting was last known to be in force. */
  function ClosedAt(log: seq<StackOp>): Option<Timestamp> {
    if log == [] then None
    else
      var before := ClosedAt(log[..|log| - 1]);
      match log[|log| - 1]
      case Put(ts, _, _) => Some(ts)
      case End(ts) => if before.Some? then Some(ts) else None
      case _ => before
  }

  /** What is known of a time: the setting in force, up to the last closing. */
  function KnownAt(log: seq<StackOp>, t: Timestamp): Option<Setting> {
    if ClosedAt(log).Some? && t < ClosedAt(log).value then SettingAt(log, t) else None
  }

  predicate NotDropped(log: seq<StackOp>, t: Timestamp) {
    forall i | 0 <= i < |log| && log[i].Drop? :: log[i].cut <= t
  }

  // ----- Intervals

  /** The interval that contains `t`. */
  ghost predicate Contains(tl: Timeline, k: nat, t: Timestamp) {
    k < |tl| && tl[k].startTs <= t < tl[k].endTs
  }

  function SettingOf(w: StackWrapper): Setting { Setting(w.stackId, w.isSyscall) }

  /** The timeline answers `r` at `t`. */
  ghost predicate Shows(tl: Timeline, t: Timestamp, r: Option<Setting>) {
    if r.None? then forall k: nat :: !Contains(tl, k, t)
    else exists k: nat :: Contains(tl, k, t) && SettingOf(tl[k]) == r.value
  }

  lemma ShownIsScanned(tl: Timeline, t: Timestamp, r: Option<Setting>)
    requires Contiguous(tl) && Shows(tl, t, r)
    ensures LinearScan(tl, t) == if r.Some? then r.value.id else EMPTY_STACK
  {
    hide Contiguous;
    if r.Some? {
      var k: nat :| Contains(tl, k, t) && SettingOf(tl[k]) == r.value;
      ScanFinds(tl, t, k);
    } else {
      forall k | 0 <= k < |tl|
        ensures !(tl[k].startTs <= t < tl[k].endTs)
      {
        assert !Contains(tl, k, t);
      }
      ScanFindsNothing(tl, t);
    }
  }

  /** The timeline's ends agree with the log. */
  ghost predicate EndsAlike(tl: Timeline, log: seq<StackOp>) {
    && (tl == [] <==> Current(log).None?)
    && (tl == [] ==> ClosedAt(log).None?)
    && (tl != [] ==> Current(log) == Some(SettingOf(tl[|tl| - 1])) && ClosedAt(log) == Some(EndOf(tl)))
    && (|tl| >= 2 ==> Previous(log) == Some(SettingOf(tl[|tl| - 2])))
  }

  /** From the end of the timeline on, the current setting is in force. */
  ghost predicate LastsOn(tl: Timeline, log: seq<StackOp>) {
    forall t: nat | tl == [] || EndOf(tl) <= t :: SettingAt(log, t) == Current(log)
  }

  ghost predicate AnswersAt(tl: Timeline, log: seq<StackOp>, t: Timestamp) {
    NotDropped(log, t) ==> Shows(tl, t, KnownAt(log, t))
  }

  /** The timeline answers as the log does, at every time that no cleanup has passed. */
  ghost predicate Answers(tl: Timeline, log: seq<StackOp>) {
    && Contiguous(tl) && EndsAlike(tl, log) && LastsOn(tl, log)
    && forall t: nat :: AnswersAt(tl, log, t)
  }

  lemma NextOp(log: seq<StackOp>, op: StackOp)
    ensures (log + [op])[..|log + [op]| - 1] == log && (log + [op])[|log + [op]| - 1] == op
    ensures forall t :: NotDropped(log + [op], t) <==> NotDropped(log, t) && (op.Drop? ==> op.cut <= t)
  {
    var next := log + [op];
    assert next[..|next| - 1] == log;
    forall t
      ensures NotDropped(next, t) <==> NotDropped(log, t) && (op.Drop? ==> op.cut <= t)
    {
      if NotDropped(next, t) {
        forall i | 0 <= i < |log| && log[i].Drop? ensures log[i].cut <= t { assert next[i] == log[i]; }
        assert next[|log|] == op;
      }
    }
  }

  // ----- Closing

  lemma ContainsInOrder(tl: Timeline, k: nat, t: Timestamp)
    requires Contiguous(tl) && Contains(tl, k, t)
    ensures t < EndOf(tl) && (k + 1 < |tl| ==> t < tl[|tl| - 1].startTs)
  {
    ContiguousIsSorted(tl);
    if k + 1 < |tl| { assert Starts(tl)[k + 1] <= Starts(tl)[|tl| - 1]; }
  }

  /** Closing extends the last interval to now. */
  lemma CloseShows(tl: Timeline, now: Timestamp, t: Timestamp, r: Option<Setting>)
    requires Contiguous(tl) && tl != [] && EndOf(tl) <= now
    requires t < EndOf(tl) ==> Shows(tl, t, r)
    requires EndOf(tl) <= t ==> r == if t < now then Some(SettingOf(tl[|tl| - 1])) else None
    ensures Shows(Close(tl, now), t, r)
  {
    var closed := Close(tl, now);
    assert forall k | 0 <= k < |tl| - 1 :: closed[k] == tl[k];
    if EndOf(tl) <= t {
      if t < now {
        assert Contains(closed, |tl| - 1, t);
      } else {
        CloseKeepsContiguous(tl, now);
        forall k: nat
          ensures !Contains(closed, k, t)
        {
          if Contains(closed, k, t) { ContainsInOrder(closed, k, t); }
        }
      }
    } else if r.Some? {
      var k: nat :| Contains(tl, k, t) && SettingOf(tl[k]) == r.value;
      assert Contains(closed, k, t);
    } else {
      assert forall k: nat | Contains(closed, k, t) :: Contains(tl, k, t);
    }
  }

  lemma EndKnown(log: seq<StackOp>, now: Timestamp, t: Timestamp)
    ensures var next := log + [End(now)];
            && Current(next) == Current(log) && Previous(next) == Previous(log)
            && SettingAt(next, t) == SettingAt(log, t)
            && ClosedAt(next) == if ClosedAt(log).Some? then Some(now) else None
  {
    NextOp(log, End(now));
  }

  lemma EndAnswers(tl: Timeline, log: seq<StackOp>, now: Timestamp)
    requires Answers(tl, log) && UpTo(tl, now)
    ensures Answers(Close(tl, now), log + [End(now)])
  {
    var next := log + [End(now)];
    NextOp(log, End(now));
    CloseKeepsContiguous(tl, now);
    hide Contiguous;
    forall t: nat
      ensures SettingAt(next, t) == SettingAt(log, t) && AnswersAt(Close(tl, now), next, t)
    {
      EndKnown(log, now, t);
      assert AnswersAt(tl, log, t);
      if tl != [] && NotDropped(next, t) {
        assert EndOf(tl) <= t ==> SettingAt(log, t) == Current(log);
        CloseShows(tl, now, t, KnownAt(next, t));
      }
    }
    EndKnown(log, now, 0);
  }

  // ----- Setting

  lemma PutKnown(log: seq<StackOp>, now: Timestamp, id: StackId, isSyscall: bool, t: Timestamp)
    ensures var next := log + [Put(now, id, isSyscall)];
            var same := Current(log).Some? && Current(log).value.id == id;
            && Current(next) == (if same then Current(log) else Some(Setting(id, isSyscall)))
            && Previous(next) == (if same then Previous(log) else Current(log))
            && SettingAt(next, t) == (if now <= t then Current(next) else SettingAt(log, t))
            && ClosedAt(next) == Some(now)
  {
    NextOp(log, Put(now, id, isSyscall));
  }

  /** An interval that starts and ends now contains no time. */
  lemma AppendShows(tl: Timeline, w: StackWrapper, t: Timestamp, r: Option<Setting>)
    requires w.startTs == w.endTs && Shows(tl, t, r)
    ensures Shows(tl + [w], t, r)
  {
    var next := tl + [w];
    if r.Some? {
      var k: nat :| Contains(tl, k, t) && SettingOf(tl[k]) == r.value;
      assert Contains(next, k, t) && next[k] == tl[k];
    } else {
      assert forall k: nat | k < |tl| :: Contains(next, k, t) <==> Contains(tl, k, t);
    }
  }

  lemma PutShows(tl: Timeline, log: seq<StackOp>, now: Timestamp, id: StackId, isSyscall: bool, t: Timestamp)
    requires Answers(tl, log) && UpTo(tl, now)
    ensures AnswersAt(StackTimelineSpec.SetStack(tl, now, id, isSyscall), log + [Put(now, id, isSyscall)], t)
  {
    var op := Put(now, id, isSyscall);
    var next, closed := log + [op], Close(tl, now);
    NextOp(log, op);
    PutKnown(log, now, id, isSyscall, t);
    assert AnswersAt(tl, log, t);
    if NotDropped(next, t) {
      var r := KnownAt(next, t);
      if tl != [] {
        assert EndOf(tl) <= t ==> SettingAt(log, t) == Current(log);
        CloseShows(tl, now, t, r);
      } else if t < now {
        assert SettingAt(log, t) == Current(log);
      }
      hide Contiguous, Close;
      assert Shows(closed, t, r);
      AppendShows(closed, StackWrapper(id, now, now, isSyscall, false), t, r);
    }
  }

  lemma PutAnswers(tl: Timeline, log: seq<StackOp>, now: Timestamp, id: StackId, isSyscall: bool)
    requires Answers(tl, log) && UpTo(tl, now)
    ensures Answers(StackTimelineSpec.SetStack(tl, now, id, isSyscall), log + [Put(now, id, isSyscall)])
  {
    var next := log + [Put(now, id, isSyscall)];
    var after := StackTimelineSpec.SetStack(tl, now, id, isSyscall);
    SetStackKeepsContiguous(tl, now, id, isSyscall);
    PutKnown(log, now, id, isSyscall, 0);
    hide Contiguous, AnswersAt, SettingAt;
    assert EndsAlike(after, next);
    forall t: nat
      ensures AnswersAt(after, next, t) && (now <= t ==> SettingAt(next, t) == Current(next))
    {
      PutKnown(log, now, id, isSyscall, t);
      PutShows(tl, log, now, id, isSyscall, t);
    }
  }

  // ----- Cleaning

  lemma DropKnown(log: seq<StackOp>, cut: Timestamp, t: Timestamp)
    ensures var next := log + [Drop(cut)];
            && Current(next) == Current(log) && Previous(next) == Previous(log)
            && SettingAt(next, t) == SettingAt(log, t)
            && ClosedAt(next) == ClosedAt(log)
  {
    NextOp(log, Drop(cut));
  }

  lemma SuffixShows(tl: Timeline, k: nat, t: Timestamp, r: Option<Setting>)
    requires k <= |tl| && Shows(tl, t, r) && forall i | 0 <= i < k :: tl[i].endTs <= t
    ensures Shows(tl[k..], t, r)
  {
    if r.Some? {
      var i: nat :| Contains(tl, i, t) && SettingOf(tl[i]) == r.value;
      assert Contains(tl[k..], i - k, t) && tl[k..][i - k] == tl[i];
    } else {
      forall i: nat
        ensures !Contains(tl[k..], i, t)
      {
        if Contains(tl[k..], i, t) { assert Contains(tl, i + k, t); }
      }
    }
  }

  lemma DropAnswers(tl: Timeline, log: seq<StackOp>, cut: Timestamp)
    requires Answers(tl, log)
    ensures Answers(Truncate(tl, cut), log + [Drop(cut)])
  {
    var next := log + [Drop(cut)];
    NextOp(log, Drop(cut));
    hide Contiguous, Truncate;
    TruncateDropsEnded(tl, cut);
    TruncateIsSuffix(tl, cut);
    var k := |tl| - |Truncate(tl, cut)|;
    SuffixIsContiguous(tl, k);
    DropKnown(log, cut, 0);
    forall t: nat
      ensures SettingAt(next, t) == SettingAt(log, t) && AnswersAt(tl[k..], next, t)
    {
      DropKnown(log, cut, t);
      assert AnswersAt(tl, log, t);
      if NotDropped(next, t) { SuffixShows(tl, k, t, KnownAt(next, t)); }
    }
  }

  // ----- Renaming

  lemma RelabelKnown(log: seq<StackOp>, back: nat, lo: Timestamp, hi: Timestamp, id: StackId, t: Timestamp)
    ensures var next := log + [Relabel(back, lo, hi, id)];
            && Current(next)
               == (if back == 0 && Current(log).Some? then Some(Current(log).value.(id := id)) else Current(log))
            && Previous(next)
               == (if back == 1 && Previous(log).Some? then Some(Previous(log).value.(id := id)) else Previous(log))
            && SettingAt(next, t)
               == (if lo <= t && (back == 0 || t < hi) && SettingAt(log, t).Some?
                   then Some(SettingAt(log, t).value.(id := id)) else SettingAt(log, t))
            && ClosedAt(next) == ClosedAt(log)
  {
    NextOp(log, Relabel(back, lo, hi, id));
  }

  /** A timeline whose interval `i` was renamed. */
  function Relabelled(tl: Timeline, i: nat, id: StackId): Timeline
    requires i < |tl|
  {
    tl[i := tl[i].(stackId := id, isResolved := true)]
  }

  /** Only one interval contains a time. */
  lemma ContainsOnce(tl: Timeline, i: nat, k: nat, t: Timestamp)
    requires Contiguous(tl) && Contains(tl, i, t) && Contains(tl, k, t)
    ensures i == k
  {
    hide Contiguous;
    if i < k { EndedBefore(tl, k, i); }
    if k < i { EndedBefore(tl, i, k); }
  }

  lemma RelabelShows(tl: Timeline, i: nat, id: StackId, t: Timestamp, r: Option<Setting>)
    requires Contiguous(tl) && i < |tl| && Shows(tl, t, r)
    ensures Shows(Relabelled(tl, i, id), t, if Contains(tl, i, t) && r.Some? then Some(r.value.(id := id)) else r)
  {
    hide Contiguous;
    var next := Relabelled(tl, i, id);
    assert forall k: nat :: Contains(next, k, t) <==> Contains(tl, k, t);
    if r.Some? {
      var k: nat :| Contains(tl, k, t) && SettingOf(tl[k]) == r.value;
      assert Contains(next, k, t);
      if Contains(tl, i, t) { ContainsOnce(tl, i, k, t); }
    }
  }

  /** The source's renaming of an interval is the log's. */
  lemma RelabelAnswers(tl: Timeline, log: seq<StackOp>, i: nat, id: StackId)
    requires Answers(tl, log) && i < |tl|
    ensures Answers(Relabelled(tl, i, id), log + [Relabel(|tl| - 1 - i, tl[i].startTs, tl[i].endTs, id)])
  {
    var back, lo, hi := |tl| - 1 - i, tl[i].startTs, tl[i].endTs;
    var op := Relabel(back, lo, hi, id);
    var next, renamed := log + [op], Relabelled(tl, i, id);
    NextOp(log, op);
    RelabelKnown(log, back, lo, hi, id, 0);
    assert Contiguous(renamed);
    IntervalAt(tl, i);
    if i + 1 < |tl| { EndedBefore(tl, |tl| - 1, i); IntervalAt(tl, |tl| - 1); }
    hide Contiguous;
    forall t: nat
      ensures (EndOf(tl) <= t ==> SettingAt(next, t) == Current(next)) && AnswersAt(renamed, next, t)
    {
      RelabelKnown(log, back, lo, hi, id, t);
      assert AnswersAt(tl, log, t);
      assert EndOf(tl) <= t ==> SettingAt(log, t) == Current(log);
      if NotDropped(next, t) { RelabelShows(tl, i, id, t, KnownAt(log, t)); }
    }
  }

  // ----- All threads

  datatype BuilderOp = ForThread(thread: ThreadId, op: StackOp) | EndAll(ts: Timestamp) | DropAll(cut: Timestamp)

  /** The part of a log that concerns one thread. */
  function OpsOf(log: seq<BuilderOp>, thread: ThreadId): seq<StackOp> {
    if log == [] then []
    else
      OpsOf(log[..|log| - 1], thread) +
      match log[|log| - 1]
      case ForThread(t, op) => if t == thread then [op] else []
      case EndAll(ts) => [End(ts)]
      case DropAll(cut) => [Drop(cut)]
  }

  function TimelineOf(stacks: map<ThreadId, Timeline>, thread: ThreadId): Timeline {
    if thread in stacks then stacks[thread] else []
  }

  ghost predicate AllContiguous(m: map<ThreadId, Timeline>) { forall t <- m :: Contiguous(m[t]) }

  /** Every thread's timeline answers as the log does. */
  ghost predicate AllAnswer(stacks: map<ThreadId, Timeline>, log: seq<BuilderOp>) {
    forall thread: ThreadId :: Answers(TimelineOf(stacks, thread), OpsOf(log, thread))
  }

  lemma NoneAnswer()
    ensures AllAnswer(map[], [])
  {
  }

  lemma OpsOfNext(log: seq<BuilderOp>, op: BuilderOp, thread: ThreadId)
    ensures OpsOf(log + [op], thread) == OpsOf(log, thread) +
              match op
              case ForThread(t, o) => if t == thread then [o] else []
              case EndAll(ts) => [End(ts)]
              case DropAll(cut) => [Drop(cut)]
  {
    assert (log + [op])[..|log|] == log;
  }

  /** One thread's operation leaves the other threads as they were. */
  lemma OneAnswers(stacks: map<ThreadId, Timeline>, log: seq<BuilderOp>, thread: ThreadId, tl: Timeline, op: StackOp)
    requires AllAnswer(stacks, log) && Answers(tl, OpsOf(log, thread) + [op])
    ensures AllAnswer(stacks[thread := tl], log + [ForThread(thread, op)])
  {
    hide Answers, OpsOf;
    forall t: ThreadId
      ensures Answers(TimelineOf(stacks[thread := tl], t), OpsOf(log + [ForThread(thread, op)], t))
    {
      OpsOfNext(log, ForThread(thread, op), t);
      assert t != thread ==> OpsOf(log, t) + [] == OpsOf(log, t);
      assert Answers(TimelineOf(stacks, t), OpsOf(log, t));
    }
  }

  lemma AllEnd(stacks: map<ThreadId, Timeline>, log: seq<BuilderOp>, now: Timestamp, after: map<ThreadId, Timeline>)
    requires AllAnswer(stacks, log) && after.Keys == stacks.Keys
    requires forall t <- stacks :: UpTo(stacks[t], now) && after[t] == Close(stacks[t], now)
    ensures AllAnswer(after, log + [EndAll(now)])
  {
    hide Answers, OpsOf, UpTo, Contiguous;
    forall t: ThreadId
      ensures Answers(TimelineOf(after, t), OpsOf(log + [EndAll(now)], t))
    {
      OpsOfNext(log, EndAll(now), t);
      assert Answers(TimelineOf(stacks, t), OpsOf(log, t));
      NothingIsUpTo(now);
      EndAnswers(TimelineOf(stacks, t), OpsOf(log, t), now);
    }
  }

  lemma NothingIsUpTo(now: Timestamp)
    ensures UpTo([], now) && Contiguous([])
  {
  }

  lemma AllDrop(stacks: map<ThreadId, Timeline>, log: seq<BuilderOp>, cut: Timestamp, after: map<ThreadId, Timeline>)
    requires AllAnswer(stacks, log) && after.Keys == stacks.Keys
    requires forall t <- stacks :: Contiguous(stacks[t]) && after[t] == Truncate(stacks[t], cut)
    ensures AllAnswer(after, log + [DropAll(cut)])
  {
    hide Answers, OpsOf, Contiguous;
    forall t: ThreadId
      ensures Answers(TimelineOf(after, t), OpsOf(log + [DropAll(cut)], t))
    {
      OpsOfNext(log, DropAll(cut), t);
      assert Answers(TimelineOf(stacks, t), OpsOf(log, t));
      NothingIsUpTo(0);
      DropAnswers(TimelineOf(stacks, t), OpsOf(log, t), cut);
    }
  }

  /** The stack of a thread at a time that no cleanup has passed is the one in force by the log, until it closes. */
  lemma LookupIsSetting(stacks: map<ThreadId, Timeline>, log: seq<BuilderOp>, thread: ThreadId, t: Timestamp)
    requires AllAnswer(stacks, log) && NotDropped(OpsOf(log, thread), t)
    ensures var r := KnownAt(OpsOf(log, thread), t);
            LinearScan(TimelineOf(stacks, thread), t) == if r.Some? then r.value.id else EMPTY_STACK
  {
    hide Contiguous, Shows, KnownAt, EndsAlike, LastsOn, OpsOf;
    var tl, ops := TimelineOf(stacks, thread), OpsOf(log, thread);
    assert Answers(tl, ops) && AnswersAt(tl, ops, t);
    ShownIsScanned(tl, t, KnownAt(ops, t));
  }

  // ----- System calls

  /** Ending a system call goes back to the stack it was made from. */
  function EndCall(tl: Timeline, now: Timestamp, noStack: StackId): Timeline {
    if tl == [] || !tl[|tl| - 1].isSyscall then tl
    else if |tl| == 1 then StackTimelineSpec.SetStack(tl, now, noStack, true)
    else StackTimelineSpec.SetStack(tl, now, tl[|tl| - 2].stackId, false)
  }

  /** A system call that starts on another stack, and ends, leaves that stack in force, as no system call's. */
  lemma CallReturns(tl: Timeline, id: StackId, start: Timestamp, end: Timestamp, noStack: StackId)
    requires tl != [] && tl[|tl| - 1].stackId != id
    ensures var during := StackTimelineSpec.SetStack(tl, start, id, true);
            var after := EndCall(during, end, noStack);
            && during[|during| - 1] == StackWrapper(id, start, start, true, false)
            && after[..|after| - 1] == Close(during, end)
            && after[|after| - 1] == StackWrapper(tl[|tl| - 1].stackId, end, end, false, false)
  {
  }
}
