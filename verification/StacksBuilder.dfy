/** The stacks of all threads over time. */
module StacksBuilders {
  import opened Common
  import opened HashConsSpec
  import opened StackTimelineSpec
  import opened StackLogSpec
  import opened Databases

  const MIN_SYSCALL_DURATION: nat := 100000

  const MAX_REWIND: nat := 20

  /** A system call of the minimum duration. */
  predicate LongCall(w: StackWrapper) { w.isSyscall && Sub64(w.endTs, w.startTs) >= MIN_SYSCALL_DURATION }

  /** Searching at most `n` intervals back from `i` for a system call of the minimum duration. */
  function LongSyscall(tl: Timeline, i: nat, n: nat): (r: Option<nat>)
    requires i < |tl|
    ensures r.Some? ==> r.value <= i && tl[r.value].isSyscall
    decreases n
  {
    if n == 0 then None
    else if tl[i].isSyscall && Sub64(tl[i].endTs, tl[i].startTs) >= MIN_SYSCALL_DURATION then Some(i)
    else if i == 0 then None
    else LongSyscall(tl, i - 1, n - 1)
  }

  /** The search finds the latest long call among the intervals it looks at, and none only if there is none. */
  lemma {:induction false} LongSyscallIsLatest(tl: Timeline, i: nat, n: nat)
    requires i < |tl|
    ensures var r := LongSyscall(tl, i, n);
            && (r.Some? ==> i < r.value + n && LongCall(tl[r.value]) && forall k | r.value < k <= i :: !LongCall(tl[k]))
            && (r.None? ==> forall k | 0 <= k <= i < k + n :: !LongCall(tl[k]))
    decreases n
  {
    if n > 0 && !LongCall(tl[i]) && i > 0 { LongSyscallIsLatest(tl, i - 1, n - 1); }
  }

  class StacksBuilder {
    var ts: Timestamp
    const db: Database
    var stacks: map<ThreadId, Timeline>
    ghost var log: seq<BuilderOp>

    /** Timelines of stacks the database knows, that answer as what was set. */
    ghost predicate Valid()
      reads this, db
    {
      db.Valid() && (forall t <- stacks :: TimelineOk(db.store, stacks[t], ts)) && AllAnswer(stacks, log)
    }

    constructor (db: Database)
      requires db.Valid()
      ensures Valid() && this.db == db && ts == 0 && stacks == map[] && log == []
    {
      this.db := db;
      ts, stacks, log := 0, map[], [];
      NoneAnswer();
    }

    method SetTimestamp(now: Timestamp)
      requires Valid() && ts <= now
      modifies this`ts
      ensures Valid() && ts == now
    {
      ts := now;
    }

    method SetStack(thread: ThreadId, id: StackId, isSyscall: bool)
      requires Valid() && db.store.IsStack(id) && (isSyscall ==> id in db.store.stacks)
      modifies this`stacks, this`log
      ensures Valid() && log == old(log) + [ForThread(thread, Put(ts, id, isSyscall))]
      ensures stacks == old(stacks)[thread := StackTimelineSpec.SetStack(TimelineOf(old(stacks), thread), ts, id,
                                                                         isSyscall)]
    {
      hide Store.Consistent, UpTo, Contiguous, Answers;
      var tl := if thread in stacks then stacks[thread] else [];
      EmptyTimelineOk(db.store, ts);
      SetStackOk(db.store, tl, ts, id, isSyscall);
      assert Answers(TimelineOf(stacks, thread), OpsOf(log, thread));
      PutAnswers(tl, OpsOf(log, thread), ts, id, isSyscall);
      OneAnswers(stacks, log, thread, StackTimelineSpec.SetStack(tl, ts, id, isSyscall), Put(ts, id, isSyscall));
      log := log + [ForThread(thread, Put(ts, id, isSyscall))];
      if tl != [] {
        tl := tl[|tl| - 1 := tl[|tl| - 1].(endTs := ts)];
      }
      if tl == [] || tl[|tl| - 1].stackId != id {
        tl := tl + [StackWrapper(id, ts, ts, isSyscall, false)];
      }
      stacks := stacks[thread := tl];
    }

    method SetStackNames(thread: ThreadId, names: seq<string>, isSyscall: bool)
      requires Valid() && db.store.Room(Max(|names|, 1))
      modifies this`stacks, this`log, db`store, db`functionNamesCache, db`stacksCache
      ensures Valid()
      ensures stacks == old(stacks)[thread := StackTimelineSpec.SetStack(
                          TimelineOf(old(stacks), thread), ts, Identifier(old(db.store), names).1, isSyscall)]
      ensures log == old(log) + [ForThread(thread, Put(ts, Identifier(old(db.store), names).1, isSyscall))]
      ensures db.store == Identifier(old(db.store), names).0
    {
      hide Store.Consistent, Store.Extends;
      var id := GetStackIdentifier(names);
      TimelinesKept(old(db.store), db.store, stacks, ts);
      SetStack(thread, id, isSyscall);
    }

    /** The identifier of a list of names, top first; unwinding it gives the list back. */
    method GetStackIdentifier(stack: seq<string>) returns (id: StackId)
      requires db.Valid() && db.store.Room(Max(|stack|, 1))
      modifies db`store, db`functionNamesCache, db`stacksCache
      ensures db.Valid() && old(db.store).Extends(db.store) && (db.store, id) == Identifier(old(db.store), stack)
      ensures db.store.IsStack(id) && id in db.store.stacks && Named(db.store, id)
      ensures Names(db.store, id) == if stack == [] then ["empty"] else stack
      decreases |stack| == 0
    {
      hide Store.Consistent, Store.Extends, Store.AddStack, Store.AddName, Names, Named;
      if stack == [] {
        id := GetStackIdentifier(["empty"]);
        return;
      }
      id := EMPTY_STACK;
      var i := 0;
      while i < |stack|
        invariant 0 <= i <= |stack| && db.Valid()
        invariant (db.store, id) == PushNames(old(db.store), stack, i)
      {
        NamesRoundTrip(old(db.store), stack, i);
        PushNameRoom(db.store, id, stack[|stack| - i - 1]);
        var f := db.AddFunctionName(stack[|stack| - i - 1]);
        id := db.AddStack(Stack(f, id));
        i := i + 1;
      }
      NamesRoundTrip(old(db.store), stack, |stack|);
      assert stack[|stack| - i..] == stack;
      NamesNotEmpty(db.store, id);
    }

    method SetNoStack(thread: ThreadId)
      requires Valid() && db.store.Room(1)
      modifies this`stacks, this`log, db`store, db`functionNamesCache, db`stacksCache
      ensures Valid()
      ensures stacks == old(stacks)[thread := StackTimelineSpec.SetStack(
                          TimelineOf(old(stacks), thread), ts, Identifier(old(db.store), ["No Stack"]).1, true)]
      ensures log == old(log) + [ForThread(thread, Put(ts, Identifier(old(db.store), ["No Stack"]).1, true))]
    {
      SetStackNames(thread, ["No Stack"], true);
    }

    method StartSystemCall(thread: ThreadId, syscall: string)
      requires Valid() && db.store.Room(1)
      modifies this`stacks, this`log, db`store, db`functionNamesCache, db`stacksCache
      ensures Valid()
      ensures stacks == old(stacks)[thread := StackTimelineSpec.SetStack(
                          TimelineOf(old(stacks), thread), ts, Identifier(old(db.store), ["sys:" + syscall]).1, true)]
      ensures log == old(log) + [ForThread(thread, Put(ts, Identifier(old(db.store), ["sys:" + syscall]).1, true))]
    {
      SetStackNames(thread, ["sys:" + syscall], true);
    }

    /** Goes back to the stack from before the system call, if the thread is in one. */
    method EndSystemCall(thread: ThreadId)
      requires Valid() && db.store.Room(1)
      modifies this`stacks, this`log, db`store, db`functionNamesCache, db`stacksCache
      ensures Valid()
      ensures var tl := TimelineOf(old(stacks), thread);
              if tl == [] || !tl[|tl| - 1].isSyscall then stacks == old(stacks) && db.store == old(db.store)
              else stacks == old(stacks)[thread := EndCall(tl, ts, Identifier(old(db.store), ["No Stack"]).1)]
      ensures var ops := OpsOf(old(log), thread);
              if Current(ops).None? || !Current(ops).value.isSyscall then log == old(log)
              else
                || (&& Previous(ops).Some?
                    && log == old(log) + [ForThread(thread, Put(ts, Previous(ops).value.id, false))])
                || (|TimelineOf(old(stacks), thread)| == 1
                    && log == old(log) + [ForThread(thread, Put(ts, Identifier(old(db.store), ["No Stack"]).1, true))])
    {
      hide Contiguous, LastsOn, AnswersAt, UpTo, Store.Consistent;
      var tl := if thread in stacks then stacks[thread] else [];
      assert Answers(TimelineOf(stacks, thread), OpsOf(log, thread));
      if tl == [] || !tl[|tl| - 1].isSyscall { return; }
      if |tl| == 1 {
        SetNoStack(thread);
        return;
      }
      SetStack(thread, tl[|tl| - 2].stackId, false);
    }

    /** Puts the system call of interval `it` on the user stack it was made from. */
    method ResolveSyscall(thread: ThreadId, it: nat, id: StackId)
      requires Valid() && db.store.IsStack(id) && db.store.nextStack + 1 < TWO_32
      requires thread in stacks && it < |stacks[thread]| && stacks[thread][it].isSyscall
      modifies this`stacks, this`log, db`store, db`stacksCache
      ensures Valid()
      ensures var tl := old(stacks)[thread];
              && tl[it].stackId in old(db.store).stacks
              && var (s, full) := old(db.store).AddStack(Stack(old(db.store).stacks[tl[it].stackId].callee, id));
                 && db.store == s
                 && stacks == old(stacks)[thread := Relabelled(tl, it, full)]
                 && log == old(log) + [ForThread(thread, Relabel(|tl| - 1 - it, tl[it].startTs, tl[it].endTs, full))]
    {
      hide Store.Consistent, Store.Extends, Store.AddStack, UpTo, Contiguous, Answers;
      var tl := stacks[thread];
      assert TimelineOk(db.store, tl, ts);
      var syscallOnly := db.GetStack(tl[it].stackId);
      AddStackConsistent(db.store, Stack(syscallOnly.value.callee, id));
      var full := db.AddStack(Stack(syscallOnly.value.callee, id));
      hide TimelineOk;
      TimelinesKept(old(db.store), db.store, stacks, ts);
      RelabelOk(db.store, tl, ts, it, full);
      assert Answers(TimelineOf(stacks, thread), OpsOf(log, thread));
      RelabelAnswers(tl, OpsOf(log, thread), it, full);
      ghost var op := Relabel(|tl| - 1 - it, tl[it].startTs, tl[it].endTs, full);
      OneAnswers(stacks, log, thread, Relabelled(tl, it, full), op);
      log := log + [ForThread(thread, op)];
      stacks := stacks[thread := tl[it := tl[it].(stackId := full, isResolved := true)]];
    }

    /** Gives the last long system call, once, the user stack it was made from. */
    method SetLastSystemCallStack(thread: ThreadId, id: StackId)
      requires Valid() && db.store.IsStack(id) && db.store.nextStack + 1 < TWO_32
      modifies this`stacks, this`log, db`store, db`stacksCache
      ensures Valid()
      ensures var tl := TimelineOf(old(stacks), thread);
              var found := if tl == [] then None else LongSyscall(tl, |tl| - 1, MAX_REWIND);
              if found.None? || tl[found.value].isResolved then
                stacks == old(stacks) && db.store == old(db.store) && log == old(log)
              else
                var it := tl[found.value];
                && it.stackId in old(db.store).stacks
                && var (s, full) := old(db.store).AddStack(Stack(old(db.store).stacks[it.stackId].callee, id));
                   && db.store == s
                   && stacks == old(stacks)[thread := Relabelled(tl, found.value, full)]
                   && log == old(log) + [ForThread(thread, Relabel(|tl| - 1 - found.value, it.startTs, it.endTs, full))]
    {
      hide Store.Consistent, Store.Extends, Store.AddStack, UpTo, Contiguous, TimelineOk, AllAnswer;
      var tl := if thread in stacks then stacks[thread] else [];
      if tl == [] { return; }
      var it: nat, i := |tl| - 1, 0;
      while i < MAX_REWIND
        invariant it < |tl| && i <= MAX_REWIND && stacks == old(stacks) && db.store == old(db.store) && Valid()
        invariant log == old(log)
        invariant LongSyscall(tl, it, MAX_REWIND - i) == LongSyscall(tl, |tl| - 1, MAX_REWIND)
      {
        if tl[it].isSyscall && Sub64(tl[it].endTs, tl[it].startTs) >= MIN_SYSCALL_DURATION {
          if tl[it].isResolved { return; }
          ResolveSyscall(thread, it, id);
          return;
        }
        if it == 0 { return; }
        it := it - 1;
        i := i + 1;
      }
    }

    /** The calls made to the callback; their durations add up to the overlap with the thread's timeline. */
    method EnumerateStacks(thread: ThreadId, start: Timestamp, end: Timestamp) returns (calls: seq<Sample>)
      requires Valid()
      ensures thread !in stacks ==> calls == []
      ensures thread in stacks ==> calls == Enumerate(stacks[thread], start, end)
      ensures var tl := TimelineOf(stacks, thread);
              start <= end < TWO_64 && (tl != [] ==> start <= EndOf(tl)) ==> Total(calls) == Overlap(tl, start, end)
    {
      hide Store.Consistent, Contiguous, Enumerate;
      calls := [];
      if thread !in stacks { return; }
      var tl := stacks[thread];
      if start <= end < TWO_64 && (tl != [] ==> start <= EndOf(tl)) { EnumerateTotal(tl, start, end); }
      calls := EnumerateTimeline(tl, start, end);
    }

    function GetStack(thread: ThreadId, t: Timestamp): (id: StackId)
      requires Valid()
      reads this, db
      ensures id == LinearScan(TimelineOf(stacks, thread), t)
      ensures NotDropped(OpsOf(log, thread), t) ==>
                var r := KnownAt(OpsOf(log, thread), t); id == if r.Some? then r.value.id else EMPTY_STACK
    {
      assert NotDropped(OpsOf(log, thread), t) ==>
               (var r := KnownAt(OpsOf(log, thread), t);
                LinearScan(TimelineOf(stacks, thread), t) == if r.Some? then r.value.id else EMPTY_STACK) by {
        if NotDropped(OpsOf(log, thread), t) { LookupIsSetting(stacks, log, thread, t); }
      }
      if thread !in stacks then EMPTY_STACK
      else
        GetStackIsScan(stacks[thread], t);
        StackTimelineSpec.GetStack(stacks[thread], t)
    }

    /** Ends the last interval of every thread now. */
    method Terminate()
      requires Valid()
      modifies this`stacks, this`log
      ensures Valid() && stacks.Keys == old(stacks).Keys && log == old(log) + [EndAll(ts)]
      ensures forall t <- stacks :: stacks[t] == Close(old(stacks)[t], ts)
    {
      hide Store.Consistent, Close, UpTo, Contiguous, AllAnswer;
      var todo := stacks.Keys;
      while todo != {}
        invariant todo <= stacks.Keys && stacks.Keys == old(stacks).Keys && log == old(log)
        invariant forall t <- stacks :: stacks[t] == if t in todo then old(stacks)[t] else Close(old(stacks)[t], ts)
        decreases todo
      {
        var thread :| thread in todo;
        CloseIs(stacks[thread], ts);
        if stacks[thread] != [] {
          var last := |stacks[thread]| - 1;
          stacks := stacks[thread := stacks[thread][last := stacks[thread][last].(endTs := ts)]];
        }
        todo := todo - {thread};
      }
      forall t <- stacks
        ensures TimelineOk(db.store, stacks[t], ts)
      {
        CloseOk(db.store, old(stacks)[t], ts);
      }
      AllEnd(old(stacks), log, ts, stacks);
      log := log + [EndAll(ts)];
    }

    /** Truncates every thread's timeline, in any order of the threads. */
    method Cleanup(cut: Timestamp)
      requires Valid()
      modifies this`stacks, this`log
      ensures Valid() && AllContiguous(old(stacks)) && stacks == TruncateAll(old(stacks), cut)
      ensures log == old(log) + [DropAll(cut)]
    {
      forall t <- stacks
        ensures Contiguous(stacks[t]) && TimelineOk(db.store, Truncate(stacks[t], cut), ts)
      {
        TruncateOk(db.store, stacks[t], ts, cut);
      }
      hide Store.Consistent, Contiguous, UpTo, Truncate, AllAnswer;
      stacks := CleanTimelines(stacks, cut);
      AllDrop(old(stacks), log, cut, stacks);
      log := log + [DropAll(cut)];
    }
  }

  ghost function TruncateAll(m: map<ThreadId, Timeline>, cut: Timestamp): map<ThreadId, Timeline>
    requires AllContiguous(m)
  {
    map t | t in m :: Truncate(m[t], cut)
  }

  method CleanTimelines(m: map<ThreadId, Timeline>, cut: Timestamp) returns (r: map<ThreadId, Timeline>)
    requires AllContiguous(m)
    ensures r == TruncateAll(m, cut)
  {
    hide Contiguous, Truncate;
    r := m;
    var todo := m.Keys;
    while todo != {}
      invariant todo <= m.Keys && r.Keys == m.Keys
      invariant forall t <- m :: r[t] == if t in todo then m[t] else Truncate(m[t], cut)
      decreases todo
    {
      var thread :| thread in todo;
      var kept := CleanTimeline(r[thread], cut);
      r := r[thread := kept];
      todo := todo - {thread};
    }
  }

  /** Keeps a thread's intervals from the one that the cut falls in. */
  method CleanTimeline(tl: Timeline, cut: Timestamp) returns (kept: Timeline)
    requires Contiguous(tl)
    ensures kept == Truncate(tl, cut)
  {
    ContiguousIsSorted(tl);
    kept := tl;
    if tl == [] { return; }
    var it := LowerBound(Starts(tl), cut);
    if it == 0 { return; }
    kept := tl[it - 1..];
  }

  method EnumerateTimeline(tl: Timeline, start: Timestamp, end: Timestamp) returns (calls: seq<Sample>)
    requires Contiguous(tl)
    ensures calls == Enumerate(tl, start, end)
  {
    hide Contiguous, StartIndex, Sub64, Min, Max;
    calls := [];
    var it := StartIndex(tl, start);
    ghost var all := Enumerate(tl, start, end);
    ghost var rest := SamplesFrom(tl, it, start, end);
    assert calls + rest == all;
    while it < |tl|
      invariant it <= |tl| && rest == SamplesFrom(tl, it, start, end) && calls + rest == all
    {
      if tl[it].startTs > end {
        assert rest == [] && calls + rest == calls;
        return;
      }
      var stackStart := Max(start, tl[it].startTs);
      var stackEnd := Min(end, tl[it].endTs);
      assert rest == [Sample(tl[it].stackId, Sub64(stackEnd, stackStart))] + SamplesFrom(tl, it + 1, start, end);
      rest := SamplesFrom(tl, it + 1, start, end);
      calls := calls + [Sample(tl[it].stackId, Sub64(stackEnd, stackStart))];
      it := it + 1;
    }
    assert calls + rest == calls;
  }

  /** The identifier of a list of names; the empty list is written as the name "empty". */
  function Identifier(s: Store, names: seq<string>): (Store, StackId) {
    if names == [] then PushNames(s, ["empty"], 1) else PushNames(s, names, |names|)
  }

  /** A contiguous timeline up to now, of stacks the database knows. */
  ghost predicate TimelineOk(s: Store, tl: Timeline, now: Timestamp) {
    && UpTo(tl, now)
    && forall i | 0 <= i < |tl| :: s.IsStack(tl[i].stackId) && (tl[i].isSyscall ==> tl[i].stackId in s.stacks)
  }

  lemma EmptyTimelineOk(s: Store, now: Timestamp)
    ensures TimelineOk(s, [], now)
  {
  }

  lemma SetStackOk(s: Store, tl: Timeline, now: Timestamp, id: StackId, isSyscall: bool)
    requires TimelineOk(s, tl, now) && s.IsStack(id) && (isSyscall ==> id in s.stacks)
    ensures TimelineOk(s, StackTimelineSpec.SetStack(tl, now, id, isSyscall), now)
  {
    SetStackKeepsContiguous(tl, now, id, isSyscall);
    hide UpTo, Contiguous;
  }

  lemma CloseIs(tl: Timeline, now: Timestamp)
    ensures Close(tl, now) == if tl == [] then tl else tl[|tl| - 1 := tl[|tl| - 1].(endTs := now)]
  {
  }

  lemma CloseOk(s: Store, tl: Timeline, now: Timestamp)
    requires TimelineOk(s, tl, now)
    ensures TimelineOk(s, Close(tl, now), now)
  {
    CloseKeepsContiguous(tl, now);
    hide UpTo, Contiguous;
  }

  lemma TruncateOk(s: Store, tl: Timeline, now: Timestamp, cut: Timestamp)
    requires TimelineOk(s, tl, now)
    ensures TimelineOk(s, Truncate(tl, cut), now)
  {
    TruncateKeepsContiguous(tl, now, cut);
    hide UpTo, Contiguous;
  }

  lemma RelabelOk(s: Store, tl: Timeline, now: Timestamp, i: nat, id: StackId)
    requires TimelineOk(s, tl, now) && i < |tl| && id in s.stacks
    ensures TimelineOk(s, tl[i := tl[i].(stackId := id, isResolved := true)], now)
  {
  }

  lemma TimelinesKept(s: Store, t: Store, stacks: map<ThreadId, Timeline>, now: Timestamp)
    requires s.Extends(t) && forall k <- stacks :: TimelineOk(s, stacks[k], now)
    ensures forall k <- stacks :: TimelineOk(t, stacks[k], now)
  {
    hide UpTo, Contiguous;
  }

  lemma PushNameRoom(s: Store, bottom: StackId, name: string)
    requires s.Consistent() && s.IsStack(bottom) && s.nextName + 1 < TWO_32
    ensures var (t, f) := s.AddName(name);
            t.Consistent() && t.IsStack(bottom) && t.nextStack == s.nextStack
  {
    AddNameConsistent(s, name);
  }

  lemma NamesNotEmpty(s: Store, id: StackId)
    requires s.Consistent() && s.IsStack(id) && Named(s, id) && Names(s, id) != []
    ensures id in s.stacks
  {
  }
}
