/** Attribute histories and performance counters, keyed by attribute and updated in place. */
module StateHistories {
  import opened Common
  import opened StateHistorySpec
  import opened PerfCounterSpec

  class StateHistory {
    var ts: Timestamp
    var uIntegerHistory: Histories
    var uLongHistory: Histories
    var perfCounterStates: map<AttributeKey, PerfState>
    ghost var uIntegerLog: seq<KeyedOp>
    ghost var uLongLog: seq<KeyedOp>

    /** The histories are what the writes and cleanups so far left. */
    ghost predicate Valid()
      reads this
    {
      && AllInTime(uIntegerHistory, ts) && AllInTime(uLongHistory, ts)
      && Logged(uIntegerHistory, uIntegerLog, ts) && Logged(uLongHistory, uLongLog, ts)
      && forall k <- uLongHistory :: LastValue(uLongHistory[k]) < TWO_64
    }

    /** The counters of one attribute and the history they feed. */
    ghost function CellOf(key: AttributeKey): Cell
      reads this
    {
      Cell(if key in perfCounterStates then perfCounterStates[key] else UNSEEN,
           if key in uLongHistory then Some(uLongHistory[key]) else None)
    }

    constructor ()
      ensures Valid() && ts == 0 && uIntegerHistory == uLongHistory == map[] && perfCounterStates == map[]
      ensures uIntegerLog == uLongLog == []
    {
      ts, uIntegerHistory, uLongHistory, perfCounterStates := 0, map[], map[], map[];
      uIntegerLog, uLongLog := [], [];
    }

    method SetTimestamp(now: Timestamp)
      requires Valid() && ts <= now
      modifies this`ts
      ensures Valid() && ts == now
    {
      hide Logged;
      LoggedLater(uIntegerHistory, uIntegerLog, ts, now);
      LoggedLater(uLongHistory, uLongLog, ts, now);
      ts := now;
    }

    method SetUIntegerValue(key: AttributeKey, value: nat)
      requires Valid()
      modifies this`uIntegerHistory, this`uIntegerLog
      ensures Valid() && uIntegerLog == old(uIntegerLog) + [KeyedWrite(key, ts, value)]
      ensures uIntegerHistory == old(uIntegerHistory)[key := Record(HistoryOf(old(uIntegerHistory), key), ts, value)]
    {
      hide Logged;
      LoggedWrite(uIntegerHistory, uIntegerLog, ts, key, value);
      uIntegerLog := uIntegerLog + [KeyedWrite(key, ts, value)];
      RecordInTime(HistoryOf(uIntegerHistory, key), ts, value);
      if key !in uIntegerHistory {
        uIntegerHistory := uIntegerHistory[key := []];
      }
      var keyHistory := uIntegerHistory[key];
      if keyHistory != [] && keyHistory[|keyHistory| - 1].value == value {
        assert uIntegerHistory == old(uIntegerHistory)[key := Record(HistoryOf(old(uIntegerHistory), key), ts, value)];
        return;
      }
      uIntegerHistory := uIntegerHistory[key := keyHistory + [Entry(ts, value)]];
      assert uIntegerHistory == old(uIntegerHistory)[key := Record(HistoryOf(old(uIntegerHistory), key), ts, value)];
    }

    /** At or after all cleanups, the last value written to the attribute up to the time. */
    function GetUIntegerValue(key: AttributeKey, t: Timestamp): (r: Option<nat>)
      requires Valid()
      reads this
      ensures NotCleaned(uIntegerLog, t) ==> r == LastWrite(OpsOf(uIntegerLog, key), t)
    {
      assert NotCleaned(uIntegerLog, t) ==>
        Lookup(HistoryOf(uIntegerHistory, key), t) == LastWrite(OpsOf(uIntegerLog, key), t) by {
        if NotCleaned(uIntegerLog, t) { LoggedLookup(uIntegerHistory, uIntegerLog, ts, key, t); }
      }
      Lookup(HistoryOf(uIntegerHistory, key), t)
    }

    /** The calls made to the callback: where the window is not empty, they partition the history's part of it. */
    method EnumerateUIntegerValues(key: AttributeKey, start: Timestamp, end: Timestamp) returns (calls: seq<Span>)
      requires Valid()
      ensures key !in uIntegerHistory ==> calls == []
      ensures key in uIntegerHistory ==> calls == Enumerate(uIntegerHistory[key], start, end)
      ensures var h := HistoryOf(uIntegerHistory, key);
              start < end && h != [] && h[0].ts < end ==> Tiles(calls, Max(h[0].ts, start), end) && Agreeing(h, calls)
    {
      hide Tiles, Agreeing, Enumerate;
      calls := [];
      if key !in uIntegerHistory { return; }
      var keyHistory := uIntegerHistory[key];
      if start < end { EnumerateTiles(keyHistory, start, end); }
      calls := EnumerateHistory(keyHistory, start, end);
    }

    method SetULongValue(key: AttributeKey, value: Word64)
      requires Valid()
      modifies this`uLongHistory, this`uLongLog
      ensures Valid() && uLongLog == old(uLongLog) + [KeyedWrite(key, ts, value)]
      ensures uLongHistory == old(uLongHistory)[key := Record(HistoryOf(old(uLongHistory), key), ts, value)]
    {
      hide Logged;
      LoggedWrite(uLongHistory, uLongLog, ts, key, value);
      uLongLog := uLongLog + [KeyedWrite(key, ts, value)];
      RecordInTime(HistoryOf(uLongHistory, key), ts, value);
      if key !in uLongHistory {
        uLongHistory := uLongHistory[key := []];
      }
      var keyHistory := uLongHistory[key];
      if keyHistory != [] && keyHistory[|keyHistory| - 1].value == value {
        assert uLongHistory == old(uLongHistory)[key := Record(HistoryOf(old(uLongHistory), key), ts, value)];
        return;
      }
      uLongHistory := uLongHistory[key := keyHistory + [Entry(ts, value)]];
      assert uLongHistory == old(uLongHistory)[key := Record(HistoryOf(old(uLongHistory), key), ts, value)];
    }

    /** At or after all cleanups, the last value written to the attribute up to the time. */
    function GetULongValue(key: AttributeKey, t: Timestamp): (r: Option<nat>)
      requires Valid()
      reads this
      ensures NotCleaned(uLongLog, t) ==> r == LastWrite(OpsOf(uLongLog, key), t)
    {
      assert NotCleaned(uLongLog, t) ==>
        Lookup(HistoryOf(uLongHistory, key), t) == LastWrite(OpsOf(uLongLog, key), t) by {
        if NotCleaned(uLongLog, t) { LoggedLookup(uLongHistory, uLongLog, ts, key, t); }
      }
      Lookup(HistoryOf(uLongHistory, key), t)
    }

    function GetULongLastValue(key: AttributeKey): nat
      reads this
    {
      if key in uLongHistory then LastValue(uLongHistory[key]) else 0
    }

    method SetPerfCounterCpuBaseValue(key: AttributeKey, value: Word64)
      requires Valid() && BaseStops(CellOf(key), value)
      modifies this`uLongHistory, this`uLongLog, this`perfCounterStates
      ensures Valid() && Words(old(CellOf(key))) && CellOf(key) == Base(old(CellOf(key)), ts, value)
      ensures forall k | k != key :: CellOf(k) == old(CellOf(k))
      ensures old(uLongLog) <= uLongLog
      decreases 1
    {
      hide Logged;
      var state := if key in perfCounterStates then perfCounterStates[key] else UNSEEN;
      perfCounterStates := perfCounterStates[key := state.(cpuAbsolute := value, cpuReal := GetULongLastValue(key))];
      if key !in uLongHistory {
        SetPerfCounterCpuValue(key, value);
      }
    }

    method SetPerfCounterCpuValue(key: AttributeKey, value: Word64)
      requires Valid() && CpuStops(CellOf(key), value)
      modifies this`uLongHistory, this`uLongLog, this`perfCounterStates
      ensures Valid() && Words(old(CellOf(key))) && CellOf(key) == Cpu(old(CellOf(key)), ts, value)
      ensures forall k | k != key :: CellOf(k) == old(CellOf(k))
      ensures old(uLongLog) <= uLongLog
      decreases if CellOf(key).perf.cpuAbsolute == INVALID || CellOf(key).perf.cpuAbsolute > value then 2 else 0
    {
      hide Logged;
      var state := if key in perfCounterStates then perfCounterStates[key] else UNSEEN;
      if state.cpuAbsolute == INVALID || state.cpuAbsolute > value {
        SetPerfCounterCpuBaseValue(key, value);
        return;
      }
      var minDiff := Sub64(value, state.cpuAbsolute);
      var minReal := Add64(state.cpuReal, minDiff);
      var last := GetULongLastValue(key);
      var merged := Max(last, minReal);
      SetULongValue(key, merged);
      perfCounterStates := perfCounterStates[key := state.(cpuAbsolute := value, cpuReal := merged)];
    }

    method SetPerfCounterThreadValue(key: AttributeKey, value: Word64)
      requires Valid()
      modifies this`uLongHistory, this`uLongLog, this`perfCounterStates
      ensures Valid() && Words(old(CellOf(key))) && CellOf(key) == Thread(old(CellOf(key)), ts, value)
      ensures forall k | k != key :: CellOf(k) == old(CellOf(k))
      ensures old(uLongLog) <= uLongLog
    {
      hide Logged;
      var state := if key in perfCounterStates then perfCounterStates[key] else UNSEEN;
      if state.threadAbsolute == INVALID {
        perfCounterStates :=
          perfCounterStates[key := state.(threadAbsolute := value, threadReal := GetULongLastValue(key))];
        if key !in uLongHistory {
          SetULongValue(key, 0);
        }
        return;
      }
      var minDiff := Sub64(value, state.threadAbsolute);
      var minReal := Add64(state.threadReal, minDiff);
      var last := GetULongLastValue(key);
      var merged := Max(last, minReal);
      SetULongValue(key, merged);
      perfCounterStates := perfCounterStates[key := state.(threadAbsolute := value, threadReal := merged)];
    }

    /** Truncates every history, in any order of the keys. */
    method CleanupBefore(cut: Timestamp)
      requires Valid()
      modifies this`uIntegerHistory, this`uLongHistory, this`uIntegerLog, this`uLongLog
      ensures Valid()
      ensures uIntegerLog == old(uIntegerLog) + [CleanupAll(cut)] && uLongLog == old(uLongLog) + [CleanupAll(cut)]
      ensures uIntegerHistory == TruncateAll(old(uIntegerHistory), ts, cut)
      ensures uLongHistory == TruncateAll(old(uLongHistory), ts, cut)
    {
      hide Logged;
      LoggedCleanup(uIntegerHistory, uIntegerLog, ts, cut);
      LoggedCleanup(uLongHistory, uLongLog, ts, cut);
      uIntegerHistory := CleanHistories(uIntegerHistory, ts, cut);
      forall k <- uLongHistory
        ensures LastValue(Truncate(uLongHistory[k], cut)) == LastValue(uLongHistory[k])
      {
      }
      uLongHistory := CleanHistories(uLongHistory, ts, cut);
      uIntegerLog, uLongLog := uIntegerLog + [CleanupAll(cut)], uLongLog + [CleanupAll(cut)];
    }
  }

  method EnumerateHistory(keyHistory: seq<Entry>, start: Timestamp, end: Timestamp) returns (calls: seq<Span>)
    requires InTime(keyHistory)
    ensures calls == Enumerate(keyHistory, start, end)
  {
    hide InTime, StartIndex, Min, Max;
    calls := [];
    var it := StartIndex(keyHistory, start);
    while it < |keyHistory|
      invariant it <= |keyHistory|
      invariant calls + SpansFrom(keyHistory, it, start, end) == Enumerate(keyHistory, start, end)
    {
      if keyHistory[it].ts >= end { return; }
      var intervalStart := Max(keyHistory[it].ts, start);
      var intervalEnd := end;
      if it + 1 < |keyHistory| {
        intervalEnd := Min(keyHistory[it + 1].ts, end);
      }
      calls := calls + [Span(keyHistory[it].value, intervalStart, intervalEnd)];
      it := it + 1;
    }
  }

  method CleanHistories(m: Histories, ghost ts: Timestamp, cut: Timestamp) returns (r: Histories)
    requires AllInTime(m, ts)
    ensures AllInTime(r, ts) && r == TruncateAll(m, ts, cut)
  {
    r := m;
    var todo := m.Keys;
    while todo != {}
      invariant todo <= m.Keys && r.Keys == m.Keys
      invariant forall k <- m :: r[k] == if k in todo then m[k] else Truncate(m[k], cut)
      decreases todo
    {
      var key :| key in todo;
      var keyHistory := r[key];
      if keyHistory != [] {
        var it := LowerBound(Times(keyHistory), cut);
        if it != 0 {
          r := r[key := keyHistory[it - 1..]];
        }
      }
      todo := todo - {key};
    }
    forall k <- r
      ensures InTime(r[k]) && Before(r[k], ts)
    {
      TruncateInTime(m[k], cut);
    }
  }
}
