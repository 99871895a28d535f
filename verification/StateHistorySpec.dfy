/**
  The history of one attribute: a run-length-compressed, truncated log of its values, and the
  merge of two hardware counters into one.
 */
module StateHistorySpec {
  import opened Common

  datatype Entry = Entry(ts: Timestamp, value: nat)

  function Times(h: seq<Entry>): (ks: seq<Timestamp>)
    ensures |ks| == |h| && forall i | 0 <= i < |h| :: ks[i] == h[i].ts
  {
    seq(|h|, i requires 0 <= i < |h| => h[i].ts)
  }

  ghost predicate InTime(h: seq<Entry>) { Sorted(Times(h)) }

  function LastValue(h: seq<Entry>): nat { if h == [] then 0 else h[|h| - 1].value }

  /** A write: recorded only if it changes the value. */
  function Record(h: seq<Entry>, ts: Timestamp, value: nat): seq<Entry> {
    if h != [] && h[|h| - 1].value == value then h else h + [Entry(ts, value)]
  }

  /** Drops the entries superseded at `cut`. */
  function Truncate(h: seq<Entry>, cut: Timestamp): seq<Entry>
    requires InTime(h)
  {
    var i := LowerBound(Times(h), cut);
    if i == 0 then h else h[i - 1..]
  }

  /** Where a lookup or enumeration from `ts` starts. */
  function StartIndex(h: seq<Entry>, ts: Timestamp): (i: nat)
    requires InTime(h)
    ensures i <= |h| && (h != [] ==> i < |h|)
  {
    var i := UpperBound(Times(h), ts);
    if i == 0 then 0 else i - 1
  }

  function Lookup(h: seq<Entry>, ts: Timestamp): Option<nat>
    requires InTime(h)
  {
    var i := StartIndex(h, ts);
    if i == |h| then None
    else if h[i].ts <= ts then Some(h[i].value)
    else None
  }

  // ----- Refinement of a write log

  datatype Op = Write(ts: Timestamp, value: nat) | Cleanup(cut: Timestamp)

  /** Writes come in time order; cleanups may name any time. */
  ghost predicate OpsOk(ops: seq<Op>) {
    forall i, j | 0 <= i < j < |ops| && ops[i].Write? && ops[j].Write? :: ops[i].ts <= ops[j].ts
  }

  /** Every entry is no later than every write still to come. */
  ghost predicate Before(h: seq<Entry>, ts: Timestamp) {
    forall i | 0 <= i < |h| :: h[i].ts <= ts
  }

  lemma RecordInTime(h: seq<Entry>, ts: Timestamp, value: nat)
    requires InTime(h) && Before(h, ts)
    ensures InTime(Record(h, ts, value)) && Before(Record(h, ts, value), ts)
  {
  }

  lemma TruncateInTime(h: seq<Entry>, cut: Timestamp)
    requires InTime(h)
    ensures InTime(Truncate(h, cut))
    ensures forall ts | Before(h, ts) :: Before(Truncate(h, cut), ts)
  {
    var k := |h| - |Truncate(h, cut)|;
    assert Truncate(h, cut) == h[k..];
    hide Truncate;
    SuffixInTime(h, k);
  }

  lemma SuffixInTime(h: seq<Entry>, k: nat)
    requires InTime(h) && k <= |h|
    ensures InTime(h[k..])
  {
    forall i, j | 0 <= i < j < |h| - k
      ensures Times(h[k..])[i] <= Times(h[k..])[j]
    {
      assert Times(h)[i + k] <= Times(h)[j + k];
    }
  }

  /** A lookup answers with the last entry at or before its time. */
  lemma LookupIsLast(h: seq<Entry>, t: Timestamp)
    requires InTime(h)
    ensures Lookup(h, t).None? <==> h == [] || t < h[0].ts
    ensures forall i | 0 <= i < |h| && h[i].ts <= t && (i + 1 < |h| ==> t < h[i + 1].ts) ::
              Lookup(h, t) == Some(h[i].value) && StartIndex(h, t) == i
  {
    var ks := Times(h);
    var u := UpperBound(ks, t);
    forall i | 0 <= i < |h| && h[i].ts <= t && (i + 1 < |h| ==> t < h[i + 1].ts)
      ensures u == i + 1
    {
      assert ks[i] <= t && (i + 1 < |h| ==> t < ks[i + 1]);
    }
    if h != [] { assert ks[0] == h[0].ts; }
  }

  /** After a write, later lookups answer with it; earlier ones are not affected. */
  lemma LookupRecord(h: seq<Entry>, ts: Timestamp, value: nat, t: Timestamp)
    requires InTime(h) && Before(h, ts)
    ensures InTime(Record(h, ts, value))
    ensures Lookup(Record(h, ts, value), t) == if ts <= t then Some(value) else Lookup(h, t)
  {
    RecordInTime(h, ts, value);
    var h' := Record(h, ts, value);
    LookupIsLast(h, t);
    LookupIsLast(h', t);
    if ts <= t {
      assert h'[|h'| - 1].ts <= t;
    } else if h != [] && h[0].ts <= t {
      var i := StartIndex(h, t);
      assert h[i].ts <= t && (i + 1 < |h| ==> t < h[i + 1].ts) by { StartIsLast(h, t); }
      assert h'[i] == h[i];
    }
  }

  lemma StartIsLast(h: seq<Entry>, t: Timestamp)
    requires InTime(h) && h != [] && h[0].ts <= t
    ensures var i := StartIndex(h, t);
            h[i].ts <= t && (i + 1 < |h| ==> t < h[i + 1].ts)
  {
    assert Times(h)[0] <= t;
    var u := UpperBound(Times(h), t);
    assert u > 0 && Times(h)[u - 1] <= t;
  }

  /** A cleanup keeps the last entry before its time, and everything after. */
  lemma TruncateIsSuffix(h: seq<Entry>, cut: Timestamp) returns (k: nat)
    requires InTime(h)
    ensures k <= |h| && Truncate(h, cut) == h[k..] && InTime(h[k..])
    ensures k > 0 ==> k < |h| && h[0].ts <= h[k].ts < cut
  {
    k := |h| - |Truncate(h, cut)|;
    TruncateInTime(h, cut);
    if k > 0 { assert Times(h)[k] < cut && Times(h)[0] <= Times(h)[k]; }
  }

  /** From a time at or after its first entry, a suffix is searched as the whole. */
  lemma StartInSuffix(h: seq<Entry>, k: nat, t: Timestamp)
    requires InTime(h) && k < |h| && h[0].ts <= h[k].ts <= t && InTime(h[k..])
    ensures StartIndex(h, t) >= k && StartIndex(h[k..], t) == StartIndex(h, t) - k
    ensures h[StartIndex(h, t)].ts <= t && h[k..][StartIndex(h, t) - k] == h[StartIndex(h, t)]
  {
    StartIsLast(h, t);
    var i := StartIndex(h, t);
    assert k <= i by { assert Times(h)[i] <= t && (i + 1 < |h| ==> t < Times(h)[i + 1]); }
    hide StartIndex, Lookup, InTime, Times;
    LookupIsLast(h[k..], t);
    assert h[k..][i - k].ts <= t;
  }

  /** A cleanup does not change lookups from its time on. */
  lemma LookupTruncate(h: seq<Entry>, cut: Timestamp, t: Timestamp)
    requires InTime(h) && cut <= t
    ensures InTime(Truncate(h, cut)) && Lookup(Truncate(h, cut), t) == Lookup(h, t)
  {
    hide StartIndex, Truncate, InTime;
    var k := TruncateIsSuffix(h, cut);
    if k > 0 { StartInSuffix(h, k, t); }
  }

  function Step(h: seq<Entry>, op: Op): seq<Entry>
    requires InTime(h)
  {
    match op
    case Write(ts, value) => Record(h, ts, value)
    case Cleanup(cut) => Truncate(h, cut)
  }

  /** The history a run of writes and cleanups leaves. */
  ghost function Run(ops: seq<Op>): (h: seq<Entry>)
    requires OpsOk(ops)
    ensures InTime(h)
    ensures forall ts | (forall i | 0 <= i < |ops| && ops[i].Write? :: ops[i].ts <= ts) :: Before(h, ts)
  {
    if ops == [] then []
    else
      var init, op := ops[..|ops| - 1], ops[|ops| - 1];
      var h := Run(init);
      if op.Write? then RecordInTime(h, op.ts, op.value); Step(h, op)
      else TruncateInTime(h, op.cut); Step(h, op)
  }

  /** The value of the last write at or before `t`. */
  function LastWrite(ops: seq<Op>, t: Timestamp): Option<nat> {
    if ops == [] then None
    else
      var op := ops[|ops| - 1];
      if op.Write? && op.ts <= t then Some(op.value) else LastWrite(ops[..|ops| - 1], t)
  }

  /** Despite deduplication and truncation, lookups at or after all cleanup times answer as the full log. */
  lemma {:induction false} LookupRefinesLog(ops: seq<Op>, t: Timestamp)
    requires OpsOk(ops) && forall i | 0 <= i < |ops| && ops[i].Cleanup? :: ops[i].cut <= t
    ensures Lookup(Run(ops), t) == LastWrite(ops, t)
  {
    if ops != [] {
      var init, op := ops[..|ops| - 1], ops[|ops| - 1];
      LookupRefinesLog(init, t);
      if op.Write? {
        LookupRecord(Run(init), op.ts, op.value, t);
      } else {
        LookupTruncate(Run(init), op.cut, t);
      }
    }
  }

  // ----- The histories of all attributes

  type AttributeKey = nat

  type Histories = map<AttributeKey, seq<Entry>>

  ghost predicate AllInTime(m: Histories, ts: Timestamp) {
    forall k <- m :: InTime(m[k]) && Before(m[k], ts)
  }

  function HistoryOf(m: Histories, key: AttributeKey): seq<Entry> {
    if key in m then m[key] else []
  }

  ghost function TruncateAll(m: Histories, ts: Timestamp, cut: Timestamp): Histories
    requires AllInTime(m, ts)
  {
    map k | k in m :: Truncate(m[k], cut)
  }

  datatype KeyedOp = KeyedWrite(key: AttributeKey, ts: Timestamp, value: nat) | CleanupAll(cut: Timestamp)

  /** The part of a log that concerns one attribute. */
  function OpsOf(log: seq<KeyedOp>, key: AttributeKey): seq<Op> {
    if log == [] then []
    else
      OpsOf(log[..|log| - 1], key) +
      match log[|log| - 1]
      case KeyedWrite(k, ts, value) => if k == key then [Write(ts, value)] else []
      case CleanupAll(cut) => [Cleanup(cut)]
  }

  /** The operations came in time order, up to now, and left this history. */
  ghost predicate Left(h: seq<Entry>, ops: seq<Op>, now: Timestamp) {
    && (forall i | 0 <= i < |ops| && ops[i].Write? :: ops[i].ts <= now)
    && OpsOk(ops) && Run(ops) == h
  }

  /** Each history is what the log's operations on it left. */
  ghost predicate Logged(m: Histories, log: seq<KeyedOp>, now: Timestamp) {
    forall key: AttributeKey :: Left(HistoryOf(m, key), OpsOf(log, key), now)
  }

  /** `t` is at or after every cleanup of the log. */
  predicate NotCleaned(log: seq<KeyedOp>, t: Timestamp) {
    forall i | 0 <= i < |log| && log[i].CleanupAll? :: log[i].cut <= t
  }

  lemma LeftLater(h: seq<Entry>, ops: seq<Op>, now: Timestamp, later: Timestamp)
    requires Left(h, ops, now) && now <= later
    ensures Left(h, ops, later)
  {
  }

  lemma LeftStep(h: seq<Entry>, ops: seq<Op>, now: Timestamp, op: Op)
    requires Left(h, ops, now) && (op.Write? ==> op.ts == now)
    ensures InTime(h) && Left(Step(h, op), ops + [op], now)
  {
    var next := ops + [op];
    assert next[..|next| - 1] == ops && next[|next| - 1] == op;
    assert OpsOk(next);
  }

  lemma OpsOfNext(log: seq<KeyedOp>, op: KeyedOp, key: AttributeKey)
    ensures OpsOf(log + [op], key) == OpsOf(log, key) +
              match op
              case KeyedWrite(k, ts, value) => if k == key then [Write(ts, value)] else []
              case CleanupAll(cut) => [Cleanup(cut)]
  {
    assert (log + [op])[..|log|] == log;
  }

  lemma LoggedLater(m: Histories, log: seq<KeyedOp>, now: Timestamp, later: Timestamp)
    requires Logged(m, log, now) && now <= later
    ensures Logged(m, log, later)
  {
    hide Left, OpsOf, HistoryOf;
    forall key: AttributeKey
      ensures Left(HistoryOf(m, key), OpsOf(log, key), later)
    {
      LeftLater(HistoryOf(m, key), OpsOf(log, key), now, later);
    }
  }

  lemma LoggedWrite(m: Histories, log: seq<KeyedOp>, now: Timestamp, key: AttributeKey, value: nat)
    requires Logged(m, log, now)
    ensures Logged(m[key := Record(HistoryOf(m, key), now, value)], log + [KeyedWrite(key, now, value)], now)
  {
    hide Left, OpsOf, Record;
    var m' := m[key := Record(HistoryOf(m, key), now, value)];
    var log' := log + [KeyedWrite(key, now, value)];
    forall k: AttributeKey
      ensures Left(HistoryOf(m', k), OpsOf(log', k), now)
    {
      OpsOfNext(log, KeyedWrite(key, now, value), k);
      if k == key {
        LeftStep(HistoryOf(m, k), OpsOf(log, k), now, Write(now, value));
      } else {
        assert OpsOf(log', k) == OpsOf(log, k) && HistoryOf(m', k) == HistoryOf(m, k);
      }
    }
  }

  lemma LoggedCleanup(m: Histories, log: seq<KeyedOp>, now: Timestamp, cut: Timestamp)
    requires Logged(m, log, now) && AllInTime(m, now)
    ensures Logged(TruncateAll(m, now, cut), log + [CleanupAll(cut)], now)
  {
    hide Left, OpsOf;
    var m' := TruncateAll(m, now, cut);
    forall k: AttributeKey
      ensures Left(HistoryOf(m', k), OpsOf(log + [CleanupAll(cut)], k), now)
    {
      OpsOfNext(log, CleanupAll(cut), k);
      LeftStep(HistoryOf(m, k), OpsOf(log, k), now, Cleanup(cut));
    }
  }

  lemma {:induction false} NotCleanedMeans(log: seq<KeyedOp>, key: AttributeKey, t: Timestamp)
    requires NotCleaned(log, t)
    ensures forall i | 0 <= i < |OpsOf(log, key)| && OpsOf(log, key)[i].Cleanup? :: OpsOf(log, key)[i].cut <= t
  {
    if log != [] {
      NotCleanedMeans(log[..|log| - 1], key, t);
    }
  }

  /** From all cleanups on, the histories answer as the log: with the last write of the attribute up to the time. */
  lemma LoggedLookup(m: Histories, log: seq<KeyedOp>, now: Timestamp, key: AttributeKey, t: Timestamp)
    requires Logged(m, log, now) && NotCleaned(log, t)
    ensures InTime(HistoryOf(m, key)) && Lookup(HistoryOf(m, key), t) == LastWrite(OpsOf(log, key), t)
  {
    assert Left(HistoryOf(m, key), OpsOf(log, key), now);
    NotCleanedMeans(log, key, t);
    LookupRefinesLog(OpsOf(log, key), t);
  }

  // ----- Enumeration

  datatype Span = Span(value: nat, start: Timestamp, end: Timestamp)

  /** The callbacks of an enumeration, from entry `i` on. */
  function SpansFrom(h: seq<Entry>, i: nat, start: Timestamp, end: Timestamp): seq<Span>
    decreases |h| - i
  {
    if i >= |h| || end <= h[i].ts then []
    else
      var spanEnd := if i + 1 < |h| then Min(h[i + 1].ts, end) else end;
      [Span(h[i].value, Max(h[i].ts, start), spanEnd)] + SpansFrom(h, i + 1, start, end)
  }

  function Enumerate(h: seq<Entry>, start: Timestamp, end: Timestamp): seq<Span>
    requires InTime(h)
  {
    SpansFrom(h, StartIndex(h, start), start, end)
  }

  ghost predicate Tiles(spans: seq<Span>, a: Timestamp, b: Timestamp) {
    if spans == [] then a == b
    else spans[0].start == a && a <= spans[0].end && Tiles(spans[1..], spans[0].end, b)
  }

  /** Each span gives its instants the value a lookup finds there. */
  ghost predicate Agreeing(h: seq<Entry>, spans: seq<Span>)
    requires InTime(h)
  {
    forall i, t | 0 <= i < |spans| && spans[i].start <= t < spans[i].end :: Lookup(h, t) == Some(spans[i].value)
  }

  lemma {:induction false} SpansTile(h: seq<Entry>, i: nat, start: Timestamp, end: Timestamp)
    requires InTime(h) && start < end && i < |h| && h[i].ts < end && (i + 1 < |h| ==> start <= h[i + 1].ts)
    ensures Tiles(SpansFrom(h, i, start, end), Max(h[i].ts, start), end)
    ensures Agreeing(h, SpansFrom(h, i, start, end))
    decreases |h| - i
  {
    assert i + 1 < |h| ==> Times(h)[i] <= Times(h)[i + 1];
    var spans := SpansFrom(h, i, start, end);
    forall t | spans[0].start <= t < spans[0].end
      ensures Lookup(h, t) == Some(spans[0].value)
    {
      LookupIsLast(h, t);
    }
    assert spans[1..] == SpansFrom(h, i + 1, start, end);
    if i + 1 < |h| && h[i + 1].ts < end {
      assert i + 2 < |h| ==> Times(h)[i + 1] <= Times(h)[i + 2];
      SpansTile(h, i + 1, start, end);
    } else {
      assert spans[1..] == [];
    }
  }

  /** Enumeration partitions the part of the window the history covers; nothing is reported otherwise. */
  lemma EnumerateTiles(h: seq<Entry>, start: Timestamp, end: Timestamp)
    requires InTime(h) && start < end
    ensures var spans := Enumerate(h, start, end);
            && Agreeing(h, spans)
            && (if h != [] && h[0].ts < end then Tiles(spans, Max(h[0].ts, start), end) else spans == [])
  {
    if h != [] {
      var i := StartIndex(h, start);
      assert forall k | 0 <= k < |h| :: Times(h)[0] <= Times(h)[k];
      var u := UpperBound(Times(h), start);
      if h[0].ts <= start {
        StartIsLast(h, start);
      } else {
        assert Times(h)[0] > start;
        assert i == 0;
      }
      if h[0].ts < end {
        SpansTile(h, i, start, end);
      }
    }
  }

  lemma {:induction false} SpansShift(h: seq<Entry>, k: nat, i: nat, start: Timestamp, end: Timestamp)
    requires k <= |h|
    ensures SpansFrom(h[k..], i, start, end) == SpansFrom(h, i + k, start, end)
    decreases |h| - i
  {
    if i + k < |h| {
      SpansShift(h, k, i + 1, start, end);
    }
  }

  /** A cleanup at or before the start of a window does not change its enumeration. */
  lemma EnumerateTruncate(h: seq<Entry>, cut: Timestamp, start: Timestamp, end: Timestamp)
    requires InTime(h) && cut <= start
    ensures InTime(Truncate(h, cut)) && Enumerate(Truncate(h, cut), start, end) == Enumerate(h, start, end)
  {
    hide StartIndex, Truncate, InTime, SpansFrom;
    var k := TruncateIsSuffix(h, cut);
    if k > 0 {
      StartInSuffix(h, k, start);
      SpansShift(h, k, StartIndex(h, start) - k, start, end);
    }
  }
}
