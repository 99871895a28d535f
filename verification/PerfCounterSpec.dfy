/**
  Two hardware counters, one per CPU and one per thread, merged into a single value per thread
  that neither counter's increments may exceed.
 */
module PerfCounterSpec {
  import opened Common
  import opened StateHistorySpec

  /** Marks a counter that has not been seen. */
  const INVALID: Word64 := TWO_64 - 1

  datatype PerfState = PerfState(cpuAbsolute: Word64, cpuReal: Word64, threadAbsolute: Word64, threadReal: Word64)

  const UNSEEN: PerfState := PerfState(INVALID, INVALID, INVALID, INVALID)

  /** The counters of one attribute; `history` is absent until a value is stored. */
  datatype Cell = Cell(perf: PerfState, history: Option<seq<Entry>>)

  function Stored(c: Cell): nat { if c.history.None? then 0 else LastValue(c.history.value) }

  function Store(c: Cell, now: Timestamp, value: nat): Cell {
    c.(history := Some(Record(if c.history.None? then [] else c.history.value, now, value)))
  }

  function Add64(a: nat, b: nat): Word64 { (a + b) % TWO_64 }

  /** A stored value is a 64-bit word. */
  ghost predicate Words(c: Cell) { Stored(c) < TWO_64 }

  /** The advance of a counter from a reference point (`absolute`, `merged`) to a new reading. */
  function Advanced(c: Cell, absolute: Word64, merged: Word64, reading: Word64): nat {
    Max(Stored(c), Add64(merged, Sub64(reading, absolute)))
  }

  /** Readings on which the base and CPU handlers stop calling each other. */
  predicate BaseStops(c: Cell, reading: Word64) { c.history.Some? || reading != INVALID }

  predicate CpuStops(c: Cell, reading: Word64) {
    c.history.Some? || reading != INVALID || c.perf.cpuAbsolute != INVALID
  }

  function Base(c: Cell, now: Timestamp, reading: Word64): (r: Cell)
    requires Words(c) && BaseStops(c, reading)
    ensures Words(r) && r.history.Some?
    decreases 1
  {
    var b := c.(perf := c.perf.(cpuAbsolute := reading, cpuReal := Stored(c)));
    if c.history.None? then Cpu(b, now, reading) else b
  }

  function Cpu(c: Cell, now: Timestamp, reading: Word64): (r: Cell)
    requires Words(c) && CpuStops(c, reading)
    ensures Words(r) && r.history.Some?
    decreases if c.perf.cpuAbsolute == INVALID || c.perf.cpuAbsolute > reading then 2 else 0
  {
    if c.perf.cpuAbsolute == INVALID || c.perf.cpuAbsolute > reading then Base(c, now, reading)
    else
      var merged := Advanced(c, c.perf.cpuAbsolute, c.perf.cpuReal, reading);
      Store(c, now, merged).(perf := c.perf.(cpuAbsolute := reading, cpuReal := merged))
  }

  function Thread(c: Cell, now: Timestamp, reading: Word64): (r: Cell)
    requires Words(c)
    ensures Words(r)
  {
    if c.perf.threadAbsolute == INVALID then
      var b := c.(perf := c.perf.(threadAbsolute := reading, threadReal := Stored(c)));
      if c.history.None? then Store(b, now, 0) else b
    else
      var merged := Advanced(c, c.perf.threadAbsolute, c.perf.threadReal, reading);
      Store(c, now, merged).(perf := c.perf.(threadAbsolute := reading, threadReal := merged))
  }

  // ----- When the mutual recursion ends

  /** The base handler allowed `fuel` nested calls; absent when they run out. */
  function BaseWithin(fuel: nat, c: Cell, now: Timestamp, reading: Word64): Option<Cell>
    requires Words(c)
    decreases fuel, 1
  {
    if fuel == 0 then None
    else
      var b := c.(perf := c.perf.(cpuAbsolute := reading, cpuReal := Stored(c)));
      if c.history.None? then CpuWithin(fuel - 1, b, now, reading) else Some(b)
  }

  function CpuWithin(fuel: nat, c: Cell, now: Timestamp, reading: Word64): Option<Cell>
    requires Words(c)
    decreases fuel, 0
  {
    if fuel == 0 then None
    else if c.perf.cpuAbsolute == INVALID || c.perf.cpuAbsolute > reading then BaseWithin(fuel - 1, c, now, reading)
    else
      var merged := Advanced(c, c.perf.cpuAbsolute, c.perf.cpuReal, reading);
      Some(Store(c, now, merged).(perf := c.perf.(cpuAbsolute := reading, cpuReal := merged)))
  }

  /** The two handlers call each other for ever on an unseen attribute whose reading is the invalid mark. */
  lemma {:induction false} InvalidReadingLoops(fuel: nat, c: Cell, now: Timestamp)
    requires Words(c) && c.history.None?
    ensures BaseWithin(fuel, c, now, INVALID).None?
    ensures c.perf.cpuAbsolute == INVALID ==> CpuWithin(fuel, c, now, INVALID).None?
    decreases fuel
  {
    if fuel > 1 {
      var b := c.(perf := c.perf.(cpuAbsolute := INVALID, cpuReal := Stored(c)));
      InvalidReadingLoops(fuel - 1, b, now);
      InvalidReadingLoops(fuel - 1, c, now);
    }
  }

  ghost predicate BaseEnds(c: Cell, now: Timestamp, reading: Word64)
    requires Words(c)
  {
    exists fuel: nat :: BaseWithin(fuel, c, now, reading).Some?
  }

  ghost predicate CpuEnds(c: Cell, now: Timestamp, reading: Word64)
    requires Words(c)
  {
    exists fuel: nat :: CpuWithin(fuel, c, now, reading).Some?
  }

  /** The handlers stop exactly otherwise, and then with what `Base` and `Cpu` say. */
  lemma HandlersStopExactly(c: Cell, now: Timestamp, reading: Word64)
    requires Words(c)
    ensures BaseEnds(c, now, reading) <==> BaseStops(c, reading)
    ensures CpuEnds(c, now, reading) <==> CpuStops(c, reading)
    ensures BaseStops(c, reading) ==> BaseWithin(2, c, now, reading) == Some(Base(c, now, reading))
    ensures CpuStops(c, reading) ==> CpuWithin(3, c, now, reading) == Some(Cpu(c, now, reading))
  {
    if BaseEnds(c, now, reading) && !BaseStops(c, reading) {
      var fuel: nat :| BaseWithin(fuel, c, now, reading).Some?;
      InvalidReadingLoops(fuel, c, now);
    }
    if CpuEnds(c, now, reading) && !CpuStops(c, reading) {
      var fuel: nat :| CpuWithin(fuel, c, now, reading).Some?;
      InvalidReadingLoops(fuel, c, now);
    }
    var two: nat, three: nat := 2, 3;
    assert BaseStops(c, reading) ==> BaseWithin(two, c, now, reading).Some?;
    assert CpuStops(c, reading) ==> CpuWithin(three, c, now, reading).Some?;
  }

  // ----- Bounds on the merged value

  datatype Sample = BaseSample(reading: Word64) | CpuSample(reading: Word64) | ThreadSample(reading: Word64)

  function Take(c: Cell, now: Timestamp, s: Sample): (r: Cell)
    requires Words(c) && (c.history.Some? || s.ThreadSample? || s.reading != INVALID)
    ensures Words(r) && r.history.Some?
  {
    match s
    case BaseSample(v) => Base(c, now, v)
    case CpuSample(v) => Cpu(c, now, v)
    case ThreadSample(v) => Thread(c, now, v)
  }

  /** The last base or CPU reading. */
  function LastCpu(samples: seq<Sample>): Option<Word64> {
    if samples == [] then None
    else
      var s := samples[|samples| - 1];
      if s.ThreadSample? then LastCpu(samples[..|samples| - 1]) else Some(s.reading)
  }

  function LastThread(samples: seq<Sample>): Option<Word64> {
    if samples == [] then None
    else
      var s := samples[|samples| - 1];
      if s.ThreadSample? then Some(s.reading) else LastThread(samples[..|samples| - 1])
  }

  /** What the CPU counter counted: increases between readings, a decrease being a restart. */
  function CpuCount(samples: seq<Sample>): nat {
    if samples == [] then 0
    else
      var init, s := samples[..|samples| - 1], samples[|samples| - 1];
      var last := LastCpu(init);
      CpuCount(init) + if s.CpuSample? && last.Some? && last.value <= s.reading then s.reading - last.value else 0
  }

  /** What the thread counter counted since its first reading. */
  function ThreadCount(samples: seq<Sample>): nat {
    if samples == [] then 0
    else
      var init, s := samples[..|samples| - 1], samples[|samples| - 1];
      var last := LastThread(init);
      ThreadCount(init) + if s.ThreadSample? && last.Some? && last.value <= s.reading then s.reading - last.value else 0
  }

  /** No reading is the invalid mark, and the thread's counter does not go back. */
  ghost predicate SamplesOk(samples: seq<Sample>) {
    && (forall i | 0 <= i < |samples| :: samples[i].reading != INVALID)
    && (samples != [] ==>
          var init, s := samples[..|samples| - 1], samples[|samples| - 1];
          SamplesOk(init) && (s.ThreadSample? && LastThread(init).Some? ==> LastThread(init).value <= s.reading))
  }

  /** The handlers return on every reading of the run: only the first may make them loop. */
  predicate Returns(samples: seq<Sample>) {
    samples != [] ==> samples[0].ThreadSample? || samples[0].reading != INVALID
  }

  function Merge(samples: seq<Sample>, times: seq<Timestamp>): (c: Cell)
    requires |times| == |samples| && Returns(samples)
    ensures Words(c) && (c.history.Some? <==> samples != [])
  {
    if samples == [] then Cell(UNSEEN, None)
    else
      var n := |samples| - 1;
      Take(Merge(samples[..n], times[..n]), times[n], samples[n])
  }

  // ----- The merged value, exactly

  /** There is a last reading, and it is not the mark. */
  predicate Seen(last: Option<Word64>) { last.Some? && last.value != INVALID }

  /**
    What is stored after the readings, said of the readings alone. A reading of a counter that has been read before
    raises the value to what was stored after that counter's previous reading and the increase since, if that is
    more. A base reading, a first one, and a CPU counter's restart leave it.
   */
  function MergedValue(samples: seq<Sample>): Word64
    decreases |samples|, 0
  {
    if samples == [] then 0
    else
      var init, s := samples[..|samples| - 1], samples[|samples| - 1];
      var before := MergedValue(init);
      match s
      case BaseSample(_) => before
      case CpuSample(v) =>
        var last := LastCpu(init);
        if Seen(last) && last.value <= v then Max(before, (ValueAtCpu(init) + (v - last.value)) % TWO_64) else before
      case ThreadSample(v) =>
        var last := LastThread(init);
        if Seen(last) then Max(before, (ValueAtThread(init) + v + TWO_64 - last.value) % TWO_64) else before
  }

  /** What was stored after the last base or CPU reading. */
  function ValueAtCpu(samples: seq<Sample>): Word64
    decreases |samples|, 1
  {
    if samples == [] then 0
    else if samples[|samples| - 1].ThreadSample? then ValueAtCpu(samples[..|samples| - 1])
    else MergedValue(samples)
  }

  /** What was stored after the last thread reading. */
  function ValueAtThread(samples: seq<Sample>): Word64
    decreases |samples|, 1
  {
    if samples == [] then 0
    else if samples[|samples| - 1].ThreadSample? then MergedValue(samples)
    else ValueAtThread(samples[..|samples| - 1])
  }

  /** The counters' reference points are their last readings and what was stored after these. */
  ghost predicate Refers(c: Cell, samples: seq<Sample>) {
    && c.perf.cpuAbsolute == (if LastCpu(samples).Some? then LastCpu(samples).value else INVALID)
    && c.perf.threadAbsolute == (if LastThread(samples).Some? then LastThread(samples).value else INVALID)
    && (LastCpu(samples).Some? ==> c.perf.cpuReal == ValueAtCpu(samples))
    && (LastThread(samples).Some? ==> c.perf.threadReal == ValueAtThread(samples))
  }

  /** A base reading, whatever it is, sets the CPU's reference point and leaves the value. */
  lemma BaseIsExact(c: Cell, now: Timestamp, v: Word64)
    requires Words(c) && BaseStops(c, v)
    ensures var r := Base(c, now, v);
            r.perf == c.perf.(cpuAbsolute := v, cpuReal := Stored(c)) && Stored(r) == Stored(c)
  {
    assert Sub64(v, v) == 0;
  }

  lemma CpuIsExact(c: Cell, now: Timestamp, v: Word64)
    requires Words(c) && CpuStops(c, v)
    ensures var r := Cpu(c, now, v);
            if c.perf.cpuAbsolute == INVALID || v < c.perf.cpuAbsolute then
              r.perf == c.perf.(cpuAbsolute := v, cpuReal := Stored(c)) && Stored(r) == Stored(c)
            else
              && Stored(r) == Max(Stored(c), (c.perf.cpuReal + (v - c.perf.cpuAbsolute)) % TWO_64)
              && r.perf == c.perf.(cpuAbsolute := v, cpuReal := Stored(r))
  {
    if c.perf.cpuAbsolute == INVALID || v < c.perf.cpuAbsolute { BaseIsExact(c, now, v); }
  }

  lemma ThreadIsExact(c: Cell, now: Timestamp, v: Word64)
    requires Words(c)
    ensures var r := Thread(c, now, v);
            && r.perf == c.perf.(threadAbsolute := v, threadReal := Stored(r))
            && Stored(r) == if c.perf.threadAbsolute == INVALID then Stored(c)
                            else Max(Stored(c), (c.perf.threadReal + v + TWO_64 - c.perf.threadAbsolute) % TWO_64)
  {
    AddsDifference(c.perf.threadReal, c.perf.threadAbsolute, v);
  }

  lemma AddsDifference(a: Word64, absolute: Word64, reading: Word64)
    ensures Add64(a, Sub64(reading, absolute)) == (a + reading + TWO_64 - absolute) % TWO_64
  {
  }

  /** The stored value is exactly that, on every run of readings for which the handlers return, wrap-around included. */
  lemma {:induction false} MergeIsExact(samples: seq<Sample>, times: seq<Timestamp>)
    requires |times| == |samples| && Returns(samples)
    ensures Stored(Merge(samples, times)) == MergedValue(samples) && Refers(Merge(samples, times), samples)
  {
    if samples != [] {
      var n := |samples| - 1;
      MergeIsExact(samples[..n], times[..n]);
      hide Base, Cpu, Thread, Stored;
      var c := Merge(samples[..n], times[..n]);
      match samples[n] {
        case BaseSample(v) => BaseIsExact(c, times[n], v);
        case CpuSample(v) => CpuIsExact(c, times[n], v);
        case ThreadSample(v) => ThreadIsExact(c, times[n], v);
      }
    }
  }

  /** How many readings were taken by a time. */
  function TakenBy(times: seq<Timestamp>, t: Timestamp): (k: nat)
    ensures k <= |times|
  {
    if times == [] then 0
    else if times[|times| - 1] <= t then |times|
    else TakenBy(times[..|times| - 1], t)
  }

  function HistoryIn(c: Cell): seq<Entry> { if c.history.None? then [] else c.history.value }

  ghost predicate Records(c: Cell, now: Timestamp, r: Cell) {
    (r.history == c.history && c.history.Some?) || HistoryIn(r) == Record(HistoryIn(c), now, Stored(r))
  }

  lemma StoreRecords(c: Cell, now: Timestamp, value: nat, r: Cell)
    requires r.history == Store(c, now, value).history
    ensures Records(c, now, r)
  {
    RecordsLast(HistoryIn(c), now, value);
  }

  lemma CpuRecords(c: Cell, now: Timestamp, v: Word64)
    requires Words(c) && CpuStops(c, v) && c.perf.cpuAbsolute != INVALID && c.perf.cpuAbsolute <= v
    ensures Records(c, now, Cpu(c, now, v))
  {
    StoreRecords(c, now, Advanced(c, c.perf.cpuAbsolute, c.perf.cpuReal, v), Cpu(c, now, v));
    hide Records;
  }

  lemma BaseRecords(c: Cell, now: Timestamp, v: Word64)
    requires Words(c) && BaseStops(c, v)
    ensures Records(c, now, Base(c, now, v))
  {
    if c.history.None? { CpuRecords(c.(perf := c.perf.(cpuAbsolute := v, cpuReal := Stored(c))), now, v); }
  }

  /** A reading either leaves the history, or records the value that is stored then. */
  lemma TakeRecords(c: Cell, now: Timestamp, s: Sample)
    requires Words(c) && (c.history.Some? || s.ThreadSample? || s.reading != INVALID)
    ensures Records(c, now, Take(c, now, s))
  {
    match s {
      case BaseSample(v) => BaseRecords(c, now, v);
      case CpuSample(v) =>
        if c.perf.cpuAbsolute == INVALID || v < c.perf.cpuAbsolute { BaseRecords(c, now, v); }
        else { CpuRecords(c, now, v); }
      case ThreadSample(v) =>
        var r := Thread(c, now, v);
        if c.perf.threadAbsolute != INVALID {
          StoreRecords(c, now, Advanced(c, c.perf.threadAbsolute, c.perf.threadReal, v), r);
        } else if c.history.None? {
          StoreRecords(c, now, 0, r);
        }
    }
  }

  lemma RecordsLast(h: seq<Entry>, now: Timestamp, value: nat)
    ensures Record(h, now, value) != [] && LastValue(Record(h, now, value)) == value
  {
  }

  lemma {:induction false} TakenUpTo(times: seq<Timestamp>, t: Timestamp)
    requires Sorted(times) && times != []
    ensures var n := |times| - 1;
            && Sorted(times[..n])
            && (n > 0 ==> times[..n][n - 1] <= times[n])
            && (times[n] <= t ==> TakenBy(times, t) == n + 1 && TakenBy(times[..n], t) == n)
            && (t < times[n] ==> TakenBy(times, t) == TakenBy(times[..n], t))
  {
  }

  /** Looking the merged counter up at a time gives the value after the readings taken by then. */
  lemma {:induction false} MergedLookup(samples: seq<Sample>, times: seq<Timestamp>, t: Timestamp)
    requires |times| == |samples| && Returns(samples) && Sorted(times)
    ensures var h, k := HistoryIn(Merge(samples, times)), TakenBy(times, t);
            && InTime(h) && (samples != [] ==> Before(h, times[|times| - 1]))
            && Lookup(h, t) == if k == 0 then None else Some(MergedValue(samples[..k]))
  {
    if samples != [] {
      var n := |samples| - 1;
      var init, before := samples[..n], times[..n];
      var c, r := Merge(init, before), Merge(samples, times);
      var h := HistoryIn(c);
      TakenUpTo(times, t);
      MergedLookup(init, before, t);
      MergeIsExact(samples, times);
      MergeIsExact(init, before);
      TakeRecords(c, times[n], samples[n]);
      if n > 0 { LaterIsBefore(h, before[n - 1], times[n]); }
      assert Before(h, times[n]);
      RecordInTime(h, times[n], Stored(r));
      LookupRecord(h, times[n], Stored(r), t);
      var k := TakenBy(times, t);
      assert k <= n ==> samples[..k] == init[..k];
      assert k == n + 1 ==> samples[..k] == samples && init[..n] == init;
      hide MergedValue, Merge, Take, Lookup, InTime, Before, Refers, Record, TakenBy;
    }
  }

  lemma LaterIsBefore(h: seq<Entry>, a: Timestamp, b: Timestamp)
    requires Before(h, a) && a <= b
    ensures Before(h, b)
  {
  }

  ghost predicate Tracks(c: Cell, cpu: Option<Word64>, thread: Option<Word64>, cpuCount: nat, threadCount: nat) {
    && c.perf.cpuAbsolute == (if cpu.Some? then cpu.value else INVALID) && (cpu.Some? ==> cpu.value != INVALID)
    && c.perf.threadAbsolute == (if thread.Some? then thread.value else INVALID)
    && (thread.Some? ==> thread.value != INVALID)
    && (if cpu.Some? then cpuCount <= c.perf.cpuReal <= Stored(c) else cpuCount == 0)
    && (if thread.Some? then threadCount <= c.perf.threadReal <= Stored(c) else threadCount == 0)
    && Stored(c) <= cpuCount + threadCount
  }

  lemma NoWrap(a: nat, absolute: Word64, reading: Word64)
    requires absolute <= reading && a + (reading - absolute) < TWO_64
    ensures Add64(a, Sub64(reading, absolute)) == a + (reading - absolute)
  {
  }

  /** A base reading moves the CPU counter's reference point to the value stored now. */
  lemma BaseMovesReference(c: Cell, now: Timestamp, reading: Word64)
    requires Words(c) && reading != INVALID
    ensures var r := Base(c, now, reading);
            r.perf == c.perf.(cpuAbsolute := reading, cpuReal := Stored(c)) && Stored(r) == Stored(c)
  {
    NoWrap(Stored(c), reading, reading);
    assert Sub64(reading, reading) == 0;
  }

  /** A CPU reading past the reference point adds the difference. */
  lemma CpuTracks(c: Cell, now: Timestamp, v: Word64, cpu: Word64, thread: Option<Word64>, cpuCount: nat,
                  threadCount: nat)
    requires Words(c) && v != INVALID && cpu <= v && cpuCount + (v - cpu) + threadCount < TWO_64
    requires Tracks(c, Some(cpu), thread, cpuCount, threadCount)
    ensures Tracks(Cpu(c, now, v), Some(v), thread, cpuCount + (v - cpu), threadCount)
  {
    NoWrap(c.perf.cpuReal, cpu, v);
  }

  lemma ThreadTracks(c: Cell, now: Timestamp, v: Word64, cpu: Option<Word64>, thread: Word64, cpuCount: nat,
                     threadCount: nat)
    requires Words(c) && v != INVALID && thread <= v && cpuCount + (v - thread) + threadCount < TWO_64
    requires Tracks(c, cpu, Some(thread), cpuCount, threadCount)
    ensures Tracks(Thread(c, now, v), cpu, Some(v), cpuCount, threadCount + (v - thread))
  {
    NoWrap(c.perf.threadReal, thread, v);
  }

  /** A first reading, or a restart, only sets a reference point. */
  lemma ReferenceTracks(c: Cell, now: Timestamp, v: Word64, cpu: Option<Word64>, thread: Option<Word64>, cpuCount: nat,
                        threadCount: nat)
    requires Words(c) && v != INVALID && Tracks(c, cpu, thread, cpuCount, threadCount)
    ensures Tracks(Base(c, now, v), Some(v), thread, cpuCount, threadCount)
    ensures cpu.None? || v < cpu.value ==> Cpu(c, now, v) == Base(c, now, v)
    ensures thread.None? ==> Tracks(Thread(c, now, v), cpu, Some(v), cpuCount, threadCount)
  {
    BaseMovesReference(c, now, v);
  }

  lemma {:induction false} MergeTracks(samples: seq<Sample>, times: seq<Timestamp>)
    requires |times| == |samples| && SamplesOk(samples) && CpuCount(samples) + ThreadCount(samples) < TWO_64
    ensures Tracks(Merge(samples, times), LastCpu(samples), LastThread(samples), CpuCount(samples),
                   ThreadCount(samples))
  {
    if samples != [] {
      var n := |samples| - 1;
      var init, s := samples[..n], samples[n];
      MergeTracks(init, times[..n]);
      hide Tracks, Base, Cpu, Thread;
      var c := Merge(init, times[..n]);
      var cpu, thread := LastCpu(init), LastThread(init);
      if s.CpuSample? && cpu.Some? && cpu.value <= s.reading {
        CpuTracks(c, times[n], s.reading, cpu.value, thread, CpuCount(init), ThreadCount(init));
      } else if s.ThreadSample? && thread.Some? {
        ThreadTracks(c, times[n], s.reading, cpu, thread.value, CpuCount(init), ThreadCount(init));
      } else {
        ReferenceTracks(c, times[n], s.reading, cpu, thread, CpuCount(init), ThreadCount(init));
      }
    }
  }

  /**
    The merged value is at least what either counter counted and at most what both did, whatever
    the interleaving of their readings.
   */
  lemma MergedCounterBounds(samples: seq<Sample>, times: seq<Timestamp>)
    requires |times| == |samples| && SamplesOk(samples) && CpuCount(samples) + ThreadCount(samples) < TWO_64
    ensures var v := Stored(Merge(samples, times));
            && CpuCount(samples) <= v && ThreadCount(samples) <= v
            && v <= CpuCount(samples) + ThreadCount(samples)
  {
    MergeTracks(samples, times);
  }

  /** No reading ever lowers the stored value, even where the arithmetic wraps around. */
  lemma StoredNeverDecreases(c: Cell, now: Timestamp, reading: Word64)
    requires Words(c)
    ensures BaseStops(c, reading) ==> Stored(c) <= Stored(Base(c, now, reading))
    ensures CpuStops(c, reading) ==> Stored(c) <= Stored(Cpu(c, now, reading))
    ensures Stored(c) <= Stored(Thread(c, now, reading))
  {
  }
}
