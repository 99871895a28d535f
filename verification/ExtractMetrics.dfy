/** Timing metrics of an execution, from the segments of its critical path. */
module ExtractMetrics {
  import opened Common
  import opened CriticalGraphs
  import opened PathSpec
  import opened PathCoverage
  import opened Executions

  const DURATION_METRIC: MetricId := 0
  const TS_METRIC: MetricId := 1
  const NUM_CUSTOM_METRICS: nat := 2

  /** Numeric code of an edge type. */
  function Code(t: EdgeType): nat {
    match t
    case Unknown => 0
    case Vertical => 1
    case Run => 2
    case Interrupted => 3
    case WaitCpu => 4
    case WaitBlocked => 5
    case Timer => 6
    case Network => 7
    case BlockDevice => 8
    case UserInput => 9
    case Epsilon => 10
  }

  /** The metrics in order of their identifiers. */
  const METRIC_NAMES: seq<string> :=
    ["duration", "timestamp", "unknown", "vertical", "run", "interrupted", "waitcpu", "waitblocked", "timer", "network",
     "blockdevice", "input"]

  /** What a wait is called on top of a stack. */
  function StatusString(t: EdgeType): string
    requires !t.Epsilon?
  {
    "[" + METRIC_NAMES[NUM_CUSTOM_METRICS + Code(t)] + "]"
  }

  /** Codes and names go together. */
  lemma StatusNames()
    ensures StatusString(Unknown) == "[unknown]" && StatusString(Vertical) == "[vertical]"
    ensures StatusString(Run) == "[run]" && StatusString(Interrupted) == "[interrupted]"
    ensures StatusString(WaitCpu) == "[waitcpu]" && StatusString(WaitBlocked) == "[waitblocked]"
    ensures StatusString(Timer) == "[timer]" && StatusString(Network) == "[network]"
    ensures StatusString(BlockDevice) == "[blockdevice]" && StatusString(UserInput) == "[input]"
  {
  }

  function ValueOf(metrics: map<MetricId, nat>, id: MetricId): nat { if id in metrics then metrics[id] else 0 }

  /** Time a path spends in segments of one type. */
  function TypeTime(path: Path, t: EdgeType): nat {
    if path == [] then 0
    else
      TypeTime(path[..|path| - 1], t)
      + if Last(path).etype == t && !t.Epsilon? then Sub64(Last(path).endTs, Last(path).startTs) else 0
  }

  /** The time of a path is the sum of the times of the types. */
  lemma {:induction false} TypeTimesAddUp(path: Path)
    ensures AccountedTime(path) ==
            TypeTime(path, Unknown) + TypeTime(path, Vertical) + TypeTime(path, Run) + TypeTime(path, Interrupted)
            + TypeTime(path, WaitCpu) + TypeTime(path, WaitBlocked) + TypeTime(path, Timer) + TypeTime(path, Network)
            + TypeTime(path, BlockDevice) + TypeTime(path, UserInput)
  {
    if path != [] { TypeTimesAddUp(path[..|path| - 1]); }
  }

  /** Accumulates the time of each type; reports a path whose time is not the execution's. */
  method ExtractTimingMetrics(path: Path, execution: Execution) returns (mismatch: bool)
    modifies execution`metrics
    ensures ValueOf(execution.metrics, DURATION_METRIC) == Sub64(execution.endTs, execution.startTs)
    ensures ValueOf(execution.metrics, TS_METRIC) == execution.startTs
    ensures forall t: EdgeType |
              !t.Epsilon? && ValueOf(old(execution.metrics), NUM_CUSTOM_METRICS + Code(t)) < TWO_64 ::
              ValueOf(execution.metrics, NUM_CUSTOM_METRICS + Code(t)) ==
              (ValueOf(old(execution.metrics), NUM_CUSTOM_METRICS + Code(t)) + TypeTime(path, t)) % TWO_64
    ensures forall id | id >= |METRIC_NAMES| :: ValueOf(execution.metrics, id) == ValueOf(old(execution.metrics), id)
    ensures mismatch <==> Sub64(execution.endTs, execution.startTs) != AccountedTime(path) % TWO_64
  {
    hide Sub64, AccountedTime, TypeTime, Code;
    EmptyTimes();
    var duration := Sub64(execution.endTs, execution.startTs);
    execution.SetMetric(DURATION_METRIC, duration);
    execution.SetMetric(TS_METRIC, execution.startTs);
    var criticalPathDuration: Word64 := 0;
    ghost var before := execution.metrics;
    var i := 0;
    assert path[..0] == [];
    while i < |path|
      invariant 0 <= i <= |path|
      invariant criticalPathDuration == AccountedTime(path[..i]) % TWO_64
      invariant ValueOf(execution.metrics, DURATION_METRIC) == duration
      invariant ValueOf(execution.metrics, TS_METRIC) == execution.startTs
      invariant forall id | id >= |METRIC_NAMES| :: ValueOf(execution.metrics, id) == ValueOf(before, id)
      invariant forall t: EdgeType | !t.Epsilon? && ValueOf(before, NUM_CUSTOM_METRICS + Code(t)) < TWO_64 ::
                  ValueOf(execution.metrics, NUM_CUSTOM_METRICS + Code(t)) ==
                  (ValueOf(before, NUM_CUSTOM_METRICS + Code(t)) + TypeTime(path[..i], t)) % TWO_64
    {
      var segment := path[i];
      TimesStep(path, i);
      CodeIsSmall(segment.etype);
      if !segment.etype.Epsilon? {
        var metricId := NUM_CUSTOM_METRICS + Code(segment.etype);
        var segmentDuration := Sub64(segment.endTs, segment.startTs);
        var current := execution.GetMetric(metricId);
        var currentValue := if current.Some? then current.value else 0;
        ghost var metrics := execution.metrics;
        execution.SetMetric(metricId, (currentValue + segmentDuration) % TWO_64);
        AddWraps(AccountedTime(path[..i]), segmentDuration);
        AddWraps(ValueOf(before, metricId) + TypeTime(path[..i], segment.etype), segmentDuration);
        forall t: EdgeType | !t.Epsilon? && t != segment.etype
          ensures ValueOf(execution.metrics, NUM_CUSTOM_METRICS + Code(t))
                    == ValueOf(metrics, NUM_CUSTOM_METRICS + Code(t))
        {
          CodesDiffer(t, segment.etype);
        }
        criticalPathDuration := (criticalPathDuration + segmentDuration) % TWO_64;
      }
      i := i + 1;
    }
    assert path[..i] == path;
    mismatch := duration != criticalPathDuration;
  }

  lemma CodeIsSmall(t: EdgeType)
    ensures !t.Epsilon? ==> NUM_CUSTOM_METRICS + Code(t) < |METRIC_NAMES|
  {
  }

  // ----- What the times mean

  /** The path shows a type at an instant. */
  ghost predicate ShowsType(path: Path, t: EdgeType, x: Timestamp) {
    exists i :: 0 <= i < |path| && path[i].startTs <= x < path[i].endTs && path[i].etype == t
  }

  /** At how many instants from `a` up to `b` it does. */
  ghost function InstantsOf(path: Path, t: EdgeType, a: Timestamp, b: Timestamp): nat {
    if b <= a then 0 else InstantsOf(path, t, a, b - 1) + if ShowsType(path, t, b - 1) then 1 else 0
  }

  lemma {:induction false} InstantsSplit(path: Path, t: EdgeType, a: Timestamp, m: Timestamp, b: Timestamp)
    requires a <= m <= b
    ensures InstantsOf(path, t, a, b) == InstantsOf(path, t, a, m) + InstantsOf(path, t, m, b)
  {
    hide ShowsType;
    if m < b { InstantsSplit(path, t, a, m, b - 1); }
  }

  lemma {:induction false} InstantsAlike(path: Path, other: Path, t: EdgeType, a: Timestamp, b: Timestamp)
    requires a <= b && forall x | a <= x < b :: ShowsType(path, t, x) == ShowsType(other, t, x)
    ensures InstantsOf(path, t, a, b) == InstantsOf(other, t, a, b)
  {
    hide ShowsType;
    if a < b { InstantsAlike(path, other, t, a, b - 1); }
  }

  lemma {:induction false} InstantsUniform(path: Path, t: EdgeType, a: Timestamp, b: Timestamp, on: bool)
    requires a <= b && forall x | a <= x < b :: ShowsType(path, t, x) == on
    ensures InstantsOf(path, t, a, b) == if on then b - a else 0
  {
    hide ShowsType;
    if a < b { InstantsUniform(path, t, a, b - 1, on); }
  }

  lemma {:induction false} TilesInOrder(path: Path, a: Timestamp, b: Timestamp, i: nat)
    requires Tiles(path, a, b) && i < |path|
    ensures path[i].startTs <= path[i].endTs <= Last(path).startTs || i == |path| - 1
    decreases |path| - i
  {
    if i + 1 < |path| - 1 { TilesInOrder(path, a, b, i + 1); }
  }

  lemma InitTiles(path: Path, a: Timestamp, b: Timestamp)
    requires Tiles(path, a, b) && path != []
    ensures Tiles(path[..|path| - 1], a, Last(path).startTs) && a <= Last(path).startTs <= Last(path).endTs == b
  {
    var init := path[..|path| - 1];
    assert Tiles(init, a, Last(path).startTs);
    StartsInOrder(init, a, Last(path).startTs);
  }

  /** The time of a type is the number of instants at which a path that tiles its window shows the type. */
  lemma {:induction false} TypeTimeCounts(path: Path, t: EdgeType, a: Timestamp, b: Timestamp)
    requires Tiles(path, a, b) && a <= b < TWO_64 && !t.Epsilon?
    ensures TypeTime(path, t) == InstantsOf(path, t, a, b)
    decreases |path|
  {
    hide ShowsType, Tiles, InstantsOf;
    if path == [] {
      NothingCounts(t, a, b);
    } else {
      var init, last := path[..|path| - 1], Last(path);
      InitTiles(path, a, b);
      TypeTimeCounts(init, t, a, last.startTs);
      InstantsSplit(path, t, a, last.startTs, b);
      forall x | a <= x < last.startTs
        ensures ShowsType(path, t, x) == ShowsType(init, t, x)
      {
        EarlierShows(path, t, x);
      }
      InstantsAlike(path, init, t, a, last.startTs);
      forall x | last.startTs <= x < b
        ensures ShowsType(path, t, x) == (last.etype == t)
      {
        LastShows(path, t, a, b, x);
      }
      InstantsUniform(path, t, last.startTs, b, last.etype == t);
    }
  }

  lemma NothingCounts(t: EdgeType, a: Timestamp, b: Timestamp)
    requires Tiles([], a, b)
    ensures TypeTime([], t) == InstantsOf([], t, a, b)
  {
  }

  lemma {:induction false} StartsInOrder(path: Path, a: Timestamp, b: Timestamp)
    requires Tiles(path, a, b)
    ensures a <= b
  {
    if path != [] {
      var init := path[..|path| - 1];
      assert Tiles(init, a, Last(path).startTs);
      StartsInOrder(init, a, Last(path).startTs);
    }
  }

  lemma EarlierShows(path: Path, t: EdgeType, x: Timestamp)
    requires path != [] && x < Last(path).startTs
    ensures ShowsType(path, t, x) == ShowsType(path[..|path| - 1], t, x)
  {
    var init := path[..|path| - 1];
    assert forall i | 0 <= i < |init| :: init[i] == path[i];
    if ShowsType(path, t, x) {
      var i :| 0 <= i < |path| && path[i].startTs <= x < path[i].endTs && path[i].etype == t;
      assert init[i] == path[i];
    }
  }

  lemma LastShows(path: Path, t: EdgeType, a: Timestamp, b: Timestamp, x: Timestamp)
    requires Tiles(path, a, b) && path != [] && Last(path).startTs <= x < b
    ensures ShowsType(path, t, x) == (Last(path).etype == t)
  {
    assert path[|path| - 1].startTs <= x < path[|path| - 1].endTs;
    if ShowsType(path, t, x) {
      var i :| 0 <= i < |path| && path[i].startTs <= x < path[i].endTs && path[i].etype == t;
      TilesInOrder(path, a, b, i);
    }
  }

  lemma EmptyTimes()
    ensures AccountedTime([]) == 0 && forall t :: TypeTime([], t) == 0
  {
  }

  lemma TimesStep(path: Path, i: nat)
    requires i < |path|
    ensures AccountedTime(path[..i + 1]) ==
            AccountedTime(path[..i]) + if path[i].etype.Epsilon? then 0 else Sub64(path[i].endTs, path[i].startTs)
    ensures forall t ::
              (TypeTime(path[..i + 1], t) ==
               TypeTime(path[..i], t)
               + if path[i].etype == t && !t.Epsilon? then Sub64(path[i].endTs, path[i].startTs) else 0)
  {
    assert path[..i + 1][..i] == path[..i] && Last(path[..i + 1]) == path[i];
  }

  lemma AddWraps(a: nat, b: nat)
    ensures (a % TWO_64 + b) % TWO_64 == (a + b) % TWO_64
  {
  }

  lemma CodesDiffer(t: EdgeType, u: EdgeType)
    requires t != u
    ensures Code(t) != Code(u)
  {
  }

  /** A path that tiles the execution's window never raises the mismatch report. */
  lemma CoveredPathMatches(c: Context, path: Path, startTs: Timestamp, endTs: Timestamp)
    requires c.Ok() && Good(c, path, startTs, endTs) && endTs < TWO_64
    ensures Sub64(endTs, startTs) == AccountedTime(path) % TWO_64
  {
    TiledTime(c, path, startTs, endTs);
    hide Good, Context.Ok;
    assert endTs - startTs < TWO_64;
  }
}
