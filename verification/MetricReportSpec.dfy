/** The names and values under which the metrics of an execution are reported. */
module MetricReportSpec {
  import opened Common
  import opened Executions

  /** Metrics from this identifier on are performance counters. */
  const FIRST_COUNTER: MetricId := 12

  function Digit(n: nat): char
    requires n < 10
  {
    '0' + n as char
  }

  function Decimal(n: nat): string {
    if n < 10 then [Digit(n)] else Decimal(n / 10) + [Digit(n % 10)]
  }

  /** A letter for a timing metric, an index for a performance counter. */
  function MetricKey(id: MetricId): string {
    if id < FIRST_COUNTER then ['a' + id as char] else "p" + Decimal(id - FIRST_COUNTER)
  }

  /** Times are reported in microseconds. */
  function MetricValue(id: MetricId, value: nat): nat { if id < FIRST_COUNTER then value / 1000 else value }

  lemma LetterIsKey(id: MetricId)
    requires id < FIRST_COUNTER
    ensures MetricKey(id) == ['a' + id as char] && forall value: nat :: MetricValue(id, value) == value / 1000
  {
  }

  lemma CounterIsKey(id: MetricId)
    requires id >= FIRST_COUNTER
    ensures MetricKey(id) == "p" + Decimal(id - FIRST_COUNTER) && forall value: nat :: MetricValue(id, value) == value
  {
  }

  lemma DigitsDiffer(m: nat, n: nat)
    requires m < 10 && n < 10 && Digit(m) == Digit(n)
    ensures m == n
  {
    assert Digit(m) as int == '0' as int + m && Digit(n) as int == '0' as int + n;
  }

  lemma {:induction false} DecimalsDiffer(m: nat, n: nat)
    requires Decimal(m) == Decimal(n)
    ensures m == n
  {
    var s, t := Decimal(m), Decimal(n);
    assert s[|s| - 1] == t[|t| - 1];
    DigitsDiffer(m % 10, n % 10);
    if m >= 10 && n >= 10 {
      assert s[..|s| - 1] == Decimal(m / 10) && t[..|t| - 1] == Decimal(n / 10);
      DecimalsDiffer(m / 10, n / 10);
    } else {
      DecimalNotEmpty(m / 10);
      DecimalNotEmpty(n / 10);
    }
  }

  /** The number that decimal digits are read as. */
  function Parsed(s: string): int {
    if s == [] then 0 else 10 * Parsed(s[..|s| - 1]) + (s[|s| - 1] as int - '0' as int)
  }

  predicate IsDigit(ch: char) { '0' <= ch <= '9' }

  /** A number is written in decimal digits that are read as it. */
  lemma {:induction false} DecimalIsRead(n: nat)
    ensures Parsed(Decimal(n)) == n && forall i | 0 <= i < |Decimal(n)| :: IsDigit(Decimal(n)[i])
  {
    var s := Decimal(n);
    if n < 10 {
      assert s[..|s| - 1] == [];
    } else {
      DecimalIsRead(n / 10);
      assert s[..|s| - 1] == Decimal(n / 10);
    }
  }

  lemma DecimalNotEmpty(n: nat)
    ensures Decimal(n) != []
  {
  }

  lemma LettersDiffer(m: nat, n: nat)
    requires m < FIRST_COUNTER && n < FIRST_COUNTER && MetricKey(m) == MetricKey(n)
    ensures m == n
  {
    assert MetricKey(m)[0] as int == 'a' as int + m && MetricKey(n)[0] as int == 'a' as int + n;
  }

  /** No two metrics share a name. */
  lemma MetricKeysDiffer(m: MetricId, n: MetricId)
    requires MetricKey(m) == MetricKey(n)
    ensures m == n
  {
    if m < FIRST_COUNTER && n < FIRST_COUNTER {
      LettersDiffer(m, n);
    } else if m >= FIRST_COUNTER && n >= FIRST_COUNTER {
      assert MetricKey(m)[1..] == Decimal(m - FIRST_COUNTER) && MetricKey(n)[1..] == Decimal(n - FIRST_COUNTER);
      DecimalsDiffer(m - FIRST_COUNTER, n - FIRST_COUNTER);
    } else {
      DecimalNotEmpty(if m < FIRST_COUNTER then n - FIRST_COUNTER else m - FIRST_COUNTER);
    }
  }

  datatype KeyValue = KeyValue(key: string, value: nat)

  function Pair(id: MetricId, value: nat): KeyValue { KeyValue(MetricKey(id), MetricValue(id, value)) }

  /** Each metric is written, once and under a name of its own, and nothing else is. */
  ghost predicate Reports(written: seq<KeyValue>, metrics: map<MetricId, nat>) {
    && |written| == |metrics|
    && (forall i, j | 0 <= i < j < |written| :: written[i].key != written[j].key)
    && forall id: MetricId, value: nat ::
         KeyValue(MetricKey(id), value) in written <==> id in metrics && value == MetricValue(id, metrics[id])
  }

  /** Writing the metrics in any order reports them. */
  lemma OrderReports(metrics: map<MetricId, nat>, order: seq<MetricId>, written: seq<KeyValue>)
    requires IsOrder(order, metrics) && |written| == |order|
    requires forall i | 0 <= i < |order| :: order[i] in metrics && written[i] == Pair(order[i], metrics[order[i]])
    ensures Reports(written, metrics)
  {
    hide MetricKey, MetricValue;
    forall i, j | 0 <= i < j < |written|
      ensures written[i].key != written[j].key
    {
      if written[i].key == written[j].key { MetricKeysDiffer(order[i], order[j]); }
    }
    forall id: MetricId, value: nat
      ensures KeyValue(MetricKey(id), value) in written <==> id in metrics && value == MetricValue(id, metrics[id])
    {
      WrittenTells(metrics, order, written, id, value);
    }
  }

  lemma WrittenTells(metrics: map<MetricId, nat>, order: seq<MetricId>, written: seq<KeyValue>, id: MetricId,
                     value: nat)
    requires IsOrder(order, metrics) && |written| == |order|
    requires forall i | 0 <= i < |order| :: order[i] in metrics && written[i] == Pair(order[i], metrics[order[i]])
    ensures KeyValue(MetricKey(id), value) in written <==> id in metrics && value == MetricValue(id, metrics[id])
  {
    hide MetricKey, MetricValue;
    if KeyValue(MetricKey(id), value) in written {
      var k :| 0 <= k < |written| && written[k] == KeyValue(MetricKey(id), value);
      MetricKeysDiffer(order[k], id);
    }
    if id in metrics {
      var k :| 0 <= k < |order| && order[k] == id;
      assert written[k] == Pair(id, metrics[id]);
    }
  }
}
