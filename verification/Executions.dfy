/** Samples and metrics of an execution, and sums over them. */
module Executions {
  import opened Common
  import opened HashConsSpec

  type Samples = map<StackId, nat>

  function SampleOf(m: Samples, id: StackId): nat { if id in m then m[id] else 0 }

  function Increment(m: Samples, id: StackId, value: nat): Samples { m[id := SampleOf(m, id) + value] }

  /** Sum of the samples of a set of stacks. */
  ghost function SumOver(ids: set<StackId>, m: Samples): nat {
    if ids == {} then 0
    else
      var id :| id in ids;
      SampleOf(m, id) + SumOver(ids - {id}, m)
  }

  ghost function Sum(m: Samples): nat { SumOver(m.Keys, m) }

  lemma {:induction false} SumOverRemove(ids: set<StackId>, m: Samples, k: StackId)
    requires k in ids
    ensures SumOver(ids, m) == SampleOf(m, k) + SumOver(ids - {k}, m)
    decreases ids
  {
    var id :| id in ids && SumOver(ids, m) == SampleOf(m, id) + SumOver(ids - {id}, m);
    if id != k {
      SumOverRemove(ids - {id}, m, k);
      SumOverRemove(ids - {k}, m, id);
      assert ids - {id} - {k} == ids - {k} - {id};
    }
  }

  lemma {:induction false} SumOverUnion(a: set<StackId>, b: set<StackId>, m: Samples)
    requires a !! b
    ensures SumOver(a + b, m) == SumOver(a, m) + SumOver(b, m)
    decreases a
  {
    if a == {} {
      assert a + b == b;
    } else {
      var k :| k in a;
      SumOverRemove(a, m, k);
      SumOverRemove(a + b, m, k);
      assert a + b - {k} == (a - {k}) + b;
      SumOverUnion(a - {k}, b, m);
    }
  }

  lemma {:induction false} SumOverAlike(ids: set<StackId>, m: Samples, n: Samples)
    requires forall id <- ids :: SampleOf(m, id) == SampleOf(n, id)
    ensures SumOver(ids, m) == SumOver(ids, n)
    decreases ids
  {
    if ids != {} {
      var k :| k in ids;
      SumOverRemove(ids, m, k);
      SumOverRemove(ids, n, k);
      SumOverAlike(ids - {k}, m, n);
    }
  }

  lemma {:induction false} SumOverAbsent(ids: set<StackId>, m: Samples)
    requires forall id <- ids :: SampleOf(m, id) == 0
    ensures SumOver(ids, m) == 0
    decreases ids
  {
    if ids != {} {
      var k :| k in ids;
      SumOverRemove(ids, m, k);
      SumOverAbsent(ids - {k}, m);
    }
  }

  /** Incrementing a sample adds exactly its value to the total. */
  lemma IncrementAdds(m: Samples, id: StackId, value: nat)
    ensures Sum(Increment(m, id, value)) == Sum(m) + value
  {
    var n := Increment(m, id, value);
    SumOverRemove(n.Keys, n, id);
    SumOverAlike(n.Keys - {id}, n, m);
    if id in m {
      SumOverRemove(m.Keys, m, id);
      assert n.Keys == m.Keys;
    } else {
      assert n.Keys - {id} == m.Keys;
    }
  }

  type MetricId = nat

  class Execution {
    var startTs: Timestamp
    var startThread: ThreadId
    var endTs: Timestamp
    var endThread: ThreadId
    var samples: Samples
    var metrics: map<MetricId, nat>

    constructor (startTs: Timestamp, endTs: Timestamp)
      ensures this.startTs == startTs && this.endTs == endTs && samples == map[] && metrics == map[]
    {
      this.startTs, this.endTs := startTs, endTs;
      samples, metrics := map[], map[];
    }

    method IncrementSample(id: StackId, value: nat)
      modifies this`samples
      ensures samples == Increment(old(samples), id, value)
    {
      samples := samples[id := (if id in samples then samples[id] else 0) + value];
    }

    method SetMetric(id: MetricId, value: nat)
      modifies this`metrics
      ensures metrics == old(metrics)[id := value]
    {
      metrics := metrics[id := value];
    }

    function GetMetric(id: MetricId): Option<nat>
      reads this
    {
      if id in metrics then Some(metrics[id]) else None
    }
  }
}
