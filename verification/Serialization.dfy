/** Writing executions to byte buffers, and reading them back. */
module Serialization {
  import opened Common
  import opened Executions
  import opened SerializationSpec

  class Writer {
    var bytes: seq<Byte>

    constructor ()
      ensures bytes == []
    {
      bytes := [];
    }

    method WriteBuffer(value: nat, width: nat)
      modifies this
      ensures bytes == old(bytes) + Encode(value, width)
    {
      bytes := bytes + Encode(value, width);
    }

    method WriteMetadata(nameId: nat, traceId: nat, execution: Execution, layout: Layout)
      modifies this
      ensures bytes == old(bytes) + EncodeMetadata(MetadataOf(nameId, traceId, execution), layout)
    {
      hide Encode;
      WriteBuffer(nameId, IDENTIFIER);
      WriteBuffer(traceId, IDENTIFIER);
      WriteBuffer(execution.startTs, layout.timestamp);
      WriteBuffer(execution.startThread, layout.thread);
      WriteBuffer(execution.endTs, layout.timestamp);
      WriteBuffer(execution.endThread, layout.thread);
    }

    /** The size of a map and its entries, in the order in which they are met. */
    method WriteMap(m: map<nat, nat>, layout: Layout) returns (order: seq<nat>)
      modifies this
      ensures IsOrder(order, m)
      ensures bytes == old(bytes) + EncodeMap(m, order, layout)
    {
      order := KeysOf(m);
      hide IsOrder;
      WriteBuffer(|m|, layout.size);
      WriteEntries(m, order);
    }

    method WriteEntries(m: map<nat, nat>, order: seq<nat>)
      requires forall k <- order :: k in m
      modifies this
      ensures bytes == old(bytes) + EncodeEntries(m, order)
    {
      var i := 0;
      assert order[0..] == order;
      while i < |order|
        invariant 0 <= i <= |order|
        invariant bytes + EncodeEntries(m, order[i..]) == old(bytes) + EncodeEntries(m, order)
      {
        hide EncodeEntries, Encode;
        NextEntry(m, order, i);
        WriteBuffer(order[i], IDENTIFIER);
        WriteBuffer(m[order[i]], VALUE);
        i := i + 1;
      }
    }

    method WriteExecution(nameId: nat, traceId: nat, execution: Execution, layout: Layout)
      returns (metrics: seq<nat>, samples: seq<nat>)
      modifies this
      ensures IsOrder(metrics, execution.metrics) && IsOrder(samples, execution.samples)
      ensures bytes == old(bytes) + EncodeRecord(RecordOf(nameId, traceId, execution), metrics, samples, layout)
    {
      hide EncodeMetadata, EncodeMap;
      WriteMetadata(nameId, traceId, execution, layout);
      metrics := WriteMap(execution.metrics, layout);
      samples := WriteMap(execution.samples, layout);
    }
  }

  function MetadataOf(nameId: nat, traceId: nat, execution: Execution): Metadata
    reads execution
  {
    Metadata(nameId, traceId, execution.startTs, execution.startThread, execution.endTs, execution.endThread)
  }

  function RecordOf(nameId: nat, traceId: nat, execution: Execution): Record
    reads execution
  {
    Record(MetadataOf(nameId, traceId, execution), execution.metrics, execution.samples)
  }

  class Reader {
    const buffer: seq<Byte>
    var pos: nat

    constructor (buffer: seq<Byte>)
      ensures this.buffer == buffer && pos == 0
    {
      this.buffer, pos := buffer, 0;
    }

    /** Nothing moves when too few bytes are left. */
    method ReadBuffer(width: nat) returns (ok: bool, value: nat)
      modifies this
      ensures ReadWord(buffer, old(pos), width) == if ok then Parsed(value, pos) else Rejected
      ensures !ok ==> pos == old(pos)
    {
      if pos + width > |buffer| { return false, 0; }
      value := Decode(buffer[pos..pos + width]);
      pos := pos + width;
      ok := true;
    }

    method ReadExecutionMetadata(execution: Execution, layout: Layout) returns (ok: bool, nameId: nat, traceId: nat)
      modifies this, execution`startTs, execution`startThread, execution`endTs, execution`endThread
      ensures ReadMetadata(buffer, old(pos), layout)
           == if ok then Parsed(MetadataOf(nameId, traceId, execution), pos) else Rejected
    {
      hide ReadWord;
      var startTs, startThread, endTs, endThread;
      ok, nameId := ReadBuffer(IDENTIFIER);
      if ok { ok, traceId := ReadBuffer(IDENTIFIER); } else { traceId := 0; }
      if !ok { return; }
      ok, startTs := ReadBuffer(layout.timestamp);
      if !ok { return; }
      ok, startThread := ReadBuffer(layout.thread);
      if !ok { return; }
      ok, endTs := ReadBuffer(layout.timestamp);
      if !ok { return; }
      ok, endThread := ReadBuffer(layout.thread);
      if !ok { return; }
      execution.startTs, execution.startThread := startTs, startThread;
      execution.endTs, execution.endThread := endTs, endThread;
    }

    method ReadExecutionMetrics(execution: Execution, layout: Layout) returns (ok: bool)
      modifies this, execution`metrics
      ensures ReadMap(buffer, old(pos), Metrics, old(execution.metrics), layout)
           == if ok then Parsed(execution.metrics, pos) else Rejected
    {
      hide ReadWord;
      var metricsSize;
      ok, metricsSize := ReadBuffer(layout.size);
      if !ok { return; }
      ghost var all := ReadEntries(buffer, pos, metricsSize, Metrics, execution.metrics);
      var i := 0;
      while i < metricsSize
        invariant 0 <= i <= metricsSize
        invariant all == ReadEntries(buffer, pos, metricsSize - i, Metrics, execution.metrics)
      {
        var metricId, metricValue;
        ok, metricId := ReadBuffer(IDENTIFIER);
        if !ok { return; }
        ok, metricValue := ReadBuffer(VALUE);
        if !ok { return; }
        execution.SetMetric(metricId, metricValue);
        i := i + 1;
      }
      ok := true;
    }

    method ReadExecutionSamples(execution: Execution, layout: Layout) returns (ok: bool)
      modifies this, execution`samples
      ensures ReadMap(buffer, old(pos), SerializationSpec.Samples, old(execution.samples), layout)
           == if ok then Parsed(execution.samples, pos) else Rejected
    {
      hide ReadWord;
      var samplesSize;
      ok, samplesSize := ReadBuffer(layout.size);
      if !ok { return; }
      ghost var all := ReadEntries(buffer, pos, samplesSize, SerializationSpec.Samples, execution.samples);
      var i := 0;
      while i < samplesSize
        invariant 0 <= i <= samplesSize
        invariant all == ReadEntries(buffer, pos, samplesSize - i, SerializationSpec.Samples, execution.samples)
      {
        var stackId, stackValue;
        ok, stackId := ReadBuffer(IDENTIFIER);
        if !ok { return; }
        ok, stackValue := ReadBuffer(VALUE);
        if !ok { return; }
        execution.IncrementSample(stackId, stackValue);
        i := i + 1;
      }
      ok := true;
    }
  }

  /** One record of the database; absent where the reader reports a fatal error. */
  method ReadExecution(buffer: seq<Byte>, layout: Layout)
    returns (ok: bool, nameId: nat, traceId: nat, execution: Execution, pos: nat)
    ensures fresh(execution)
    ensures ReadRecord(buffer, layout) == if ok then Parsed(RecordOf(nameId, traceId, execution), pos) else Rejected
  {
    hide ReadMetadata, ReadMap;
    execution := new Execution(0, 0);
    var reader := new Reader(buffer);
    ok, nameId, traceId := reader.ReadExecutionMetadata(execution, layout);
    if ok { ok := reader.ReadExecutionMetrics(execution, layout); }
    if ok { ok := reader.ReadExecutionSamples(execution, layout); }
    pos := reader.pos;
  }

  /** An execution written and read back is the same, and nothing of the buffer is left. */
  method StoreAndRead(nameId: nat, traceId: nat, execution: Execution, layout: Layout)
    returns (copy: Execution, buffer: seq<Byte>, pos: nat)
    requires Fits(RecordOf(nameId, traceId, execution), layout)
    ensures fresh(copy) && RecordOf(nameId, traceId, copy) == RecordOf(nameId, traceId, execution)
    ensures pos == |buffer| && ReadRecord(buffer, layout) == Parsed(RecordOf(nameId, traceId, execution), pos)
  {
    hide EncodeRecord, ReadRecord, Fits;
    var writer := new Writer();
    var metrics, samples := writer.WriteExecution(nameId, traceId, execution, layout);
    buffer := writer.bytes;
    RoundTrip(RecordOf(nameId, traceId, execution), metrics, samples, layout, []);
    assert buffer == EncodeRecord(RecordOf(nameId, traceId, execution), metrics, samples, layout) + [];
    var ok, name, trace;
    ok, name, trace, copy, pos := ReadExecution(buffer, layout);
  }
}
