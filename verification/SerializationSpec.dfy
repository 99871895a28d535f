/** The byte layout of executions in the database, what reading it back gives, and what is rejected. */
module SerializationSpec {
  import opened Common

  type Byte = b: nat | b < 256

  /** Sizes in bytes of the types that the platform fixes. */
  datatype Layout = Layout(timestamp: nat, thread: nat, size: nat)

  const IDENTIFIER: nat := 4
  const VALUE: nat := 8

  function Pow256(width: nat): nat {
    if width == 0 then 1 else 256 * Pow256(width - 1)
  }

  /** A value in memory, least significant byte first. */
  function Encode(value: nat, width: nat): (bytes: seq<Byte>)
    ensures |bytes| == width
  {
    if width == 0 then [] else [value % 256] + Encode(value / 256, width - 1)
  }

  function Decode(bytes: seq<Byte>): nat {
    if bytes == [] then 0 else bytes[0] + 256 * Decode(bytes[1..])
  }

  lemma {:induction false} DecodeEncode(value: nat, width: nat)
    requires value < Pow256(width)
    ensures Decode(Encode(value, width)) == value
  {
    if width != 0 {
      DecodeEncode(value / 256, width - 1);
      assert Encode(value, width)[1..] == Encode(value / 256, width - 1);
    }
  }

  // ----- Reading

  /** What a reader returns: its value and the position after it, or a rejection. */
  datatype Parsed<+T> = Rejected | Parsed(value: T, pos: nat) {
    predicate IsFailure() { Rejected? }

    function PropagateFailure<U>(): Parsed<U>
      requires Rejected?
    {
      Rejected
    }

    function Extract(): (T, nat)
      requires Parsed?
    {
      (value, pos)
    }
  }

  function ReadWord(b: seq<Byte>, pos: nat, width: nat): Parsed<nat> {
    if pos + width > |b| then Rejected else Parsed(Decode(b[pos..pos + width]), pos + width)
  }

  /** How an entry read goes in the map: samples of one stack add up, metrics replace. */
  datatype Kind = Metrics | Samples {
    function Put(m: map<nat, nat>, key: nat, value: nat): map<nat, nat> {
      m[key := if this == Samples && key in m then m[key] + value else value]
    }
  }

  function ReadEntries(b: seq<Byte>, pos: nat, n: nat, kind: Kind, m: map<nat, nat>): Parsed<map<nat, nat>>
    decreases n
  {
    if n == 0 then Parsed(m, pos) else
      var (key, afterKey) :- ReadWord(b, pos, IDENTIFIER);
      var (value, afterValue) :- ReadWord(b, afterKey, VALUE);
      ReadEntries(b, afterValue, n - 1, kind, kind.Put(m, key, value))
  }

  /** The entries read go on top of those of `m`. */
  function ReadMap(b: seq<Byte>, pos: nat, kind: Kind, m: map<nat, nat>, layout: Layout): Parsed<map<nat, nat>> {
    var (n, afterSize) :- ReadWord(b, pos, layout.size);
    ReadEntries(b, afterSize, n, kind, m)
  }

  datatype Metadata = Metadata(
    nameId: nat, traceId: nat, startTs: Timestamp, startThread: ThreadId, endTs: Timestamp, endThread: ThreadId)

  function ReadMetadata(b: seq<Byte>, pos: nat, layout: Layout): Parsed<Metadata> {
    var (nameId, p1) :- ReadWord(b, pos, IDENTIFIER);
    var (traceId, p2) :- ReadWord(b, p1, IDENTIFIER);
    var (startTs, p3) :- ReadWord(b, p2, layout.timestamp);
    var (startThread, p4) :- ReadWord(b, p3, layout.thread);
    var (endTs, p5) :- ReadWord(b, p4, layout.timestamp);
    var (endThread, p6) :- ReadWord(b, p5, layout.thread);
    Parsed(Metadata(nameId, traceId, startTs, startThread, endTs, endThread), p6)
  }

  /** Everything stored of an execution. */
  datatype Record = Record(metadata: Metadata, metrics: map<nat, nat>, samples: map<nat, nat>)

  function ReadRecord(b: seq<Byte>, layout: Layout): Parsed<Record> {
    var (metadata, p1) :- ReadMetadata(b, 0, layout);
    var (metrics, p2) :- ReadMap(b, p1, Metrics, map[], layout);
    var (samples, p3) :- ReadMap(b, p2, Samples, map[], layout);
    Parsed(Record(metadata, metrics, samples), p3)
  }

  // ----- Writing

  function EncodeEntry(key: nat, value: nat): seq<Byte> {
    Encode(key, IDENTIFIER) + Encode(value, VALUE)
  }

  function EncodeEntries(m: map<nat, nat>, order: seq<nat>): seq<Byte>
    requires forall k <- order :: k in m
  {
    if order == [] then [] else EncodeEntry(order[0], m[order[0]]) + EncodeEntries(m, order[1..])
  }

  function EncodeMap(m: map<nat, nat>, order: seq<nat>, layout: Layout): seq<Byte>
    requires forall k <- order :: k in m
  {
    Encode(|m|, layout.size) + EncodeEntries(m, order)
  }

  function EncodeMetadata(d: Metadata, layout: Layout): seq<Byte> {
    Encode(d.nameId, IDENTIFIER) + (Encode(d.traceId, IDENTIFIER) + (Encode(d.startTs, layout.timestamp)
      + (Encode(d.startThread, layout.thread)
         + (Encode(d.endTs, layout.timestamp) + Encode(d.endThread, layout.thread)))))
  }

  function EncodeRecord(r: Record, metrics: seq<nat>, samples: seq<nat>, layout: Layout): seq<Byte>
    requires (forall k <- metrics :: k in r.metrics) && (forall k <- samples :: k in r.samples)
  {
    EncodeMetadata(r.metadata, layout) + (EncodeMap(r.metrics, metrics, layout) + EncodeMap(r.samples, samples, layout))
  }

  lemma NextEntry(m: map<nat, nat>, order: seq<nat>, i: nat)
    requires (forall k <- order :: k in m) && i < |order|
    ensures EncodeEntries(m, order[i..])
         == Encode(order[i], IDENTIFIER) + Encode(m[order[i]], VALUE) + EncodeEntries(m, order[i + 1..])
  {
    assert order[i..][1..] == order[i + 1..];
  }

  // ----- The values the stored types can hold

  ghost predicate MapFits(m: map<nat, nat>, layout: Layout) {
    && |m| < Pow256(layout.size)
    && forall k <- m :: k < Pow256(IDENTIFIER) && m[k] < Pow256(VALUE)
  }

  ghost predicate MetadataFits(d: Metadata, layout: Layout) {
    && d.nameId < Pow256(IDENTIFIER) && d.traceId < Pow256(IDENTIFIER)
    && d.startTs < Pow256(layout.timestamp) && d.endTs < Pow256(layout.timestamp)
    && d.startThread < Pow256(layout.thread) && d.endThread < Pow256(layout.thread)
  }

  ghost predicate Fits(r: Record, layout: Layout) {
    MetadataFits(r.metadata, layout) && MapFits(r.metrics, layout) && MapFits(r.samples, layout)
  }

  // ----- Round trip

  ghost predicate At(b: seq<Byte>, pos: nat, chunk: seq<Byte>) {
    pos + |chunk| <= |b| && b[pos..pos + |chunk|] == chunk
  }

  lemma AtSplit(b: seq<Byte>, pos: nat, x: seq<Byte>, y: seq<Byte>)
    requires At(b, pos, x + y)
    ensures At(b, pos, x) && At(b, pos + |x|, y)
  {
    assert x == (x + y)[..|x|] == b[pos..pos + |x + y|][..|x|] == b[pos..pos + |x|];
    assert y == (x + y)[|x|..] == b[pos..pos + |x + y|][|x|..] == b[pos + |x|..pos + |x + y|];
  }

  lemma WordAt(b: seq<Byte>, pos: nat, value: nat, width: nat)
    requires At(b, pos, Encode(value, width)) && value < Pow256(width)
    ensures ReadWord(b, pos, width) == Parsed(value, pos + width)
  {
    DecodeEncode(value, width);
  }

  /** The entries of `order`, over those of `base`. */
  ghost function With(base: map<nat, nat>, m: map<nat, nat>, order: seq<nat>): map<nat, nat>
    requires forall k <- order :: k in m
    decreases order
  {
    if order == [] then base else With(base[order[0] := m[order[0]]], m, order[1..])
  }

  lemma {:induction false} WithIsUnion(base: map<nat, nat>, m: map<nat, nat>, order: seq<nat>)
    requires forall k <- order :: k in m
    ensures forall k :: k in With(base, m, order) <==> k in base || k in order
    ensures forall k <- With(base, m, order) :: With(base, m, order)[k] == if k in order then m[k] else base[k]
    decreases order
  {
    if order != [] {
      WithIsUnion(base[order[0] := m[order[0]]], m, order[1..]);
      InHeadOrTail(order);
    }
  }

  lemma InHeadOrTail(order: seq<nat>)
    requires order != []
    ensures forall k :: k in order <==> k == order[0] || k in order[1..]
  {
    assert order == [order[0]] + order[1..];
  }

  lemma WithAll(m: map<nat, nat>, order: seq<nat>)
    requires IsOrder(order, m)
    ensures With(map[], m, order) == m
  {
    WithIsUnion(map[], m, order);
  }

  lemma EntryAt(b: seq<Byte>, pos: nat, key: nat, value: nat)
    requires At(b, pos, EncodeEntry(key, value)) && key < Pow256(IDENTIFIER) && value < Pow256(VALUE)
    ensures ReadWord(b, pos, IDENTIFIER) == Parsed(key, pos + IDENTIFIER)
    ensures ReadWord(b, pos + IDENTIFIER, VALUE) == Parsed(value, pos + IDENTIFIER + VALUE)
  {
    AtSplit(b, pos, Encode(key, IDENTIFIER), Encode(value, VALUE));
    WordAt(b, pos, key, IDENTIFIER);
    WordAt(b, pos + IDENTIFIER, value, VALUE);
  }

  /** The keys of `order` are fresh over `base`, and they and their values fit. */
  ghost predicate EntriesFit(m: map<nat, nat>, order: seq<nat>, base: map<nat, nat>) {
    && (forall i, j | 0 <= i < j < |order| :: order[i] != order[j])
    && forall i | 0 <= i < |order| ::
         order[i] in m && order[i] !in base && order[i] < Pow256(IDENTIFIER) && m[order[i]] < Pow256(VALUE)
  }

  lemma EntriesFitNext(m: map<nat, nat>, order: seq<nat>, base: map<nat, nat>)
    requires EntriesFit(m, order, base) && order != []
    ensures EntriesFit(m, order[1..], base[order[0] := m[order[0]]])
  {
  }

  lemma {:induction false} EntriesAt(b: seq<Byte>, pos: nat, m: map<nat, nat>, order: seq<nat>, kind: Kind,
                                     base: map<nat, nat>)
    requires EntriesFit(m, order, base) && At(b, pos, EncodeEntries(m, order))
    ensures ReadEntries(b, pos, |order|, kind, base) == Parsed(With(base, m, order), pos + |EncodeEntries(m, order)|)
    decreases order
  {
    if order != [] {
      var key, rest := order[0], order[1..];
      assert key in m && key !in base && key < Pow256(IDENTIFIER) && m[key] < Pow256(VALUE);
      EntriesFitNext(m, order, base);
      hide Encode, Decode, ReadWord, At, Pow256, EntriesFit;
      AtSplit(b, pos, EncodeEntry(key, m[key]), EncodeEntries(m, rest));
      EntryAt(b, pos, key, m[key]);
      EntriesAt(b, pos + IDENTIFIER + VALUE, m, rest, kind, base[key := m[key]]);
    }
  }

  lemma OrderFits(m: map<nat, nat>, order: seq<nat>, layout: Layout)
    requires IsOrder(order, m) && MapFits(m, layout)
    ensures EntriesFit(m, order, map[]) && |order| == |m| < Pow256(layout.size)
  {
    assert forall i | 0 <= i < |order| :: order[i] in order;
  }

  /** A size, then as many entries. */
  lemma MapIsRead(b: seq<Byte>, pos: nat, n: nat, kind: Kind, m: map<nat, nat>, read: Parsed<map<nat, nat>>,
                  layout: Layout)
    requires ReadWord(b, pos, layout.size) == Parsed(n, pos + layout.size)
    requires ReadEntries(b, pos + layout.size, n, kind, m) == read
    ensures ReadMap(b, pos, kind, m, layout) == read
  {
    hide ReadWord, ReadEntries;
  }

  lemma MapParts(m: map<nat, nat>, order: seq<nat>, layout: Layout)
    requires IsOrder(order, m)
    ensures EncodeMap(m, order, layout) == Encode(|m|, layout.size) + EncodeEntries(m, order)
  {
    hide Encode, EncodeEntries;
  }

  lemma MapAt(b: seq<Byte>, pos: nat, m: map<nat, nat>, order: seq<nat>, kind: Kind, layout: Layout)
    requires IsOrder(order, m) && MapFits(m, layout) && At(b, pos, EncodeMap(m, order, layout))
    ensures ReadMap(b, pos, kind, map[], layout) == Parsed(m, pos + |EncodeMap(m, order, layout)|)
  {
    hide Encode, Decode, ReadWord, ReadEntries, ReadMap, EncodeMap, EncodeEntries, At, Pow256, MapFits, EntriesFit,
      With;
    OrderFits(m, order, layout);
    WithAll(m, order);
    MapParts(m, order, layout);
    AtSplit(b, pos, Encode(|m|, layout.size), EncodeEntries(m, order));
    WordAt(b, pos, |m|, layout.size);
    EntriesAt(b, pos + layout.size, m, order, kind, map[]);
    MapIsRead(b, pos, |m|, kind, map[], Parsed(m, pos + |EncodeMap(m, order, layout)|), layout);
  }

  lemma MetadataAt(b: seq<Byte>, pos: nat, d: Metadata, layout: Layout)
    requires MetadataFits(d, layout) && At(b, pos, EncodeMetadata(d, layout))
    ensures ReadMetadata(b, pos, layout) == Parsed(d, pos + |EncodeMetadata(d, layout)|)
  {
    hide Encode, Decode, ReadWord, At, Pow256;
    var e5, e6 := Encode(d.endTs, layout.timestamp), Encode(d.endThread, layout.thread);
    var e4 := Encode(d.startThread, layout.thread);
    var e3 := Encode(d.startTs, layout.timestamp);
    var e2, e1 := Encode(d.traceId, IDENTIFIER), Encode(d.nameId, IDENTIFIER);
    AtSplit(b, pos, e1, e2 + (e3 + (e4 + (e5 + e6))));
    WordAt(b, pos, d.nameId, IDENTIFIER);
    var p := pos + IDENTIFIER;
    AtSplit(b, p, e2, e3 + (e4 + (e5 + e6)));
    WordAt(b, p, d.traceId, IDENTIFIER);
    p := p + IDENTIFIER;
    AtSplit(b, p, e3, e4 + (e5 + e6));
    WordAt(b, p, d.startTs, layout.timestamp);
    p := p + layout.timestamp;
    AtSplit(b, p, e4, e5 + e6);
    WordAt(b, p, d.startThread, layout.thread);
    p := p + layout.thread;
    AtSplit(b, p, e5, e6);
    WordAt(b, p, d.endTs, layout.timestamp);
    WordAt(b, p + layout.timestamp, d.endThread, layout.thread);
  }

  /**
    Reading back what was written, whatever follows and in whatever order the maps were visited, restores everything.
   */
  lemma RoundTrip(r: Record, metrics: seq<nat>, samples: seq<nat>, layout: Layout, rest: seq<Byte>)
    requires Fits(r, layout) && IsOrder(metrics, r.metrics) && IsOrder(samples, r.samples)
    ensures var written := EncodeRecord(r, metrics, samples, layout);
            ReadRecord(written + rest, layout) == Parsed(r, |written|)
  {
    hide Encode, Decode, ReadWord, EncodeMetadata, EncodeMap, ReadMetadata, ReadMap, MapFits, MetadataFits;
    var x, y := EncodeMetadata(r.metadata, layout), EncodeMap(r.metrics, metrics, layout);
    var z := EncodeMap(r.samples, samples, layout);
    var b := x + (y + z) + rest;
    AtSplit(b, 0, x, y + z);
    AtSplit(b, |x|, y, z);
    MetadataAt(b, 0, r.metadata, layout);
    MapAt(b, |x|, r.metrics, metrics, Metrics, layout);
    MapAt(b, |x| + |y|, r.samples, samples, Samples, layout);
  }

  // ----- A truncated buffer is rejected

  /** What a reader accepts in a prefix, it reads alike in the whole, and within the prefix. */
  ghost predicate Local<T(!new)>(inPrefix: Parsed<T>, inWhole: Parsed<T>, n: nat) {
    inPrefix.Parsed? ==> inWhole == inPrefix && inPrefix.pos <= n
  }

  lemma WordIsLocal(b: seq<Byte>, n: nat, pos: nat, width: nat)
    requires n <= |b|
    ensures Local(ReadWord(b[..n], pos, width), ReadWord(b, pos, width), n)
    ensures ReadWord(b[..n], pos, width).Parsed? ==> ReadWord(b[..n], pos, width).pos == pos + width
  {
    if pos + width <= n {
      assert b[..n][pos..pos + width] == b[pos..pos + width];
    }
  }

  lemma {:induction false} EntriesAreLocal(b: seq<Byte>, n: nat, pos: nat, count: nat, kind: Kind, m: map<nat, nat>)
    requires n <= |b| && pos <= n
    ensures Local(ReadEntries(b[..n], pos, count, kind, m), ReadEntries(b, pos, count, kind, m), n)
    decreases count
  {
    if count != 0 {
      WordIsLocal(b, n, pos, IDENTIFIER);
      WordIsLocal(b, n, pos + IDENTIFIER, VALUE);
      hide ReadWord;
      var key, value := ReadWord(b[..n], pos, IDENTIFIER), ReadWord(b[..n], pos + IDENTIFIER, VALUE);
      if key.Parsed? && value.Parsed? {
        EntriesAreLocal(b, n, value.pos, count - 1, kind, kind.Put(m, key.value, value.value));
      }
    }
  }

  lemma MapIsLocal(b: seq<Byte>, n: nat, pos: nat, kind: Kind, m: map<nat, nat>, layout: Layout)
    requires n <= |b|
    ensures Local(ReadMap(b[..n], pos, kind, m, layout), ReadMap(b, pos, kind, m, layout), n)
  {
    WordIsLocal(b, n, pos, layout.size);
    var size := ReadWord(b[..n], pos, layout.size);
    if size.Parsed? { EntriesAreLocal(b, n, size.pos, size.value, kind, m); }
  }

  lemma MetadataIsLocal(b: seq<Byte>, n: nat, pos: nat, layout: Layout)
    requires n <= |b|
    ensures Local(ReadMetadata(b[..n], pos, layout), ReadMetadata(b, pos, layout), n)
  {
    hide ReadWord;
    var p2, p3 := pos + 2 * IDENTIFIER, pos + 2 * IDENTIFIER + layout.timestamp;
    WordIsLocal(b, n, pos, IDENTIFIER);
    WordIsLocal(b, n, pos + IDENTIFIER, IDENTIFIER);
    WordIsLocal(b, n, p2, layout.timestamp);
    WordIsLocal(b, n, p3, layout.thread);
    WordIsLocal(b, n, p3 + layout.thread, layout.timestamp);
    WordIsLocal(b, n, p3 + layout.thread + layout.timestamp, layout.thread);
  }

  lemma RecordIsLocal(b: seq<Byte>, n: nat, layout: Layout)
    requires n <= |b|
    ensures Local(ReadRecord(b[..n], layout), ReadRecord(b, layout), n)
  {
    hide ReadMetadata, ReadMap;
    MetadataIsLocal(b, n, 0, layout);
    var metadata := ReadMetadata(b[..n], 0, layout);
    if metadata.Parsed? {
      MapIsLocal(b, n, metadata.pos, Metrics, map[], layout);
      var metrics := ReadMap(b[..n], metadata.pos, Metrics, map[], layout);
      if metrics.Parsed? { MapIsLocal(b, n, metrics.pos, Samples, map[], layout); }
    }
  }

  /** No strict prefix of what was written is accepted. */
  lemma PrefixIsRejected(r: Record, metrics: seq<nat>, samples: seq<nat>, layout: Layout, n: nat)
    requires Fits(r, layout) && IsOrder(metrics, r.metrics) && IsOrder(samples, r.samples)
    requires n < |EncodeRecord(r, metrics, samples, layout)|
    ensures ReadRecord(EncodeRecord(r, metrics, samples, layout)[..n], layout).Rejected?
  {
    var written := EncodeRecord(r, metrics, samples, layout);
    RoundTrip(r, metrics, samples, layout, []);
    assert written + [] == written;
    RecordIsLocal(written, n, layout);
  }

  // ----- Where the bytes are

  /** Byte `i` of a value in memory is its digit of that weight. */
  lemma {:induction false} ByteIsDigit(value: nat, width: nat, i: nat)
    requires i < width
    ensures Pow256(i) > 0 && Encode(value, width)[i] == value / Pow256(i) % 256
    decreases i
  {
    if i > 0 {
      ByteIsDigit(value / 256, width - 1, i - 1);
      DivTwice(value, Pow256(i - 1));
    }
  }

  lemma DivTwice(n: nat, d: nat)
    requires d > 0
    ensures 256 * d > 0 && n / 256 / d == n / (256 * d)
  {
    var q, r := n / 256, n % 256;
    var a, c := q / d, q % d;
    assert n == (256 * d) * a + (256 * c + r);
    DivIs(n, 256 * d, a, 256 * c + r);
  }

  lemma DivIs(n: nat, d: nat, q: nat, r: nat)
    requires n == d * q + r && r < d
    ensures n / d == q
  {
    TimesApart(d, q, n / d);
    TimesApart(d, n / d, q);
  }

  lemma {:induction false} TimesApart(d: nat, a: nat, b: nat)
    ensures a < b ==> d * a + d <= d * b
  {
    if a < b {
      TimesApart(d, a, b - 1);
      assert d * b == d * (b - 1) + d;
    }
  }

  /** The fields lie in this order. */
  lemma FieldsAt(d: Metadata, layout: Layout)
    ensures var b, times, threads := EncodeMetadata(d, layout), layout.timestamp, layout.thread;
            && |b| == 8 + 2 * times + 2 * threads
            && At(b, 0, Encode(d.nameId, 4)) && At(b, 4, Encode(d.traceId, 4))
            && At(b, 8, Encode(d.startTs, times)) && At(b, 8 + times, Encode(d.startThread, threads))
            && At(b, 8 + times + threads, Encode(d.endTs, times))
            && At(b, 8 + 2 * times + threads, Encode(d.endThread, threads))
  {
    hide Encode, At;
    var b, w, t := EncodeMetadata(d, layout), layout.timestamp, layout.thread;
    var last := Encode(d.endThread, t);
    var fifth := Encode(d.endTs, w) + last;
    var fourth := Encode(d.startThread, t) + fifth;
    var third := Encode(d.startTs, w) + fourth;
    var second := Encode(d.traceId, IDENTIFIER) + third;
    WholeAt(b);
    AtSplit(b, 0, Encode(d.nameId, IDENTIFIER), second);
    AtSplit(b, 4, Encode(d.traceId, IDENTIFIER), third);
    AtSplit(b, 8, Encode(d.startTs, w), fourth);
    AtSplit(b, 8 + w, Encode(d.startThread, t), fifth);
    AtSplit(b, 8 + w + t, Encode(d.endTs, w), last);
  }

  lemma WholeAt(b: seq<Byte>)
    ensures At(b, 0, b)
  {
  }

  /** A map's entries follow its size, twelve bytes each, the key first, in the order met. */
  lemma EntriesAreAt(m: map<nat, nat>, order: seq<nat>, layout: Layout, i: nat)
    requires (forall k <- order :: k in m) && i < |order|
    ensures var b, pos := EncodeMap(m, order, layout), layout.size + 12 * i;
            && At(b, 0, Encode(|m|, layout.size)) && order[i] in m
            && At(b, pos, Encode(order[i], 4)) && At(b, pos + 4, Encode(m[order[i]], 8))
  {
    hide Encode, At, EncodeEntries;
    var b := EncodeMap(m, order, layout);
    WholeAt(b);
    AtSplit(b, 0, Encode(|m|, layout.size), EncodeEntries(m, order));
    assert order[0..] == order;
    EntriesFrom(b, layout.size, m, order, i);
    assert order[i] in order;
    NextEntry(m, order, i);
    var pos, entry := layout.size + 12 * i, Encode(order[i], IDENTIFIER) + Encode(m[order[i]], VALUE);
    AtSplit(b, pos, entry, EncodeEntries(m, order[i + 1..]));
    AtSplit(b, pos, Encode(order[i], IDENTIFIER), Encode(m[order[i]], VALUE));
  }

  lemma {:induction false} EntriesFrom(b: seq<Byte>, pos: nat, m: map<nat, nat>, order: seq<nat>, i: nat)
    requires (forall k <- order :: k in m) && i <= |order| && At(b, pos, EncodeEntries(m, order))
    ensures At(b, pos + 12 * i, EncodeEntries(m, order[i..]))
  {
    hide Encode, At, EncodeEntries;
    assert order[0..] == order;
    if i > 0 {
      EntriesFrom(b, pos, m, order, i - 1);
      NextEntry(m, order, i - 1);
      assert order[i - 1] in order;
      AtSplit(b, pos + 12 * (i - 1), Encode(order[i - 1], IDENTIFIER) + Encode(m[order[i - 1]], VALUE),
              EncodeEntries(m, order[i..]));
    }
  }
}
