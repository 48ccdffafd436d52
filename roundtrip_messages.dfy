/**
 * Decoding what `StoreStatus.MarshalTo` and `NodeStatus.MarshalTo` write
 * gives the message back. Each field the encoder writes is one pass of the
 * decode loop; a repeated or map field is as many passes as it has
 * elements, and the two messages are their fields in order.
 */
module StatusMessageRoundTrip {
  import opened Wrappers
  import opened Varint
  import opened Keys
  import opened StatusMessages
  import opened StatusDecoding
  import opened StatusRoundTrip

  // ---------------------------------------------------------------------
  // Merging map entries

  /** The map after the entry for `k`, if `src` holds one, is decoded into `acc`. */
  ghost function Put<K, V>(acc: map<K, V>, k: K, src: map<K, V>): map<K, V> {
    if k in src then acc[k := src[k]] else acc
  }

  /**
   * The map after the entries for `ks` are decoded into `acc` in that
   * order: a name the source map does not hold has no field, and so
   * changes nothing.
   */
  ghost function PutAll<K, V>(acc: map<K, V>, ks: seq<K>, src: map<K, V>): map<K, V>
    decreases |ks|
  {
    if ks == [] then acc else PutAll(Put(acc, ks[0], src), ks[1..], src)
  }

  /** What `PutAll` holds: the entries of `src` for `ks`, over those of `acc`. */
  lemma {:induction false} PutAllEntries<K, V>(acc: map<K, V>, ks: seq<K>, src: map<K, V>, k: K)
    ensures k in ks && k in src ==> k in PutAll(acc, ks, src) && PutAll(acc, ks, src)[k] == src[k]
    ensures !(k in ks && k in src) ==> (k in PutAll(acc, ks, src) <==> k in acc)
    ensures !(k in ks && k in src) && k in acc ==> k in PutAll(acc, ks, src) && PutAll(acc, ks, src)[k] == acc[k]
    decreases |ks|
  {
    if ks != [] {
      PutAllEntries(Put(acc, ks[0], src), ks[1..], src, k);
      assert k in ks <==> k == ks[0] || k in ks[1..];
    }
  }

  /** Putting every key of `src` into an empty map gives `src`. */
  lemma PutAllKeys<K, V>(ks: seq<K>, src: map<K, V>)
    requires Elems(ks) == src.Keys
    ensures PutAll(map[], ks, src) == src
  {
    var r := PutAll(map[], ks, src);
    forall k ensures k in r <==> k in src
    {
      PutAllEntries(map[], ks, src, k);
      assert k in src <==> k in Elems(ks);
    }
    forall k | k in r ensures k in src && r[k] == src[k]
    {
      PutAllEntries(map[], ks, src, k);
      assert k in src <==> k in Elems(ks);
    }
  }

  // ---------------------------------------------------------------------
  // Fields

  /** A length-delimited field costs its tag, its length prefix and its payload. */
  lemma LengthDelimitedSize(tag: byte, p: seq<byte>, n: nat)
    requires n == |p|
    ensures |LengthDelimited(tag, p)| == 1 + Sov(n) + n
  {
  }

  /** The tag of a length-delimited field, then the bounds of its payload. */
  lemma BytesPayloadAt(data: seq<byte>, i: nat, tag: byte, p: seq<byte>, n: nat, s: nat, e: nat)
    requires |data| < TWO_TO_63 && n == |p| && s == i + 1 + Sov(n) && e == i + |LengthDelimited(tag, p)|
    requires EncodedAt(data, i, LengthDelimited(tag, p))
    ensures i < |data| && data[i] == tag
    ensures ReadLength(data, i + 1) == Ok((s, e)) && data[s..e] == p
  {
    LengthDelimitedSize(tag, p, n);
    LengthDelimitedAt(data, i, tag, p, n);
  }

  /** The field number and wire type of every tag the encoder writes. */
  lemma TagNumbers()
    ensures STORE_DESC_TAG / 8 == 1 && STORE_METRICS_TAG / 8 == 2
    ensures NODE_DESC_TAG / 8 == 1 && NODE_BUILD_INFO_TAG / 8 == 2 && NODE_STARTED_AT_TAG / 8 == 3
    ensures NODE_UPDATED_AT_TAG / 8 == 4 && NODE_METRICS_TAG / 8 == 5 && NODE_STORES_TAG / 8 == 6
    ensures NODE_ARGS_TAG / 8 == 7 && NODE_ENV_TAG / 8 == 8 && NODE_LATENCIES_TAG / 8 == 9
    ensures NODE_STARTED_AT_TAG % 8 == 0 && NODE_UPDATED_AT_TAG % 8 == 0
    ensures STORE_DESC_TAG % 8 == 2 && STORE_METRICS_TAG % 8 == 2 && NODE_DESC_TAG % 8 == 2
    ensures NODE_BUILD_INFO_TAG % 8 == 2 && NODE_METRICS_TAG % 8 == 2 && NODE_STORES_TAG % 8 == 2
    ensures NODE_ARGS_TAG % 8 == 2 && NODE_ENV_TAG % 8 == 2 && NODE_LATENCIES_TAG % 8 == 2
    ensures 8 <= STORE_DESC_TAG < 128 && 8 <= STORE_METRICS_TAG < 128
    ensures 8 <= NODE_DESC_TAG < 128 && 8 <= NODE_BUILD_INFO_TAG < 128 && 8 <= NODE_STARTED_AT_TAG < 128
    ensures 8 <= NODE_UPDATED_AT_TAG < 128 && 8 <= NODE_METRICS_TAG < 128 && 8 <= NODE_STORES_TAG < 128
    ensures 8 <= NODE_ARGS_TAG < 128 && 8 <= NODE_ENV_TAG < 128 && 8 <= NODE_LATENCIES_TAG < 128
  {
  }

  /**
   * A length-delimited field of a message: its tag passes the checks and
   * names field `tag / 8` with wire type 2, and the length bounds exactly
   * the payload.
   */
  lemma BytesFieldAt(data: seq<byte>, i: nat, tag: byte, field: int, p: seq<byte>, n: nat, s: nat, e: nat)
    requires |data| < TWO_TO_63 && tag < 128 && tag % 8 == 2 && tag >= 8 && field == tag / 8
    requires n == |p| && s == i + 1 + Sov(n) && e == i + |LengthDelimited(tag, p)|
    requires EncodedAt(data, i, LengthDelimited(tag, p))
    ensures i < |data| && e <= |data|
    ensures ReadTag(data, i) == Ok((field, 2, i + 1))
    ensures DecodeBytes(data, i + 1, field, 2) == Ok((s, e))
    ensures data[s..e] == p
  {
    BytesPayloadAt(data, i, tag, p, n, s, e);
    ReadTagAt(data, i, tag);
  }

  /** `BytesFieldAt`, with the start of the payload worked out from its length. */
  lemma PayloadAt(data: seq<byte>, i: nat, tag: byte, field: int, p: seq<byte>, e: nat) returns (s: nat)
    requires |data| < TWO_TO_63 && tag < 128 && tag % 8 == 2 && tag >= 8 && field == tag / 8
    requires e == i + |LengthDelimited(tag, p)| && EncodedAt(data, i, LengthDelimited(tag, p))
    ensures i < |data| && e <= |data|
    ensures ReadTag(data, i) == Ok((field, 2, i + 1))
    ensures DecodeBytes(data, i + 1, field, 2) == Ok((s, e))
    ensures data[s..e] == p
  {
    var n := |p|;
    s := i + 1 + Sov(n);
    BytesFieldAt(data, i, tag, field, p, n, s, e);
  }

  /** A map field of metrics: the entry it holds comes back whole. */
  lemma MetricFieldAt(data: seq<byte>, i: nat, tag: byte, field: int, k: seq<byte>, v: uint64, e: nat)
    requires |data| < TWO_TO_63 && tag < 128 && tag % 8 == 2 && tag >= 8 && field == tag / 8
    requires e == i + |LengthDelimited(tag, MetricEntry(k, v))|
    requires EncodedAt(data, i, LengthDelimited(tag, MetricEntry(k, v)))
    ensures i < |data| && e <= |data|
    ensures ReadTag(data, i) == Ok((field, 2, i + 1))
    ensures DecodeMetric(data, i + 1, field, 2) == Ok((k, v, e))
  {
    var n := |MetricEntry(k, v)|;
    var s := i + 1 + Sov(n);
    BytesFieldAt(data, i, tag, field, MetricEntry(k, v), n, s, e);
    MetricEntryRoundTrip(data, s, e, k, v);
  }

  /** A map field of latencies: the entry it holds comes back whole. */
  lemma LatencyFieldAt(data: seq<byte>, i: nat, node: int32, nanos: int64, e: nat)
    requires |data| < TWO_TO_63
    requires e == i + |LengthDelimited(NODE_LATENCIES_TAG, LatencyEntry(node, nanos))|
    requires EncodedAt(data, i, LengthDelimited(NODE_LATENCIES_TAG, LatencyEntry(node, nanos)))
    ensures i < |data| && e <= |data|
    ensures ReadTag(data, i) == Ok((9, 2, i + 1))
    ensures DecodeLatency(data, i + 1, 9, 2) == Ok((node, nanos, e))
  {
    var n := |LatencyEntry(node, nanos)|;
    var s := i + 1 + Sov(n);
    TagNumbers();
    BytesFieldAt(data, i, NODE_LATENCIES_TAG, 9, LatencyEntry(node, nanos), n, s, e);
    LatencyEntryRoundTrip(data, s, e, node, nanos);
  }

  /** The first element of a joined encoding, and the rest after it. */
  lemma JoinHead<T>(data: seq<byte>, i: nat, xs: seq<T>, enc: T -> seq<byte>)
    requires xs != [] && EncodedAt(data, i, Join(xs, enc))
    ensures EncodedAt(data, i, enc(xs[0]))
    ensures EncodedAt(data, i + |enc(xs[0])|, Join(xs[1..], enc))
    ensures i + |Join(xs, enc)| == i + |enc(xs[0])| + |Join(xs[1..], enc)|
  {
    EncodedAtConcat(data, i, enc(xs[0]), Join(xs[1..], enc));
  }

  /** `JoinHead`, with the index where the rest starts. */
  lemma JoinHeadAt<T>(data: seq<byte>, i: nat, xs: seq<T>, enc: T -> seq<byte>) returns (e: nat)
    requires xs != [] && EncodedAt(data, i, Join(xs, enc))
    ensures EncodedAt(data, i, enc(xs[0])) && e == i + |enc(xs[0])|
    ensures EncodedAt(data, e, Join(xs[1..], enc))
    ensures e + |Join(xs[1..], enc)| == i + |Join(xs, enc)|
  {
    JoinHead(data, i, xs, enc);
    e := i + |enc(xs[0])|;
  }

  /** `JoinHeadAt`, for a first element whose encoding is known to be `b`. */
  lemma JoinHeadIs<T>(data: seq<byte>, i: nat, xs: seq<T>, enc: T -> seq<byte>, b: seq<byte>) returns (e: nat)
    requires xs != [] && EncodedAt(data, i, Join(xs, enc)) && enc(xs[0]) == b
    ensures EncodedAt(data, i, b) && e == i + |b|
    ensures EncodedAt(data, e, Join(xs[1..], enc))
    ensures e + |Join(xs[1..], enc)| == i + |Join(xs, enc)|
  {
    e := JoinHeadAt(data, i, xs, enc);
  }

  // ---------------------------------------------------------------------
  // One pass of each decode loop

  /** A pass of the store loop that decodes a field continues from where the field ends. */
  lemma StoreLoopStep(data: seq<byte>, i: nat, m: StoreStatus, m': StoreStatus, e: nat)
    requires i < |data| && DecodeStoreField(data, i, m) == Ok((m', e))
    ensures DecodeStoreFields(data, i, m) == DecodeStoreFields(data, e, m')
  {
  }

  /** A pass of the node loop that decodes a field continues from where the field ends. */
  lemma NodeLoopStep(data: seq<byte>, i: nat, m: NodeStatus, m': NodeStatus, e: nat)
    requires i < |data| && DecodeNodeField(data, i, m) == Ok((m', e))
    ensures DecodeNodeFields(data, i, m) == DecodeNodeFields(data, e, m')
  {
  }

  // Each field the encoder writes, decoded from what its pass reads.

  lemma StoreDescField(data: seq<byte>, i: nat, m: StoreStatus, s: nat, e: nat)
    requires i < |data| && ReadTag(data, i) == Ok((1, 2, i + 1)) && DecodeBytes(data, i + 1, 1, 2) == Ok((s, e))
    ensures DecodeStoreField(data, i, m) == Ok((m.(desc := m.desc + data[s..e]), e))
  {
  }

  lemma StoreMetricField(data: seq<byte>, i: nat, m: StoreStatus, k: seq<byte>, v: uint64, e: nat)
    requires i < |data| && ReadTag(data, i) == Ok((2, 2, i + 1)) && DecodeMetric(data, i + 1, 2, 2) == Ok((k, v, e))
    ensures DecodeStoreField(data, i, m) == Ok((m.(metrics := m.metrics[k := v]), e))
  {
  }

  lemma NodeDescField(data: seq<byte>, i: nat, m: NodeStatus, s: nat, e: nat)
    requires i < |data| && ReadTag(data, i) == Ok((1, 2, i + 1)) && DecodeBytes(data, i + 1, 1, 2) == Ok((s, e))
    ensures DecodeNodeField(data, i, m) == Ok((m.(desc := m.desc + data[s..e]), e))
  {
  }

  lemma NodeBuildInfoField(data: seq<byte>, i: nat, m: NodeStatus, s: nat, e: nat)
    requires i < |data| && ReadTag(data, i) == Ok((2, 2, i + 1)) && DecodeBytes(data, i + 1, 2, 2) == Ok((s, e))
    ensures DecodeNodeField(data, i, m) == Ok((m.(buildInfo := m.buildInfo + data[s..e]), e))
  {
  }

  lemma NodeStartedAtField(data: seq<byte>, i: nat, m: NodeStatus, x: int64, e: nat)
    requires i < |data| && ReadTag(data, i) == Ok((3, 0, i + 1)) && DecodeInt64(data, i + 1, 3, 0) == Ok((x, e))
    ensures DecodeNodeField(data, i, m) == Ok((m.(startedAt := x), e))
  {
  }

  lemma NodeUpdatedAtField(data: seq<byte>, i: nat, m: NodeStatus, x: int64, e: nat)
    requires i < |data| && ReadTag(data, i) == Ok((4, 0, i + 1)) && DecodeInt64(data, i + 1, 4, 0) == Ok((x, e))
    ensures DecodeNodeField(data, i, m) == Ok((m.(updatedAt := x), e))
  {
  }

  lemma NodeMetricField(data: seq<byte>, i: nat, m: NodeStatus, k: seq<byte>, v: uint64, e: nat)
    requires i < |data| && ReadTag(data, i) == Ok((5, 2, i + 1)) && DecodeMetric(data, i + 1, 5, 2) == Ok((k, v, e))
    ensures DecodeNodeField(data, i, m) == Ok((m.(metrics := m.metrics[k := v]), e))
  {
  }

  lemma NodeStoreField(data: seq<byte>, i: nat, m: NodeStatus, s: nat, e: nat, p: seq<byte>, st: StoreStatus)
    requires i < |data| && ReadTag(data, i) == Ok((6, 2, i + 1)) && DecodeBytes(data, i + 1, 6, 2) == Ok((s, e))
    requires data[s..e] == p && UnmarshalStore(EMPTY_STORE, p) == Ok(st)
    ensures DecodeNodeField(data, i, m) == Ok((m.(storeStatuses := m.storeStatuses + [st]), e))
  {
  }

  lemma NodeArgField(data: seq<byte>, i: nat, m: NodeStatus, s: nat, e: nat)
    requires i < |data| && ReadTag(data, i) == Ok((7, 2, i + 1)) && DecodeBytes(data, i + 1, 7, 2) == Ok((s, e))
    ensures DecodeNodeField(data, i, m) == Ok((m.(args := m.args + [data[s..e]]), e))
  {
  }

  lemma NodeEnvField(data: seq<byte>, i: nat, m: NodeStatus, s: nat, e: nat)
    requires i < |data| && ReadTag(data, i) == Ok((8, 2, i + 1)) && DecodeBytes(data, i + 1, 8, 2) == Ok((s, e))
    ensures DecodeNodeField(data, i, m) == Ok((m.(env := m.env + [data[s..e]]), e))
  {
  }

  lemma NodeLatencyField(data: seq<byte>, i: nat, m: NodeStatus, node: int32, nanos: int64, e: nat)
    requires i < |data| && ReadTag(data, i) == Ok((9, 2, i + 1)) && DecodeLatency(data, i + 1, 9, 2) == Ok((node, nanos, e))
    ensures DecodeNodeField(data, i, m) == Ok((m.(latencies := m.latencies[node := nanos]), e))
  {
  }

  // ---------------------------------------------------------------------
  // StoreStatus

  /** The descriptor field of a store appends its bytes to the descriptor. */
  lemma StoreDescAt(data: seq<byte>, i: nat, m: StoreStatus, p: seq<byte>, e: nat)
    requires |data| < TWO_TO_63 && e == i + |LengthDelimited(STORE_DESC_TAG, p)|
    requires EncodedAt(data, i, LengthDelimited(STORE_DESC_TAG, p))
    ensures i < |data| && e <= |data|
    ensures DecodeStoreField(data, i, m) == Ok((m.(desc := m.desc + p), e))
  {
    TagNumbers();
    var s := PayloadAt(data, i, STORE_DESC_TAG, 1, p, e);
    StoreDescField(data, i, m, s, e);
  }

  /** A metric field of a store sets that metric. */
  lemma StoreMetricAt(data: seq<byte>, i: nat, m: StoreStatus, k: seq<byte>, v: uint64, e: nat)
    requires |data| < TWO_TO_63 && e == i + |LengthDelimited(STORE_METRICS_TAG, MetricEntry(k, v))|
    requires EncodedAt(data, i, LengthDelimited(STORE_METRICS_TAG, MetricEntry(k, v)))
    ensures i < |data| && e <= |data|
    ensures DecodeStoreField(data, i, m) == Ok((m.(metrics := m.metrics[k := v]), e))
  {
    TagNumbers();
    MetricFieldAt(data, i, STORE_METRICS_TAG, 2, k, v, e);
    StoreMetricField(data, i, m, k, v, e);
  }

  /**
   * The first name of a map of metrics: its field, if the map holds the
   * name, and where the fields of the other names start.
   */
  lemma MetricJoinHead(data: seq<byte>, i: nat, tag: byte, ks: seq<seq<byte>>, src: map<seq<byte>, uint64>)
    returns (e: nat)
    requires ks != [] && EncodedAt(data, i, Join(ks, MetricField(tag, src)))
    ensures EncodedAt(data, e, Join(ks[1..], MetricField(tag, src)))
    ensures e + |Join(ks[1..], MetricField(tag, src))| == i + |Join(ks, MetricField(tag, src))|
    ensures ks[0] in src ==>
      EncodedAt(data, i, LengthDelimited(tag, MetricEntry(ks[0], src[ks[0]])))
      && e == i + |LengthDelimited(tag, MetricEntry(ks[0], src[ks[0]]))|
    ensures ks[0] !in src ==> e == i
  {
    if ks[0] in src {
      e := JoinHeadIs(data, i, ks, MetricField(tag, src), LengthDelimited(tag, MetricEntry(ks[0], src[ks[0]])));
    } else {
      e := JoinHeadIs(data, i, ks, MetricField(tag, src), []);
    }
  }

  /** The first metric field of a store's metrics, and where the rest start. */
  lemma StoreMetricsHead(data: seq<byte>, i: nat, d: seq<byte>, acc: map<seq<byte>, uint64>,
                         ks: seq<seq<byte>>, src: map<seq<byte>, uint64>) returns (e: nat)
    requires |data| < TWO_TO_63 && ks != []
    requires EncodedAt(data, i, Join(ks, MetricField(STORE_METRICS_TAG, src)))
    ensures EncodedAt(data, e, Join(ks[1..], MetricField(STORE_METRICS_TAG, src)))
    ensures e + |Join(ks[1..], MetricField(STORE_METRICS_TAG, src))| == i + |Join(ks, MetricField(STORE_METRICS_TAG, src))|
    ensures DecodeStoreFields(data, i, StoreStatus(d, acc)) == DecodeStoreFields(data, e, StoreStatus(d, Put(acc, ks[0], src)))
  {
    e := MetricJoinHead(data, i, STORE_METRICS_TAG, ks, src);
    if ks[0] in src {
      StoreMetricAt(data, i, StoreStatus(d, acc), ks[0], src[ks[0]], e);
      StoreLoopStep(data, i, StoreStatus(d, acc), StoreStatus(d, acc).(metrics := acc[ks[0] := src[ks[0]]]), e);
    }
  }

  /** The metric fields of a store, decoded in order, put each metric into the map. */
  lemma {:induction false} StoreMetricsAt(data: seq<byte>, i: nat, j: nat, d: seq<byte>, acc: map<seq<byte>, uint64>,
                                          ks: seq<seq<byte>>, src: map<seq<byte>, uint64>)
    requires |data| < TWO_TO_63 && j == i + |Join(ks, MetricField(STORE_METRICS_TAG, src))|
    requires EncodedAt(data, i, Join(ks, MetricField(STORE_METRICS_TAG, src)))
    ensures j <= |data|
    ensures DecodeStoreFields(data, i, StoreStatus(d, acc)) == DecodeStoreFields(data, j, StoreStatus(d, PutAll(acc, ks, src)))
    decreases |ks|
  {
    if ks != [] {
      var e := StoreMetricsHead(data, i, d, acc, ks, src);
      StoreMetricsAt(data, e, j, d, Put(acc, ks[0], src), ks[1..], src);
    }
  }

  /** A store's encoding is its descriptor field, then its metric fields. */
  lemma StoreParts(data: seq<byte>, s: StoreStatus, e: nat)
    requires data == EncodeStore(s) && e == |LengthDelimited(STORE_DESC_TAG, s.desc)|
    ensures EncodedAt(data, 0, LengthDelimited(STORE_DESC_TAG, s.desc))
    ensures EncodedAt(data, e, EncodeMetrics(STORE_METRICS_TAG, s.metrics))
    ensures |data| == e + |EncodeMetrics(STORE_METRICS_TAG, s.metrics)|
  {
    assert data[0..|data|] == data;
    EncodedAtConcat(data, 0, LengthDelimited(STORE_DESC_TAG, s.desc), EncodeMetrics(STORE_METRICS_TAG, s.metrics));
  }

  /** `StoreStatus.Unmarshal` of what `StoreStatus.Marshal` writes is the store. */
  lemma StoreRoundTrip(s: StoreStatus)
    requires GoBytes(EncodeStore(s))
    ensures UnmarshalStore(EMPTY_STORE, EncodeStore(s)) == Ok(s)
  {
    var data := EncodeStore(s);
    var e := |LengthDelimited(STORE_DESC_TAG, s.desc)|;
    var ks := SortedNames(s.metrics.Keys);
    StoreParts(data, s, e);
    StoreDescAt(data, 0, EMPTY_STORE, s.desc, e);
    StoreLoopStep(data, 0, EMPTY_STORE, EMPTY_STORE.(desc := [] + s.desc), e);
    assert EMPTY_STORE.(desc := [] + s.desc) == StoreStatus(s.desc, map[]);
    StoreMetricsAt(data, e, |data|, s.desc, map[], ks, s.metrics);
    PutAllKeys(ks, s.metrics);
  }

  // ---------------------------------------------------------------------
  // NodeStatus: one field

  /** The descriptor field of a node appends its bytes to the descriptor. */
  lemma NodeDescAt(data: seq<byte>, i: nat, m: NodeStatus, p: seq<byte>, e: nat)
    requires |data| < TWO_TO_63 && e == i + |LengthDelimited(NODE_DESC_TAG, p)|
    requires EncodedAt(data, i, LengthDelimited(NODE_DESC_TAG, p))
    ensures i < |data| && e <= |data|
    ensures DecodeNodeField(data, i, m) == Ok((m.(desc := m.desc + p), e))
  {
    TagNumbers();
    var s := PayloadAt(data, i, NODE_DESC_TAG, 1, p, e);
    NodeDescField(data, i, m, s, e);
  }

  /** The build-info field of a node appends its bytes to the build info. */
  lemma NodeBuildInfoAt(data: seq<byte>, i: nat, m: NodeStatus, p: seq<byte>, e: nat)
    requires |data| < TWO_TO_63 && e == i + |LengthDelimited(NODE_BUILD_INFO_TAG, p)|
    requires EncodedAt(data, i, LengthDelimited(NODE_BUILD_INFO_TAG, p))
    ensures i < |data| && e <= |data|
    ensures DecodeNodeField(data, i, m) == Ok((m.(buildInfo := m.buildInfo + p), e))
  {
    TagNumbers();
    var s := PayloadAt(data, i, NODE_BUILD_INFO_TAG, 2, p, e);
    NodeBuildInfoField(data, i, m, s, e);
  }

  /** A timestamp that is not zero is written as a varint field. */
  lemma NonZeroFieldBytes(data: seq<byte>, i: nat, tag: byte, x: int64, u: uint64, e: nat)
    requires x != 0 && u == ToUint64(x)
    requires EncodedAt(data, i, NonZeroField(tag, x)) && e == i + |NonZeroField(tag, x)|
    ensures EncodedAt(data, i, VarintField(tag, u)) && e == i + 1 + Sov(u)
  {
  }

  /** A timestamp field: its tag passes the checks, and the varint reads back as the timestamp. */
  lemma TimeFieldAt(data: seq<byte>, i: nat, tag: byte, field: int, x: int64, e: nat)
    requires tag < 128 && tag % 8 == 0 && tag >= 8 && field == tag / 8 && x != 0
    requires EncodedAt(data, i, NonZeroField(tag, x)) && e == i + |NonZeroField(tag, x)|
    ensures i < |data| && e <= |data|
    ensures ReadTag(data, i) == Ok((field, 0, i + 1))
    ensures DecodeInt64(data, i + 1, field, 0) == Ok((x, e))
  {
    var u := ToUint64(x);
    NonZeroFieldBytes(data, i, tag, x, u, e);
    VarintFieldParts(data, i, tag, u);
    ReadTagAt(data, i, tag);
    Int64RoundTrip(x);
    TimeValueAt(data, i, tag, field, x, u, e);
  }

  /** The varint of a timestamp field reads back as the timestamp. */
  lemma TimeValueAt(data: seq<byte>, i: nat, tag: byte, field: int, x: int64, u: uint64, e: nat)
    requires ToInt64(u) == x && EncodedAt(data, i, VarintField(tag, u)) && e == i + 1 + Sov(u)
    ensures DecodeInt64(data, i + 1, field, 0) == Ok((x, e))
  {
    VarintFieldValue(data, i, tag, u, i + 1);
  }

  /** The start time is written only when it is not zero, and then read back into the node. */
  lemma NodeStartedAtAt(data: seq<byte>, i: nat, m: NodeStatus, x: int64, e: nat)
    requires EncodedAt(data, i, NonZeroField(NODE_STARTED_AT_TAG, x)) && e == i + |NonZeroField(NODE_STARTED_AT_TAG, x)|
    ensures e <= |data|
    ensures DecodeNodeFields(data, i, m) == DecodeNodeFields(data, e, if x == 0 then m else m.(startedAt := x))
  {
    if x != 0 {
      TagNumbers();
      TimeFieldAt(data, i, NODE_STARTED_AT_TAG, 3, x, e);
      NodeStartedAtField(data, i, m, x, e);
      NodeLoopStep(data, i, m, m.(startedAt := x), e);
    }
  }

  /** The update time is written only when it is not zero, and then read back into the node. */
  lemma NodeUpdatedAtAt(data: seq<byte>, i: nat, m: NodeStatus, x: int64, e: nat)
    requires EncodedAt(data, i, NonZeroField(NODE_UPDATED_AT_TAG, x)) && e == i + |NonZeroField(NODE_UPDATED_AT_TAG, x)|
    ensures e <= |data|
    ensures DecodeNodeFields(data, i, m) == DecodeNodeFields(data, e, if x == 0 then m else m.(updatedAt := x))
  {
    if x != 0 {
      TagNumbers();
      TimeFieldAt(data, i, NODE_UPDATED_AT_TAG, 4, x, e);
      NodeUpdatedAtField(data, i, m, x, e);
      NodeLoopStep(data, i, m, m.(updatedAt := x), e);
    }
  }

  /** A metric field of a node sets that metric. */
  lemma NodeMetricAt(data: seq<byte>, i: nat, m: NodeStatus, k: seq<byte>, v: uint64, e: nat)
    requires |data| < TWO_TO_63 && e == i + |LengthDelimited(NODE_METRICS_TAG, MetricEntry(k, v))|
    requires EncodedAt(data, i, LengthDelimited(NODE_METRICS_TAG, MetricEntry(k, v)))
    ensures i < |data| && e <= |data|
    ensures DecodeNodeField(data, i, m) == Ok((m.(metrics := m.metrics[k := v]), e))
  {
    TagNumbers();
    MetricFieldAt(data, i, NODE_METRICS_TAG, 5, k, v, e);
    NodeMetricField(data, i, m, k, v, e);
  }

  /** A store field of a node decodes the store from its own bytes and appends it. */
  lemma NodeStoreAt(data: seq<byte>, i: nat, m: NodeStatus, st: StoreStatus, e: nat)
    requires |data| < TWO_TO_63 && e == i + |StoreField(st)|
    requires EncodedAt(data, i, StoreField(st))
    ensures i < |data| && e <= |data|
    ensures DecodeNodeField(data, i, m) == Ok((m.(storeStatuses := m.storeStatuses + [st]), e))
  {
    var p := EncodeStore(st);
    var s := NodeStoreBytes(data, i, st, p, e);
    StoreRoundTrip(st);
    NodeStoreField(data, i, m, s, e, p, st);
  }

  /** The tag of a store field, then the bounds of the store's own encoding. */
  lemma NodeStoreBytes(data: seq<byte>, i: nat, st: StoreStatus, p: seq<byte>, e: nat) returns (s: nat)
    requires |data| < TWO_TO_63 && p == EncodeStore(st) && e == i + |StoreField(st)|
    requires EncodedAt(data, i, StoreField(st))
    ensures GoBytes(p) && i < |data| && e <= |data|
    ensures ReadTag(data, i) == Ok((6, 2, i + 1)) && DecodeBytes(data, i + 1, 6, 2) == Ok((s, e)) && data[s..e] == p
  {
    var n := |p|;
    s := i + 1 + Sov(n);
    PayloadFits(data, i, NODE_STORES_TAG, p);
    TagNumbers();
    BytesFieldAt(data, i, NODE_STORES_TAG, 6, p, n, s, e);
  }

  /** An argument field of a node appends the argument. */
  lemma NodeArgAt(data: seq<byte>, i: nat, m: NodeStatus, p: seq<byte>, e: nat)
    requires |data| < TWO_TO_63 && e == i + |LengthDelimited(NODE_ARGS_TAG, p)|
    requires EncodedAt(data, i, LengthDelimited(NODE_ARGS_TAG, p))
    ensures i < |data| && e <= |data|
    ensures DecodeNodeField(data, i, m) == Ok((m.(args := m.args + [p]), e))
  {
    TagNumbers();
    var s := PayloadAt(data, i, NODE_ARGS_TAG, 7, p, e);
    NodeArgField(data, i, m, s, e);
  }

  /** An environment field of a node appends the variable. */
  lemma NodeEnvAt(data: seq<byte>, i: nat, m: NodeStatus, p: seq<byte>, e: nat)
    requires |data| < TWO_TO_63 && e == i + |LengthDelimited(NODE_ENV_TAG, p)|
    requires EncodedAt(data, i, LengthDelimited(NODE_ENV_TAG, p))
    ensures i < |data| && e <= |data|
    ensures DecodeNodeField(data, i, m) == Ok((m.(env := m.env + [p]), e))
  {
    TagNumbers();
    var s := PayloadAt(data, i, NODE_ENV_TAG, 8, p, e);
    NodeEnvField(data, i, m, s, e);
  }

  /** A latency field of a node sets that latency. */
  lemma NodeLatencyAt(data: seq<byte>, i: nat, m: NodeStatus, node: int32, nanos: int64, e: nat)
    requires |data| < TWO_TO_63 && e == i + |LengthDelimited(NODE_LATENCIES_TAG, LatencyEntry(node, nanos))|
    requires EncodedAt(data, i, LengthDelimited(NODE_LATENCIES_TAG, LatencyEntry(node, nanos)))
    ensures i < |data| && e <= |data|
    ensures DecodeNodeField(data, i, m) == Ok((m.(latencies := m.latencies[node := nanos]), e))
  {
    LatencyFieldAt(data, i, node, nanos, e);
    NodeLatencyField(data, i, m, node, nanos, e);
  }

  // ---------------------------------------------------------------------
  // NodeStatus: repeated and map fields

  /** The first metric field of a node's metrics, and where the rest start. */
  lemma NodeMetricsHead(data: seq<byte>, i: nat, m: NodeStatus, ks: seq<seq<byte>>, src: map<seq<byte>, uint64>)
    returns (e: nat)
    requires |data| < TWO_TO_63 && ks != []
    requires EncodedAt(data, i, Join(ks, MetricField(NODE_METRICS_TAG, src)))
    ensures EncodedAt(data, e, Join(ks[1..], MetricField(NODE_METRICS_TAG, src)))
    ensures e + |Join(ks[1..], MetricField(NODE_METRICS_TAG, src))| == i + |Join(ks, MetricField(NODE_METRICS_TAG, src))|
    ensures DecodeNodeFields(data, i, m) == DecodeNodeFields(data, e, m.(metrics := Put(m.metrics, ks[0], src)))
  {
    e := MetricJoinHead(data, i, NODE_METRICS_TAG, ks, src);
    if ks[0] in src {
      NodeMetricAt(data, i, m, ks[0], src[ks[0]], e);
      NodeLoopStep(data, i, m, m.(metrics := m.metrics[ks[0] := src[ks[0]]]), e);
    }
  }

  /** The metric fields of a node, decoded in order, put each metric into the map. */
  lemma {:induction false} NodeMetricsAt(data: seq<byte>, i: nat, j: nat, m: NodeStatus, ks: seq<seq<byte>>, src: map<seq<byte>, uint64>)
    requires |data| < TWO_TO_63 && j == i + |Join(ks, MetricField(NODE_METRICS_TAG, src))|
    requires EncodedAt(data, i, Join(ks, MetricField(NODE_METRICS_TAG, src)))
    ensures j <= |data|
    ensures DecodeNodeFields(data, i, m) == DecodeNodeFields(data, j, m.(metrics := PutAll(m.metrics, ks, src)))
    decreases |ks|
  {
    if ks != [] {
      var e := NodeMetricsHead(data, i, m, ks, src);
      var m' := m.(metrics := Put(m.metrics, ks[0], src));
      NodeMetricsAt(data, e, j, m', ks[1..], src);
      assert m'.(metrics := PutAll(m'.metrics, ks[1..], src)) == m.(metrics := PutAll(m.metrics, ks, src));
    }
  }

  /**
   * The first node id of a map of latencies: its field, if the map holds
   * the id, and where the fields of the other ids start.
   */
  lemma LatencyJoinHead(data: seq<byte>, i: nat, ks: seq<int32>, src: map<int32, int64>) returns (e: nat)
    requires ks != [] && EncodedAt(data, i, Join(ks, LatencyField(src)))
    ensures EncodedAt(data, e, Join(ks[1..], LatencyField(src)))
    ensures e + |Join(ks[1..], LatencyField(src))| == i + |Join(ks, LatencyField(src))|
    ensures ks[0] in src ==>
      EncodedAt(data, i, LengthDelimited(NODE_LATENCIES_TAG, LatencyEntry(ks[0], src[ks[0]])))
      && e == i + |LengthDelimited(NODE_LATENCIES_TAG, LatencyEntry(ks[0], src[ks[0]]))|
    ensures ks[0] !in src ==> e == i
  {
    if ks[0] in src {
      e := JoinHeadIs(data, i, ks, LatencyField(src), LengthDelimited(NODE_LATENCIES_TAG, LatencyEntry(ks[0], src[ks[0]])));
    } else {
      e := JoinHeadIs(data, i, ks, LatencyField(src), []);
    }
  }

  /** The first latency field of a node, and where the rest start. */
  lemma NodeLatenciesHead(data: seq<byte>, i: nat, m: NodeStatus, ks: seq<int32>, src: map<int32, int64>) returns (e: nat)
    requires |data| < TWO_TO_63 && ks != []
    requires EncodedAt(data, i, Join(ks, LatencyField(src)))
    ensures EncodedAt(data, e, Join(ks[1..], LatencyField(src)))
    ensures e + |Join(ks[1..], LatencyField(src))| == i + |Join(ks, LatencyField(src))|
    ensures DecodeNodeFields(data, i, m) == DecodeNodeFields(data, e, m.(latencies := Put(m.latencies, ks[0], src)))
  {
    e := LatencyJoinHead(data, i, ks, src);
    if ks[0] in src {
      NodeLatencyAt(data, i, m, ks[0], src[ks[0]], e);
      NodeLoopStep(data, i, m, m.(latencies := m.latencies[ks[0] := src[ks[0]]]), e);
    }
  }

  /** The latency fields of a node, decoded in order, put each latency into the map. */
  lemma {:induction false} NodeLatenciesAt(data: seq<byte>, i: nat, j: nat, m: NodeStatus, ks: seq<int32>, src: map<int32, int64>)
    requires |data| < TWO_TO_63 && j == i + |Join(ks, LatencyField(src))|
    requires EncodedAt(data, i, Join(ks, LatencyField(src)))
    ensures j <= |data|
    ensures DecodeNodeFields(data, i, m) == DecodeNodeFields(data, j, m.(latencies := PutAll(m.latencies, ks, src)))
    decreases |ks|
  {
    if ks != [] {
      var e := NodeLatenciesHead(data, i, m, ks, src);
      var m' := m.(latencies := Put(m.latencies, ks[0], src));
      NodeLatenciesAt(data, e, j, m', ks[1..], src);
      assert m'.(latencies := PutAll(m'.latencies, ks[1..], src)) == m.(latencies := PutAll(m.latencies, ks, src));
    }
  }

  /** Appending the first element, then the rest, appends them all. */
  lemma AppendHead<T>(a: seq<T>, ss: seq<T>)
    requires ss != []
    ensures (a + [ss[0]]) + ss[1..] == a + ss
  {
    assert ss == [ss[0]] + ss[1..];
  }

  /** The first store field of a node, and where the rest start. */
  lemma NodeStoresHead(data: seq<byte>, i: nat, m: NodeStatus, ss: seq<StoreStatus>) returns (e: nat)
    requires |data| < TWO_TO_63 && ss != []
    requires EncodedAt(data, i, Join(ss, StoreField))
    ensures EncodedAt(data, e, Join(ss[1..], StoreField))
    ensures e + |Join(ss[1..], StoreField)| == i + |Join(ss, StoreField)|
    ensures DecodeNodeFields(data, i, m) == DecodeNodeFields(data, e, m.(storeStatuses := m.storeStatuses + [ss[0]]))
  {
    e := JoinHeadAt(data, i, ss, StoreField);
    NodeStoreAt(data, i, m, ss[0], e);
    NodeLoopStep(data, i, m, m.(storeStatuses := m.storeStatuses + [ss[0]]), e);
  }

  /** The store fields of a node, decoded in order, append each store. */
  lemma {:induction false} NodeStoresAt(data: seq<byte>, i: nat, j: nat, m: NodeStatus, ss: seq<StoreStatus>)
    requires |data| < TWO_TO_63 && j == i + |Join(ss, StoreField)|
    requires EncodedAt(data, i, Join(ss, StoreField))
    ensures j <= |data|
    ensures DecodeNodeFields(data, i, m) == DecodeNodeFields(data, j, m.(storeStatuses := m.storeStatuses + ss))
    decreases |ss|
  {
    if ss == [] {
      assert m.storeStatuses + ss == m.storeStatuses;
    } else {
      var e := NodeStoresHead(data, i, m, ss);
      NodeStoresAt(data, e, j, m.(storeStatuses := m.storeStatuses + [ss[0]]), ss[1..]);
      AppendHead(m.storeStatuses, ss);
    }
  }

  /** The first argument field of a node, and where the rest start. */
  lemma NodeArgsHead(data: seq<byte>, i: nat, m: NodeStatus, ss: seq<seq<byte>>) returns (e: nat)
    requires |data| < TWO_TO_63 && ss != []
    requires EncodedAt(data, i, Join(ss, StringField(NODE_ARGS_TAG)))
    ensures EncodedAt(data, e, Join(ss[1..], StringField(NODE_ARGS_TAG)))
    ensures e + |Join(ss[1..], StringField(NODE_ARGS_TAG))| == i + |Join(ss, StringField(NODE_ARGS_TAG))|
    ensures DecodeNodeFields(data, i, m) == DecodeNodeFields(data, e, m.(args := m.args + [ss[0]]))
  {
    JoinHead(data, i, ss, StringField(NODE_ARGS_TAG));
    e := i + |LengthDelimited(NODE_ARGS_TAG, ss[0])|;
    NodeArgAt(data, i, m, ss[0], e);
    NodeLoopStep(data, i, m, m.(args := m.args + [ss[0]]), e);
  }

  /** The argument fields of a node, decoded in order, append each argument. */
  lemma {:induction false} NodeArgsAt(data: seq<byte>, i: nat, j: nat, m: NodeStatus, ss: seq<seq<byte>>)
    requires |data| < TWO_TO_63 && j == i + |Join(ss, StringField(NODE_ARGS_TAG))|
    requires EncodedAt(data, i, Join(ss, StringField(NODE_ARGS_TAG)))
    ensures j <= |data|
    ensures DecodeNodeFields(data, i, m) == DecodeNodeFields(data, j, m.(args := m.args + ss))
    decreases |ss|
  {
    if ss == [] {
      assert m.args + ss == m.args;
    } else {
      var e := NodeArgsHead(data, i, m, ss);
      NodeArgsAt(data, e, j, m.(args := m.args + [ss[0]]), ss[1..]);
      AppendHead(m.args, ss);
    }
  }

  /** The first environment field of a node, and where the rest start. */
  lemma NodeEnvsHead(data: seq<byte>, i: nat, m: NodeStatus, ss: seq<seq<byte>>) returns (e: nat)
    requires |data| < TWO_TO_63 && ss != []
    requires EncodedAt(data, i, Join(ss, StringField(NODE_ENV_TAG)))
    ensures EncodedAt(data, e, Join(ss[1..], StringField(NODE_ENV_TAG)))
    ensures e + |Join(ss[1..], StringField(NODE_ENV_TAG))| == i + |Join(ss, StringField(NODE_ENV_TAG))|
    ensures DecodeNodeFields(data, i, m) == DecodeNodeFields(data, e, m.(env := m.env + [ss[0]]))
  {
    JoinHead(data, i, ss, StringField(NODE_ENV_TAG));
    e := i + |LengthDelimited(NODE_ENV_TAG, ss[0])|;
    NodeEnvAt(data, i, m, ss[0], e);
    NodeLoopStep(data, i, m, m.(env := m.env + [ss[0]]), e);
  }

  /** The environment fields of a node, decoded in order, append each variable. */
  lemma {:induction false} NodeEnvsAt(data: seq<byte>, i: nat, j: nat, m: NodeStatus, ss: seq<seq<byte>>)
    requires |data| < TWO_TO_63 && j == i + |Join(ss, StringField(NODE_ENV_TAG))|
    requires EncodedAt(data, i, Join(ss, StringField(NODE_ENV_TAG)))
    ensures j <= |data|
    ensures DecodeNodeFields(data, i, m) == DecodeNodeFields(data, j, m.(env := m.env + ss))
    decreases |ss|
  {
    if ss == [] {
      assert m.env + ss == m.env;
    } else {
      var e := NodeEnvsHead(data, i, m, ss);
      NodeEnvsAt(data, e, j, m.(env := m.env + [ss[0]]), ss[1..]);
      AppendHead(m.env, ss);
    }
  }

  // ---------------------------------------------------------------------
  // NodeStatus: the whole message

  /** Where each of nine byte strings written one after the other starts: the end of the one before it. */
  lemma Layout(data: seq<byte>, a1: seq<byte>, a2: seq<byte>, a3: seq<byte>, a4: seq<byte>, a5: seq<byte>,
               a6: seq<byte>, a7: seq<byte>, a8: seq<byte>, a9: seq<byte>)
    returns (p1: nat, p2: nat, p3: nat, p4: nat, p5: nat, p6: nat, p7: nat, p8: nat)
    requires data == a1 + a2 + a3 + a4 + a5 + a6 + a7 + a8 + a9
    ensures EncodedAt(data, 0, a1) && p1 == |a1|
    ensures EncodedAt(data, p1, a2) && p2 == p1 + |a2|
    ensures EncodedAt(data, p2, a3) && p3 == p2 + |a3|
    ensures EncodedAt(data, p3, a4) && p4 == p3 + |a4|
    ensures EncodedAt(data, p4, a5) && p5 == p4 + |a5|
    ensures EncodedAt(data, p5, a6) && p6 == p5 + |a6|
    ensures EncodedAt(data, p6, a7) && p7 == p6 + |a7|
    ensures EncodedAt(data, p7, a8) && p8 == p7 + |a8|
    ensures EncodedAt(data, p8, a9) && |data| == p8 + |a9|
  {
    var x8 := a1 + a2 + a3 + a4 + a5 + a6 + a7 + a8;
    var x7 := a1 + a2 + a3 + a4 + a5 + a6 + a7;
    var x6 := a1 + a2 + a3 + a4 + a5 + a6;
    var x5 := a1 + a2 + a3 + a4 + a5;
    var x4 := a1 + a2 + a3 + a4;
    var x3 := a1 + a2 + a3;
    var x2 := a1 + a2;
    assert data[0..|data|] == data;
    EncodedAtConcat(data, 0, x8, a9);
    EncodedAtConcat(data, 0, x7, a8);
    EncodedAtConcat(data, 0, x6, a7);
    EncodedAtConcat(data, 0, x5, a6);
    EncodedAtConcat(data, 0, x4, a5);
    EncodedAtConcat(data, 0, x3, a4);
    EncodedAtConcat(data, 0, x2, a3);
    EncodedAtConcat(data, 0, a1, a2);
    p1, p2, p3, p4, p5, p6, p7, p8 := |a1|, |x2|, |x3|, |x4|, |x5|, |x6|, |x7|, |x8|;
  }

  /** A node whose scalar fields are those of `m` and whose other fields are empty. */
  function Scalars(m: NodeStatus): NodeStatus {
    NodeStatus(m.desc, m.buildInfo, m.startedAt, m.updatedAt, map[], [], [], [], map[])
  }

  /** The descriptor and the build info of a node decode into an empty node. */
  lemma NodeFront(data: seq<byte>, m: NodeStatus, p1: nat, p2: nat)
    requires |data| < TWO_TO_63
    requires EncodedAt(data, 0, LengthDelimited(NODE_DESC_TAG, m.desc))
    requires p1 == |LengthDelimited(NODE_DESC_TAG, m.desc)|
    requires EncodedAt(data, p1, LengthDelimited(NODE_BUILD_INFO_TAG, m.buildInfo))
    requires p2 == p1 + |LengthDelimited(NODE_BUILD_INFO_TAG, m.buildInfo)|
    ensures p2 <= |data|
    ensures DecodeNodeFields(data, 0, EMPTY_NODE) == DecodeNodeFields(data, p2, EMPTY_NODE.(desc := m.desc, buildInfo := m.buildInfo))
  {
    NodeDescAt(data, 0, EMPTY_NODE, m.desc, p1);
    NodeLoopStep(data, 0, EMPTY_NODE, EMPTY_NODE.(desc := EMPTY_NODE.desc + m.desc), p1);
    assert EMPTY_NODE.(desc := [] + m.desc) == EMPTY_NODE.(desc := m.desc);
    var n1 := EMPTY_NODE.(desc := m.desc);
    NodeBuildInfoAt(data, p1, n1, m.buildInfo, p2);
    NodeLoopStep(data, p1, n1, n1.(buildInfo := n1.buildInfo + m.buildInfo), p2);
    assert EMPTY_NODE.(desc := m.desc).(buildInfo := [] + m.buildInfo) == EMPTY_NODE.(desc := m.desc, buildInfo := m.buildInfo);
  }

  /** The two timestamps of a node, each written only when it is not zero, decode into a node whose timestamps are zero. */
  lemma NodeTimes(data: seq<byte>, m: NodeStatus, p2: nat, p3: nat, p4: nat)
    requires EncodedAt(data, p2, NonZeroField(NODE_STARTED_AT_TAG, m.startedAt))
    requires p3 == p2 + |NonZeroField(NODE_STARTED_AT_TAG, m.startedAt)|
    requires EncodedAt(data, p3, NonZeroField(NODE_UPDATED_AT_TAG, m.updatedAt))
    requires p4 == p3 + |NonZeroField(NODE_UPDATED_AT_TAG, m.updatedAt)|
    ensures p2 <= p4 <= |data|
    ensures DecodeNodeFields(data, p2, EMPTY_NODE.(desc := m.desc, buildInfo := m.buildInfo)) == DecodeNodeFields(data, p4, Scalars(m))
  {
    var n2 := EMPTY_NODE.(desc := m.desc, buildInfo := m.buildInfo);
    var n3 := n2.(startedAt := m.startedAt);
    NodeStartedAtAt(data, p2, n2, m.startedAt, p3);
    assert (if m.startedAt == 0 then n2 else n2.(startedAt := m.startedAt)) == n3;
    NodeUpdatedAtAt(data, p3, n3, m.updatedAt, p4);
    assert (if m.updatedAt == 0 then n3 else n3.(updatedAt := m.updatedAt)) == Scalars(m);
  }

  /** The metrics and stores of a node, after its scalar fields, decode into the node's metrics and stores. */
  lemma NodeMetricsStores(data: seq<byte>, m: NodeStatus, p4: nat, p5: nat, p6: nat)
    requires |data| < TWO_TO_63
    requires EncodedAt(data, p4, EncodeMetrics(NODE_METRICS_TAG, m.metrics))
    requires p5 == p4 + |EncodeMetrics(NODE_METRICS_TAG, m.metrics)|
    requires EncodedAt(data, p5, Join(m.storeStatuses, StoreField))
    requires p6 == p5 + |Join(m.storeStatuses, StoreField)|
    ensures p6 <= |data|
    ensures DecodeNodeFields(data, p4, Scalars(m))
      == DecodeNodeFields(data, p6, Scalars(m).(metrics := m.metrics, storeStatuses := m.storeStatuses))
  {
    NodeMetricsPart(data, m, p4, p5);
    NodeStoresPart(data, m, p5, p6);
  }

  /** The metrics of a node decode into the node's map of metrics. */
  lemma NodeMetricsPart(data: seq<byte>, m: NodeStatus, p4: nat, p5: nat)
    requires |data| < TWO_TO_63
    requires EncodedAt(data, p4, EncodeMetrics(NODE_METRICS_TAG, m.metrics))
    requires p5 == p4 + |EncodeMetrics(NODE_METRICS_TAG, m.metrics)|
    ensures p5 <= |data|
    ensures DecodeNodeFields(data, p4, Scalars(m)) == DecodeNodeFields(data, p5, Scalars(m).(metrics := m.metrics))
  {
    var ks := SortedNames(m.metrics.Keys);
    NodeMetricsAt(data, p4, p5, Scalars(m), ks, m.metrics);
    MetricsFilled(m, ks);
  }

  /** Putting every metric of a node into an empty map gives the node's map. */
  lemma MetricsFilled(m: NodeStatus, ks: seq<seq<byte>>)
    requires Elems(ks) == m.metrics.Keys
    ensures Scalars(m).(metrics := PutAll(Scalars(m).metrics, ks, m.metrics)) == Scalars(m).(metrics := m.metrics)
  {
    PutAllKeys(ks, m.metrics);
  }

  /** The stores of a node decode into the node's list of stores. */
  lemma NodeStoresPart(data: seq<byte>, m: NodeStatus, p5: nat, p6: nat)
    requires |data| < TWO_TO_63
    requires EncodedAt(data, p5, Join(m.storeStatuses, StoreField))
    requires p6 == p5 + |Join(m.storeStatuses, StoreField)|
    ensures p6 <= |data|
    ensures DecodeNodeFields(data, p5, Scalars(m).(metrics := m.metrics))
      == DecodeNodeFields(data, p6, Scalars(m).(metrics := m.metrics, storeStatuses := m.storeStatuses))
  {
    NodeStoresAt(data, p5, p6, Scalars(m).(metrics := m.metrics), m.storeStatuses);
    StoresFilled(m);
  }

  /** Appending a node's stores to none gives its stores. */
  lemma StoresFilled(m: NodeStatus)
    ensures Scalars(m).(metrics := m.metrics).(storeStatuses := Scalars(m).(metrics := m.metrics).storeStatuses + m.storeStatuses)
      == Scalars(m).(metrics := m.metrics, storeStatuses := m.storeStatuses)
  {
    assert [] + m.storeStatuses == m.storeStatuses;
  }

  /** The arguments and environment of a node, after its stores, decode into the node without its latencies. */
  lemma NodeArgsEnv(data: seq<byte>, m: NodeStatus, p6: nat, p7: nat, p8: nat)
    requires |data| < TWO_TO_63
    requires EncodedAt(data, p6, Join(m.args, StringField(NODE_ARGS_TAG)))
    requires p7 == p6 + |Join(m.args, StringField(NODE_ARGS_TAG))|
    requires EncodedAt(data, p7, Join(m.env, StringField(NODE_ENV_TAG)))
    requires p8 == p7 + |Join(m.env, StringField(NODE_ENV_TAG))|
    ensures p8 <= |data|
    ensures DecodeNodeFields(data, p6, Scalars(m).(metrics := m.metrics, storeStatuses := m.storeStatuses))
      == DecodeNodeFields(data, p8, m.(latencies := map[]))
  {
    NodeArgsPart(data, m, p6, p7);
    NodeEnvPart(data, m, p7, p8);
  }

  /** The arguments of a node decode into the node's list of arguments. */
  lemma NodeArgsPart(data: seq<byte>, m: NodeStatus, p6: nat, p7: nat)
    requires |data| < TWO_TO_63
    requires EncodedAt(data, p6, Join(m.args, StringField(NODE_ARGS_TAG)))
    requires p7 == p6 + |Join(m.args, StringField(NODE_ARGS_TAG))|
    ensures p7 <= |data|
    ensures DecodeNodeFields(data, p6, Scalars(m).(metrics := m.metrics, storeStatuses := m.storeStatuses))
      == DecodeNodeFields(data, p7, Scalars(m).(metrics := m.metrics, storeStatuses := m.storeStatuses, args := m.args))
  {
    var n6 := Scalars(m).(metrics := m.metrics, storeStatuses := m.storeStatuses);
    NodeArgsAt(data, p6, p7, n6, m.args);
    ArgsFilled(m);
  }

  /** Appending a node's arguments to none gives its arguments. */
  lemma ArgsFilled(m: NodeStatus)
    ensures Scalars(m).(metrics := m.metrics, storeStatuses := m.storeStatuses).(args := [] + m.args)
      == Scalars(m).(metrics := m.metrics, storeStatuses := m.storeStatuses, args := m.args)
  {
    assert [] + m.args == m.args;
  }

  /** The environment of a node decodes into the node's list of variables. */
  lemma NodeEnvPart(data: seq<byte>, m: NodeStatus, p7: nat, p8: nat)
    requires |data| < TWO_TO_63
    requires EncodedAt(data, p7, Join(m.env, StringField(NODE_ENV_TAG)))
    requires p8 == p7 + |Join(m.env, StringField(NODE_ENV_TAG))|
    ensures p8 <= |data|
    ensures DecodeNodeFields(data, p7, Scalars(m).(metrics := m.metrics, storeStatuses := m.storeStatuses, args := m.args))
      == DecodeNodeFields(data, p8, m.(latencies := map[]))
  {
    var n7 := Scalars(m).(metrics := m.metrics, storeStatuses := m.storeStatuses, args := m.args);
    NodeEnvsAt(data, p7, p8, n7, m.env);
    EnvFilled(m);
  }

  /** Appending a node's environment to none gives the node without its latencies. */
  lemma EnvFilled(m: NodeStatus)
    ensures Scalars(m).(metrics := m.metrics, storeStatuses := m.storeStatuses, args := m.args).(env := [] + m.env)
      == m.(latencies := map[])
  {
    assert [] + m.env == m.env;
  }

  /** The latencies of a node, the last of its fields, decode into a node that has none, which gives the node. */
  lemma NodeLatenciesLast(data: seq<byte>, m: NodeStatus, p8: nat)
    requires |data| < TWO_TO_63
    requires EncodedAt(data, p8, EncodeLatencies(m.latencies))
    requires |data| == p8 + |EncodeLatencies(m.latencies)|
    ensures DecodeNodeFields(data, p8, m.(latencies := map[])) == Ok(m)
  {
    var ks := SortedIds(m.latencies.Keys);
    NodeLatenciesAt(data, p8, |data|, m.(latencies := map[]), ks, m.latencies);
    PutAllKeys(ks, m.latencies);
  }

  /** `NodeStatus.Unmarshal` of what `NodeStatus.Marshal` writes is the node. */
  lemma NodeRoundTrip(m: NodeStatus)
    requires GoBytes(EncodeNode(m))
    ensures UnmarshalNode(EMPTY_NODE, EncodeNode(m)) == Ok(m)
  {
    var data := EncodeNode(m);
    var p1, p2, p3, p4, p5, p6, p7, p8 := Layout(data,
      LengthDelimited(NODE_DESC_TAG, m.desc),
      LengthDelimited(NODE_BUILD_INFO_TAG, m.buildInfo),
      NonZeroField(NODE_STARTED_AT_TAG, m.startedAt),
      NonZeroField(NODE_UPDATED_AT_TAG, m.updatedAt),
      EncodeMetrics(NODE_METRICS_TAG, m.metrics),
      Join(m.storeStatuses, StoreField),
      Join(m.args, StringField(NODE_ARGS_TAG)),
      Join(m.env, StringField(NODE_ENV_TAG)),
      EncodeLatencies(m.latencies));
    NodeFront(data, m, p1, p2);
    NodeTimes(data, m, p2, p3, p4);
    NodeMetricsStores(data, m, p4, p5, p6);
    NodeArgsEnv(data, m, p6, p7, p8);
    NodeLatenciesLast(data, m, p8);
  }
}
