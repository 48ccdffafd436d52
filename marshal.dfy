/**
 * The generated `Size`, `MarshalTo` and `Marshal` methods of `StoreStatus`
 * and `NodeStatus` (server/status/status.pb.go). `MarshalTo` writes into a
 * caller's buffer with an advancing index; a nested message's
 * `MarshalTo(dAtA[i:])` is the same buffer from offset `i`. Each writer
 * promises that the buffer up to the returned index is what it held before
 * the offset followed by the encoding of the message (`StatusMessages`),
 * and that nothing from the returned index on has changed.
 */
module StatusMarshal {
  import opened Varint
  import opened Keys
  import opened StatusMessages

  // ---------------------------------------------------------------------
  // Writing bytes

  /**
   * Bytes from `m` on that one write keeps, and bytes from `n >= m` on that
   * the next write keeps, are kept by the two writes together.
   */
  lemma TailKept(before: seq<byte>, mid: seq<byte>, after: seq<byte>, m: nat, n: nat)
    requires m <= n <= |before| == |mid| == |after|
    requires mid[m..] == before[m..] && after[n..] == mid[n..]
    ensures after[n..] == before[n..]
  {
    forall i | n <= i < |before|
      ensures after[i] == before[i]
    {
      assert after[i] == after[n..][i - n] == mid[n..][i - n] == mid[m..][i - m];
    }
  }

  /** `dAtA[i] = b; i++` */
  method PutByte(dAtA: array<byte>, off: nat, b: byte) returns (next: nat)
    requires off < dAtA.Length
    modifies dAtA
    ensures next == off + 1
    ensures dAtA[..next] == old(dAtA[..off]) + [b]
    ensures dAtA[next..] == old(dAtA[next..])
  {
    ghost var before := dAtA[..off];
    dAtA[off] := b;
    next := off + 1;
    assert dAtA[..next] == before + [b];
  }

  /** `i += copy(dAtA[i:], bs)` with room for all of `bs`. */
  method CopyBytes(dAtA: array<byte>, off: nat, bs: seq<byte>) returns (next: nat)
    requires off + |bs| <= dAtA.Length
    modifies dAtA
    ensures next == off + |bs|
    ensures dAtA[..next] == old(dAtA[..off]) + bs
    ensures dAtA[next..] == old(dAtA[next..])
  {
    next := off;
    while next < off + |bs|
      invariant off <= next <= off + |bs|
      invariant dAtA[..next] == old(dAtA[..off]) + bs[..next - off]
      invariant dAtA[next..] == old(dAtA[next..])
    {
      next := PutByte(dAtA, next, bs[next - off]);
      assert bs[..next - off] == bs[..next - off - 1] + [bs[next - off - 1]];
    }
    assert bs[..next - off] == bs;
  }

  /** The tag, then `encodeVarintStatus(dAtA, i, u)`. */
  method PutVarintField(dAtA: array<byte>, off: nat, tag: byte, u: uint64) returns (next: nat)
    requires off + |VarintField(tag, u)| <= dAtA.Length
    modifies dAtA
    ensures next == off + |VarintField(tag, u)|
    ensures dAtA[..next] == old(dAtA[..off]) + VarintField(tag, u)
    ensures dAtA[next..] == old(dAtA[next..])
  {
    AppendAssoc(old(dAtA[..off]), [tag], EncodeVarint(u));
    next := PutByte(dAtA, off, tag);
    ghost var mid, at := dAtA[..], next;
    next := EncodeVarintStatus(dAtA, next, u);
    TailKept(old(dAtA[..]), mid, dAtA[..], at, next);
  }

  /** The tag, then `encoding_binary.LittleEndian.PutUint64(dAtA[i:], u); i += 8`. */
  method PutFixed64Field(dAtA: array<byte>, off: nat, tag: byte, u: uint64) returns (next: nat)
    requires off + |Fixed64Field(tag, u)| <= dAtA.Length
    modifies dAtA
    ensures next == off + |Fixed64Field(tag, u)|
    ensures dAtA[..next] == old(dAtA[..off]) + Fixed64Field(tag, u)
    ensures dAtA[next..] == old(dAtA[next..])
  {
    AppendAssoc(old(dAtA[..off]), [tag], LittleEndian(u, 8));
    next := PutByte(dAtA, off, tag);
    ghost var mid, at := dAtA[..], next;
    next := CopyBytes(dAtA, next, LittleEndian(u, 8));
    TailKept(old(dAtA[..]), mid, dAtA[..], at, next);
  }

  /**
   * A length-delimited field whose payload is a byte string: the tag, the
   * length by `encodeVarintStatus` (the inlined `for l >= 1<<7` loop of
   * `Args` and `Env` is the same loop), then the bytes.
   */
  method PutLengthDelimited(dAtA: array<byte>, off: nat, tag: byte, payload: seq<byte>) returns (next: nat)
    requires GoBytes(payload) && off + |LengthDelimited(tag, payload)| <= dAtA.Length
    modifies dAtA
    ensures next == off + |LengthDelimited(tag, payload)|
    ensures dAtA[..next] == old(dAtA[..off]) + LengthDelimited(tag, payload)
    ensures dAtA[next..] == old(dAtA[next..])
  {
    AppendAssoc(old(dAtA[..off]), VarintField(tag, |payload|), payload);
    next := PutVarintField(dAtA, off, tag, |payload|);
    ghost var mid, at := dAtA[..], next;
    next := CopyBytes(dAtA, next, payload);
    TailKept(old(dAtA[..]), mid, dAtA[..], at, next);
  }

  // ---------------------------------------------------------------------
  // Map entries

  /**
   * One metric: the tag, `mapSize := 1 + len(k) + sovStatus(uint64(len(k))) + 1 + 8`,
   * then the entry.
   */
  method PutMetricField(dAtA: array<byte>, off: nat, tag: byte, name: seq<byte>, value: uint64) returns (next: nat)
    requires GoBytes(name) && off + |LengthDelimited(tag, MetricEntry(name, value))| <= dAtA.Length
    modifies dAtA
    ensures next == off + |LengthDelimited(tag, MetricEntry(name, value))|
    ensures dAtA[..next] == old(dAtA[..off]) + LengthDelimited(tag, MetricEntry(name, value))
    ensures dAtA[next..] == old(dAtA[next..])
  {
    var sovName := SovStatus(|name|);
    SovAtMostTen(|name|);
    var mapSize := 1 + |name| + sovName + 1 + 8;
    MetricEntryLength(name, value);
    AppendAssoc(old(dAtA[..off]), VarintField(tag, mapSize), MetricEntry(name, value));
    next := PutVarintField(dAtA, off, tag, mapSize);
    ghost var mid, at := dAtA[..], next;
    next := PutMetricEntry(dAtA, next, name, value);
    TailKept(old(dAtA[..]), mid, dAtA[..], at, next);
  }

  /** The entry of a metric: the name as field 1 (tag 0x0a), the value as field 2 (tag 0x11). */
  method PutMetricEntry(dAtA: array<byte>, off: nat, name: seq<byte>, value: uint64) returns (next: nat)
    requires GoBytes(name) && off + |MetricEntry(name, value)| <= dAtA.Length
    modifies dAtA
    ensures next == off + |MetricEntry(name, value)|
    ensures dAtA[..next] == old(dAtA[..off]) + MetricEntry(name, value)
    ensures dAtA[next..] == old(dAtA[next..])
  {
    AppendAssoc(old(dAtA[..off]), LengthDelimited(ENTRY_KEY_STRING_TAG, name), Fixed64Field(ENTRY_VALUE_FIXED64_TAG, value));
    next := PutLengthDelimited(dAtA, off, ENTRY_KEY_STRING_TAG, name);
    ghost var mid, at := dAtA[..], next;
    next := PutFixed64Field(dAtA, next, ENTRY_VALUE_FIXED64_TAG, value);
    TailKept(old(dAtA[..]), mid, dAtA[..], at, next);
  }

  /**
   * One latency: tag 0x4a, `mapSize := 1 + sovStatus(uint64(k)) + 1 + sovStatus(uint64(v))`,
   * then the entry.
   */
  method PutLatencyField(dAtA: array<byte>, off: nat, node: int32, nanos: int64) returns (next: nat)
    requires off + |LengthDelimited(NODE_LATENCIES_TAG, LatencyEntry(node, nanos))| <= dAtA.Length
    modifies dAtA
    ensures next == off + |LengthDelimited(NODE_LATENCIES_TAG, LatencyEntry(node, nanos))|
    ensures dAtA[..next] == old(dAtA[..off]) + LengthDelimited(NODE_LATENCIES_TAG, LatencyEntry(node, nanos))
    ensures dAtA[next..] == old(dAtA[next..])
  {
    var sovNode := SovStatus(ToUint64(node));
    var sovNanos := SovStatus(ToUint64(nanos));
    SovAtMostTen(ToUint64(node));
    SovAtMostTen(ToUint64(nanos));
    var mapSize := 1 + sovNode + 1 + sovNanos;
    LatencyEntryLength(node, nanos);
    AppendAssoc(old(dAtA[..off]), VarintField(NODE_LATENCIES_TAG, mapSize), LatencyEntry(node, nanos));
    next := PutVarintField(dAtA, off, NODE_LATENCIES_TAG, mapSize);
    ghost var mid, at := dAtA[..], next;
    next := PutLatencyEntry(dAtA, next, node, nanos);
    TailKept(old(dAtA[..]), mid, dAtA[..], at, next);
  }

  /** The entry of a latency: the node id as field 1 (tag 0x08), the nanoseconds as field 2 (tag 0x10). */
  method PutLatencyEntry(dAtA: array<byte>, off: nat, node: int32, nanos: int64) returns (next: nat)
    requires off + |LatencyEntry(node, nanos)| <= dAtA.Length
    modifies dAtA
    ensures next == off + |LatencyEntry(node, nanos)|
    ensures dAtA[..next] == old(dAtA[..off]) + LatencyEntry(node, nanos)
    ensures dAtA[next..] == old(dAtA[next..])
  {
    AppendAssoc(old(dAtA[..off]), VarintField(ENTRY_KEY_VARINT_TAG, ToUint64(node)), VarintField(ENTRY_VALUE_VARINT_TAG, ToUint64(nanos)));
    next := PutVarintField(dAtA, off, ENTRY_KEY_VARINT_TAG, ToUint64(node));
    ghost var mid, m := dAtA[..], next;
    next := PutVarintField(dAtA, next, ENTRY_VALUE_VARINT_TAG, ToUint64(nanos));
    TailKept(old(dAtA[..]), mid, dAtA[..], m, next);
  }

  /** `keysForMetrics`: the names collected from the map and sorted by `sortkeys.Strings`. */
  method SortedMetricKeys(metrics: map<seq<byte>, uint64>) returns (keys: seq<seq<byte>>)
    ensures keys == SortedNames(metrics.Keys)
  {
    keys := CollectKeys(metrics.Keys);
    StringLessIsStrictTotalOrder();
    keys := SortKeys(keys, StringLess);
  }

  /** `keysForLatencies`: the node ids collected from the map and sorted by `sortkeys.Int32s`. */
  method SortedLatencyKeys(latencies: map<int32, int64>) returns (keys: seq<int32>)
    ensures keys == SortedIds(latencies.Keys)
  {
    keys := CollectKeys(latencies.Keys);
    Int32LessIsStrictTotalOrder();
    keys := SortKeys(keys, Int32Less);
  }

  /**
   * `if len(m.Metrics) > 0`: the names are collected, sorted by
   * `sortkeys.Strings` and written in that order.
   */
  method PutMetrics(dAtA: array<byte>, off: nat, tag: byte, metrics: map<seq<byte>, uint64>) returns (next: nat)
    requires forall k :: k in metrics ==> GoBytes(k)
    requires off + |EncodeMetrics(tag, metrics)| <= dAtA.Length
    modifies dAtA
    ensures next == off + |EncodeMetrics(tag, metrics)|
    ensures dAtA[..next] == old(dAtA[..off]) + EncodeMetrics(tag, metrics)
    ensures dAtA[next..] == old(dAtA[next..])
  {
    next := off;
    if |metrics| > 0 {
      var keys := SortedMetricKeys(metrics);
      var n := 0;
      while n < |keys|
        invariant 0 <= n <= |keys|
        invariant next == off + |Join(keys[..n], MetricField(tag, metrics))| <= off + |EncodeMetrics(tag, metrics)|
        invariant dAtA[..next] == old(dAtA[..off]) + Join(keys[..n], MetricField(tag, metrics))
        invariant dAtA[next..] == old(dAtA[next..])
      {
        JoinStep(keys, n, MetricField(tag, metrics));
        var k := keys[n];
        assert k in Elems(keys);
        ghost var field := MetricField(tag, metrics)(k);
        assert field == LengthDelimited(tag, MetricEntry(k, metrics[k]));
        AppendAssoc(old(dAtA[..off]), Join(keys[..n], MetricField(tag, metrics)), field);
        ghost var mid, m := dAtA[..], next;
        next := PutMetricField(dAtA, next, tag, k, metrics[k]);
        TailKept(old(dAtA[..]), mid, dAtA[..], m, next);
        n := n + 1;
      }
      assert keys[..n] == keys;
    } else {
      ElemsEmpty(SortedNames(metrics.Keys));
      assert dAtA[..next] == old(dAtA[..off]) + [];
    }
  }

  /** `if len(m.Latencies) > 0`: the node ids sorted by `sortkeys.Int32s`. */
  method PutLatencies(dAtA: array<byte>, off: nat, latencies: map<int32, int64>) returns (next: nat)
    requires off + |EncodeLatencies(latencies)| <= dAtA.Length
    modifies dAtA
    ensures next == off + |EncodeLatencies(latencies)|
    ensures dAtA[..next] == old(dAtA[..off]) + EncodeLatencies(latencies)
    ensures dAtA[next..] == old(dAtA[next..])
  {
    next := off;
    if |latencies| > 0 {
      var keys := SortedLatencyKeys(latencies);
      var n := 0;
      while n < |keys|
        invariant 0 <= n <= |keys|
        invariant next == off + |Join(keys[..n], LatencyField(latencies))| <= off + |EncodeLatencies(latencies)|
        invariant dAtA[..next] == old(dAtA[..off]) + Join(keys[..n], LatencyField(latencies))
        invariant dAtA[next..] == old(dAtA[next..])
      {
        JoinStep(keys, n, LatencyField(latencies));
        var k := keys[n];
        assert k in Elems(keys);
        ghost var field := LatencyField(latencies)(k);
        assert field == LengthDelimited(NODE_LATENCIES_TAG, LatencyEntry(k, latencies[k]));
        AppendAssoc(old(dAtA[..off]), Join(keys[..n], LatencyField(latencies)), field);
        ghost var mid, m := dAtA[..], next;
        next := PutLatencyField(dAtA, next, k, latencies[k]);
        TailKept(old(dAtA[..]), mid, dAtA[..], m, next);
        n := n + 1;
      }
      assert keys[..n] == keys;
    } else {
      ElemsEmpty(SortedIds(latencies.Keys));
      assert dAtA[..next] == old(dAtA[..off]) + [];
    }
  }

  /** `for _, s := range m.Args` (or `m.Env`): one length-delimited field per string. */
  method PutStrings(dAtA: array<byte>, off: nat, tag: byte, ss: seq<seq<byte>>) returns (next: nat)
    requires forall i :: 0 <= i < |ss| ==> GoBytes(ss[i])
    requires off + |Join(ss, StringField(tag))| <= dAtA.Length
    modifies dAtA
    ensures next == off + |Join(ss, StringField(tag))|
    ensures dAtA[..next] == old(dAtA[..off]) + Join(ss, StringField(tag))
    ensures dAtA[next..] == old(dAtA[next..])
  {
    next := off;
    var n := 0;
    while n < |ss|
      invariant 0 <= n <= |ss|
      invariant next == off + |Join(ss[..n], StringField(tag))| <= off + |Join(ss, StringField(tag))|
      invariant dAtA[..next] == old(dAtA[..off]) + Join(ss[..n], StringField(tag))
      invariant dAtA[next..] == old(dAtA[next..])
    {
      JoinStep(ss, n, StringField(tag));
      AppendAssoc(old(dAtA[..off]), Join(ss[..n], StringField(tag)), StringField(tag)(ss[n]));
      ghost var mid, m := dAtA[..], next;
      next := PutLengthDelimited(dAtA, next, tag, ss[n]);
      TailKept(old(dAtA[..]), mid, dAtA[..], m, next);
      n := n + 1;
    }
    assert ss[..n] == ss;
  }

  // ---------------------------------------------------------------------
  // Sizes

  /** One metric in `Size`: `mapEntrySize + 1 + sovStatus(uint64(mapEntrySize))`. */
  method MetricFieldSize(tag: byte, name: seq<byte>, value: uint64) returns (n: nat)
    requires GoBytes(name)
    ensures n == |LengthDelimited(tag, MetricEntry(name, value))|
  {
    var sovName := SovStatus(|name|);
    SovAtMostTen(|name|);
    var mapEntrySize := 1 + |name| + sovName + 1 + 8;
    var sovEntry := SovStatus(mapEntrySize);
    MetricEntryLength(name, value);
    LengthDelimitedLength(tag, MetricEntry(name, value));
    n := mapEntrySize + 1 + sovEntry;
  }

  /** One latency in `Size`: `mapEntrySize + 1 + sovStatus(uint64(mapEntrySize))`. */
  method LatencyFieldSize(node: int32, nanos: int64) returns (n: nat)
    ensures n == |LengthDelimited(NODE_LATENCIES_TAG, LatencyEntry(node, nanos))|
  {
    var sovNode := SovStatus(ToUint64(node));
    var sovNanos := SovStatus(ToUint64(nanos));
    SovAtMostTen(ToUint64(node));
    SovAtMostTen(ToUint64(nanos));
    var mapEntrySize := 1 + sovNode + 1 + sovNanos;
    var sovEntry := SovStatus(mapEntrySize);
    LatencyEntryLength(node, nanos);
    LengthDelimitedLength(NODE_LATENCIES_TAG, LatencyEntry(node, nanos));
    n := mapEntrySize + 1 + sovEntry;
  }

  /**
   * `for k, v := range m.Metrics` in `Size`: the map is visited in any
   * order, adding `mapEntrySize + 1 + sovStatus(uint64(mapEntrySize))` per
   * entry.
   */
  method MetricsSize(tag: byte, metrics: map<seq<byte>, uint64>) returns (n: nat)
    requires forall k :: k in metrics ==> GoBytes(k)
    ensures n == |EncodeMetrics(tag, metrics)|
  {
    ghost var sizes := Lengths(MetricField(tag, metrics));
    JoinLength(SortedNames(metrics.Keys), MetricField(tag, metrics));
    n := 0;
    var rest := metrics.Keys;
    while rest != {}
      invariant rest <= metrics.Keys
      invariant n + SumOf(SortedNames(rest), sizes) == |EncodeMetrics(tag, metrics)|
      decreases rest
    {
      var k :| k in rest;
      var fieldSize := MetricFieldSize(tag, k, metrics[k]);
      assert sizes(k) == |MetricField(tag, metrics)(k)| == fieldSize;
      SortedNamesRemove(rest, k, sizes);
      n := n + fieldSize;
      rest := rest - {k};
    }
    ElemsEmpty(SortedNames(rest));
  }

  /** `for k, v := range m.Latencies` in `Size`, in any order. */
  method LatenciesSize(latencies: map<int32, int64>) returns (n: nat)
    ensures n == |EncodeLatencies(latencies)|
  {
    ghost var sizes := Lengths(LatencyField(latencies));
    JoinLength(SortedIds(latencies.Keys), LatencyField(latencies));
    n := 0;
    var rest := latencies.Keys;
    while rest != {}
      invariant rest <= latencies.Keys
      invariant n + SumOf(SortedIds(rest), sizes) == |EncodeLatencies(latencies)|
      decreases rest
    {
      var k :| k in rest;
      var fieldSize := LatencyFieldSize(k, latencies[k]);
      assert sizes(k) == |LatencyField(latencies)(k)| == fieldSize;
      SortedIdsRemove(rest, k, sizes);
      n := n + fieldSize;
      rest := rest - {k};
    }
    ElemsEmpty(SortedIds(rest));
  }

  /** `for _, s := range m.Args` (or `m.Env`) in `Size`: `1 + l + sovStatus(uint64(l))` each. */
  method StringsSize(tag: byte, ss: seq<seq<byte>>) returns (n: nat)
    requires forall i :: 0 <= i < |ss| ==> GoBytes(ss[i])
    ensures n == |Join(ss, StringField(tag))|
  {
    n := 0;
    var i := 0;
    while i < |ss|
      invariant 0 <= i <= |ss|
      invariant n == |Join(ss[..i], StringField(tag))|
    {
      JoinStep(ss, i, StringField(tag));
      var l := |ss[i]|;
      var sovL := SovStatus(l);
      n := n + 1 + l + sovL;
      i := i + 1;
    }
    assert ss[..i] == ss;
  }

  /** `StoreStatus.Size`: the descriptor field, then every metric entry. */
  method StoreSize(s: StoreStatus) returns (n: nat)
    requires StoreFits(s)
    ensures n == |EncodeStore(s)|
  {
    var l := |s.desc|;
    var sovL := SovStatus(l);
    n := 1 + l + sovL;
    if |s.metrics| > 0 {
      var more := MetricsSize(STORE_METRICS_TAG, s.metrics);
      n := n + more;
    } else {
      ElemsEmpty(SortedNames(s.metrics.Keys));
    }
  }

  /** `for _, e := range m.StoreStatuses` in `Size`: `1 + l + sovStatus(uint64(l))` with `l = e.Size()`. */
  method StoresSize(stores: seq<StoreStatus>) returns (n: nat)
    requires forall i :: 0 <= i < |stores| ==> StoreFits(stores[i]) && GoBytes(EncodeStore(stores[i]))
    ensures n == |Join(stores, StoreField)|
  {
    n := 0;
    var i := 0;
    while i < |stores|
      invariant 0 <= i <= |stores|
      invariant n == |Join(stores[..i], StoreField)|
    {
      JoinStep(stores, i, StoreField);
      var l := StoreSize(stores[i]);
      var sovL := SovStatus(l);
      n := n + 1 + l + sovL;
      i := i + 1;
    }
    assert stores[..i] == stores;
  }

  /** The first four fields in `NodeStatus.Size`: the two descriptors, then the non-zero timestamps. */
  method NodeHeaderSize(desc: seq<byte>, buildInfo: seq<byte>, startedAt: int64, updatedAt: int64) returns (n: nat)
    requires GoBytes(desc) && GoBytes(buildInfo)
    ensures n == |LengthDelimited(NODE_DESC_TAG, desc)| + |LengthDelimited(NODE_BUILD_INFO_TAG, buildInfo)|
                 + |NonZeroField(NODE_STARTED_AT_TAG, startedAt)| + |NonZeroField(NODE_UPDATED_AT_TAG, updatedAt)|
  {
    var l := |desc|;
    var sovL := SovStatus(l);
    n := 1 + l + sovL;
    l := |buildInfo|;
    sovL := SovStatus(l);
    n := n + 1 + l + sovL;
    if startedAt != 0 {
      var sovStarted := SovStatus(ToUint64(startedAt));
      n := n + 1 + sovStarted;
    }
    if updatedAt != 0 {
      var sovUpdated := SovStatus(ToUint64(updatedAt));
      n := n + 1 + sovUpdated;
    }
  }

  /** `NodeStatus.Size`: every field `MarshalTo` writes, counted the same way. */
  method NodeSize(m: NodeStatus) returns (n: nat)
    requires NodeFits(m)
    ensures n == |EncodeNode(m)|
  {
    EncodeNodeLength(m);
    n := NodeHeaderSize(m.desc, m.buildInfo, m.startedAt, m.updatedAt);
    var metricsSize := MetricsSize(NODE_METRICS_TAG, m.metrics);
    var storesSize := StoresSize(m.storeStatuses);
    var argsSize := StringsSize(NODE_ARGS_TAG, m.args);
    var envSize := StringsSize(NODE_ENV_TAG, m.env);
    var latenciesSize := LatenciesSize(m.latencies);
    n := n + metricsSize + storesSize + argsSize + envSize + latenciesSize;
  }

  // ---------------------------------------------------------------------
  // Messages

  /** `StoreStatus.MarshalTo(dAtA[off:])`: the descriptor field, then the metrics. */
  method StoreMarshalTo(dAtA: array<byte>, off: nat, s: StoreStatus) returns (next: nat)
    requires StoreFits(s) && off + |EncodeStore(s)| <= dAtA.Length
    modifies dAtA
    ensures next == off + |EncodeStore(s)|
    ensures dAtA[..next] == old(dAtA[..off]) + EncodeStore(s)
    ensures dAtA[next..] == old(dAtA[next..])
  {
    AppendAssoc(old(dAtA[..off]), LengthDelimited(STORE_DESC_TAG, s.desc), EncodeMetrics(STORE_METRICS_TAG, s.metrics));
    next := PutLengthDelimited(dAtA, off, STORE_DESC_TAG, s.desc);
    ghost var mid, at := dAtA[..], next;
    next := PutMetrics(dAtA, next, STORE_METRICS_TAG, s.metrics);
    TailKept(old(dAtA[..]), mid, dAtA[..], at, next);
  }

  /** One store of a node: tag 0x32, `encodeVarintStatus(uint64(msg.Size()))`, `msg.MarshalTo`. */
  method PutStoreField(dAtA: array<byte>, off: nat, s: StoreStatus) returns (next: nat)
    requires StoreFits(s) && GoBytes(EncodeStore(s)) && off + |StoreField(s)| <= dAtA.Length
    modifies dAtA
    ensures next == off + |StoreField(s)|
    ensures dAtA[..next] == old(dAtA[..off]) + StoreField(s)
    ensures dAtA[next..] == old(dAtA[next..])
  {
    var size := StoreSize(s);
    AppendAssoc(old(dAtA[..off]), VarintField(NODE_STORES_TAG, size), EncodeStore(s));
    next := PutVarintField(dAtA, off, NODE_STORES_TAG, size);
    ghost var mid, at := dAtA[..], next;
    next := StoreMarshalTo(dAtA, next, s);
    TailKept(old(dAtA[..]), mid, dAtA[..], at, next);
  }

  /** `for _, msg := range m.StoreStatuses`. */
  method PutStores(dAtA: array<byte>, off: nat, stores: seq<StoreStatus>) returns (next: nat)
    requires forall i :: 0 <= i < |stores| ==> StoreFits(stores[i]) && GoBytes(EncodeStore(stores[i]))
    requires off + |Join(stores, StoreField)| <= dAtA.Length
    modifies dAtA
    ensures next == off + |Join(stores, StoreField)|
    ensures dAtA[..next] == old(dAtA[..off]) + Join(stores, StoreField)
    ensures dAtA[next..] == old(dAtA[next..])
  {
    next := off;
    var n := 0;
    while n < |stores|
      invariant 0 <= n <= |stores|
      invariant next == off + |Join(stores[..n], StoreField)| <= off + |Join(stores, StoreField)|
      invariant dAtA[..next] == old(dAtA[..off]) + Join(stores[..n], StoreField)
      invariant dAtA[next..] == old(dAtA[next..])
    {
      JoinStep(stores, n, StoreField);
      AppendAssoc(old(dAtA[..off]), Join(stores[..n], StoreField), StoreField(stores[n]));
      ghost var mid, m := dAtA[..], next;
      next := PutStoreField(dAtA, next, stores[n]);
      TailKept(old(dAtA[..]), mid, dAtA[..], m, next);
      n := n + 1;
    }
    assert stores[..n] == stores;
  }

  /** `if x != 0`: the tag and `encodeVarintStatus(dAtA, i, uint64(x))`. */
  method PutNonZero(dAtA: array<byte>, off: nat, tag: byte, x: int64) returns (next: nat)
    requires off + |NonZeroField(tag, x)| <= dAtA.Length
    modifies dAtA
    ensures next == off + |NonZeroField(tag, x)|
    ensures dAtA[..next] == old(dAtA[..off]) + NonZeroField(tag, x)
    ensures dAtA[next..] == old(dAtA[next..])
  {
    next := off;
    if x != 0 {
      next := PutVarintField(dAtA, next, tag, ToUint64(x));
    } else {
      assert dAtA[..next] == old(dAtA[..off]) + [];
    }
  }

  /** `NodeStatus.MarshalTo(dAtA[off:])`: the nine fields in order. */
  method NodeMarshalTo(dAtA: array<byte>, off: nat, m: NodeStatus) returns (next: nat)
    requires NodeFits(m) && off + |EncodeNode(m)| <= dAtA.Length
    modifies dAtA
    ensures next == off + |EncodeNode(m)|
    ensures dAtA[..next] == old(dAtA[..off]) + EncodeNode(m)
    ensures dAtA[next..] == old(dAtA[next..])
  {
    ghost var prefix := old(dAtA[..off]);
    ghost var a := LengthDelimited(NODE_DESC_TAG, m.desc);
    ghost var b := LengthDelimited(NODE_BUILD_INFO_TAG, m.buildInfo);
    ghost var c := NonZeroField(NODE_STARTED_AT_TAG, m.startedAt);
    ghost var d := NonZeroField(NODE_UPDATED_AT_TAG, m.updatedAt);
    ghost var e := EncodeMetrics(NODE_METRICS_TAG, m.metrics);
    ghost var f := Join(m.storeStatuses, StoreField);
    ghost var g := Join(m.args, StringField(NODE_ARGS_TAG));
    ghost var h := Join(m.env, StringField(NODE_ENV_TAG));
    ghost var k := EncodeLatencies(m.latencies);
    assert EncodeNode(m) == a + b + c + d + e + f + g + h + k;
    AppendAssoc(prefix, a, b);
    AppendAssoc(prefix, a + b, c);
    AppendAssoc(prefix, a + b + c, d);
    AppendAssoc(prefix, a + b + c + d, e);
    AppendAssoc(prefix, a + b + c + d + e, f);
    AppendAssoc(prefix, a + b + c + d + e + f, g);
    AppendAssoc(prefix, a + b + c + d + e + f + g, h);
    AppendAssoc(prefix, a + b + c + d + e + f + g + h, k);
    next := PutLengthDelimited(dAtA, off, NODE_DESC_TAG, m.desc);
    ghost var mid, at := dAtA[..], next;
    next := PutLengthDelimited(dAtA, next, NODE_BUILD_INFO_TAG, m.buildInfo);
    TailKept(old(dAtA[..]), mid, dAtA[..], at, next);
    mid, at := dAtA[..], next;
    next := PutNonZero(dAtA, next, NODE_STARTED_AT_TAG, m.startedAt);
    TailKept(old(dAtA[..]), mid, dAtA[..], at, next);
    mid, at := dAtA[..], next;
    next := PutNonZero(dAtA, next, NODE_UPDATED_AT_TAG, m.updatedAt);
    TailKept(old(dAtA[..]), mid, dAtA[..], at, next);
    mid, at := dAtA[..], next;
    next := PutMetrics(dAtA, next, NODE_METRICS_TAG, m.metrics);
    TailKept(old(dAtA[..]), mid, dAtA[..], at, next);
    mid, at := dAtA[..], next;
    next := PutStores(dAtA, next, m.storeStatuses);
    TailKept(old(dAtA[..]), mid, dAtA[..], at, next);
    mid, at := dAtA[..], next;
    next := PutStrings(dAtA, next, NODE_ARGS_TAG, m.args);
    TailKept(old(dAtA[..]), mid, dAtA[..], at, next);
    mid, at := dAtA[..], next;
    next := PutStrings(dAtA, next, NODE_ENV_TAG, m.env);
    TailKept(old(dAtA[..]), mid, dAtA[..], at, next);
    mid, at := dAtA[..], next;
    next := PutLatencies(dAtA, next, m.latencies);
    TailKept(old(dAtA[..]), mid, dAtA[..], at, next);
  }

  /** `StoreStatus.Marshal`: a buffer of `Size()` bytes, filled by `MarshalTo`. */
  method StoreMarshal(s: StoreStatus) returns (data: seq<byte>)
    requires StoreFits(s)
    ensures data == EncodeStore(s)
  {
    var size := StoreSize(s);
    var dAtA := new byte[size];
    var n := StoreMarshalTo(dAtA, 0, s);
    data := dAtA[..n];
  }

  /** `NodeStatus.Marshal`. */
  method NodeMarshal(m: NodeStatus) returns (data: seq<byte>)
    requires NodeFits(m)
    ensures data == EncodeNode(m)
  {
    var size := NodeSize(m);
    var dAtA := new byte[size];
    var n := NodeMarshalTo(dAtA, 0, m);
    data := dAtA[..n];
  }
}
