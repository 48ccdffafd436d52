/**
 * `StoreStatus` and `NodeStatus` (server/status/status.pb.go): the two
 * messages, the bytes the generated marshalling code writes for them, and
 * what the `Size` methods count.
 */
module StatusMessages {
  import opened Varint
  import opened Keys

  /** A store's descriptor (opaque, already encoded) and its metrics. */
  datatype StoreStatus = StoreStatus(desc: seq<byte>, metrics: map<seq<byte>, uint64>)

  /**
   * A node's descriptor and build information (opaque, already encoded),
   * two timestamps, its metrics, its stores, its command line, its
   * environment and its latencies to other nodes by node id.
   */
  datatype NodeStatus = NodeStatus(
    desc: seq<byte>,
    buildInfo: seq<byte>,
    startedAt: int64,
    updatedAt: int64,
    metrics: map<seq<byte>, uint64>,
    storeStatuses: seq<StoreStatus>,
    args: seq<seq<byte>>,
    env: seq<seq<byte>>,
    latencies: map<int32, int64>)

  const EMPTY_STORE := StoreStatus([], map[])
  const EMPTY_NODE := NodeStatus([], [], 0, 0, map[], [], [], [], map[])

  // Tags: field number times eight plus the wire type.
  const STORE_DESC_TAG: byte := 0x0a       // field 1, length-delimited
  const STORE_METRICS_TAG: byte := 0x12    // field 2, length-delimited
  const NODE_DESC_TAG: byte := 0x0a        // field 1
  const NODE_BUILD_INFO_TAG: byte := 0x12  // field 2
  const NODE_STARTED_AT_TAG: byte := 0x18  // field 3, varint
  const NODE_UPDATED_AT_TAG: byte := 0x20  // field 4, varint
  const NODE_METRICS_TAG: byte := 0x2a     // field 5
  const NODE_STORES_TAG: byte := 0x32      // field 6
  const NODE_ARGS_TAG: byte := 0x3a        // field 7
  const NODE_ENV_TAG: byte := 0x42         // field 8
  const NODE_LATENCIES_TAG: byte := 0x4a   // field 9
  const ENTRY_KEY_STRING_TAG: byte := 0x0a // map entry key, length-delimited
  const ENTRY_VALUE_FIXED64_TAG: byte := 0x11  // map entry value, fixed64
  const ENTRY_KEY_VARINT_TAG: byte := 0x08     // map entry key, varint
  const ENTRY_VALUE_VARINT_TAG: byte := 0x10   // map entry value, varint

  // ---------------------------------------------------------------------
  // Key orders: `sortkeys.Strings` and `sortkeys.Int32s`

  /** Go's string order: byte by byte, a proper prefix first. */
  predicate StringLess(a: seq<byte>, b: seq<byte>) {
    LexLess(a, b)
  }

  predicate Int32Less(a: int32, b: int32) {
    a < b
  }

  lemma StringLessIsStrictTotalOrder()
    ensures StrictTotalOrder(StringLess)
  {
    forall a: seq<byte> ensures !StringLess(a, a) {
      LexLessIrreflexive(a);
    }
    forall a: seq<byte>, b: seq<byte>, c: seq<byte> | StringLess(a, b) && StringLess(b, c)
      ensures StringLess(a, c)
    {
      LexLessTransitive(a, b, c);
    }
    forall a: seq<byte>, b: seq<byte> | a != b
      ensures StringLess(a, b) || StringLess(b, a)
    {
      LexLessTotal(a, b);
    }
  }

  lemma Int32LessIsStrictTotalOrder()
    ensures StrictTotalOrder(Int32Less)
  {
  }

  /** Metric names in increasing order: the order the encoder writes them. */
  ghost function SortedNames(names: set<seq<byte>>): (ks: seq<seq<byte>>)
    ensures StrictlySorted(ks, StringLess) && Elems(ks) == names
  {
    StringLessIsStrictTotalOrder();
    Sorted(names, StringLess)
  }

  /** Node ids in increasing order. */
  ghost function SortedIds(ids: set<int32>): (ks: seq<int32>)
    ensures StrictlySorted(ks, Int32Less) && Elems(ks) == ids
  {
    Int32LessIsStrictTotalOrder();
    Sorted(ids, Int32Less)
  }

  /** Whichever name `Size` visits first, the sum over the sorted names is the same. */
  lemma SortedNamesRemove(names: set<seq<byte>>, k: seq<byte>, f: seq<byte> -> nat)
    requires k in names
    ensures SumOf(SortedNames(names), f) == f(k) + SumOf(SortedNames(names - {k}), f)
  {
    StringLessIsStrictTotalOrder();
    SortedSumRemove(names, k, StringLess, f);
  }

  /** Whichever node id `Size` visits first, the sum over the sorted ids is the same. */
  lemma SortedIdsRemove(ids: set<int32>, k: int32, f: int32 -> nat)
    requires k in ids
    ensures SumOf(SortedIds(ids), f) == f(k) + SumOf(SortedIds(ids - {k}), f)
  {
    Int32LessIsStrictTotalOrder();
    SortedSumRemove(ids, k, Int32Less, f);
  }

  // ---------------------------------------------------------------------
  // The encoding

  /** The encodings of `xs`, one after the other. */
  function Join<T>(xs: seq<T>, enc: T -> seq<byte>): seq<byte> {
    if xs == [] then [] else enc(xs[0]) + Join(xs[1..], enc)
  }

  /** The length of each element's encoding. */
  function Lengths<T>(enc: T -> seq<byte>): T -> nat {
    x => |enc(x)|
  }

  /** A varint field: the tag, then the value as a varint. */
  function VarintField(tag: byte, u: nat): seq<byte> {
    [tag] + EncodeVarint(u)
  }

  /** A fixed64 field: the tag, then the eight bytes of the value, least significant first. */
  function Fixed64Field(tag: byte, u: uint64): seq<byte> {
    [tag] + LittleEndian(u, 8)
  }

  /** A length-delimited field: the tag, the length as a varint, the bytes. */
  function LengthDelimited(tag: byte, payload: seq<byte>): seq<byte> {
    VarintField(tag, |payload|) + payload
  }

  /** The entry of a metric: the name as field 1, the 64 value bits as fixed64 field 2. */
  function MetricEntry(name: seq<byte>, value: uint64): seq<byte> {
    LengthDelimited(ENTRY_KEY_STRING_TAG, name) + Fixed64Field(ENTRY_VALUE_FIXED64_TAG, value)
  }

  /** The entry of a latency: node id and nanoseconds, both sign-extended varint fields. */
  function LatencyEntry(node: int32, nanos: int64): seq<byte> {
    VarintField(ENTRY_KEY_VARINT_TAG, ToUint64(node)) + VarintField(ENTRY_VALUE_VARINT_TAG, ToUint64(nanos))
  }

  /** The field of one metric under `tag`: its map entry, length-delimited. */
  function MetricField(tag: byte, metrics: map<seq<byte>, uint64>): seq<byte> -> seq<byte> {
    k => if k in metrics then LengthDelimited(tag, MetricEntry(k, metrics[k])) else []
  }

  /** The field of one latency. */
  function LatencyField(latencies: map<int32, int64>): int32 -> seq<byte> {
    k => if k in latencies then LengthDelimited(NODE_LATENCIES_TAG, LatencyEntry(k, latencies[k])) else []
  }

  /** The field of one element of a repeated string field. */
  function StringField(tag: byte): seq<byte> -> seq<byte> {
    s => LengthDelimited(tag, s)
  }

  /** An `int64` field that is left out when zero. */
  function NonZeroField(tag: byte, x: int64): seq<byte> {
    if x == 0 then [] else VarintField(tag, ToUint64(x))
  }

  /** A map of metrics: one entry per name, in increasing order of the names. */
  ghost function EncodeMetrics(tag: byte, metrics: map<seq<byte>, uint64>): seq<byte> {
    Join(SortedNames(metrics.Keys), MetricField(tag, metrics))
  }

  ghost function EncodeLatencies(latencies: map<int32, int64>): seq<byte> {
    Join(SortedIds(latencies.Keys), LatencyField(latencies))
  }

  /** `StoreStatus.MarshalTo`: the descriptor, always, then the metrics by name. */
  ghost function EncodeStore(s: StoreStatus): seq<byte> {
    LengthDelimited(STORE_DESC_TAG, s.desc) + EncodeMetrics(STORE_METRICS_TAG, s.metrics)
  }

  /** A store inside a node: its encoding as a length-delimited field 6. */
  ghost function StoreField(s: StoreStatus): seq<byte> {
    LengthDelimited(NODE_STORES_TAG, EncodeStore(s))
  }

  /** `NodeStatus.MarshalTo`: the fields in field-number order. */
  ghost function EncodeNode(m: NodeStatus): seq<byte> {
    LengthDelimited(NODE_DESC_TAG, m.desc)
    + LengthDelimited(NODE_BUILD_INFO_TAG, m.buildInfo)
    + NonZeroField(NODE_STARTED_AT_TAG, m.startedAt)
    + NonZeroField(NODE_UPDATED_AT_TAG, m.updatedAt)
    + EncodeMetrics(NODE_METRICS_TAG, m.metrics)
    + Join(m.storeStatuses, StoreField)
    + Join(m.args, StringField(NODE_ARGS_TAG))
    + Join(m.env, StringField(NODE_ENV_TAG))
    + EncodeLatencies(m.latencies)
  }

  // ---------------------------------------------------------------------
  // Lengths

  /** The length of a node's encoding is the sum of its fields' lengths. */
  lemma EncodeNodeLength(m: NodeStatus)
    ensures |EncodeNode(m)| ==
      |LengthDelimited(NODE_DESC_TAG, m.desc)|
      + |LengthDelimited(NODE_BUILD_INFO_TAG, m.buildInfo)|
      + |NonZeroField(NODE_STARTED_AT_TAG, m.startedAt)|
      + |NonZeroField(NODE_UPDATED_AT_TAG, m.updatedAt)|
      + |EncodeMetrics(NODE_METRICS_TAG, m.metrics)|
      + |Join(m.storeStatuses, StoreField)|
      + |Join(m.args, StringField(NODE_ARGS_TAG))|
      + |Join(m.env, StringField(NODE_ENV_TAG))|
      + |EncodeLatencies(m.latencies)|
  {
  }

  /** Writing `b` then `c` after `a` gives `a` followed by `b + c`. */
  lemma AppendAssoc(a: seq<byte>, b: seq<byte>, c: seq<byte>)
    ensures (a + b) + c == a + (b + c)
  {
  }

  /** Joining two sequences joins their encodings. */
  lemma {:induction false} JoinConcat<T>(a: seq<T>, b: seq<T>, enc: T -> seq<byte>)
    ensures Join(a + b, enc) == Join(a, enc) + Join(b, enc)
  {
    if a == [] {
      assert a + b == b;
    } else {
      assert (a + b)[1..] == a[1..] + b;
      JoinConcat(a[1..], b, enc);
    }
  }

  /**
   * One more element of a loop over `xs`: its encoding follows the ones
   * before it, and all of them together are no longer than the whole.
   */
  lemma JoinStep<T>(xs: seq<T>, n: nat, enc: T -> seq<byte>)
    requires n < |xs|
    ensures Join(xs[..n + 1], enc) == Join(xs[..n], enc) + enc(xs[n])
    ensures |Join(xs[..n + 1], enc)| <= |Join(xs, enc)|
  {
    assert xs[..n + 1] == xs[..n] + [xs[n]];
    JoinConcat(xs[..n], [xs[n]], enc);
    assert Join([xs[n]], enc) == enc(xs[n]) + Join([], enc);
    assert xs == xs[..n + 1] + xs[n + 1..];
    JoinConcat(xs[..n + 1], xs[n + 1..], enc);
  }

  /** The length of a joined encoding is the sum of the element lengths. */
  lemma {:induction false} JoinLength<T>(xs: seq<T>, enc: T -> seq<byte>)
    ensures |Join(xs, enc)| == SumOf(xs, Lengths(enc))
  {
    if xs != [] {
      JoinLength(xs[1..], enc);
    }
  }

  /**
   * The `mapSize` / `mapEntrySize` of a metric, `1 + len(k) + sov(len(k)) + 1 + 8`,
   * is the length of its entry.
   */
  lemma MetricEntryLength(name: seq<byte>, value: uint64)
    ensures |MetricEntry(name, value)| == 1 + |name| + Sov(|name|) + 1 + 8
  {
  }

  /**
   * The `mapEntrySize` of a latency, `1 + sov(uint64(k)) + 1 + sov(uint64(v))`,
   * is the length of its entry.
   */
  lemma LatencyEntryLength(node: int32, nanos: int64)
    ensures |LatencyEntry(node, nanos)| == 1 + Sov(ToUint64(node)) + 1 + Sov(ToUint64(nanos))
  {
  }

  /** A length-delimited field costs its tag, its length prefix and its payload. */
  lemma LengthDelimitedLength(tag: byte, payload: seq<byte>)
    ensures |LengthDelimited(tag, payload)| == 1 + |payload| + Sov(|payload|)
  {
  }

  // ---------------------------------------------------------------------
  // Lengths Go can hold

  /** A Go slice's length is a non-negative `int`. */
  predicate GoBytes(bs: seq<byte>) {
    |bs| < TWO_TO_63
  }

  /** Every byte string of a store is a Go slice. */
  ghost predicate StoreFits(s: StoreStatus) {
    GoBytes(s.desc) && (forall k :: k in s.metrics ==> GoBytes(k))
  }

  /** Every byte string of a node, and every store's encoding, is a Go slice. */
  ghost predicate NodeFits(m: NodeStatus) {
    && GoBytes(m.desc) && GoBytes(m.buildInfo)
    && (forall k :: k in m.metrics ==> GoBytes(k))
    && (forall i :: 0 <= i < |m.storeStatuses| ==> StoreFits(m.storeStatuses[i]) && GoBytes(EncodeStore(m.storeStatuses[i])))
    && (forall i :: 0 <= i < |m.args| ==> GoBytes(m.args[i]))
    && (forall i :: 0 <= i < |m.env| ==> GoBytes(m.env[i]))
  }
}
