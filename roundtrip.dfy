/**
 * Decoding what the marshalling code writes gives the message back:
 * first one field at a time, then the repeated and map fields as a whole,
 * then `StoreStatus` and `NodeStatus`.
 *
 * Every lemma assumes the input is shorter than 2^63 bytes, which any Go
 * slice is; lengths read from it are then never negative as an `int`.
 */
module StatusRoundTrip {
  import opened Wrappers
  import opened Varint
  import opened Keys
  import opened SkipProofs
  import opened StatusMessages
  import opened StatusDecoding

  // ---------------------------------------------------------------------
  // Tags and length prefixes

  /** A one-byte tag reads back as itself. */
  lemma SmallTagAt(data: seq<byte>, i: nat, tag: byte)
    requires i < |data| && data[i] == tag && tag < 128
    ensures ReadVarintAt(data, i) == Ok((tag, i + 1))
  {
    assert VarintLoop(data, i, 0, 0) == VarintByte(data, i, 0, 0);
    assert Pow2(0) == 1;
  }

  /**
   * The tags the encoder writes pass the tag checks and give back their
   * field number and wire type.
   */
  lemma ReadTagAt(data: seq<byte>, i: nat, tag: byte)
    requires i < |data| && data[i] == tag && tag < 128
    requires tag % 8 != 4 && tag >= 8
    ensures ReadTag(data, i) == Ok((tag / 8, tag % 8, i + 1))
  {
    SmallTagAt(data, i, tag);
  }

  /** A tag byte opens what follows it. */
  lemma TagByteAt(data: seq<byte>, i: nat, tag: byte, rest: seq<byte>)
    requires EncodedAt(data, i, [tag] + rest)
    ensures i < |data| && data[i] == tag && EncodedAt(data, i + 1, rest)
  {
    EncodedAtConcat(data, i, [tag], rest);
  }

  /** A length read back as itself, followed by that many bytes, bounds exactly those bytes. */
  lemma ReadLengthOf(data: seq<byte>, j: nat, k: nat, p: seq<byte>)
    requires GoBytes(p) && ReadVarintAt(data, j) == Ok((|p|, k)) && EncodedAt(data, k, p)
    ensures ReadLength(data, j) == Ok((k, k + |p|))
  {
  }

  /** A length prefix followed by its payload announces exactly that payload. */
  lemma LengthPrefixAt(data: seq<byte>, j: nat, n: nat, p: seq<byte>)
    requires n == |p| && GoBytes(p) && EncodedAt(data, j, EncodeVarint(n) + p)
    ensures ReadLength(data, j) == Ok((j + Sov(n), j + Sov(n) + n))
    ensures data[j + Sov(n)..j + Sov(n) + n] == p
  {
    TagThenBody(data, j, n, p);
    ReadLengthOf(data, j, j + Sov(n), p);
  }

  /** The payload of a field inside a Go slice is itself short enough for a Go slice. */
  lemma PayloadFits(data: seq<byte>, i: nat, tag: byte, p: seq<byte>)
    requires |data| < TWO_TO_63 && EncodedAt(data, i, LengthDelimited(tag, p))
    ensures GoBytes(p)
  {
  }

  /** `LengthDelimitedAt` for a payload already known to fit. */
  lemma LengthDelimitedParts(data: seq<byte>, i: nat, tag: byte, p: seq<byte>, n: nat)
    requires GoBytes(p) && n == |p|
    requires EncodedAt(data, i, LengthDelimited(tag, p))
    ensures i < |data| && data[i] == tag
    ensures ReadLength(data, i + 1) == Ok((i + 1 + Sov(n), i + 1 + Sov(n) + n))
    ensures data[i + 1 + Sov(n)..i + 1 + Sov(n) + n] == p
  {
    AppendAssoc([tag], EncodeVarint(n), p);
    EncodedAtConcat(data, i, [tag], EncodeVarint(n) + p);
    LengthPrefixAt(data, i + 1, n, p);
  }

  /**
   * A length-delimited field: its tag, then a length prefix that announces
   * exactly its payload. The field ends `1 + sov(n) + n` bytes on.
   */
  lemma LengthDelimitedAt(data: seq<byte>, i: nat, tag: byte, p: seq<byte>, n: nat)
    requires |data| < TWO_TO_63 && n == |p|
    requires EncodedAt(data, i, LengthDelimited(tag, p))
    ensures i < |data| && data[i] == tag
    ensures ReadLength(data, i + 1) == Ok((i + 1 + Sov(n), i + 1 + Sov(n) + n))
    ensures data[i + 1 + Sov(n)..i + 1 + Sov(n) + n] == p
  {
    PayloadFits(data, i, tag, p);
    LengthDelimitedParts(data, i, tag, p, n);
  }

  /** A varint field: its tag reads back as itself. */
  lemma VarintFieldTag(data: seq<byte>, i: nat, tag: byte, u: uint64)
    requires tag < 128 && EncodedAt(data, i, VarintField(tag, u))
    ensures ReadVarintAt(data, i) == Ok((tag, i + 1))
  {
    VarintFieldParts(data, i, tag, u);
    SmallTagAt(data, i, tag);
  }

  /** The varint after a varint field's tag reads back as the field's value. */
  lemma VarintFieldValue(data: seq<byte>, i: nat, tag: byte, u: uint64, j: nat)
    requires EncodedAt(data, i, VarintField(tag, u)) && j == i + 1
    ensures ReadVarintAt(data, j) == Ok((u, j + Sov(u)))
  {
    VarintFieldParts(data, i, tag, u);
    VarintRoundTrip(data, j, u);
  }

  /** A varint field's tag byte, then the varint right after it. */
  lemma VarintFieldParts(data: seq<byte>, i: nat, tag: byte, u: uint64)
    requires EncodedAt(data, i, VarintField(tag, u))
    ensures i < |data| && data[i] == tag && EncodedAt(data, i + 1, EncodeVarint(u))
  {
    TagByteAt(data, i, tag, EncodeVarint(u));
  }

  // ---------------------------------------------------------------------
  // Map entries

  /** A metric entry's field 1 sets the key to the bytes its length prefix announces. */
  lemma MetricKeyUnfold(data: seq<byte>, i: nat, post: nat, key: seq<byte>, value: uint64, wire: uint64, j: nat, s: nat, m: nat)
    requires i < post <= |data| && FieldNum(wire) == 1
    requires ReadVarintAt(data, i) == Ok((wire, j)) && ReadLength(data, j) == Ok((s, m))
    ensures MetricEntryFields(data, i, post, key, value) == MetricEntryFields(data, m, post, data[s..m], value)
  {
  }

  /** The key field of a metric entry sets the key. */
  lemma MetricKeyStep(data: seq<byte>, i: nat, m: nat, post: nat, key: seq<byte>, value: uint64, k: seq<byte>, n: nat)
    requires |data| < TWO_TO_63 && i < post <= |data| && n == |k| && m == i + 1 + Sov(n) + n
    requires EncodedAt(data, i, LengthDelimited(ENTRY_KEY_STRING_TAG, k))
    ensures MetricEntryFields(data, i, post, key, value) == MetricEntryFields(data, m, post, k, value)
  {
    var s := i + 1 + Sov(n);
    LengthDelimitedAt(data, i, ENTRY_KEY_STRING_TAG, k, n);
    SmallTagAt(data, i, ENTRY_KEY_STRING_TAG);
    EntryTagFieldNumbers();
    MetricKeyUnfold(data, i, post, key, value, ENTRY_KEY_STRING_TAG, i + 1, s, m);
  }

  /** The field numbers of the map entry tags. */
  lemma EntryTagFieldNumbers()
    ensures FieldNum(ENTRY_KEY_STRING_TAG) == 1 && FieldNum(ENTRY_VALUE_FIXED64_TAG) == 2
    ensures FieldNum(ENTRY_KEY_VARINT_TAG) == 1 && FieldNum(ENTRY_VALUE_VARINT_TAG) == 2
  {
  }

  /** The value field of a metric entry sets the value bits. */
  lemma MetricValueStep(data: seq<byte>, i: nat, post: nat, key: seq<byte>, value: uint64, v: uint64)
    requires i < post <= |data|
    requires EncodedAt(data, i, Fixed64Field(ENTRY_VALUE_FIXED64_TAG, v))
    ensures MetricEntryFields(data, i, post, key, value) == MetricEntryFields(data, i + 9, post, key, v)
  {
    TagByteAt(data, i, ENTRY_VALUE_FIXED64_TAG, LittleEndian(v, 8));
    SmallTagAt(data, i, ENTRY_VALUE_FIXED64_TAG);
    Fixed64RoundTrip(v);
    assert Fixed64At(data, i + 1) == v;
    EntryTagFieldNumbers();
    MetricValueUnfold(data, i, post, key, value, ENTRY_VALUE_FIXED64_TAG, i + 1);
  }

  /** A metric entry's field 2 sets the value to the eight bytes after its tag. */
  lemma MetricValueUnfold(data: seq<byte>, i: nat, post: nat, key: seq<byte>, value: uint64, wire: uint64, j: nat)
    requires i < post <= |data| && FieldNum(wire) == 2 && j + 8 <= |data|
    requires ReadVarintAt(data, i) == Ok((wire, j))
    ensures MetricEntryFields(data, i, post, key, value) == MetricEntryFields(data, j + 8, post, key, Fixed64At(data, j))
  {
  }

  /** The bytes of a metric entry decode to its name and value bits. */
  lemma MetricEntryRoundTrip(data: seq<byte>, s: nat, e: nat, k: seq<byte>, v: uint64)
    requires |data| < TWO_TO_63 && EncodedAt(data, s, MetricEntry(k, v)) && e == s + |MetricEntry(k, v)|
    ensures e <= |data| && MetricEntryFields(data, s, e, [], 0) == Ok((k, v))
  {
    var n := |k|;
    var keyField := LengthDelimited(ENTRY_KEY_STRING_TAG, k);
    var valueField := Fixed64Field(ENTRY_VALUE_FIXED64_TAG, v);
    var mid := s + 1 + Sov(n) + n;
    var post := mid + 9;
    assert |keyField| == 1 + Sov(n) + n;
    assert |valueField| == 9;
    assert post == e;
    EncodedAtConcat(data, s, keyField, valueField);
    MetricKeyStep(data, s, mid, post, [], 0, k, n);
    MetricValueStep(data, mid, post, k, 0, v);
    assert MetricEntryFields(data, post, post, k, v) == Ok((k, v));
  }

  /** A latency entry's field 1 ORs its varint into the key. */
  lemma LatencyKeyUnfold(data: seq<byte>, i: nat, post: nat, key: int32, value: int64, wire: uint64, j: nat, v: uint64, e: nat)
    requires i < post <= |data| && FieldNum(wire) == 1
    requires ReadVarintAt(data, i) == Ok((wire, j)) && ReadVarintAt(data, j) == Ok((v, e))
    ensures LatencyEntryFields(data, i, post, key, value) == LatencyEntryFields(data, e, post, OrInt32(key, v), value)
  {
  }

  /** A latency entry's field 2 ORs its varint into the value. */
  lemma LatencyValueUnfold(data: seq<byte>, i: nat, post: nat, key: int32, value: int64, wire: uint64, j: nat, v: uint64, e: nat)
    requires i < post <= |data| && FieldNum(wire) == 2
    requires ReadVarintAt(data, i) == Ok((wire, j)) && ReadVarintAt(data, j) == Ok((v, e))
    ensures LatencyEntryFields(data, i, post, key, value) == LatencyEntryFields(data, e, post, key, OrInt64(value, v))
  {
  }

  /** The key field of a latency entry, ORed into a zero key, gives the node id back. */
  lemma LatencyKeyRead(data: seq<byte>, i: nat, m: nat, post: nat, node: int32, u: uint64)
    requires i < post <= |data| && m == i + 1 + Sov(u) && u == ToUint64(node)
    requires EncodedAt(data, i, VarintField(ENTRY_KEY_VARINT_TAG, u))
    ensures LatencyEntryFields(data, i, post, 0, 0) == LatencyEntryFields(data, m, post, node, 0)
  {
    VarintFieldTag(data, i, ENTRY_KEY_VARINT_TAG, u);
    VarintFieldValue(data, i, ENTRY_KEY_VARINT_TAG, u, i + 1);
    EntryTagFieldNumbers();
    LatencyKeyUnfold(data, i, post, 0, 0, ENTRY_KEY_VARINT_TAG, i + 1, u, m);
    Int32RoundTrip(node);
  }

  /** The value field at the end of a latency entry, read into a zero value, gives the nanoseconds back. */
  lemma LatencyValueStep(data: seq<byte>, i: nat, post: nat, key: int32, nanos: int64, u: uint64)
    requires post <= |data| && post == i + 1 + Sov(u) && u == ToUint64(nanos)
    requires EncodedAt(data, i, VarintField(ENTRY_VALUE_VARINT_TAG, u))
    ensures LatencyEntryFields(data, i, post, key, 0) == Ok((key, nanos))
  {
    VarintFieldTag(data, i, ENTRY_VALUE_VARINT_TAG, u);
    VarintFieldValue(data, i, ENTRY_VALUE_VARINT_TAG, u, i + 1);
    EntryTagFieldNumbers();
    LatencyValueUnfold(data, i, post, key, 0, ENTRY_VALUE_VARINT_TAG, i + 1, u, post);
    ZeroOrInt64(nanos, u);
    LatencyEntryEnd(data, post, key, nanos);
  }

  /** ORing the bits of a value into a zero gives the value. */
  lemma ZeroOrInt64(x: int64, u: uint64)
    requires u == ToUint64(x)
    ensures OrInt64(0, u) == x
  {
    Int64RoundTrip(x);
  }

  /** A latency entry read to its end gives what has been read. */
  lemma LatencyEntryEnd(data: seq<byte>, post: nat, key: int32, value: int64)
    requires post <= |data|
    ensures LatencyEntryFields(data, post, post, key, value) == Ok((key, value))
  {
  }

  /** A key field then a value field decode to the node id and nanoseconds they hold. */
  lemma LatencyKeyStep(data: seq<byte>, i: nat, m: nat, post: nat, node: int32, nanos: int64, u: uint64, w: uint64)
    requires post <= |data| && u == ToUint64(node) && w == ToUint64(nanos)
    requires m == i + 1 + Sov(u) && post == m + 1 + Sov(w)
    requires EncodedAt(data, i, VarintField(ENTRY_KEY_VARINT_TAG, u))
    requires EncodedAt(data, m, VarintField(ENTRY_VALUE_VARINT_TAG, w))
    ensures LatencyEntryFields(data, i, post, 0, 0) == Ok((node, nanos))
  {
    LatencyKeyRead(data, i, m, post, node, u);
    LatencyValueStep(data, m, post, node, nanos, w);
  }

  /** Where the two fields of a latency entry sit. */
  lemma LatencyEntryParts(data: seq<byte>, s: nat, m: nat, node: int32, nanos: int64, u: uint64, w: uint64)
    requires u == ToUint64(node) && w == ToUint64(nanos) && m == s + 1 + Sov(u)
    requires EncodedAt(data, s, LatencyEntry(node, nanos))
    ensures EncodedAt(data, s, VarintField(ENTRY_KEY_VARINT_TAG, u))
    ensures EncodedAt(data, m, VarintField(ENTRY_VALUE_VARINT_TAG, w))
    ensures s + |LatencyEntry(node, nanos)| == m + 1 + Sov(w)
  {
    EncodedAtConcat(data, s, VarintField(ENTRY_KEY_VARINT_TAG, u), VarintField(ENTRY_VALUE_VARINT_TAG, w));
  }

  /** The bytes of a latency entry decode to its node id and nanoseconds. */
  lemma LatencyEntryRoundTrip(data: seq<byte>, s: nat, e: nat, node: int32, nanos: int64)
    requires EncodedAt(data, s, LatencyEntry(node, nanos)) && e == s + |LatencyEntry(node, nanos)|
    ensures e <= |data| && LatencyEntryFields(data, s, e, 0, 0) == Ok((node, nanos))
  {
    var u, w := ToUint64(node), ToUint64(nanos);
    var m := s + 1 + Sov(u);
    LatencyEntryParts(data, s, m, node, nanos, u, w);
    LatencyKeyStep(data, s, m, e, node, nanos, u, w);
  }
}
