/**
 * What `StoreStatus.Unmarshal` and `NodeStatus.Unmarshal`
 * (server/status/status.pb.go) compute, as functions of the input bytes:
 * one function per step of the generated loops, and the loops themselves
 * as recursion on the read index. Decoding merges into the message it is
 * given, as the Go methods do into their receiver.
 */
module StatusDecoding {
  import opened Wrappers
  import opened Varint
  import opened SkipField
  import opened StatusMessages

  /** `fieldNum := int32(wire >> 3)`. */
  function FieldNum(wire: uint64): int32 {
    ToInt32(wire / 8)
  }

  /**
   * A length prefix at `i` and the bytes it announces, as the start and
   * end index of those bytes. The length is read into a Go `int`, so a
   * prefix of 2^63 or more is negative; a length that runs past the end of
   * the input is `io.ErrUnexpectedEOF`.
   */
  function ReadLength(data: seq<byte>, i: nat): (r: Result<(nat, nat), DecodeError>)
    ensures r.Ok? ==> i < r.value.0 <= r.value.1 <= |data|
  {
    var (n, j) :- ReadVarintAt(data, i);
    var length := ToInt64(n);
    if length < 0 then Err(ErrInvalidLength)
    else if j + length > |data| then Err(ErrUnexpectedEOF)
    else Ok((j, j + length))
  }

  /** A length-delimited field `field` whose tag ended at `j`: its wire type must be 2. */
  function DecodeBytes(data: seq<byte>, j: nat, field: int, wireType: nat): (r: Result<(nat, nat), DecodeError>)
    ensures r.Ok? ==> j < r.value.0 <= r.value.1 <= |data|
  {
    if wireType != 2 then Err(ErrWrongWireType(field, wireType)) else ReadLength(data, j)
  }

  /** An `int64` varint field `field` whose tag ended at `j`: wire type 0, the value read into a reset `int64`. */
  function DecodeInt64(data: seq<byte>, j: nat, field: int, wireType: nat): (r: Result<(int64, nat), DecodeError>)
    ensures r.Ok? ==> j < r.value.1 <= |data|
  {
    if wireType != 0 then Err(ErrWrongWireType(field, wireType))
    else
      var (v, e) :- ReadVarintAt(data, j);
      Ok((ToInt64(v), e))
  }

  /**
   * The default case: the field that starts at `i` is stepped over by
   * `skipStatus`, whose result must not be negative (a wrapped length) and
   * must not take the index past `post`: the end of the input in a message
   * loop, the end of the entry in a map entry loop.
   */
  function SkipUnknown(data: seq<byte>, i: nat, post: nat): (r: Result<nat, DecodeError>)
    requires i < post <= |data|
    ensures r.Ok? ==> i < r.value <= post
  {
    var n :- Skip(data[i..]);
    if n < 0 then Err(ErrInvalidLength)
    else if i + n > post then Err(ErrUnexpectedEOF)
    else Ok(i + n)
  }

  // ---------------------------------------------------------------------
  // Map entries

  /**
   * The fields of a metric entry from `i` up to `post`: field 1 sets the
   * key, field 2 the value bits, anything else is skipped within the entry.
   * The key's length and the value's eight bytes are checked against the
   * end of the whole input, not of the entry.
   */
  function MetricEntryFields(data: seq<byte>, i: nat, post: nat, key: seq<byte>, value: uint64)
    : (r: Result<(seq<byte>, uint64), DecodeError>)
    requires post <= |data|
    decreases post - i
  {
    if i >= post then Ok((key, value))
    else
      var (wire, j) :- ReadVarintAt(data, i);
      var fieldNum := FieldNum(wire);
      if fieldNum == 1 then
        var (s, e) :- ReadLength(data, j);
        MetricEntryFields(data, e, post, data[s..e], value)
      else if fieldNum == 2 then
        if j + 8 > |data| then Err(ErrUnexpectedEOF)
        else MetricEntryFields(data, j + 8, post, key, Fixed64At(data, j))
      else
        var e :- SkipUnknown(data, i, post);
        MetricEntryFields(data, e, post, key, value)
  }

  /**
   * `x |= (int32(b) & 0x7F) << shift` over the bytes of a varint whose
   * value is `v`: the groups land on disjoint bits, and the `int32` keeps
   * the low 32 of them.
   */
  function OrInt32(x: int32, v: uint64): (r: int32)
    ensures x == 0 ==> r == ToInt32(v)
  {
    ToInt32(BitOr(x % TWO_TO_32, v % TWO_TO_32))
  }

  /** `x |= (int64(b) & 0x7F) << shift` over the bytes of a varint whose value is `v`. */
  function OrInt64(x: int64, v: uint64): (r: int64)
    ensures x == 0 ==> r == ToInt64(v)
  {
    Pow2SixtyFour();
    BitOrBound(ToUint64(x), v, 64);
    ToInt64(BitOr(ToUint64(x), v))
  }

  /**
   * The fields of a latency entry from `i` up to `post`. Go ORs each varint
   * into the `int32` key and the `int64` value declared for the entry, so a
   * repeated field adds bits to what is there; the `int32` keeps the low 32
   * bits of what it reads.
   */
  function LatencyEntryFields(data: seq<byte>, i: nat, post: nat, key: int32, value: int64)
    : (r: Result<(int32, int64), DecodeError>)
    requires post <= |data|
    decreases post - i
  {
    if i >= post then Ok((key, value))
    else
      var (wire, j) :- ReadVarintAt(data, i);
      var fieldNum := FieldNum(wire);
      if fieldNum == 1 then
        var (v, e) :- ReadVarintAt(data, j);
        LatencyEntryFields(data, e, post, OrInt32(key, v), value)
      else if fieldNum == 2 then
        var (v, e) :- ReadVarintAt(data, j);
        LatencyEntryFields(data, e, post, key, OrInt64(value, v))
      else
        var e :- SkipUnknown(data, i, post);
        LatencyEntryFields(data, e, post, key, value)
  }

  /** A map field of metrics whose tag ended at `j`: the entry it holds, and the index after it. */
  function DecodeMetric(data: seq<byte>, j: nat, field: int, wireType: nat)
    : (r: Result<(seq<byte>, uint64, nat), DecodeError>)
    ensures r.Ok? ==> j < r.value.2 <= |data|
  {
    var (s, e) :- DecodeBytes(data, j, field, wireType);
    var (k, v) :- MetricEntryFields(data, s, e, [], 0);
    Ok((k, v, e))
  }

  /** A map field of latencies whose tag ended at `j`. */
  function DecodeLatency(data: seq<byte>, j: nat, field: int, wireType: nat)
    : (r: Result<(int32, int64, nat), DecodeError>)
    ensures r.Ok? ==> j < r.value.2 <= |data|
  {
    var (s, e) :- DecodeBytes(data, j, field, wireType);
    var (k, v) :- LatencyEntryFields(data, s, e, 0, 0);
    Ok((k, v, e))
  }

  // ---------------------------------------------------------------------
  // Messages

  /**
   * The tag at `i`, checked as both loops check it: wire type 4 (end group)
   * first, then a field number that is not positive.
   */
  function ReadTag(data: seq<byte>, i: nat): (r: Result<(int32, nat, nat), DecodeError>)
    ensures r.Ok? ==> r.value.0 > 0 && r.value.1 < 8 && r.value.1 != 4 && i < r.value.2 <= |data|
  {
    var (wire, j) :- ReadVarintAt(data, i);
    var fieldNum := FieldNum(wire);
    var wireType := wire % 8;
    if wireType == 4 then Err(ErrEndGroupForNonGroup)
    else if fieldNum <= 0 then Err(ErrIllegalTag(fieldNum, wire))
    else Ok((fieldNum, wireType, j))
  }

  /**
   * One pass of the `StoreStatus.Unmarshal` loop at `i`: the message with
   * the field merged in, and the index after the field. Field 1 (the
   * descriptor) merges by appending its encoding; field 2 sets one metric.
   */
  function DecodeStoreField(data: seq<byte>, i: nat, m: StoreStatus): (r: Result<(StoreStatus, nat), DecodeError>)
    requires i < |data|
    ensures r.Ok? ==> i < r.value.1 <= |data|
  {
    var (fieldNum, wireType, j) :- ReadTag(data, i);
    if fieldNum == 1 then
      var (s, e) :- DecodeBytes(data, j, 1, wireType);
      Ok((m.(desc := m.desc + data[s..e]), e))
    else if fieldNum == 2 then
      var (k, v, e) :- DecodeMetric(data, j, 2, wireType);
      Ok((m.(metrics := m.metrics[k := v]), e))
    else
      var e :- SkipUnknown(data, i, |data|);
      Ok((m, e))
  }

  /** The `StoreStatus.Unmarshal` loop from `i` to the end of the input. */
  function DecodeStoreFields(data: seq<byte>, i: nat, m: StoreStatus): (r: Result<StoreStatus, DecodeError>)
    requires i <= |data|
    decreases |data| - i
  {
    if i == |data| then Ok(m)
    else
      var (m', e) :- DecodeStoreField(data, i, m);
      DecodeStoreFields(data, e, m')
  }

  /** `StoreStatus.Unmarshal`: `data` merged into `m`. */
  function UnmarshalStore(m: StoreStatus, data: seq<byte>): Result<StoreStatus, DecodeError> {
    DecodeStoreFields(data, 0, m)
  }

  /**
   * One pass of the `NodeStatus.Unmarshal` loop at `i`. Fields 1 and 2 are
   * opaque messages merged by appending; 3 and 4 overwrite a timestamp;
   * 5 and 9 set one map entry; 6 appends a store decoded from its own
   * bytes; 7 and 8 append a string.
   */
  function DecodeNodeField(data: seq<byte>, i: nat, m: NodeStatus): (r: Result<(NodeStatus, nat), DecodeError>)
    requires i < |data|
    ensures r.Ok? ==> i < r.value.1 <= |data|
  {
    var (fieldNum, wireType, j) :- ReadTag(data, i);
    if fieldNum == 1 then
      var (s, e) :- DecodeBytes(data, j, 1, wireType);
      Ok((m.(desc := m.desc + data[s..e]), e))
    else if fieldNum == 2 then
      var (s, e) :- DecodeBytes(data, j, 2, wireType);
      Ok((m.(buildInfo := m.buildInfo + data[s..e]), e))
    else if fieldNum == 3 then
      var (x, e) :- DecodeInt64(data, j, 3, wireType);
      Ok((m.(startedAt := x), e))
    else if fieldNum == 4 then
      var (x, e) :- DecodeInt64(data, j, 4, wireType);
      Ok((m.(updatedAt := x), e))
    else if fieldNum == 5 then
      var (k, v, e) :- DecodeMetric(data, j, 5, wireType);
      Ok((m.(metrics := m.metrics[k := v]), e))
    else if fieldNum == 6 then
      var (s, e) :- DecodeBytes(data, j, 6, wireType);
      var store :- UnmarshalStore(EMPTY_STORE, data[s..e]);
      Ok((m.(storeStatuses := m.storeStatuses + [store]), e))
    else if fieldNum == 7 then
      var (s, e) :- DecodeBytes(data, j, 7, wireType);
      Ok((m.(args := m.args + [data[s..e]]), e))
    else if fieldNum == 8 then
      var (s, e) :- DecodeBytes(data, j, 8, wireType);
      Ok((m.(env := m.env + [data[s..e]]), e))
    else if fieldNum == 9 then
      var (k, v, e) :- DecodeLatency(data, j, 9, wireType);
      Ok((m.(latencies := m.latencies[k := v]), e))
    else
      var e :- SkipUnknown(data, i, |data|);
      Ok((m, e))
  }

  /** The `NodeStatus.Unmarshal` loop from `i` to the end of the input. */
  function DecodeNodeFields(data: seq<byte>, i: nat, m: NodeStatus): (r: Result<NodeStatus, DecodeError>)
    requires i <= |data|
    decreases |data| - i
  {
    if i == |data| then Ok(m)
    else
      var (m', e) :- DecodeNodeField(data, i, m);
      DecodeNodeFields(data, e, m')
  }

  /** `NodeStatus.Unmarshal`: `data` merged into `m`. */
  function UnmarshalNode(m: NodeStatus, data: seq<byte>): Result<NodeStatus, DecodeError> {
    DecodeNodeFields(data, 0, m)
  }
}
