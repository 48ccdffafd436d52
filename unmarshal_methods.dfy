/**
 * `StoreStatus.Unmarshal` and `NodeStatus.Unmarshal` (server/status/status.pb.go)
 * as the loops they are: an index that advances through the input, one
 * field per pass, and the message built up as it goes. Each method is
 * proved to compute the function of `StatusDecoding` that specifies it.
 */
module StatusUnmarshal {
  import opened Wrappers
  import opened Varint
  import opened SkipField
  import opened StatusMessages
  import opened StatusDecoding

  /** A tag, read and checked at the top of each pass of the loop. */
  method ReadTagStatus(data: seq<byte>, i: nat) returns (r: Result<(int32, nat, nat), DecodeError>)
    ensures r == ReadTag(data, i)
  {
    var t := ReadVarint(data, i);
    if t.Err? {
      return Err(t.error);
    }
    var (wire, j) := t.value;
    var fieldNum := FieldNum(wire);
    var wireType := wire % 8;
    if wireType == 4 {
      return Err(ErrEndGroupForNonGroup);
    }
    if fieldNum <= 0 {
      return Err(ErrIllegalTag(fieldNum, wire));
    }
    return Ok((fieldNum, wireType, j));
  }

  /** A length prefix at `j`, checked, and the bounds of the bytes it announces. */
  method ReadLengthStatus(data: seq<byte>, j: nat) returns (r: Result<(nat, nat), DecodeError>)
    ensures r == ReadLength(data, j)
  {
    var v := ReadVarint(data, j);
    if v.Err? {
      return Err(v.error);
    }
    var (n, start) := v.value;
    var msglen := ToInt64(n);
    if msglen < 0 {
      return Err(ErrInvalidLength);
    }
    var postIndex := start + msglen;
    if postIndex > |data| {
      return Err(ErrUnexpectedEOF);
    }
    return Ok((start, postIndex));
  }

  /** A length-delimited field: the wire type check, then the length. */
  method ReadBytesStatus(data: seq<byte>, j: nat, field: int, wireType: nat) returns (r: Result<(nat, nat), DecodeError>)
    ensures r == DecodeBytes(data, j, field, wireType)
  {
    if wireType != 2 {
      return Err(ErrWrongWireType(field, wireType));
    }
    r := ReadLengthStatus(data, j);
  }

  /** An `int64` varint field: the wire type check, then the value. */
  method ReadInt64Status(data: seq<byte>, j: nat, field: int, wireType: nat) returns (r: Result<(int64, nat), DecodeError>)
    ensures r == DecodeInt64(data, j, field, wireType)
  {
    if wireType != 0 {
      return Err(ErrWrongWireType(field, wireType));
    }
    var v := ReadVarint(data, j);
    if v.Err? {
      return Err(v.error);
    }
    return Ok((ToInt64(v.value.0), v.value.1));
  }

  /** The `default:` case: `skipStatus` from the field's first byte, then the two checks on its result. */
  method SkipUnknownStatus(data: seq<byte>, i: nat, post: nat) returns (r: Result<nat, DecodeError>)
    requires i < post <= |data|
    ensures r == SkipUnknown(data, i, post)
  {
    var skippy := SkipStatus(data[i..]);
    if skippy.Err? {
      return Err(skippy.error);
    }
    if skippy.value < 0 {
      return Err(ErrInvalidLength);
    }
    if i + skippy.value > post {
      return Err(ErrUnexpectedEOF);
    }
    return Ok(i + skippy.value);
  }

  // ---------------------------------------------------------------------
  // Map entries

  /** The `for iNdEx < postIndex` loop over the fields of a metric entry. */
  method MetricEntryStatus(data: seq<byte>, start: nat, post: nat) returns (r: Result<(seq<byte>, uint64), DecodeError>)
    requires post <= |data|
    ensures r == MetricEntryFields(data, start, post, [], 0)
  {
    var i := start;
    var mapkey: seq<byte> := [];
    var mapvalue: uint64 := 0;
    while i < post
      invariant MetricEntryFields(data, i, post, mapkey, mapvalue) == MetricEntryFields(data, start, post, [], 0)
      decreases post - i
    {
      var t := ReadVarint(data, i);
      if t.Err? {
        return Err(t.error);
      }
      var (wire, j) := t.value;
      var fieldNum := FieldNum(wire);
      if fieldNum == 1 {
        var l := ReadLengthStatus(data, j);
        if l.Err? {
          return Err(l.error);
        }
        var (s, e) := l.value;
        mapkey := data[s..e];
        i := e;
      } else if fieldNum == 2 {
        if j + 8 > |data| {
          return Err(ErrUnexpectedEOF);
        }
        mapvalue := Fixed64At(data, j);
        i := j + 8;
      } else {
        var e := SkipUnknownStatus(data, i, post);
        if e.Err? {
          return Err(e.error);
        }
        i := e.value;
      }
    }
    return Ok((mapkey, mapvalue));
  }

  /** The `for iNdEx < postIndex` loop over the fields of a latency entry. */
  method LatencyEntryStatus(data: seq<byte>, start: nat, post: nat) returns (r: Result<(int32, int64), DecodeError>)
    requires post <= |data|
    ensures r == LatencyEntryFields(data, start, post, 0, 0)
  {
    var i := start;
    var mapkey: int32 := 0;
    var mapvalue: int64 := 0;
    while i < post
      invariant LatencyEntryFields(data, i, post, mapkey, mapvalue) == LatencyEntryFields(data, start, post, 0, 0)
      decreases post - i
    {
      var t := ReadVarint(data, i);
      if t.Err? {
        return Err(t.error);
      }
      var (wire, j) := t.value;
      var fieldNum := FieldNum(wire);
      if fieldNum == 1 || fieldNum == 2 {
        var v := ReadVarint(data, j);
        if v.Err? {
          return Err(v.error);
        }
        if fieldNum == 1 {
          mapkey := OrInt32(mapkey, v.value.0);
        } else {
          mapvalue := OrInt64(mapvalue, v.value.0);
        }
        i := v.value.1;
      } else {
        var e := SkipUnknownStatus(data, i, post);
        if e.Err? {
          return Err(e.error);
        }
        i := e.value;
      }
    }
    return Ok((mapkey, mapvalue));
  }

  /** A map field of metrics: the entry's bounds, then its fields. */
  method ReadMetricStatus(data: seq<byte>, j: nat, field: int, wireType: nat)
    returns (r: Result<(seq<byte>, uint64, nat), DecodeError>)
    ensures r == DecodeMetric(data, j, field, wireType)
  {
    var b := ReadBytesStatus(data, j, field, wireType);
    if b.Err? {
      return Err(b.error);
    }
    var (s, e) := b.value;
    var entry := MetricEntryStatus(data, s, e);
    if entry.Err? {
      return Err(entry.error);
    }
    return Ok((entry.value.0, entry.value.1, e));
  }

  /** A map field of latencies: the entry's bounds, then its fields. */
  method ReadLatencyStatus(data: seq<byte>, j: nat, field: int, wireType: nat)
    returns (r: Result<(int32, int64, nat), DecodeError>)
    ensures r == DecodeLatency(data, j, field, wireType)
  {
    var b := ReadBytesStatus(data, j, field, wireType);
    if b.Err? {
      return Err(b.error);
    }
    var (s, e) := b.value;
    var entry := LatencyEntryStatus(data, s, e);
    if entry.Err? {
      return Err(entry.error);
    }
    return Ok((entry.value.0, entry.value.1, e));
  }

  // ---------------------------------------------------------------------
  // Messages

  /** The `switch fieldNum` of `StoreStatus.Unmarshal`: the field at `i` merged into `m`. */
  method StoreFieldStatus(data: seq<byte>, i: nat, m: StoreStatus) returns (r: Result<(StoreStatus, nat), DecodeError>)
    requires i < |data|
    ensures r == DecodeStoreField(data, i, m)
  {
    var tag := ReadTagStatus(data, i);
    if tag.Err? {
      return Err(tag.error);
    }
    var (fieldNum, wireType, j) := tag.value;
    if fieldNum == 1 {
      var b := ReadBytesStatus(data, j, 1, wireType);
      if b.Err? {
        return Err(b.error);
      }
      var (s, e) := b.value;
      return Ok((m.(desc := m.desc + data[s..e]), e));
    } else if fieldNum == 2 {
      var entry := ReadMetricStatus(data, j, 2, wireType);
      if entry.Err? {
        return Err(entry.error);
      }
      var (k, v, e) := entry.value;
      return Ok((m.(metrics := m.metrics[k := v]), e));
    } else {
      var e := SkipUnknownStatus(data, i, |data|);
      if e.Err? {
        return Err(e.error);
      }
      return Ok((m, e.value));
    }
  }

  /** `StoreStatus.Unmarshal`: the `for iNdEx < l` loop, merging `data` into `m`. */
  method UnmarshalStoreStatus(m: StoreStatus, data: seq<byte>) returns (r: Result<StoreStatus, DecodeError>)
    ensures r == UnmarshalStore(m, data)
  {
    var cur := m;
    var iNdEx: nat := 0;
    while iNdEx < |data|
      invariant iNdEx <= |data|
      invariant DecodeStoreFields(data, iNdEx, cur) == UnmarshalStore(m, data)
      decreases |data| - iNdEx
    {
      var step := StoreFieldStatus(data, iNdEx, cur);
      if step.Err? {
        return Err(step.error);
      }
      cur, iNdEx := step.value.0, step.value.1;
    }
    return Ok(cur);
  }

  /** Fields 1 to 4 of `NodeStatus`: the two opaque messages and the two timestamps. */
  method NodeScalarStatus(data: seq<byte>, i: nat, m: NodeStatus, fieldNum: int32, wireType: nat, j: nat)
    returns (r: Result<(NodeStatus, nat), DecodeError>)
    requires i < |data| && 1 <= fieldNum <= 4
    requires ReadTag(data, i) == Ok((fieldNum, wireType, j))
    ensures r == DecodeNodeField(data, i, m)
  {
    if fieldNum == 1 || fieldNum == 2 {
      var b := ReadBytesStatus(data, j, fieldNum, wireType);
      if b.Err? {
        return Err(b.error);
      }
      var (s, e) := b.value;
      if fieldNum == 1 {
        return Ok((m.(desc := m.desc + data[s..e]), e));
      }
      return Ok((m.(buildInfo := m.buildInfo + data[s..e]), e));
    } else {
      var x := ReadInt64Status(data, j, fieldNum, wireType);
      if x.Err? {
        return Err(x.error);
      }
      var (t, e) := x.value;
      if fieldNum == 3 {
        return Ok((m.(startedAt := t), e));
      }
      return Ok((m.(updatedAt := t), e));
    }
  }

  /** Fields 5 to 9 of `NodeStatus`: the two maps and the three repeated fields. */
  method NodeRepeatedStatus(data: seq<byte>, i: nat, m: NodeStatus, fieldNum: int32, wireType: nat, j: nat)
    returns (r: Result<(NodeStatus, nat), DecodeError>)
    requires i < |data| && 5 <= fieldNum <= 9
    requires ReadTag(data, i) == Ok((fieldNum, wireType, j))
    ensures r == DecodeNodeField(data, i, m)
  {
    if fieldNum == 5 {
      var entry := ReadMetricStatus(data, j, 5, wireType);
      if entry.Err? {
        return Err(entry.error);
      }
      var (k, v, e) := entry.value;
      return Ok((m.(metrics := m.metrics[k := v]), e));
    } else if fieldNum == 9 {
      var entry := ReadLatencyStatus(data, j, 9, wireType);
      if entry.Err? {
        return Err(entry.error);
      }
      var (k, v, e) := entry.value;
      return Ok((m.(latencies := m.latencies[k := v]), e));
    }
    var b := ReadBytesStatus(data, j, fieldNum, wireType);
    if b.Err? {
      return Err(b.error);
    }
    var (s, e) := b.value;
    if fieldNum == 6 {
      var store := UnmarshalStoreStatus(EMPTY_STORE, data[s..e]);
      if store.Err? {
        return Err(store.error);
      }
      return Ok((m.(storeStatuses := m.storeStatuses + [store.value]), e));
    } else if fieldNum == 7 {
      return Ok((m.(args := m.args + [data[s..e]]), e));
    }
    return Ok((m.(env := m.env + [data[s..e]]), e));
  }

  /** The `switch fieldNum` of `NodeStatus.Unmarshal`: the field at `i` merged into `m`. */
  method NodeFieldStatus(data: seq<byte>, i: nat, m: NodeStatus) returns (r: Result<(NodeStatus, nat), DecodeError>)
    requires i < |data|
    ensures r == DecodeNodeField(data, i, m)
  {
    var tag := ReadTagStatus(data, i);
    if tag.Err? {
      return Err(tag.error);
    }
    var (fieldNum, wireType, j) := tag.value;
    if fieldNum <= 4 {
      r := NodeScalarStatus(data, i, m, fieldNum, wireType, j);
    } else if fieldNum <= 9 {
      r := NodeRepeatedStatus(data, i, m, fieldNum, wireType, j);
    } else {
      var e := SkipUnknownStatus(data, i, |data|);
      if e.Err? {
        return Err(e.error);
      }
      return Ok((m, e.value));
    }
  }

  /** `NodeStatus.Unmarshal`: the `for iNdEx < l` loop, merging `data` into `m`. */
  method UnmarshalNodeStatus(m: NodeStatus, data: seq<byte>) returns (r: Result<NodeStatus, DecodeError>)
    ensures r == UnmarshalNode(m, data)
  {
    var cur := m;
    var iNdEx: nat := 0;
    while iNdEx < |data|
      invariant iNdEx <= |data|
      invariant DecodeNodeFields(data, iNdEx, cur) == UnmarshalNode(m, data)
      decreases |data| - iNdEx
    {
      var step := NodeFieldStatus(data, iNdEx, cur);
      if step.Err? {
        return Err(step.error);
      }
      cur, iNdEx := step.value.0, step.value.1;
    }
    return Ok(cur);
  }
}
