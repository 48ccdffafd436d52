/**
 * The inputs the two decode loops refuse, and the fields they step over.
 * Each lemma starts from the first tag of the input and holds whatever
 * message the bytes are merged into.
 */
module StatusDecodeErrors {
  import opened Wrappers
  import opened Varint
  import opened SkipField
  import opened SkipProofs
  import opened StatusMessages
  import opened StatusDecoding
  import opened StatusRoundTrip

  // ---------------------------------------------------------------------
  // Tags

  /** A tag of wire type 4 (end group) is refused by both messages before its field number is looked at. */
  lemma EndGroupTagRejected(data: seq<byte>, s: StoreStatus, m: NodeStatus)
    requires |data| > 0 && data[0] < 128 && data[0] % 8 == 4
    ensures UnmarshalStore(s, data) == Err(ErrEndGroupForNonGroup)
    ensures UnmarshalNode(m, data) == Err(ErrEndGroupForNonGroup)
  {
    SmallTagAt(data, 0, data[0]);
  }

  /** A one-byte tag for field number 0 is an illegal tag. */
  lemma FieldZeroRejected(data: seq<byte>, s: StoreStatus, m: NodeStatus)
    requires |data| > 0 && data[0] < 8 && data[0] != 4
    ensures UnmarshalStore(s, data) == Err(ErrIllegalTag(0, data[0]))
    ensures UnmarshalNode(m, data) == Err(ErrIllegalTag(0, data[0]))
  {
    SmallTagAt(data, 0, data[0]);
  }

  /** The tag value `(2^31 << 3) | 2`: its field number does not fit in an `int32`. */
  const WIDE_TAG: uint64 := 0x4_0000_0002

  /**
   * A field number is read into an `int32`, so a tag whose field number
   * is 2^31 is taken for field -2^31 and refused as an illegal tag.
   */
  lemma WrappedFieldNumberRejected(data: seq<byte>, s: StoreStatus, m: NodeStatus)
    requires EncodedAt(data, 0, EncodeVarint(WIDE_TAG))
    ensures UnmarshalStore(s, data) == Err(ErrIllegalTag(-TWO_TO_31, WIDE_TAG))
    ensures UnmarshalNode(m, data) == Err(ErrIllegalTag(-TWO_TO_31, WIDE_TAG))
  {
    WideTagRead(data);
  }

  /** The wide tag reads back, and its field number is -2^31 as an `int32`. */
  lemma WideTagRead(data: seq<byte>)
    requires EncodedAt(data, 0, EncodeVarint(WIDE_TAG))
    ensures |data| > 0 && ReadTag(data, 0) == Err(ErrIllegalTag(-TWO_TO_31, WIDE_TAG))
  {
    VarintRoundTrip(data, 0, WIDE_TAG);
    WideFieldNum();
  }

  /** The wide tag has wire type 2 and, read into an `int32`, field number -2^31. */
  lemma WideFieldNum()
    ensures WIDE_TAG % 8 == 2 && FieldNum(WIDE_TAG) == -TWO_TO_31
  {
    assert WIDE_TAG / 8 == TWO_TO_31;
  }

  /** The descriptor sent as a varint (tag 0x08) has the wrong wire type for field 1. */
  lemma DescWrongWireType(data: seq<byte>, s: StoreStatus, m: NodeStatus)
    requires |data| > 0 && data[0] == 0x08
    ensures UnmarshalStore(s, data) == Err(ErrWrongWireType(1, 0))
    ensures UnmarshalNode(m, data) == Err(ErrWrongWireType(1, 0))
  {
    SmallTagAt(data, 0, 0x08);
  }

  /** A start time sent as bytes (tag 0x1a) has the wrong wire type for field 3. */
  lemma StartedAtWrongWireType(data: seq<byte>, m: NodeStatus)
    requires |data| > 0 && data[0] == 0x1a
    ensures UnmarshalNode(m, data) == Err(ErrWrongWireType(3, 2))
  {
    SmallTagAt(data, 0, 0x1a);
  }

  // ---------------------------------------------------------------------
  // Lengths

  /** A length prefix that announces more bytes than the input has left is an unexpected end of input. */
  lemma LengthPastEnd(data: seq<byte>, j: nat, n: nat)
    requires n < TWO_TO_63 && EncodedAt(data, j, EncodeVarint(n)) && |data| < j + Sov(n) + n
    ensures ReadLength(data, j) == Err(ErrUnexpectedEOF)
  {
    VarintRoundTrip(data, j, n);
  }

  /** A length prefix of 2^63 or more is an invalid length. */
  lemma LengthNegative(data: seq<byte>, j: nat, n: uint64)
    requires n >= TWO_TO_63 && EncodedAt(data, j, EncodeVarint(n))
    ensures ReadLength(data, j) == Err(ErrInvalidLength)
  {
    VarintRoundTrip(data, j, n);
  }

  /** A descriptor whose length runs past the end of the input is an unexpected end of input. */
  lemma DescPastEnd(data: seq<byte>, n: nat, s: StoreStatus, m: NodeStatus)
    requires n < TWO_TO_63 && |data| > 0 && data[0] == STORE_DESC_TAG
    requires EncodedAt(data, 1, EncodeVarint(n)) && |data| < 1 + Sov(n) + n
    ensures UnmarshalStore(s, data) == Err(ErrUnexpectedEOF)
    ensures UnmarshalNode(m, data) == Err(ErrUnexpectedEOF)
  {
    DescTagRead(data);
    LengthPastEnd(data, 1, n);
    StoreDescRefused(data, s, ErrUnexpectedEOF);
    NodeDescRefused(data, m, ErrUnexpectedEOF);
  }

  /** A length of 2^63 or more is negative as a Go `int`, and refused as an invalid length. */
  lemma DescNegativeLength(data: seq<byte>, n: uint64, s: StoreStatus, m: NodeStatus)
    requires n >= TWO_TO_63 && |data| > 0 && data[0] == STORE_DESC_TAG
    requires EncodedAt(data, 1, EncodeVarint(n))
    ensures UnmarshalStore(s, data) == Err(ErrInvalidLength)
    ensures UnmarshalNode(m, data) == Err(ErrInvalidLength)
  {
    DescTagRead(data);
    LengthNegative(data, 1, n);
    StoreDescRefused(data, s, ErrInvalidLength);
    NodeDescRefused(data, m, ErrInvalidLength);
  }

  /** The descriptor's tag byte reads as field 1, wire type 2. */
  lemma DescTagRead(data: seq<byte>)
    requires |data| > 0 && data[0] == STORE_DESC_TAG
    ensures ReadTag(data, 0) == Ok((1, 2, 1))
  {
    ReadTagAt(data, 0, STORE_DESC_TAG);
  }

  /** A descriptor field whose length is refused fails the whole store. */
  lemma StoreDescRefused(data: seq<byte>, s: StoreStatus, err: DecodeError)
    requires |data| > 0 && ReadTag(data, 0) == Ok((1, 2, 1)) && ReadLength(data, 1) == Err(err)
    ensures UnmarshalStore(s, data) == Err(err)
  {
  }

  /** A descriptor field whose length is refused fails the whole node. */
  lemma NodeDescRefused(data: seq<byte>, m: NodeStatus, err: DecodeError)
    requires |data| > 0 && ReadTag(data, 0) == Ok((1, 2, 1)) && ReadLength(data, 1) == Err(err)
    ensures UnmarshalNode(m, data) == Err(err)
  {
  }

  /** Input that stops inside a tag is an unexpected end of input. */
  lemma TruncatedTag(data: seq<byte>, s: StoreStatus, m: NodeStatus)
    requires |data| > 0 && forall k :: 0 <= k < |data| ==> data[k] >= 128
    requires |data| < 10
    ensures UnmarshalStore(s, data) == Err(ErrUnexpectedEOF)
    ensures UnmarshalNode(m, data) == Err(ErrUnexpectedEOF)
  {
    VarintLoopEOF(data, 0, 0, 0);
  }

  // ---------------------------------------------------------------------
  // Unknown fields

  /** Any field numbered 3 or more is stepped over by the store loop, and leaves the store as it was. */
  lemma StoreSkipsUnknown(data: seq<byte>, i: nat, s: StoreStatus, field: int32, wireType: nat, j: nat, e: nat)
    requires i < |data| && field >= 3
    requires ReadTag(data, i) == Ok((field, wireType, j)) && SkipUnknown(data, i, |data|) == Ok(e)
    ensures DecodeStoreFields(data, i, s) == DecodeStoreFields(data, e, s)
  {
  }

  /** A varint field the store does not know is stepped over, and leaves the store as it was. */
  lemma StoreSkipsUnknownVarint(data: seq<byte>, i: nat, s: StoreStatus, tag: byte, v: uint64, e: nat)
    requires tag < 128 && tag % 8 == 0 && tag / 8 >= 3 && e == i + 1 + Sov(v)
    requires EncodedAt(data, i, VarintField(tag, v))
    ensures e <= |data|
    ensures DecodeStoreFields(data, i, s) == DecodeStoreFields(data, e, s)
  {
    TagByteAt(data, i, tag, EncodeVarint(v));
    ReadTagAt(data, i, tag);
    UnknownVarintSkipped(data, i, tag, v, e);
    StoreSkipsUnknown(data, i, s, tag / 8, 0, i + 1, e);
  }

  /** A one-byte tag is its own varint encoding. */
  lemma SmallTagBytes(tag: byte)
    requires tag < 128
    ensures EncodeVarint(tag) == [tag]
  {
  }

  /** `skipStatus` steps over a one-byte-tagged varint field. */
  lemma UnknownVarintSkipped(data: seq<byte>, i: nat, tag: byte, v: uint64, e: nat)
    requires tag < 128 && tag % 8 == 0 && e == i + 1 + Sov(v)
    requires EncodedAt(data, i, VarintField(tag, v))
    ensures i < |data| && SkipUnknown(data, i, |data|) == Ok(e)
  {
    SmallTagBytes(tag);
    EncodedAtSuffix(data, i, 0, EncodeVarint(tag) + EncodeVarint(v));
    SkipVarintField(data[i..], tag, v);
  }

  /** The first byte of a field is its tag. */
  lemma FirstByte(data: seq<byte>, i: nat, tag: byte, rest: seq<byte>)
    requires EncodedAt(data, i, [tag] + rest)
    ensures i < |data| && data[i] == tag
  {
    assert data[i] == ([tag] + rest)[0];
  }

  /** A length-delimited field the node does not know is stepped over, and leaves the node as it was. */
  lemma NodeSkipsUnknownBytes(data: seq<byte>, i: nat, m: NodeStatus, tag: byte, p: seq<byte>)
    requires tag < 128 && tag % 8 == 2 && tag / 8 >= 10 && |data| < TWO_TO_63
    requires EncodedAt(data, i, LengthDelimited(tag, p))
    ensures i + |LengthDelimited(tag, p)| <= |data|
    ensures DecodeNodeFields(data, i, m) == DecodeNodeFields(data, i + |LengthDelimited(tag, p)|, m)
  {
    AppendAssoc([tag], EncodeVarint(|p|), p);
    FirstByte(data, i, tag, EncodeVarint(|p|) + p);
    ReadTagAt(data, i, tag);
    UnknownBytesSkipped(data, i, tag, p);
  }

  /** `skipStatus` steps over a one-byte-tagged length-delimited field. */
  lemma UnknownBytesSkipped(data: seq<byte>, i: nat, tag: byte, p: seq<byte>)
    requires tag < 128 && tag % 8 == 2 && |data| < TWO_TO_63
    requires EncodedAt(data, i, LengthDelimited(tag, p))
    ensures i < |data| && SkipUnknown(data, i, |data|) == Ok(i + |LengthDelimited(tag, p)|)
  {
    SmallTagBytes(tag);
    AppendAssoc([tag], EncodeVarint(|p|), p);
    EncodedAtSuffix(data, i, 0, EncodeVarint(tag) + (EncodeVarint(|p|) + p));
    SkipBytesField(data[i..], tag, p, |LengthDelimited(tag, p)|);
  }
}
