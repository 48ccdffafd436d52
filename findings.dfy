/**
 * Places where the generated decoder adds a length or a skip count read
 * from the input to an index as Go `int`s and does not catch the sum
 * wrapping past 2^63 - 1 into the negatives: `postIndex := iNdEx + msglen`,
 * `iNdEx + skippy` in the default case, and `iNdEx = start + next` in the
 * group loop of `skipStatus`. Each is modelled as written, with the input
 * that shows it, next to the corrected step the rest of the model uses.
 */
module StatusFindings {
  import opened Wrappers
  import opened Varint
  import opened SkipField
  import opened SkipProofs
  import opened StatusMessages
  import opened StatusDecoding
  import opened StatusRoundTrip
  import opened StatusDecodeErrors

  /** The nine bytes of the varint 2^63 - 1, the largest length that is not negative as an `int`. */
  const LARGEST_LENGTH: seq<byte> := [0xff, 0xff, 0xff, 0xff, 0xff, 0xff, 0xff, 0xff, 0x7f]

  lemma LargestLengthBytes()
    ensures EncodeVarint(TWO_TO_63 - 1) == LARGEST_LENGTH
  {
    AllOnesBytes();
    assert EncodeVarint(0x7fff_ffff_ffff_ffff) == [0xff] + EncodeVarint(0xff_ffff_ffff_ffff);
  }

  /** The nine bytes of the varint 2^63 - 11: after a one-byte tag and itself, its end is 2^63 - 1. */
  const NEAR_LARGEST_LENGTH: seq<byte> := [0xf5, 0xff, 0xff, 0xff, 0xff, 0xff, 0xff, 0xff, 0x7f]

  lemma NearLargestLengthBytes()
    ensures EncodeVarint(TWO_TO_63 - 11) == NEAR_LARGEST_LENGTH
  {
    AllOnesBytes();
    assert EncodeVarint(0x7fff_ffff_ffff_fff5) == [0xf5] + EncodeVarint(0xff_ffff_ffff_ffff);
  }

  /** Eight groups of seven bits: seven continuation bytes and a last byte, all bits set. */
  lemma AllOnesBytes()
    ensures EncodeVarint(0xff_ffff_ffff_ffff) == LARGEST_LENGTH[1..]
  {
    assert EncodeVarint(0x7f) == [0x7f];
    assert EncodeVarint(0x3fff) == [0xff] + EncodeVarint(0x7f);
    assert EncodeVarint(0x1f_ffff) == [0xff] + EncodeVarint(0x3fff);
    assert EncodeVarint(0xfff_ffff) == [0xff] + EncodeVarint(0x1f_ffff);
    assert EncodeVarint(0x7_ffff_ffff) == [0xff] + EncodeVarint(0xfff_ffff);
    assert EncodeVarint(0x3ff_ffff_ffff) == [0xff] + EncodeVarint(0x7_ffff_ffff);
    assert EncodeVarint(0x1_ffff_ffff_ffff) == [0xff] + EncodeVarint(0x3ff_ffff_ffff);
    assert EncodeVarint(0xff_ffff_ffff_ffff) == [0xff] + EncodeVarint(0x1_ffff_ffff_ffff);
  }

  // ---------------------------------------------------------------------
  // postIndex := iNdEx + msglen

  /**
   * A length prefix at `j` as the generated code checks it: `msglen` must
   * not be negative, and `postIndex := iNdEx + msglen`, added as Go `int`s,
   * must not exceed `l`. A `postIndex` that wrapped negative passes both
   * checks; the result is the pair of slice bounds `dAtA[iNdEx:postIndex]`.
   */
  function ReadLengthAsWritten(data: seq<byte>, j: nat): (r: Result<(nat, int), DecodeError>)
    ensures r.Ok? ==> r.value.1 <= |data|
  {
    var (n, start) :- ReadVarintAt(data, j);
    var msglen := ToInt64(n);
    if msglen < 0 then Err(ErrInvalidLength)
    else
      var postIndex := GoAddInt(start, msglen);
      if postIndex > |data| then Err(ErrUnexpectedEOF) else Ok((start, postIndex))
  }

  /** Where the sum does not wrap, the generated check and the corrected one agree. */
  lemma LengthChecksAgree(data: seq<byte>, j: nat, n: uint64, start: nat)
    requires ReadVarintAt(data, j) == Ok((n, start)) && start + n < TWO_TO_63
    ensures ReadLengthAsWritten(data, j).Ok? <==> ReadLength(data, j).Ok?
    ensures ReadLength(data, j).Ok? ==> ReadLengthAsWritten(data, j).value == ReadLength(data, j).value
  {
  }

  /**
   * A length whose end wraps past 2^63 - 1 gets through the generated
   * checks with slice bounds that run backwards, so `dAtA[iNdEx:postIndex]`
   * panics; the corrected check reports the unexpected end of input.
   */
  lemma LengthWrapPassesChecks(data: seq<byte>, j: nat, n: nat)
    requires |data| < TWO_TO_63 && n < TWO_TO_63
    requires EncodedAt(data, j, EncodeVarint(n)) && j + Sov(n) + n >= TWO_TO_63
    ensures ReadLengthAsWritten(data, j).Ok?
    ensures ReadLengthAsWritten(data, j).value.1 < 0 < ReadLengthAsWritten(data, j).value.0
    ensures ReadLength(data, j) == Err(ErrUnexpectedEOF)
  {
    VarintRoundTrip(data, j, n);
  }

  /** The ten bytes that make `StoreStatus.Unmarshal` and `NodeStatus.Unmarshal` slice backwards. */
  const WRAPPED_DESC: seq<byte> := [STORE_DESC_TAG] + LARGEST_LENGTH

  /**
   * A descriptor field announcing 2^63 - 1 bytes: as written, `postIndex`
   * is 9 - 2^63 and the slice `dAtA[10:postIndex]` is out of range; as
   * corrected, both messages refuse the input as truncated.
   */
  lemma WrappedDescLength(s: StoreStatus, m: NodeStatus)
    ensures ReadLengthAsWritten(WRAPPED_DESC, 1) == Ok((10, 9 - TWO_TO_63))
    ensures UnmarshalStore(s, WRAPPED_DESC) == Err(ErrUnexpectedEOF)
    ensures UnmarshalNode(m, WRAPPED_DESC) == Err(ErrUnexpectedEOF)
  {
    var n := TWO_TO_63 - 1;
    LargestLengthBytes();
    assert EncodedAt(WRAPPED_DESC, 1, EncodeVarint(n)) by {
      assert WRAPPED_DESC[1..10] == LARGEST_LENGTH;
    }
    WrappedDescAt(WRAPPED_DESC, n, 10, s, m);
  }

  /** A descriptor field at the start of the input, whose announced end wraps. */
  lemma WrappedDescAt(data: seq<byte>, n: uint64, start: nat, s: StoreStatus, m: NodeStatus)
    requires |data| > 0 && data[0] == STORE_DESC_TAG && EncodedAt(data, 1, EncodeVarint(n))
    requires n < TWO_TO_63 && start == 1 + Sov(n) == |data| && start + n >= TWO_TO_63
    ensures ReadLengthAsWritten(data, 1) == Ok((start, start + n - TWO_TO_64))
    ensures UnmarshalStore(s, data) == Err(ErrUnexpectedEOF)
    ensures UnmarshalNode(m, data) == Err(ErrUnexpectedEOF)
  {
    SovAtMostTen(n);
    WrappedLengthRead(data, 1, n, start);
    DescPastEnd(data, n, s, m);
  }

  /** The generated check on a length whose end wraps: the bounds it lets through. */
  lemma WrappedLengthRead(data: seq<byte>, j: nat, n: uint64, start: nat)
    requires |data| < TWO_TO_63 && n < TWO_TO_63 && start == j + Sov(n) && start + n >= TWO_TO_63
    requires EncodedAt(data, j, EncodeVarint(n))
    ensures ReadLengthAsWritten(data, j) == Ok((start, start + n - TWO_TO_64))
  {
    VarintRoundTrip(data, j, n);
    WrapPastSlice(start, n, |data|);
    WrappedLengthUnfold(data, j, n, start, start + n - TWO_TO_64);
  }

  /** An index into a Go slice plus a length below 2^63 wraps at most once. */
  lemma WrapPastSlice(start: nat, n: nat, len: nat)
    requires start <= len < TWO_TO_63 && n < TWO_TO_63 && start + n >= TWO_TO_63
    ensures GoAddInt(start, n) == start + n - TWO_TO_64 < 0
  {
    GoAddIntWraps(start, n);
  }

  /** The generated check, once the length has been read. */
  lemma WrappedLengthUnfold(data: seq<byte>, j: nat, n: uint64, start: nat, post: int)
    requires n < TWO_TO_63 && ReadVarintAt(data, j) == Ok((n, start)) && post == GoAddInt(start, n) < 0
    ensures ReadLengthAsWritten(data, j) == Ok((start, post))
  {
  }

  // ---------------------------------------------------------------------
  // iNdEx = start + next, inside a group

  /**
   * One pass of the group loop in `skipStatus`, for an inner field that is
   * not an end tag, as generated: `next` from `skipStatus(dAtA[start:])`
   * is added to `start` unchecked, and the next pass reads `dAtA[iNdEx]`
   * after testing only `iNdEx >= l`. The sum is a Go `int`: a positive
   * `next` can wrap it, and a negative one (itself a wrapped count) cannot.
   */
  function GroupNextIndexAsWritten(data: seq<byte>, start: nat): (r: Result<int, DecodeError>)
    requires start < |data|
    ensures r.Ok? ==> r.value != start
  {
    var next :- Skip(data[start..]);
    if next < 0 then Ok(start + next) else Ok(GoAddInt(start, next))
  }

  /** A one-byte tag of wire type 2 announcing `n` bytes, where the sum wraps: `skipStatus` returns a negative count. */
  lemma WrappedSkip(d: seq<byte>, tag: byte, n: uint64, next: int)
    requires tag < 128 && tag % 8 == 2 && n < TWO_TO_63 && 1 + Sov(n) + n >= TWO_TO_63
    requires next == 1 + Sov(n) + n - TWO_TO_64
    requires EncodedAt(d, 0, [tag] + EncodeVarint(n))
    ensures Skip(d) == Ok(next)
  {
    SmallTagBytes(tag);
    TagThenBody(d, 0, tag, EncodeVarint(n));
    VarintRoundTrip(d, 1, n);
    SovAtMostTen(n);
    SkipBytesStep(d, tag, 1, n, 1 + Sov(n));
    GoAddIntWraps(1 + Sov(n), n);
  }

  /**
   * Inside a group, an inner length-delimited field whose end wraps sends
   * the generated loop to a negative index, which `dAtA[iNdEx]` does not
   * accept; the corrected loop refuses it as an invalid length, as the
   * callers of `skipStatus` do.
   */
  lemma GroupSkipWraps(data: seq<byte>, start: nat, tag: byte, n: uint64, next: int)
    requires 1 <= start < |data| < TWO_TO_63
    requires tag < 128 && tag % 8 == 2 && n < TWO_TO_63 && 1 + Sov(n) + n >= TWO_TO_63
    requires next == 1 + Sov(n) + n - TWO_TO_64
    requires EncodedAt(data, start, [tag] + EncodeVarint(n))
    ensures GroupNextIndexAsWritten(data, start) == Ok(start + next) && start + next < 0
    ensures SkipGroup(data, start) == Err(ErrInvalidLength)
  {
    WrappedInnerField(data, start, tag, n, next);
    GroupRefusesNegativeSkip(data, start, tag, next);
  }

  /** The inner field's tag reads back, and skipping the field gives the wrapped count. */
  lemma WrappedInnerField(data: seq<byte>, start: nat, tag: byte, n: uint64, next: int)
    requires start < |data|
    requires tag < 128 && tag % 8 == 2 && n < TWO_TO_63 && 1 + Sov(n) + n >= TWO_TO_63
    requires next == 1 + Sov(n) + n - TWO_TO_64
    requires EncodedAt(data, start, [tag] + EncodeVarint(n))
    ensures ReadVarintAt(data, start) == Ok((tag as uint64, start + 1))
    ensures Skip(data[start..]) == Ok(next)
  {
    EncodedAtSuffix(data, start, 0, [tag] + EncodeVarint(n));
    WrappedSkip(data[start..], tag, n, next);
    FirstByte(data, start, tag, EncodeVarint(n));
    SmallTagAt(data, start, tag);
  }

  /** The corrected group loop, on an inner field whose skip came back negative. */
  lemma GroupRefusesNegativeSkip(data: seq<byte>, start: nat, tag: uint64, next: int)
    requires 1 <= start < |data| && tag % 8 != 4 && ReadVarintAt(data, start) == Ok((tag, start + 1))
    requires Skip(data[start..]) == Ok(next) && next < 0
    ensures SkipGroup(data, start) == Err(ErrInvalidLength)
  {
    SkipGroupStep(data, start, tag, start + 1);
  }

  /** A group (field 3) holding a field 1 that announces 2^63 - 1 bytes. */
  const WRAPPED_GROUP: seq<byte> := [0x1b, 0x0a] + LARGEST_LENGTH

  /**
   * As written, `StoreStatus.Unmarshal` steps over field 3 with
   * `skipStatus`, whose group loop goes on from index 2 - 2^63 + 9 and
   * panics; as corrected, the store is refused as holding an invalid length.
   */
  lemma WrappedGroupLength(s: StoreStatus)
    ensures GroupNextIndexAsWritten(WRAPPED_GROUP, 1) == Ok(10 - TWO_TO_63)
    ensures UnmarshalStore(s, WRAPPED_GROUP) == Err(ErrInvalidLength)
  {
    var n := TWO_TO_63 - 1;
    LargestLengthBytes();
    assert EncodedAt(WRAPPED_GROUP, 1, [0x0a] + EncodeVarint(n)) by {
      assert WRAPPED_GROUP[1..11] == [0x0a] + LARGEST_LENGTH;
    }
    assert Sov(n) == |LARGEST_LENGTH| == 9;
    GroupSkipWraps(WRAPPED_GROUP, 1, 0x0a, n, 9 - TWO_TO_63);
    GroupInStore(WRAPPED_GROUP, s);
  }

  /** A store whose first field is a group of field 3 fails as the group fails. */
  lemma GroupInStore(data: seq<byte>, s: StoreStatus)
    requires |data| > 1 && data[0] == 0x1b && SkipGroup(data, 1).Err?
    ensures UnmarshalStore(s, data) == Err(SkipGroup(data, 1).error)
  {
    SmallTagAt(data, 0, 0x1b);
    SkipGroupStart(data, 0x1b, 1);
  }

  /**
   * A one-byte tag of wire type 2 announcing `n` bytes, where the sum does
   * not wrap: `skipStatus` returns the whole field's length, which may be
   * close to 2^63.
   */
  lemma LongSkip(d: seq<byte>, tag: byte, n: uint64, j: nat)
    requires tag < 128 && tag % 8 == 2 && j == 1 + Sov(n) && j + n < TWO_TO_63
    requires EncodedAt(d, 0, [tag] + EncodeVarint(n))
    ensures Skip(d) == Ok(j + n)
  {
    SmallTagBytes(tag);
    TagThenBody(d, 0, tag, EncodeVarint(n));
    VarintRoundTrip(d, 1, n);
    SkipBytesStep(d, tag, 1, n, j);
  }

  /** A group (field 3) whose first inner field announces 2^63 - 11 bytes. */
  const WRAPPED_GROUP_END: seq<byte> := [0x1b, 0x1a] + NEAR_LARGEST_LENGTH

  /**
   * The inner field's skip is 2^63 - 1 and does not wrap, but `start + next`
   * does: as written, the group loop goes on from index -2^63 and panics;
   * as corrected, the store is refused as truncated.
   */
  lemma WrappedGroupEnd(s: StoreStatus)
    ensures GroupNextIndexAsWritten(WRAPPED_GROUP_END, 1) == Ok(-TWO_TO_63)
    ensures UnmarshalStore(s, WRAPPED_GROUP_END) == Err(ErrUnexpectedEOF)
  {
    var d := WRAPPED_GROUP_END;
    var n := TWO_TO_63 - 11;
    NearLargestLengthBytes();
    assert EncodedAt(d, 1, [0x1a] + EncodeVarint(n)) by {
      assert d[1..11] == [0x1a] + NEAR_LARGEST_LENGTH;
    }
    EncodedAtSuffix(d, 1, 0, [0x1a] + EncodeVarint(n));
    LongSkip(d[1..], 0x1a, n, 10);
    GoAddIntWraps(1, TWO_TO_63 - 1);
    SmallTagAt(d, 1, 0x1a);
    SkipGroupStep(d, 1, 0x1a, 2);
    GroupInStore(d, s);
  }

  // ---------------------------------------------------------------------
  // iNdEx + skippy

  /**
   * The default case of a message or map entry loop as generated: `skippy`
   * from `skipStatus(dAtA[iNdEx:])` must not be negative, and
   * `iNdEx + skippy`, added as Go `int`s, must not exceed the limit. A sum
   * that wrapped negative passes the check and becomes the next index.
   */
  function SkipUnknownAsWritten(data: seq<byte>, i: nat, post: nat): (r: Result<int, DecodeError>)
    requires i < post <= |data|
    ensures r.Ok? ==> r.value <= post
  {
    var n :- Skip(data[i..]);
    if n < 0 then Err(ErrInvalidLength)
    else
      var e := GoAddInt(i, n);
      if e > post then Err(ErrUnexpectedEOF) else Ok(e)
  }

  /** Where the sum does not wrap, the generated default case and the corrected one agree. */
  lemma SkipChecksAgree(data: seq<byte>, i: nat, post: nat, n: int)
    requires i < post <= |data| && Skip(data[i..]) == Ok(n) && i + n < TWO_TO_63
    ensures SkipUnknownAsWritten(data, i, post).Ok? <==> SkipUnknown(data, i, post).Ok?
    ensures SkipUnknown(data, i, post).Ok? ==> SkipUnknownAsWritten(data, i, post).value == SkipUnknown(data, i, post).value
  {
  }

  /** An unknown varint field 3, then an unknown field 3 announcing 2^63 - 11 bytes. */
  const WRAPPED_UNKNOWN: seq<byte> := [0x18, 0x00, 0x1a] + NEAR_LARGEST_LENGTH

  /**
   * `skipStatus(dAtA[2:])` returns 2^63 - 1: as written, `iNdEx + skippy`
   * wraps to 1 - 2^63, passes `> l`, and the next tag read `dAtA[iNdEx]`
   * panics; as corrected, the store is refused as truncated.
   */
  lemma WrappedUnknownField(s: StoreStatus)
    ensures SkipUnknownAsWritten(WRAPPED_UNKNOWN, 2, |WRAPPED_UNKNOWN|) == Ok(1 - TWO_TO_63)
    ensures UnmarshalStore(s, WRAPPED_UNKNOWN) == Err(ErrUnexpectedEOF)
  {
    var d := WRAPPED_UNKNOWN;
    var n := TWO_TO_63 - 11;
    NearLargestLengthBytes();
    assert EncodedAt(d, 0, VarintField(0x18, 0)) by {
      assert EncodeVarint(0) == [0];
      assert d[0..2] == [0x18, 0x00];
    }
    StoreSkipsUnknownVarint(d, 0, s, 0x18, 0, 2);
    assert EncodedAt(d, 2, [0x1a] + EncodeVarint(n)) by {
      assert d[2..12] == [0x1a] + NEAR_LARGEST_LENGTH;
    }
    EncodedAtSuffix(d, 2, 0, [0x1a] + EncodeVarint(n));
    LongSkip(d[2..], 0x1a, n, 10);
    GoAddIntWraps(2, TWO_TO_63 - 1);
    ReadTagAt(d, 2, 0x1a);
    UnknownFieldRefused(d, s, TWO_TO_63 - 1);
  }

  /** An unknown field at index 2 whose skip runs past the end fails the store loop there. */
  lemma UnknownFieldRefused(data: seq<byte>, s: StoreStatus, n: int)
    requires 2 < |data| < n && ReadTag(data, 2) == Ok((3, 2, 3)) && Skip(data[2..]) == Ok(n)
    ensures DecodeStoreFields(data, 2, s) == Err(ErrUnexpectedEOF)
  {
  }
}
