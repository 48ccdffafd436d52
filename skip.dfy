/**
 * `skipStatus` (server/status/status.pb.go): the length of the one field
 * that starts at the beginning of `data`, read from its tag's wire type.
 * `Unmarshal` calls it for every field number it does not know.
 */
module SkipField {
  import opened Wrappers
  import opened Varint

  /**
   * The number of bytes of the field at the start of `data`: after the tag,
   * a varint (type 0), eight bytes (type 1), a length and that many bytes
   * (type 2), a group up to its end tag (type 3), nothing (type 4) or four
   * bytes (type 5). Types 1, 2 and 5 do not check the result against the
   * input: the callers do. For type 2 the index and the length are added as
   * Go `int`s, so a length near 2^63 wraps the result into the negatives,
   * which the callers refuse as an invalid length. Go reaches
   * `panic("unreachable")` on an empty input, so `data` must not be empty.
   */
  function Skip(data: seq<byte>): (r: Result<int, DecodeError>)
    requires |data| > 0
    ensures r.Ok? ==> r.value != 0
    decreases |data|, 1
  {
    var (wire, i) :- ReadVarintAt(data, 0);
    var wireType := wire % 8;
    if wireType == 0 then
      var (_, j) :- ReadVarintAt(data, i);
      Ok(j)
    else if wireType == 1 then Ok(i + 8)
    else if wireType == 2 then
      var (n, j) :- ReadVarintAt(data, i);
      var length := ToInt64(n);
      if length < 0 then Err(ErrInvalidLength) else Ok(GoAddInt(j, length))
    else if wireType == 3 then SkipGroup(data, i)
    else if wireType == 4 then Ok(i)
    else if wireType == 5 then Ok(i + 4)
    else Err(ErrIllegalWireType(wireType))
  }

  /**
   * The fields of a group from index `i`: each inner tag is read from its
   * `start`; an end-group tag finishes the group, and any other field is
   * skipped by `skipStatus(data[start:])`. Once the index passes the end of
   * the input the next tag read fails with `io.ErrUnexpectedEOF`. A wrapped,
   * negative skip is refused as an invalid length, as the callers of
   * `skipStatus` refuse it; the generated loop instead goes on from a
   * negative index (see `StatusFindings.GroupNextIndexAsWritten`).
   */
  function SkipGroup(data: seq<byte>, i: nat): (r: Result<int, DecodeError>)
    requires 1 <= i <= |data|
    ensures r.Ok? ==> i < r.value <= |data|
    decreases |data|, 0, |data| - i
  {
    var (inner, j) :- ReadVarintAt(data, i);
    if inner % 8 == 4 then Ok(j)
    else
      var next :- Skip(data[i..]);
      if next < 0 then Err(ErrInvalidLength)
      else if i + next > |data| then Err(ErrUnexpectedEOF)
      else SkipGroup(data, i + next)
  }

  /** `skipStatus`, with its loops. */
  method SkipStatus(data: seq<byte>) returns (r: Result<int, DecodeError>)
    requires |data| > 0
    ensures r == Skip(data)
    decreases |data|, 1
  {
    var tag := ReadVarint(data, 0);
    if tag.Err? {
      return Err(tag.error);
    }
    var (wire, i) := tag.value;
    var wireType := wire % 8;
    if wireType == 0 {
      var v := ReadVarint(data, i);
      if v.Err? {
        return Err(v.error);
      }
      return Ok(v.value.1);
    } else if wireType == 1 {
      return Ok(i + 8);
    } else if wireType == 2 {
      var v := ReadVarint(data, i);
      if v.Err? {
        return Err(v.error);
      }
      var length := ToInt64(v.value.0);
      if length < 0 {
        return Err(ErrInvalidLength);
      }
      var end := GoAddInt(v.value.1, length);
      return Ok(end);
    } else if wireType == 3 {
      r := SkipGroupStatus(data, i);
    } else if wireType == 4 {
      return Ok(i);
    } else if wireType == 5 {
      return Ok(i + 4);
    } else {
      return Err(ErrIllegalWireType(wireType));
    }
  }

  /** The `for {}` loop of a group (wire type 3) in `skipStatus`. */
  method SkipGroupStatus(data: seq<byte>, i: nat) returns (r: Result<int, DecodeError>)
    requires 1 <= i <= |data|
    ensures r == SkipGroup(data, i)
    decreases |data|, 0
  {
    var index: nat := i;
    while true
      invariant 1 <= index <= |data|
      invariant SkipGroup(data, index) == SkipGroup(data, i)
      decreases |data| - index
    {
      var start := index;
      var innerTag := ReadVarint(data, start);
      if innerTag.Err? {
        return Err(innerTag.error);
      }
      SkipGroupStep(data, start, innerTag.value.0, innerTag.value.1);
      index := innerTag.value.1;
      if innerTag.value.0 % 8 == 4 {
        return Ok(index);
      }
      var next := SkipStatus(data[start..]);
      if next.Err? {
        return Err(next.error);
      }
      if next.value < 0 {
        return Err(ErrInvalidLength);
      }
      if start + next.value > |data| {
        // the next tag read starts past the end of the input
        return Err(ErrUnexpectedEOF);
      }
      index := start + next.value;
    }
  }

  // One step of `skipStatus` for each wire type, once the tag has been read.

  lemma SkipVarintStep(data: seq<byte>, tag: uint64, i: nat, v: uint64, j: nat)
    requires |data| > 0 && tag % 8 == 0 && ReadVarintAt(data, 0) == Ok((tag, i))
    requires ReadVarintAt(data, i) == Ok((v, j))
    ensures Skip(data) == Ok(j)
  {
  }

  lemma SkipFixedStep(data: seq<byte>, tag: uint64, i: nat)
    requires |data| > 0 && ReadVarintAt(data, 0) == Ok((tag, i))
    requires tag % 8 == 1 || tag % 8 == 5
    ensures Skip(data) == Ok(i + if tag % 8 == 1 then 8 else 4)
  {
  }

  lemma SkipBytesStep(data: seq<byte>, tag: uint64, i: nat, n: uint64, j: nat)
    requires |data| > 0 && tag % 8 == 2 && ReadVarintAt(data, 0) == Ok((tag, i))
    requires ReadVarintAt(data, i) == Ok((n, j)) && n < TWO_TO_63
    ensures Skip(data) == Ok(GoAddInt(j, n))
  {
    assert ToInt64(n) == n;
  }

  lemma SkipGroupStart(data: seq<byte>, tag: uint64, i: nat)
    requires |data| > 0 && tag % 8 == 3 && ReadVarintAt(data, 0) == Ok((tag, i))
    ensures Skip(data) == SkipGroup(data, i)
  {
  }

  lemma SkipGroupStep(data: seq<byte>, i: nat, tag: uint64, j: nat)
    requires 1 <= i <= |data| && ReadVarintAt(data, i) == Ok((tag, j))
    ensures tag % 8 == 4 ==> SkipGroup(data, i) == Ok(j)
    ensures tag % 8 != 4 ==> SkipGroup(data, i) == (var next :- Skip(data[i..]);
                                                    if next < 0 then Err(ErrInvalidLength)
                                                    else if i + next > |data| then Err(ErrUnexpectedEOF)
                                                    else SkipGroup(data, i + next))
  {
  }

  // ---------------------------------------------------------------------
  // The error cases

  /** Wire types 6 and 7 do not exist: "illegal wireType". */
  lemma SkipIllegalWireType(data: seq<byte>, tag: uint64)
    requires tag % 8 >= 6 && EncodedAt(data, 0, EncodeVarint(tag))
    ensures Skip(data) == Err(ErrIllegalWireType(tag % 8))
  {
    VarintRoundTrip(data, 0, tag);
  }

  /** A length of 2^63 or more reads as a negative `int`: `ErrInvalidLengthStatus`. */
  lemma SkipNegativeLength(data: seq<byte>, tag: uint64, n: uint64)
    requires tag % 8 == 2 && n >= TWO_TO_63
    requires EncodedAt(data, 0, EncodeVarint(tag) + EncodeVarint(n))
    ensures Skip(data) == Err(ErrInvalidLength)
  {
    EncodedAtConcat(data, 0, EncodeVarint(tag), EncodeVarint(n));
    VarintRoundTrip(data, 0, tag);
    VarintRoundTrip(data, Sov(tag), n);
  }
}

/** What `skipStatus` does with fields written by a conforming encoder, one wire type at a time. */
module SkipProofs {
  import opened Wrappers
  import opened Varint
  import opened SkipField

  /** A tag followed by a body: the tag reads back and the body sits right after it. */
  lemma TagThenBody(data: seq<byte>, i: nat, tag: nat, body: seq<byte>)
    requires tag < TWO_TO_64 && EncodedAt(data, i, EncodeVarint(tag) + body)
    ensures ReadVarintAt(data, i) == Ok((tag, i + Sov(tag)))
    ensures EncodedAt(data, i + Sov(tag), body)
  {
    EncodedAtConcat(data, i, EncodeVarint(tag), body);
    VarintRoundTrip(data, i, tag);
  }

  /** Wire type 0: the tag and the varint after it. */
  lemma SkipVarintField(data: seq<byte>, tag: uint64, v: uint64)
    requires tag % 8 == 0 && EncodedAt(data, 0, EncodeVarint(tag) + EncodeVarint(v))
    ensures Skip(data) == Ok(|EncodeVarint(tag) + EncodeVarint(v)|)
  {
    TagThenBody(data, 0, tag, EncodeVarint(v));
    VarintRoundTrip(data, Sov(tag), v);
    SkipVarintStep(data, tag, Sov(tag), v, Sov(tag) + Sov(v));
  }

  /** Wire types 1 and 5: the tag and eight or four bytes. */
  lemma SkipFixedField(data: seq<byte>, tag: uint64, w: nat, k: nat)
    requires (tag % 8 == 1 && k == 8) || (tag % 8 == 5 && k == 4)
    requires EncodedAt(data, 0, EncodeVarint(tag) + LittleEndian(w, k))
    ensures Skip(data) == Ok(|EncodeVarint(tag) + LittleEndian(w, k)|)
  {
    TagThenBody(data, 0, tag, LittleEndian(w, k));
    SkipFixedStep(data, tag, Sov(tag));
  }

  /** Wire type 2: the tag, the length prefix and the payload. */
  lemma SkipBytesField(data: seq<byte>, tag: uint64, p: seq<byte>, e: nat)
    requires tag % 8 == 2 && e == |EncodeVarint(tag) + (EncodeVarint(|p|) + p)| && e < TWO_TO_63
    requires EncodedAt(data, 0, EncodeVarint(tag) + (EncodeVarint(|p|) + p))
    ensures Skip(data) == Ok(e)
  {
    var n := |p|;
    var i := Sov(tag);
    var j := i + Sov(n);
    assert j + n == e;
    TagThenLength(data, tag, p, n, i, j);
    SkipBytesStep(data, tag, i, n, j);
  }

  /** A tag, then a length prefix: both read back, and the length ends at `j`. */
  lemma TagThenLength(data: seq<byte>, tag: uint64, p: seq<byte>, n: nat, i: nat, j: nat)
    requires n == |p| < TWO_TO_64 && i == Sov(tag) && j == i + Sov(n)
    requires EncodedAt(data, 0, EncodeVarint(tag) + (EncodeVarint(n) + p))
    ensures |data| > 0 && ReadVarintAt(data, 0) == Ok((tag, i)) && ReadVarintAt(data, i) == Ok((n, j))
  {
    TagThenBody(data, 0, tag, EncodeVarint(n) + p);
    TagThenBody(data, i, n, p);
  }

  /** Wire type 4 on its own: only the tag is consumed. */
  lemma SkipEndGroupTag(data: seq<byte>, tag: uint64)
    requires tag % 8 == 4 && EncodedAt(data, 0, EncodeVarint(tag))
    ensures Skip(data) == Ok(|EncodeVarint(tag)|)
  {
    VarintRoundTrip(data, 0, tag);
  }

  /** Wire type 3: a start tag directly followed by an end tag is skipped whole. */
  lemma SkipEmptyGroup(data: seq<byte>, tag: uint64, end: uint64)
    requires tag % 8 == 3 && end % 8 == 4
    requires EncodedAt(data, 0, EncodeVarint(tag) + EncodeVarint(end))
    ensures Skip(data) == Ok(|EncodeVarint(tag) + EncodeVarint(end)|)
  {
    var i := Sov(tag);
    TagThenBody(data, 0, tag, EncodeVarint(end));
    VarintRoundTrip(data, i, end);
    GroupStartThenEnd(data, tag, i, end, i + Sov(end));
  }

  /** A group start tag whose next tag ends the group. */
  lemma GroupStartThenEnd(data: seq<byte>, tag: uint64, i: nat, end: uint64, j: nat)
    requires |data| > 0 && tag % 8 == 3 && ReadVarintAt(data, 0) == Ok((tag, i))
    requires end % 8 == 4 && ReadVarintAt(data, i) == Ok((end, j))
    ensures Skip(data) == Ok(j)
  {
    SkipGroupStart(data, tag, i);
    SkipGroupStep(data, i, end, j);
  }

  /**
   * Inside a group, a field that is not an end tag is stepped over by
   * `skipStatus` on the rest of the input, and the group goes on after it.
   */
  lemma SkipGroupInnerField(data: seq<byte>, i: nat, tag: uint64, j: nat, k: int)
    requires 1 <= i <= |data| && ReadVarintAt(data, i) == Ok((tag, j)) && tag % 8 != 4
    requires Skip(data[i..]) == Ok(k) && 0 <= k && i + k <= |data|
    ensures SkipGroup(data, i) == SkipGroup(data, i + k)
  {
    SkipGroupStep(data, i, tag, j);
  }

  /** A group whose start tag ends the input runs into `io.ErrUnexpectedEOF`. */
  lemma SkipUnterminatedGroup(data: seq<byte>, tag: uint64)
    requires tag % 8 == 3 && data == EncodeVarint(tag)
    ensures Skip(data) == Err(ErrUnexpectedEOF)
  {
    VarintRoundTrip(data, 0, tag);
    SkipGroupStart(data, tag, |data|);
  }
}
