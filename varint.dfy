/**
 * The base-128 varint layer of the generated status codec
 * (server/status/status.pb.go): `encodeVarintStatus`, `sovStatus`,
 * `sozStatus`, the varint loop that `Unmarshal` and `skipStatus` inline at
 * every integer they read, the 64-bit little-endian words of `fixed64`
 * fields, and Go's integer reinterpretations between `uint64`, `int64` and
 * `int32`.
 */
module Varint {
  import opened Wrappers

  const TWO_TO_32: int := 0x1_0000_0000
  const TWO_TO_31: int := 0x8000_0000
  const TWO_TO_64: int := 0x1_0000_0000_0000_0000
  const TWO_TO_63: int := 0x8000_0000_0000_0000

  type byte = x: int | 0 <= x < 256
  type uint64 = x: int | 0 <= x < TWO_TO_64
  type int64 = x: int | -TWO_TO_63 <= x < TWO_TO_63
  type int32 = x: int | -TWO_TO_31 <= x < TWO_TO_31

  /** The errors the decoder returns. */
  datatype DecodeError =
    | ErrIntOverflow                           // ErrIntOverflowStatus
    | ErrUnexpectedEOF                         // io.ErrUnexpectedEOF
    | ErrInvalidLength                         // ErrInvalidLengthStatus
    | ErrEndGroupForNonGroup                   // "wiretype end group for non-group"
    | ErrIllegalTag(fieldNum: int, wire: uint64)
    | ErrWrongWireType(field: int, wireType: nat)
    | ErrIllegalWireType(wireType: nat)

  // ---------------------------------------------------------------------
  // Go integer conversions

  /** `int64(u)`: the two's-complement reading of 64 bits. */
  function ToInt64(u: uint64): (s: int64)
    ensures s >= 0 <==> u < TWO_TO_63
    ensures s % TWO_TO_64 == u
  {
    if u < TWO_TO_63 then u else u - TWO_TO_64
  }

  /** `int32(u)`: the low 32 bits of `u`, read in two's complement. */
  function ToInt32(u: nat): (s: int32)
    ensures s % TWO_TO_32 == u % TWO_TO_32
  {
    var low := u % TWO_TO_32;
    if low < TWO_TO_31 then low else low - TWO_TO_32
  }

  /** `uint64(x)` for a signed `x`: sign extension to 64 bits. */
  function ToUint64(x: int): (u: uint64)
    requires -TWO_TO_63 <= x < TWO_TO_64
    ensures x >= 0 ==> u == x
  {
    x % TWO_TO_64
  }

  /**
   * `a + b` on non-negative Go `int`s: a sum of 2^63 or more wraps into the
   * negatives. Operands that index a Go slice keep the sum below 2^64; a
   * larger sum is kept negative as well.
   */
  function GoAddInt(a: nat, b: nat): (s: int)
    ensures s >= 0 <==> a + b < TWO_TO_63
    ensures s >= 0 ==> s == a + b
  {
    if a + b < TWO_TO_63 then a + b else (a + b) % TWO_TO_64 - TWO_TO_64
  }

  /** A sum between 2^63 and 2^64 wraps to exactly 2^64 below itself. */
  lemma GoAddIntWraps(a: nat, b: nat)
    requires TWO_TO_63 <= a + b < TWO_TO_64
    ensures GoAddInt(a, b) == a + b - TWO_TO_64 < 0
  {
    ModOfSmall(a + b, TWO_TO_64);
  }

  lemma Int64RoundTrip(x: int64)
    ensures ToInt64(ToUint64(x)) == x
  {
  }

  lemma Int32RoundTrip(x: int32)
    ensures ToInt32(ToUint64(x)) == x
  {
    var u := ToUint64(x);
    if x < 0 {
      assert u == x + TWO_TO_64;
      assert u % TWO_TO_32 == x + TWO_TO_32;
    }
  }

  /** Bitwise OR of two naturals, bit by bit from the least significant. */
  function BitOr(a: nat, b: nat): (r: nat)
    ensures a == 0 ==> r == b
    ensures b == 0 ==> r == a
  {
    if a == 0 then b
    else if b == 0 then a
    else (if a % 2 == 1 || b % 2 == 1 then 1 else 0) + 2 * BitOr(a / 2, b / 2)
  }

  /** The OR of two values below `2^n` stays below `2^n`. */
  lemma {:induction false} BitOrBound(a: nat, b: nat, n: nat)
    requires a < Pow2(n) && b < Pow2(n)
    ensures BitOr(a, b) < Pow2(n)
  {
    if a != 0 && b != 0 {
      assert n > 0;
      BitOrBound(a / 2, b / 2, n - 1);
    }
  }

  // ---------------------------------------------------------------------
  // Powers

  function Pow2(n: nat): (r: nat)
    ensures r >= 1
  {
    if n == 0 then 1 else 2 * Pow2(n - 1)
  }

  lemma {:induction false} Pow2Add(a: nat, b: nat)
    ensures Pow2(a + b) == Pow2(a) * Pow2(b)
    decreases b
  {
    if b > 0 {
      Pow2Add(a, b - 1);
      assert Pow2(a + b) == 2 * Pow2(a + b - 1);
    }
  }

  lemma {:induction false} Pow2Monotone(a: nat, b: nat)
    requires a <= b
    ensures Pow2(a) <= Pow2(b)
    decreases b
  {
    if a < b {
      Pow2Monotone(a, b - 1);
    }
  }

  lemma Pow2Seven()
    ensures Pow2(7) == 128
  {
  }

  lemma Pow2Sixteen()
    ensures Pow2(16) == 0x1_0000
  {
    Pow2Seven();
    assert Pow2(8) == 256;
    Pow2Add(8, 8);
  }

  /** Seven more bits of shift multiply by 128. */
  lemma Pow2Group(shift: nat)
    ensures Pow2(shift + 7) == 128 * Pow2(shift)
  {
    Pow2Add(shift, 7);
    Pow2Seven();
  }

  lemma Pow2ThirtyTwo()
    ensures Pow2(32) == TWO_TO_32
  {
    Pow2Sixteen();
    Pow2Add(16, 16);
  }

  lemma Pow2SixtyFour()
    ensures Pow2(64) == TWO_TO_64
  {
    Pow2ThirtyTwo();
    Pow2Add(32, 32);
  }

  lemma Pow2SixtyThree()
    ensures Pow2(63) == TWO_TO_63
  {
    Pow2ThirtyTwo();
    assert Pow2(31) == TWO_TO_31 by {
      Pow2Sixteen();
      Pow2Add(16, 15);
      assert Pow2(15) == 0x8000;
    }
    Pow2Add(32, 31);
  }

  /** `128^n`. */
  function Pow128(n: nat): (r: nat)
    ensures r >= 1
  {
    if n == 0 then 1 else 128 * Pow128(n - 1)
  }

  lemma {:induction false} Pow128IsPow2(n: nat)
    ensures Pow128(n) == Pow2(7 * n)
  {
    if n > 0 {
      Pow128IsPow2(n - 1);
      Pow2Add(7 * (n - 1), 7);
      Pow2Seven();
    }
  }

  // ---------------------------------------------------------------------
  // Encoding and its length

  /**
   * The varint encoding of `v`: seven bits per byte, least significant
   * group first, the high bit set on every byte but the last.
   */
  function EncodeVarint(v: nat): (bs: seq<byte>)
    ensures |bs| == Sov(v)
    decreases v
  {
    if v < 128 then [v] else [v % 128 + 128] + EncodeVarint(v / 128)
  }

  /**
   * The number of base-128 groups of `v`: one, plus one for every further
   * seven bits.
   */
  function Sov(v: nat): (n: nat)
    ensures n >= 1
    ensures n == 1 <==> v < 128
  {
    if v < 128 then 1 else 1 + Sov(v / 128)
  }

  /** `v` fits in `sovStatus(v)` groups of seven bits. */
  lemma {:induction false} SovBound(v: nat)
    ensures v < Pow128(Sov(v))
  {
    if v >= 128 {
      SovBound(v / 128);
    }
  }

  /** `sovStatus(x)` is the least `n` with `x < 2^(7n)`. */
  lemma {:induction false} SovIsLeast(v: nat, n: nat)
    requires n >= 1 && v < Pow128(n)
    ensures Sov(v) <= n
  {
    if v >= 128 {
      assert n > 1;
      assert v < 128 * Pow128(n - 1);
      assert v / 128 < Pow128(n - 1);
      SovIsLeast(v / 128, n - 1);
      assert Sov(v) == 1 + Sov(v / 128);
    }
  }

  /** A 64-bit value takes at most ten bytes. */
  lemma SovAtMostTen(v: uint64)
    ensures Sov(v) <= 10
  {
    assert Pow128(10) == 0x40_0000_0000_0000_0000;
    SovIsLeast(v, 10);
  }

  lemma SovMinimal(v: nat)
    ensures v < Pow2(7 * Sov(v))
    ensures Sov(v) > 1 ==> Pow2(7 * (Sov(v) - 1)) <= v
  {
    SovBound(v);
    Pow128IsPow2(Sov(v));
    if Sov(v) > 1 {
      Pow128IsPow2(Sov(v) - 1);
      if v < Pow128(Sov(v) - 1) {
        SovIsLeast(v, Sov(v) - 1);
      }
    }
  }

  /**
   * `encodeVarintStatus` writes exactly `sovStatus(v)` bytes; all but the last
   * carry the continuation bit `0x80`, and the last does not.
   */
  lemma {:induction false} EncodeVarintShape(v: nat)
    ensures |EncodeVarint(v)| == Sov(v)
    ensures forall k :: 0 <= k < |EncodeVarint(v)| - 1 ==> EncodeVarint(v)[k] >= 128
    ensures EncodeVarint(v)[|EncodeVarint(v)| - 1] < 128
  {
    if v >= 128 {
      EncodeVarintShape(v / 128);
      var bs := EncodeVarint(v);
      assert bs[1..] == EncodeVarint(v / 128);
      assert forall k :: 1 <= k < |bs| - 1 ==> bs[k] == EncodeVarint(v / 128)[k - 1];
    }
  }

  // ---------------------------------------------------------------------
  // Decoding

  /**
   * The inlined varint loop: starting at `i` with `shift` bits already
   * read into `acc`, it fails once `shift` reaches 64, and otherwise reads
   * the next byte (`VarintByte`). The result is the value and the index
   * after it.
   */
  function VarintLoop(data: seq<byte>, i: nat, shift: nat, acc: uint64): (r: Result<(uint64, nat), DecodeError>)
    ensures r.Ok? ==> i < r.value.1 <= |data|
    decreases 64 - shift, 1
  {
    if shift >= 64 then Err(ErrIntOverflow) else VarintByte(data, i, shift, acc)
  }

  /**
   * One pass of the loop body below shift 64: it fails at the end of the
   * input, and otherwise adds the next seven bits and stops at the first
   * byte below `0x80`.
   *
   * Go writes `acc |= (b & 0x7F) << shift` on a `uint64`. Each group lands
   * above every bit read so far, so OR is addition here; the shift drops
   * what passes bit 63, hence the reduction modulo 2^64.
   */
  function VarintByte(data: seq<byte>, i: nat, shift: nat, acc: uint64): (r: Result<(uint64, nat), DecodeError>)
    requires shift < 64
    ensures r.Ok? ==> i < r.value.1 <= |data|
    decreases 64 - shift, 0
  {
    if i >= |data| then Err(ErrUnexpectedEOF)
    else
      var b := data[i];
      var acc' := (acc + (b % 128) * Pow2(shift)) % TWO_TO_64;
      if b < 128 then Ok((acc', i + 1))
      else VarintLoop(data, i + 1, shift + 7, acc')
  }

  /** A varint read from `i` with a fresh accumulator. */
  function ReadVarintAt(data: seq<byte>, i: nat): (r: Result<(uint64, nat), DecodeError>)
    ensures r.Ok? ==> i < r.value.1 <= |data|
  {
    VarintLoop(data, i, 0, 0)
  }

  lemma ModOfSmall(x: int, m: int)
    requires 0 <= x < m
    ensures x % m == x
  {
  }

  lemma MulAddRight(a: int, b: int, c: int)
    ensures (a + b) * c == a * c + b * c
  {
  }

  lemma MulMonotone(a: nat, b: nat, c: nat)
    requires a <= b
    ensures a * c <= b * c
  {
  }

  /** The arithmetic of one continuation byte in the round trip. */
  lemma ContinuationStep(v: nat, p: nat, acc: nat, m: nat)
    requires v >= 128 && acc < p && acc + v * p < m
    ensures acc + (v % 128) * p < 128 * p
    ensures acc + (v % 128) * p + (v / 128) * (128 * p) == acc + v * p
    ensures 128 * p < m
    ensures (acc + (v % 128) * p) % m == acc + (v % 128) * p
  {
    var q, r := v / 128, v % 128;
    assert v == 128 * q + r;
    MulAddRight(128 * q, r, p);
    assert (128 * q) * p == q * (128 * p);
    MulMonotone(r, 127, p);
    MulMonotone(128, v, p);
    assert q * (128 * p) >= 0;
    ModOfSmall(acc + r * p, m);
  }

  /**
   * One continuation byte of the round trip, in terms of `shift`: the next
   * shift stays below 64, and the partial sum is below the next power and
   * below 2^64, so the reduction modulo 2^64 leaves it alone.
   */
  lemma ContinuationShift(v: nat, shift: nat, acc: nat)
    requires v >= 128 && shift < 64 && acc < Pow2(shift)
    requires acc + v * Pow2(shift) < TWO_TO_64
    ensures shift + 7 < 64
    ensures acc + (v % 128) * Pow2(shift) < Pow2(shift + 7)
    ensures acc + (v % 128) * Pow2(shift) + (v / 128) * Pow2(shift + 7) == acc + v * Pow2(shift)
    ensures (acc + (v % 128) * Pow2(shift)) % TWO_TO_64 == acc + (v % 128) * Pow2(shift)
  {
    ContinuationStep(v, Pow2(shift), acc, TWO_TO_64);
    Pow2Group(shift);
    if shift + 7 >= 64 {
      Pow2Monotone(64, shift + 7);
      Pow2SixtyFour();
      assert false;
    }
  }

  /** The varint loop on a continuation byte moves on to the next one. */
  lemma VarintLoopContinue(data: seq<byte>, i: nat, shift: nat, acc: uint64)
    requires shift < 64 && i < |data| && data[i] >= 128
    ensures VarintLoop(data, i, shift, acc)
         == VarintLoop(data, i + 1, shift + 7, (acc + (data[i] % 128) * Pow2(shift)) % TWO_TO_64)
  {
    assert VarintLoop(data, i, shift, acc) == VarintByte(data, i, shift, acc);
  }

  lemma {:induction false} VarintLoopRoundTrip(data: seq<byte>, i: nat, v: nat, shift: nat, acc: nat)
    requires shift < 64 && acc < Pow2(shift)
    requires acc + v * Pow2(shift) < TWO_TO_64
    requires i + Sov(v) <= |data| && data[i..i + Sov(v)] == EncodeVarint(v)
    ensures VarintLoop(data, i, shift, acc) == Ok((acc + v * Pow2(shift), i + Sov(v)))
    decreases v
  {
    if v >= 128 {
      var acc' := ContinuationByte(data, i, v, shift, acc);
      VarintLoopRoundTrip(data, i + 1, v / 128, shift + 7, acc');
    } else {
      LastByte(data, i, v, shift, acc);
    }
  }

  /**
   * The first byte of the encoding of `v >= 128`: the loop moves on to the
   * encoding of `v / 128` with an accumulator that, with it, adds up to the
   * same sum.
   */
  lemma ContinuationByte(data: seq<byte>, i: nat, v: nat, shift: nat, acc: nat) returns (acc': nat)
    requires v >= 128 && shift < 64 && acc < Pow2(shift)
    requires acc + v * Pow2(shift) < TWO_TO_64
    requires i + Sov(v) <= |data| && data[i..i + Sov(v)] == EncodeVarint(v)
    ensures shift + 7 < 64 && acc' < Pow2(shift + 7)
    ensures acc' + (v / 128) * Pow2(shift + 7) == acc + v * Pow2(shift)
    ensures i + 1 + Sov(v / 128) == i + Sov(v)
    ensures data[i + 1..i + 1 + Sov(v / 128)] == EncodeVarint(v / 128)
    ensures VarintLoop(data, i, shift, acc) == VarintLoop(data, i + 1, shift + 7, acc')
  {
    assert data[i] == EncodeVarint(v)[0];
    assert data[i] % 128 == v % 128;
    ContinuationShift(v, shift, acc);
    acc' := acc + (v % 128) * Pow2(shift);
    VarintLoopContinue(data, i, shift, acc);
    assert data[i + 1..i + 1 + Sov(v / 128)] == EncodeVarint(v)[1..];
  }

  /** The only byte of the encoding of `v < 128` ends the loop with the sum. */
  lemma LastByte(data: seq<byte>, i: nat, v: nat, shift: nat, acc: nat)
    requires v < 128 && shift < 64 && acc < Pow2(shift)
    requires acc + v * Pow2(shift) < TWO_TO_64
    requires i + Sov(v) <= |data| && data[i..i + Sov(v)] == EncodeVarint(v)
    ensures VarintLoop(data, i, shift, acc) == Ok((acc + v * Pow2(shift), i + Sov(v)))
  {
    assert data[i] == EncodeVarint(v)[0];
    assert VarintLoop(data, i, shift, acc) == VarintByte(data, i, shift, acc);
    ModOfSmall(acc + v * Pow2(shift), TWO_TO_64);
  }

  lemma EncodeVarintLength(v: nat)
    ensures |EncodeVarint(v)| == Sov(v)
  {
    EncodeVarintShape(v);
  }

  /**
   * Round trip: the varint loop started at `i` on the encoding of `v`
   * returns `v` and the index just past its `sovStatus(v)` bytes, whatever
   * precedes or follows.
   */
  lemma VarintRoundTrip(data: seq<byte>, i: nat, v: uint64)
    requires EncodedAt(data, i, EncodeVarint(v))
    ensures ReadVarintAt(data, i) == Ok((v, i + Sov(v)))
  {
    EncodeVarintLength(v);
    Pow2SixtyFour();
    assert Pow2(0) == 1;
    assert 0 + v * Pow2(0) == v;
    VarintLoopRoundTrip(data, i, v, 0, 0);
  }

  /** The loop fails with an overflow after ten continuation bytes. */
  lemma {:induction false} VarintLoopOverflow(data: seq<byte>, i: nat, shift: nat, acc: uint64)
    requires shift % 7 == 0 && shift < 64
    requires i + (70 - shift) / 7 <= |data|
    requires forall k :: i <= k < i + (70 - shift) / 7 ==> data[k] >= 128
    ensures VarintLoop(data, i, shift, acc) == Err(ErrIntOverflow)
    decreases 64 - shift
  {
    assert VarintLoop(data, i, shift, acc) == VarintByte(data, i, shift, acc);
    if shift + 7 < 64 {
      VarintLoopOverflow(data, i + 1, shift + 7, (acc + (data[i] % 128) * Pow2(shift)) % TWO_TO_64);
    }
  }

  /** The loop fails with `io.ErrUnexpectedEOF` when the input ends on a continuation byte. */
  lemma {:induction false} VarintLoopEOF(data: seq<byte>, i: nat, shift: nat, acc: uint64)
    requires shift % 7 == 0 && shift < 64 && i <= |data|
    requires |data| - i < (70 - shift) / 7
    requires forall k :: i <= k < |data| ==> data[k] >= 128
    ensures VarintLoop(data, i, shift, acc) == Err(ErrUnexpectedEOF)
    decreases |data| - i
  {
    assert VarintLoop(data, i, shift, acc) == VarintByte(data, i, shift, acc);
    if i < |data| {
      VarintLoopEOF(data, i + 1, shift + 7, (acc + (data[i] % 128) * Pow2(shift)) % TWO_TO_64);
    }
  }

  // ---------------------------------------------------------------------
  // The imperative forms

  /** `sovStatus`: counts the groups by shifting seven bits at a time. */
  method SovStatus(x: uint64) returns (n: nat)
    ensures n == Sov(x)
  {
    var y: nat := x;
    n := 0;
    while true
      invariant n + Sov(y) == Sov(x)
      decreases y
    {
      n := n + 1;
      y := y / 128;
      if y == 0 {
        break;
      }
    }
  }

  /**
   * The zigzag transform of `sozStatus`: `(x << 1) ^ uint64(int64(x) >> 63)`.
   * The arithmetic shift gives all zeros or all ones, so the XOR either keeps
   * `2x mod 2^64` or complements it.
   */
  function Zigzag(x: uint64): uint64 {
    if x < TWO_TO_63 then 2 * x else TWO_TO_64 - 1 - (2 * x - TWO_TO_64)
  }

  /** Zigzag maps the signed reading of `x` to `2s` or `-2s - 1`. */
  lemma ZigzagOfSigned(x: uint64)
    ensures Zigzag(x) == if ToInt64(x) >= 0 then 2 * ToInt64(x) else -2 * ToInt64(x) - 1
  {
  }

  /** `sozStatus`: the varint size of the zigzag encoding. */
  method SozStatus(x: uint64) returns (n: nat)
    ensures n == Sov(Zigzag(x))
    ensures -64 <= ToInt64(x) < 64 <==> n == 1
  {
    n := SovStatus(Zigzag(x));
  }

  /**
   * `encodeVarintStatus`: writes the encoding of `v` at `offset` and returns
   * the index after it; nothing else in the buffer changes. A buffer too
   * short for the encoding is an index-out-of-range panic in Go.
   */
  method EncodeVarintStatus(dAtA: array<byte>, offset: nat, v: uint64) returns (next: nat)
    requires offset + Sov(v) <= dAtA.Length
    modifies dAtA
    ensures next == offset + Sov(v)
    ensures dAtA[..next] == old(dAtA[..offset]) + EncodeVarint(v)
    ensures dAtA[next..] == old(dAtA[next..])
  {
    var x: nat := v;
    next := offset;
    while x >= 128
      invariant offset <= next && next + Sov(x) == offset + Sov(v)
      invariant dAtA[..next] + EncodeVarint(x) == old(dAtA[..offset]) + EncodeVarint(v)
      invariant dAtA[offset + Sov(v)..] == old(dAtA[offset + Sov(v)..])
      decreases x
    {
      ghost var before := dAtA[..next];
      dAtA[next] := x % 128 + 128;
      assert dAtA[..next + 1] == before + [x % 128 + 128];
      x := x / 128;
      next := next + 1;
    }
    ghost var before := dAtA[..next];
    dAtA[next] := x;
    assert dAtA[..next + 1] == before + [x];
    next := next + 1;
  }

  /** `data` holds the bytes `bs` from index `i` on. */
  predicate EncodedAt(data: seq<byte>, i: nat, bs: seq<byte>) {
    i + |bs| <= |data| && data[i..i + |bs|] == bs
  }

  /** Bytes `a + b` sit at `i` exactly when `a` sits at `i` and `b` right after it. */
  lemma EncodedAtConcat(data: seq<byte>, i: nat, a: seq<byte>, b: seq<byte>)
    ensures EncodedAt(data, i, a + b) <==> EncodedAt(data, i, a) && EncodedAt(data, i + |a|, b)
  {
    if EncodedAt(data, i, a + b) {
      assert data[i..i + |a|] == (a + b)[..|a|];
      assert data[i + |a|..i + |a| + |b|] == (a + b)[|a|..];
    }
    if EncodedAt(data, i, a) && EncodedAt(data, i + |a|, b) {
      assert data[i..i + |a + b|] == data[i..i + |a|] + data[i + |a|..i + |a| + |b|];
    }
  }

  /** What sits at `i + k` in `data` sits at `k` in `data[i..]`. */
  lemma EncodedAtSuffix(data: seq<byte>, i: nat, k: nat, bs: seq<byte>)
    requires i <= |data|
    ensures EncodedAt(data, i + k, bs) <==> EncodedAt(data[i..], k, bs)
  {
    if i + k + |bs| <= |data| {
      assert data[i..][k..k + |bs|] == data[i + k..i + k + |bs|];
    }
  }

  /** One inlined varint loop, reading from `start`. */
  method ReadVarint(data: seq<byte>, start: nat) returns (r: Result<(uint64, nat), DecodeError>)
    ensures r == ReadVarintAt(data, start)
  {
    var i: nat := start;
    var shift: nat := 0;
    var acc: uint64 := 0;
    while true
      invariant VarintLoop(data, i, shift, acc) == ReadVarintAt(data, start)
      decreases 64 - shift
    {
      if shift >= 64 {
        return Err(ErrIntOverflow);
      }
      assert VarintLoop(data, i, shift, acc) == VarintByte(data, i, shift, acc);
      if i >= |data| {
        return Err(ErrUnexpectedEOF);
      }
      var b := data[i];
      i := i + 1;
      acc := (acc + (b % 128) * Pow2(shift)) % TWO_TO_64;
      if b < 128 {
        return Ok((acc, i));
      }
      shift := shift + 7;
    }
  }

  // ---------------------------------------------------------------------
  // Little-endian 64-bit words (fixed64 fields)

  /** `PutUint64` in little-endian order: `n` bytes of `v`, least significant first. */
  function LittleEndian(v: nat, n: nat): (bs: seq<byte>)
    ensures |bs| == n
  {
    if n == 0 then [] else [v % 256] + LittleEndian(v / 256, n - 1)
  }

  /** `Uint64` in little-endian order. */
  function LittleEndianValue(bs: seq<byte>): nat {
    if bs == [] then 0 else bs[0] + 256 * LittleEndianValue(bs[1..])
  }

  function Pow256(n: nat): (r: nat)
    ensures r >= 1
  {
    if n == 0 then 1 else 256 * Pow256(n - 1)
  }

  lemma {:induction false} LittleEndianRoundTrip(v: nat, n: nat)
    requires v < Pow256(n)
    ensures LittleEndianValue(LittleEndian(v, n)) == v
  {
    if n > 0 {
      LittleEndianRoundTrip(v / 256, n - 1);
      assert LittleEndian(v, n)[1..] == LittleEndian(v / 256, n - 1);
    }
  }

  /** The eight bytes of a `fixed64` value read back give the value. */
  lemma Fixed64RoundTrip(v: uint64)
    ensures LittleEndianValue(LittleEndian(v, 8)) == v
  {
    assert Pow256(8) == TWO_TO_64;
    LittleEndianRoundTrip(v, 8);
  }

  /** Any `n` bytes read little-endian give a value below `256^n`. */
  lemma {:induction false} LittleEndianValueBound(bs: seq<byte>)
    ensures LittleEndianValue(bs) < Pow256(|bs|)
  {
    if bs != [] {
      LittleEndianValueBound(bs[1..]);
    }
  }

  /** `binary.LittleEndian.Uint64`: the word in the eight bytes from `j`. */
  function Fixed64At(data: seq<byte>, j: nat): (v: uint64)
    requires j + 8 <= |data|
  {
    LittleEndianValueBound(data[j..j + 8]);
    assert Pow256(8) == TWO_TO_64;
    LittleEndianValue(data[j..j + 8])
  }
}
