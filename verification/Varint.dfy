/** Canonical variable-length integers (src/varint.rs): unsigned LEB128, section 7.6 of the DWARF 5 standard,
    restricted to minimal form and 64 bits. */
module Varint {
  import opened Wrappers

  type byte = x: int | 0 <= x < 256
  type u64 = x: int | 0 <= x < 0x1_0000_0000_0000_0000
  type i64 = x: int | -0x8000_0000_0000_0000 <= x < 0x8000_0000_0000_0000

  datatype VarintError = UnexpectedEof | Overflow | TooLong | NonCanonical

  /** Base-128 groups, least significant first, all but the last with the continuation bit. */
  function EncodeU64(v: nat): (r: seq<byte>)
    ensures |r| > 0
  {
    if v < 128 then [v] else [v % 128 + 128] + EncodeU64(v / 128)
  }

  /** Appends the encoding of `v`. */
  method WriteU64(value: nat, out: seq<byte>) returns (out': seq<byte>)
    ensures out' == out + EncodeU64(value)
  {
    var v := value;
    out' := out;
    while true
      invariant out' + EncodeU64(v) == out + EncodeU64(value)
      decreases v
    {
      var b := v % 128;
      v := v / 128;
      if v != 0 { b := b + 128; }
      out' := out' + [b];
      if v == 0 { return; }
    }
  }

  /** The decoder from group `i` on: the value of the remaining groups and the position after them. */
  function DecodeFrom(buf: seq<byte>, pos: nat, i: nat): (r: Result<(nat, nat), VarintError>)
    requires i <= 9
    ensures r.Ok? ==> pos < r.value.1 <= |buf|
    decreases 10 - i
  {
    if pos >= |buf| then Err(UnexpectedEof)
    else
      var b := buf[pos];
      var payload := b % 128;
      if i == 9 && payload > 1 then Err(Overflow)
      else if b < 128 then
        if i > 0 && b == 0 then Err(NonCanonical) else Ok((payload, pos + 1))
      else if i == 9 then Err(TooLong)
      else
        match DecodeFrom(buf, pos + 1, i + 1)
        case Err(e) => Err(e)
        case Ok((v, q)) => Ok((payload + 128 * v, q))
  }

  function DecodeU64(buf: seq<byte>, pos: nat): (r: Result<(nat, nat), VarintError>)
    ensures r.Ok? ==> pos < r.value.1 <= |buf|
  {
    DecodeFrom(buf, pos, 0)
  }

  ghost function Pow128(i: nat): nat { if i == 0 then 1 else 128 * Pow128(i - 1) }

  /** A group of payload bits moved to its place. */
  function Placed(payload: nat, scale: nat): nat { payload * scale }

  /** A result read at scale `s` added to what is already collected. */
  ghost function Collected(acc: nat, s: nat, r: Result<(nat, nat), VarintError>): Result<(nat, nat), VarintError>
  {
    match r
    case Err(e) => Err(e)
    case Ok((v, q)) => Ok((acc + Placed(v, s), q))
  }

  /** Collecting one more group with the continuation bit. */
  lemma {:induction false} CollectStep(buf: seq<byte>, pos: nat, i: nat, acc: nat, s: nat)
    requires i < 9 && pos < |buf| && buf[pos] >= 128
    ensures Collected(acc, s, DecodeFrom(buf, pos, i))
         == Collected(acc + Placed(buf[pos] % 128, s), 128 * s, DecodeFrom(buf, pos + 1, i + 1))
  {
    var payload: int := buf[pos] % 128;
    match DecodeFrom(buf, pos + 1, i + 1)
    case Err(_) =>
    case Ok((v, _)) =>
      Distribute(payload, s, v);
  }

  lemma {:induction false} CollectStart(buf: seq<byte>, start: nat)
    ensures DecodeU64(buf, start) == Collected(0, 1, DecodeFrom(buf, start, 0))
  {
  }

  /** Where the reading ends, or why it stops. */
  lemma {:induction false} CollectEnd(buf: seq<byte>, pos: nat, i: nat, acc: nat, s: nat)
    requires i <= 9
    ensures var r := Collected(acc, s, DecodeFrom(buf, pos, i));
      if pos >= |buf| then r == Err(UnexpectedEof)
      else if i == 9 && buf[pos] % 128 > 1 then r == Err(Overflow)
      else if buf[pos] < 128 then
        if i > 0 && buf[pos] == 0 then r == Err(NonCanonical) else r == Ok((acc + Placed(buf[pos] % 128, s), pos + 1))
      else i == 9 ==> r == Err(TooLong)
  {
  }

  lemma {:induction false} Distribute(payload: int, s: int, v: int)
    ensures (payload + 128 * v) * s == payload * s + v * (128 * s)
  {
  }

  /** Reads one integer at `start`, shifting each group of payload bits into place. */
  method ReadU64(buf: seq<byte>, start: nat) returns (r: Result<(nat, nat), VarintError>)
    ensures r == DecodeU64(buf, start)
  {
    hide DecodeFrom, Placed;
    var pos: nat, result: nat, shift: nat, scale: nat := start, 0, 0, 1;
    assert DecodeU64(buf, start) == Collected(0, 1, DecodeFrom(buf, start, 0)) by { CollectStart(buf, start); }
    hide Collected;
    while true
      invariant start <= pos && shift == 7 * (pos - start) <= 63 && scale == Pow128(pos - start)
      invariant DecodeU64(buf, start) == Collected(result, scale, DecodeFrom(buf, pos, pos - start))
      decreases 63 - shift
    {
      CollectEnd(buf, pos, pos - start, result, scale);
      if pos >= |buf| { return Err(UnexpectedEof); }
      var b: int := buf[pos];
      var payload: int := b % 128;
      if shift == 63 && payload > 1 { return Err(Overflow); }
      var group := Placed(payload, scale);
      if b < 128 {
        if pos + 1 - start > 1 && b == 0 { return Err(NonCanonical); }
        return Ok((result + group, pos + 1));
      }
      if pos + 1 - start >= 10 { return Err(TooLong); }
      CollectStep(buf, pos, pos - start, result, scale);
      result := result + group;
      pos, shift, scale := pos + 1, shift + 7, 128 * scale;
    }
  }

  /** The values that fit in the groups from `i` on. */
  ghost function Bound(i: nat): nat
    requires i <= 9
    decreases 9 - i
  {
    if i == 9 then 2 else 128 * Bound(i + 1)
  }

  /** What is accepted is the encoding of what is returned. */
  lemma {:induction false} AcceptedFrom(buf: seq<byte>, pos: nat, i: nat)
    requires i <= 9 && DecodeFrom(buf, pos, i).Ok?
    ensures var (v, q) := DecodeFrom(buf, pos, i).value;
      v < Bound(i) && (i > 0 ==> v > 0) && q <= |buf| && buf[pos..q] == EncodeU64(v)
    decreases 10 - i
  {
    var b := buf[pos];
    if b < 128 {
      assert buf[pos..pos + 1] == [b];
      assert i < 9 ==> Bound(i) >= 128 by { BoundPositive(i); }
    } else {
      AcceptedFrom(buf, pos + 1, i + 1);
      var (v, q) := DecodeFrom(buf, pos + 1, i + 1).value;
      var w := b % 128 + 128 * v;
      LowGroup(b, v);
      assert EncodeU64(w) == [b] + EncodeU64(v);
      assert buf[pos..q] == [b] + buf[pos + 1..q];
    }
  }

  lemma {:induction false} LowGroup(b: byte, v: nat)
    requires b >= 128
    ensures var w := b % 128 + 128 * v; w % 128 + 128 == b && w / 128 == v
  {
  }

  lemma {:induction false} BoundPositive(i: nat)
    requires i <= 9
    ensures Bound(i) >= 2
    decreases 9 - i
  {
    if i < 9 { BoundPositive(i + 1); }
  }

  lemma {:induction false} LastGroup(buf: seq<byte>, pos: nat, i: nat)
    requires i <= 9 && pos < |buf| && buf[pos] < 128 && (i == 9 ==> buf[pos] < 2) && (i > 0 ==> buf[pos] > 0)
    ensures DecodeFrom(buf, pos, i) == Ok((buf[pos] as nat, pos + 1))
  {
  }

  lemma {:induction false} OneGroup(buf: seq<byte>, pos: nat, i: nat, v: nat, q: nat)
    requires i < 9 && pos < |buf| && buf[pos] == v % 128 + 128 && DecodeFrom(buf, pos + 1, i + 1) == Ok((v / 128, q))
    ensures DecodeFrom(buf, pos, i) == Ok((v, q))
  {
  }

  /** Every encoding of a value that fits is accepted, wherever it stands. */
  lemma {:induction false} AcceptsFrom(buf: seq<byte>, pos: nat, i: nat, v: nat)
    requires i <= 9 && v < Bound(i) && (i > 0 ==> v > 0)
    requires pos <= |buf| && EncodeU64(v) <= buf[pos..]
    ensures DecodeFrom(buf, pos, i) == Ok((v, pos + |EncodeU64(v)|))
    decreases 10 - i
  {
    hide DecodeFrom;
    var e := EncodeU64(v);
    assert buf[pos] == buf[pos..][0] == e[0];
    if v < 128 {
      LastGroup(buf, pos, i);
    } else {
      assert e[1..] == EncodeU64(v / 128) <= buf[pos..][1..] == buf[pos + 1..];
      AcceptsFrom(buf, pos + 1, i + 1, v / 128);
      OneGroup(buf, pos, i, v, pos + |e|);
    }
  }

  /** The decoder accepts exactly the encodings of 64-bit values and returns the encoded value. */
  lemma {:induction false} DecodesExactly(buf: seq<byte>, pos: nat, v: nat, q: nat)
    ensures DecodeU64(buf, pos) == Ok((v, q))
      <==> v < 0x1_0000_0000_0000_0000 && q == pos + |EncodeU64(v)| <= |buf| && buf[pos..q] == EncodeU64(v)
  {
    if DecodeU64(buf, pos) == Ok((v, q)) {
      AcceptedFrom(buf, pos, 0);
      assert |buf[pos..q]| == q - pos;
    }
    if v < Bound(0) && q == pos + |EncodeU64(v)| <= |buf| && buf[pos..q] == EncodeU64(v) {
      AcceptsFrom(buf, pos, 0, v);
    }
  }

  /** No encoding is a proper prefix of another, and none is longer than ten bytes. */
  lemma {:induction false} PrefixFree(v: u64, w: u64, rest: seq<byte>)
    requires EncodeU64(w) == EncodeU64(v) + rest
    ensures v == w && rest == []
  {
    DecodesExactly(EncodeU64(w), 0, v, |EncodeU64(v)|);
    DecodesExactly(EncodeU64(w), 0, w, |EncodeU64(w)|);
    assert EncodeU64(w)[0..|EncodeU64(v)|] == EncodeU64(v);
    assert EncodeU64(w)[0..|EncodeU64(w)|] == EncodeU64(w);
  }

  lemma {:induction false} AtMostTen(v: nat, i: nat)
    requires i <= 9 && v < Bound(i)
    ensures |EncodeU64(v)| <= 10 - i
    decreases 10 - i
  {
    if v >= 128 { AtMostTen(v / 128, i + 1); }
  }

  // ---- Bytes and errors ----

  lemma {:induction false} DivideOn(v: nat, i: nat)
    ensures Pow128(i) > 0 && v / 128 / Pow128(i) == v / Pow128(i + 1)
  {
    PowPositive(i);
    var p := Pow128(i);
    var q, r := v / 128, v % 128;
    var a, c := q / p, q % p;
    assert v == 128 * (a * p + c) + r;
    assert v == a * (128 * p) + (128 * c + r) by { assert 128 * (a * p) == a * (128 * p); }
    Quotient(v, 128 * p, a, 128 * c + r);
  }

  lemma {:induction false} PowPositive(i: nat)
    ensures Pow128(i) > 0
  {
    if i > 0 { PowPositive(i - 1); }
  }

  lemma {:induction false} Quotient(v: nat, d: nat, a: nat, r: nat)
    requires d > 0 && v == a * d + r && r < d
    ensures v / d == a
  {
    var q := v / d;
    assert v == q * d + v % d;
    Multiples(a, q, d);
    Multiples(q, a, d);
  }

  lemma {:induction false} Multiples(a: nat, b: nat, d: nat)
    ensures a < b ==> (a + 1) * d <= b * d
  {
    assert a < b ==> (b - a - 1) * d >= 0;
  }

  /** The bytes of an encoding hold the groups of seven bits, the lowest first; all but the last carry the
      continuation bit; nothing is left after them, and a last byte of 0 stands only for the number 0. */
  lemma {:induction false} GroupAt(v: nat, i: nat)
    requires i < |EncodeU64(v)|
    ensures Pow128(i) > 0 && EncodeU64(v)[i] % 128 == v / Pow128(i) % 128
    ensures EncodeU64(v)[i] >= 128 <==> i < |EncodeU64(v)| - 1
    ensures i == |EncodeU64(v)| - 1 ==> v / Pow128(i) < 128 && (v > 0 ==> v / Pow128(i) > 0)
  {
    if v >= 128 && i > 0 {
      assert EncodeU64(v)[i] == EncodeU64(v / 128)[i - 1];
      GroupAt(v / 128, i - 1);
      DivideOn(v, i - 1);
    } else {
      assert Pow128(0) == 1;
    }
  }

  /** Groups with the continuation bit pass an error on from the group after them. */
  lemma {:induction false} ErrorAfter(buf: seq<byte>, pos: nat, i: nat, k: nat)
    requires i <= k <= 9 && pos + (k - i) <= |buf| && forall j :: pos <= j < pos + (k - i) ==> buf[j] >= 128
    ensures forall e :: DecodeFrom(buf, pos, i) == Err(e) <==> DecodeFrom(buf, pos + (k - i), k) == Err(e)
    decreases k - i
  {
    if i < k {
      assert buf[pos] >= 128;
      ErrorAfter(buf, pos + 1, i + 1, k);
    }
  }

  /** What is refused after `k` bytes with the continuation bit: the end of the buffer, a last byte of 0 that a
      shorter encoding would leave out, more than one bit in the tenth byte, or an eleventh byte. */
  lemma {:induction false} ReadErrors(buf: seq<byte>, pos: nat, k: nat)
    requires k <= 9 && pos + k <= |buf| && forall j :: pos <= j < pos + k ==> buf[j] >= 128
    ensures DecodeU64(buf, pos) == Err(UnexpectedEof)
        <==> (pos + k == |buf| || (k < 9 && buf[pos + k] >= 128 && DecodeFrom(buf, pos + k, k) == Err(UnexpectedEof)))
    ensures pos + k < |buf| && buf[pos + k] == 0 && k > 0 ==> DecodeU64(buf, pos) == Err(NonCanonical)
    ensures k == 9 && pos + 9 < |buf| && buf[pos + 9] % 128 > 1 ==> DecodeU64(buf, pos) == Err(Overflow)
    ensures k == 9 && pos + 9 < |buf| && 128 <= buf[pos + 9] <= 129 ==> DecodeU64(buf, pos) == Err(TooLong)
    ensures pos + k < |buf| && 0 < buf[pos + k] < 128 && (k == 9 ==> buf[pos + 9] == 1) ==> DecodeU64(buf, pos).Ok?
  {
    ErrorAfter(buf, pos, 0, k);
    var r := DecodeU64(buf, pos);
    assert r.Err? ==> DecodeFrom(buf, pos + k, k) == Err(r.error);
  }

  // ---- Signed integers ----

  const TWO64: int := 0x1_0000_0000_0000_0000

  /** `(v << 1) ^ (v >> 63)` on 64 bits: the doubled value, complemented when `v` is negative. */
  function ZigZag(v: i64): u64
  {
    var doubled := (2 * v) % TWO64;
    if v < 0 then TWO64 - 1 - doubled else doubled
  }

  /** `(z >> 1) ^ -(z & 1)`: half of `z`, complemented when `z` is odd. */
  function UnZigZag(z: u64): i64
  {
    if z % 2 == 0 then z / 2 else -1 - z / 2
  }

  /** The two maps are inverse bijections between the signed and the unsigned 64-bit integers. */
  lemma {:induction false} ZigZagBijection(v: i64, z: u64)
    ensures UnZigZag(ZigZag(v)) == v && ZigZag(UnZigZag(z)) == z
  {
    assert v < 0 ==> (2 * v) % TWO64 == 2 * v + TWO64;
  }

  /** The lowest bit of a code is the sign and the rest the distance from 0 or from -1, so that numbers near 0
      have short encodings. */
  lemma {:induction false} ZigZagCodes(v: i64)
    ensures ZigZag(v) % 2 == (if v < 0 then 1 else 0) && ZigZag(v) / 2 == if v < 0 then -1 - v else v
  {
    assert v < 0 ==> (2 * v) % TWO64 == 2 * v + TWO64;
  }
}
