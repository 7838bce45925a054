/** The bit cursor and the Exp-Golomb codes (crates/oxagent/src/h264.rs, `BitReader`; ITU-T H.264,
    sections 9.1 and 9.1.1). */
module Golomb {
  import opened Prelude
  import opened Runs
  import opened Bits

  /** A field read off the front of a bit sequence, and what is left. */
  datatype Read<T> = Bad | Got(value: T, rest: seq<bit>)

  function ReadU(bs: seq<bit>, n: nat): (r: Read<nat>) {
    if |bs| < n then Bad else Got(Value(bs[..n]), bs[n..])
  }

  /** Leading zeros up to a one bit, giving up beyond 31. `zeros` have been seen. */
  function ReadZeros(bs: seq<bit>, zeros: nat): (r: Read<nat>)
    ensures r.Got? ==> zeros <= r.value
    ensures r.Got? && zeros <= 31 ==> r.value <= 31
    ensures r.Got? ==> |r.rest| < |bs|
  {
    if bs == [] then Bad
    else if bs[0] == 1 then Got(zeros, bs[1..])
    else if zeros + 1 > 31 then Bad
    else ReadZeros(bs[1..], zeros + 1)
  }

  function ReadUe(bs: seq<bit>): Read<nat> {
    match ReadZeros(bs, 0)
    case Bad => Bad
    case Got(zeros, rest) =>
      match ReadU(rest, zeros)
      case Bad => Bad
      case Got(suffix, rest') => Got(Pow2(zeros) - 1 + suffix, rest')
  }

  /** Code numbers 0, 1, 2, 3, 4, ... stand for 0, 1, -1, 2, -2, ... */
  function SignedOf(code: nat): int {
    if code % 2 == 0 then -((code + 1) / 2) else (code + 1) / 2
  }

  function ReadSe(bs: seq<bit>): Read<int> {
    match ReadUe(bs)
    case Bad => Bad
    case Got(code, rest) => Got(SignedOf(code), rest)
  }

  // ---------------------------------------------------------------- writing

  const UE_MAX: nat := 0xFFFF_FFFE
  const SE_MAX: int := 0x7FFF_FFFF

  function Zeros(n: nat): seq<bit> {
    seq(n, _ => 0)
  }

  /** ue(v): as many zeros as there are digits behind the leading one of v + 1, then its digits. */
  function WriteUe(v: nat): seq<bit> {
    Zeros(|Binary(v + 1)| - 1) + Binary(v + 1)
  }

  function CodeOf(v: int): nat {
    if v > 0 then 2 * v - 1 else -2 * v
  }

  function WriteSe(v: int): seq<bit> {
    WriteUe(CodeOf(v))
  }

  lemma {:induction false} ReadZerosOfZeros(n: nat, zeros: nat, rest: seq<bit>)
    requires zeros + n <= 31
    requires rest != [] && rest[0] == 1
    ensures ReadZeros(Zeros(n) + rest, zeros) == Got(zeros + n, rest[1..])
  {
    if n == 0 {
      assert Zeros(0) + rest == rest;
    } else {
      assert (Zeros(n) + rest)[0] == 0;
      assert (Zeros(n) + rest)[1..] == Zeros(n - 1) + rest;
      ReadZerosOfZeros(n - 1, zeros + 1, rest);
    }
  }

  lemma {:induction false} ReadsCode(suffix: seq<bit>, rest: seq<bit>)
    requires |suffix| <= 31
    ensures ReadUe(Zeros(|suffix|) + ([1] + suffix + rest)) == Got(Pow2(|suffix|) - 1 + Value(suffix), rest)
  {
    var k := |suffix|;
    var tail := [1] + suffix + rest;
    ReadZerosOfZeros(k, 0, tail);
    assert tail[1..] == suffix + rest;
    assert (suffix + rest)[..k] == suffix && (suffix + rest)[k..] == rest;
  }

  lemma {:induction false} BinaryFits(v: nat)
    requires v <= UE_MAX
    ensures |Binary(v + 1)| <= 32
  {
    var bits: nat := 8 * BYTES_IN_WORD;
    Pow2OfBytes(bits, BYTES_IN_WORD);
    BinaryLength(v + 1, bits);
  }

  const BYTES_IN_WORD: nat := 4

  /** A written code, by the digits behind the leading one. */
  lemma {:induction false} UeShape(v: nat)
    requires v <= UE_MAX
    ensures var suffix := Binary(v + 1)[1..];
            && |suffix| <= 31 && Pow2(|suffix|) - 1 + Value(suffix) == v
            && WriteUe(v) == Zeros(|suffix|) + ([1] + suffix)
  {
    var b := Binary(v + 1);
    assert b == [1] + b[1..];
    BinaryFits(v);
    BinaryValue(v + 1);
    ValueLeadingOne(b[1..]);
  }

  /** Reading inverts writing for every value a u32 result can carry. */
  lemma {:induction false} UeRoundTrip(v: nat, rest: seq<bit>)
    requires v <= UE_MAX
    ensures ReadUe(WriteUe(v) + rest) == Got(v, rest)
  {
    var suffix := Binary(v + 1)[1..];
    UeShape(v);
    ReadsCode(suffix, rest);
    Assoc(Zeros(|suffix|), [1] + suffix, rest);
  }

  lemma {:induction false} SeRoundTrip(v: int, rest: seq<bit>)
    requires -SE_MAX <= v <= SE_MAX
    ensures ReadSe(WriteSe(v) + rest) == Got(v, rest)
  {
    UeRoundTrip(CodeOf(v), rest);
    assert SignedOf(CodeOf(v)) == v;
  }

  // ---------------------------------------------------------------- the cursor

  /** `byte >> shift`, for `shift` below 8. */
  function Shr(b: byte, shift: nat): byte
    requires shift < 8
  {
    if shift == 0 then b else if shift == 1 then b / 2 else if shift == 2 then b / 4
    else if shift == 3 then b / 8 else if shift == 4 then b / 16 else if shift == 5 then b / 32
    else if shift == 6 then b / 64 else b / 128
  }

  lemma {:induction false} BitAt(data: seq<byte>, pos: nat)
    requires pos < 8 * |data|
    ensures Shr(data[pos / 8], 7 - pos % 8) % 2 == BitsOf(data)[pos]
  {
    var i, j := pos / 8, pos % 8;
    BitOfByte(data, i, j);
    ShiftedBit(data[i], j);
  }

  lemma {:induction false} BitOfByte(data: seq<byte>, i: nat, j: nat)
    requires i < |data| && j < 8
    ensures BitsOf(data)[8 * i + j] == ByteBits(data[i])[j]
    decreases i
  {
    if i > 0 {
      BitOfByte(data[1..], i - 1, j);
      assert BitsOf(data)[8 * i + j] == BitsOf(data[1..])[8 * (i - 1) + j];
    }
  }

  lemma {:induction false} ShiftedBit(b: byte, j: nat)
    requires j < 8
    ensures Shr(b, 7 - j) % 2 == ByteBits(b)[j]
  {
  }

  /** One more bit shifted into a 32-bit accumulator that has room for it. */
  lemma {:induction false} ShiftIn(value: nat, b: bit)
    requires 2 * value + b as int < 0x1_0000_0000
    ensures (2 * value) % 0x1_0000_0000 + b as int == 2 * value + b as int
  {
  }

  lemma {:induction false} ValueGrows(bits: seq<bit>, i: nat)
    requires i < |bits| && i < 32
    ensures Value(bits[..i + 1]) == 2 * Value(bits[..i]) + bits[i] < 0x1_0000_0000
  {
    assert bits[..i + 1][..i] == bits[..i];
    ValueBound(bits[..i + 1]);
    Pow2Word(i + 1);
  }

  class BitReader {
    const data: seq<byte>
    var bitPos: nat

    ghost predicate Valid()
      reads this
    {
      bitPos <= 8 * |data|
    }

    /** The bits not read yet. */
    ghost function Rest(): seq<bit>
      requires Valid()
      reads this
    {
      BitsOf(data)[bitPos..]
    }

    constructor (data: seq<byte>)
      ensures Valid() && Rest() == BitsOf(data) && this.data == data
    {
      this.data := data;
      this.bitPos := 0;
    }

    method Bit() returns (r: Option<bit>)
      requires Valid()
      modifies this
      ensures Valid()
      ensures r.None? <==> old(Rest()) == []
      ensures r.Some? ==> old(Rest()) == [r.value] + Rest()
    {
      if bitPos / 8 >= |data| {
        return None;
      }
      BitAt(data, bitPos);
      var shift := 7 - bitPos % 8;
      r := Some(Shr(data[bitPos / 8], shift) % 2);
      bitPos := bitPos + 1;
    }

    /** A fixed-width field; the u32 accumulator does not wrap. */
    method U(n: nat) returns (r: Option<u32>)
      requires Valid() && n <= 32
      modifies this
      ensures Valid()
      ensures r.None? <==> ReadU(old(Rest()), n).Bad?
      ensures r.Some? ==> ReadU(old(Rest()), n) == Got(r.value, Rest())
    {
      var value: u32 := 0;
      ghost var all := Rest();
      for i := 0 to n
        invariant Valid() && i <= |all| && Rest() == all[i..] && value == Value(all[..i])
      {
        var b := Bit();
        if b.None? {
          return None;
        }
        ValueGrows(all, i);
        assert b.value == all[i];
        ShiftIn(value, b.value);
        value := (2 * value as int) % 0x1_0000_0000 + b.value;
      }
      r := Some(value);
    }

    /** An Exp-Golomb code; neither the shift nor the sum overflows u32. */
    method Ue() returns (r: Option<u32>)
      requires Valid()
      modifies this
      ensures Valid()
      ensures r.None? <==> ReadUe(old(Rest())).Bad?
      ensures r.Some? ==> ReadUe(old(Rest())) == Got(r.value, Rest())
    {
      var zeros := LeadingZeros();
      if zeros.None? {
        return None;
      }
      if zeros.value == 0 {
        ghost var rest := Rest();
        assert rest[..0] == [] && rest[0..] == rest;
        return Some(0);
      }
      ghost var mid := Rest();
      var suffix := U(zeros.value);
      if suffix.None? {
        return None;
      }
      ValueBound(mid[..zeros.value]);
      Pow2Word(zeros.value + 1);
      r := Some(Pow2(zeros.value) - 1 + suffix.value);
    }

    method LeadingZeros() returns (r: Option<nat>)
      requires Valid()
      modifies this
      ensures Valid()
      ensures r.None? <==> ReadZeros(old(Rest()), 0).Bad?
      ensures r.Some? ==> ReadZeros(old(Rest()), 0) == Got(r.value, Rest())
    {
      var zeros := 0;
      while true
        invariant Valid() && 0 <= zeros <= 31
        invariant ReadZeros(old(Rest()), 0) == ReadZeros(Rest(), zeros)
        decreases 31 - zeros
      {
        ghost var before := Rest();
        var b := Bit();
        if b.None? {
          return None;
        }
        assert before[1..] == Rest();
        if b.value == 1 {
          return Some(zeros);
        }
        if zeros + 1 > 31 {
          return None;
        }
        zeros := zeros + 1;
      }
    }

    /** A signed code; the magnitude always fits i32. */
    method Se() returns (r: Option<i32>)
      requires Valid()
      modifies this
      ensures Valid()
      ensures r.None? <==> ReadSe(old(Rest())).Bad?
      ensures r.Some? ==> ReadSe(old(Rest())) == Got(r.value, Rest())
    {
      var code := Ue();
      if code.None? {
        return None;
      }
      UeFits(old(Rest()));
      var magnitude := (code.value as int + 1) / 2;
      r := Some(if code.value % 2 == 0 then -magnitude else magnitude);
    }
  }

  function ZeroRun(bs: seq<bit>): (n: nat)
    ensures n <= |bs|
  {
    if bs == [] || bs[0] == 1 then 0 else 1 + ZeroRun(bs[1..])
  }

  lemma {:induction false} ReadZerosExact(bs: seq<bit>, zeros: nat)
    requires zeros <= 31
    ensures var n := ZeroRun(bs);
            if n < |bs| && zeros + n <= 31 then ReadZeros(bs, zeros) == Got(zeros + n, bs[n + 1..])
            else ReadZeros(bs, zeros).Bad?
    decreases |bs|
  {
    if bs != [] && bs[0] == 0 && zeros + 1 <= 31 {
      ReadZerosExact(bs[1..], zeros + 1);
      var n := ZeroRun(bs[1..]);
      if n + 1 < |bs| {
        assert bs[1..][n + 1..] == bs[n + 2..];
      }
    }
  }

  /** A bit string starts with a readable code exactly when a one follows at most 31 zeros and as many bits
      again follow that; it then stands for 2^zeros - 1 plus the number those bits write. */
  lemma {:induction false} UeExact(bs: seq<bit>)
    ensures var n := ZeroRun(bs);
            if n <= 31 && 2 * n + 1 <= |bs|
            then ReadUe(bs) == Got(Pow2(n) - 1 + Value(bs[n + 1..2 * n + 1]), bs[2 * n + 1..])
            else ReadUe(bs).Bad?
  {
    var n := ZeroRun(bs);
    ReadZerosExact(bs, 0);
    if n < |bs| && n <= 31 {
      var rest := bs[n + 1..];
      if |rest| >= n {
        assert rest[..n] == bs[n + 1..2 * n + 1] && rest[n..] == bs[2 * n + 1..];
      }
    }
  }

  /** No decodable code exceeds 2^32 - 2. */
  lemma {:induction false} UeFits(bs: seq<bit>)
    ensures ReadUe(bs).Got? ==> ReadUe(bs).value <= UE_MAX
  {
    match ReadZeros(bs, 0)
    case Bad =>
    case Got(zeros, rest) =>
      if |rest| >= zeros {
        ValueBound(rest[..zeros]);
        Pow2Word(zeros + 1);
      }
  }
}
