/** The bits of an H.264 raw byte sequence payload: emulation prevention and numbers as bit strings
    (crates/oxagent/src/h264.rs; ITU-T H.264, section 7.4.1.1). */
module Bits {
  import opened Prelude
  import opened Runs

  type bit = x: int | 0 <= x < 2

  // ---------------------------------------------------------------- bytes and bits

  function ByteBits(b: byte): (r: seq<bit>)
    ensures |r| == 8
  {
    [b / 128, b / 64 % 2, b / 32 % 2, b / 16 % 2, b / 8 % 2, b / 4 % 2, b / 2 % 2, b % 2]
  }

  /** All bits of `data`, most significant first. */
  function BitsOf(data: seq<byte>): (r: seq<bit>)
    ensures |r| == 8 * |data|
  {
    if data == [] then [] else ByteBits(data[0]) + BitsOf(data[1..])
  }

  /** The number the first `k` of eight bits write. */
  function Front(b: seq<bit>, k: nat): nat
    requires |b| == 8 && k <= 8
  {
    if k == 0 then 0 else 2 * Front(b, k - 1) + b[k - 1]
  }

  lemma {:induction false} FrontBound(b: seq<bit>)
    requires |b| == 8
    ensures Front(b, 1) < 2 && Front(b, 4) < 16 && Front(b, 8) < 256
  {
    assert Front(b, 1) == b[0] as int;
    assert Front(b, 2) < 4;
    assert Front(b, 3) < 8;
    assert Front(b, 5) < 32;
    assert Front(b, 6) < 64;
    assert Front(b, 7) < 128;
  }

  function ByteOf(b: seq<bit>): byte
    requires |b| == 8
  {
    FrontBound(b);
    Front(b, 8)
  }

  function Pack(bits: seq<bit>): (r: seq<byte>)
    requires |bits| % 8 == 0
    ensures |bits| == 8 * |r|
  {
    if bits == [] then [] else [ByteOf(bits[..8])] + Pack(bits[8..])
  }

  lemma {:induction false} ByteRoundTrip(b: seq<bit>)
    requires |b| == 8
    ensures ByteBits(ByteOf(b)) == b
  {
    var x := ByteOf(b);
    Halves(x);
    FrontHalves(b, 8);
    FrontHalves(b, 7);
    FrontHalves(b, 6);
    FrontHalves(b, 5);
    FrontHalves(b, 4);
    FrontHalves(b, 3);
    FrontHalves(b, 2);
    FrontHalves(b, 1);
  }

  lemma {:induction false} FrontHalves(b: seq<bit>, k: nat)
    requires |b| == 8 && 1 <= k <= 8
    ensures Front(b, k) / 2 == Front(b, k - 1) && Front(b, k) % 2 == b[k - 1]
  {
    Halve(Front(b, k - 1), b[k - 1]);
  }

  lemma {:induction false} Halve(y: int, b: bit)
    ensures (2 * y + b as int) / 2 == y && (2 * y + b as int) % 2 == b
  {
  }

  lemma {:induction false} Halves(x: byte)
    ensures x / 4 == x / 2 / 2 && x / 8 == x / 4 / 2 && x / 16 == x / 8 / 2
    ensures x / 32 == x / 16 / 2 && x / 64 == x / 32 / 2 && x / 128 == x / 64 / 2
  {
  }

  lemma {:induction false} BitsOfPack(bits: seq<bit>)
    requires |bits| % 8 == 0
    ensures BitsOf(Pack(bits)) == bits
  {
    if bits != [] {
      ByteRoundTrip(bits[..8]);
      BitsOfPack(bits[8..]);
      assert bits == bits[..8] + bits[8..];
      var p := Pack(bits);
      assert p[0] == ByteOf(bits[..8]) && p[1..] == Pack(bits[8..]);
    }
  }

  // ---------------------------------------------------------------- emulation prevention

  /** Insert 03 wherever two zero bytes would be followed by a byte below 4 (section 7.4.1.1);
      `zeros` is the run of zero bytes already written. */
  function Escape(s: seq<byte>, zeros: nat): seq<byte> {
    if s == [] then []
    else if zeros >= 2 && s[0] <= 3 then [3, s[0]] + Escape(s[1..], if s[0] == 0 then 1 else 0)
    else [s[0]] + Escape(s[1..], if s[0] == 0 then zeros + 1 else 0)
  }

  function Unescape(s: seq<byte>, zeros: nat): seq<byte> {
    if s == [] then []
    else if zeros >= 2 && s[0] == 3 then Unescape(s[1..], 0)
    else [s[0]] + Unescape(s[1..], if s[0] == 0 then zeros + 1 else 0)
  }

  /** Removal inverts insertion, from any point inside a zero run. */
  lemma {:induction false} UnescapeInverts(s: seq<byte>, zeros: nat)
    ensures Unescape(Escape(s, zeros), zeros) == s
  {
    if s != [] {
      var e := Escape(s, zeros);
      if zeros >= 2 && s[0] <= 3 {
        var z := if s[0] == 0 then 1 else 0;
        UnescapeInverts(s[1..], z);
        assert e[1..][0] == s[0] && e[1..][1..] == Escape(s[1..], z);
        assert Unescape(e, zeros) == Unescape(e[1..], 0);
      } else {
        UnescapeInverts(s[1..], if s[0] == 0 then zeros + 1 else 0);
        assert e[1..] == Escape(s[1..], if s[0] == 0 then zeros + 1 else 0);
      }
    }
  }

  /** Escaped bytes can never be taken for a start code, whatever zero run they follow. */
  lemma {:induction false} EscapeHasNoStartCode(s: seq<byte>, zeros: nat, i: nat)
    requires i + 2 < |Escape(s, zeros)|
    ensures var e := Escape(s, zeros); !(e[i] == 0 && e[i + 1] == 0 && e[i + 2] == 1)
    decreases |s|
  {
    if s != [] {
      var e := Escape(s, zeros);
      var z := if zeros >= 2 && s[0] <= 3 then if s[0] == 0 then 1 else 0
               else if s[0] == 0 then zeros + 1 else 0;
      var t := Escape(s[1..], z);
      var k := |e| - |t|;
      assert e[k..] == t;
      if i >= k {
        EscapeHasNoStartCode(s[1..], z, i - k);
        assert e[i] == t[i - k] && e[i + 1] == t[i + 1 - k] && e[i + 2] == t[i + 2 - k];
      } else {
        EscapeAfterZeros(s[1..], z);
      }
    }
  }

  /** Behind `zeros` zero bytes, the next bytes of an escaped stream do not complete 00 00 01. */
  lemma {:induction false} EscapeAfterZeros(s: seq<byte>, zeros: nat)
    ensures var e := Escape(s, zeros);
            && (zeros >= 2 && |e| >= 1 ==> e[0] != 1)
            && (zeros >= 1 && |e| >= 2 ==> !(e[0] == 0 && e[1] == 1))
  {
    if s != [] && !(zeros >= 2 && s[0] <= 3) && s[0] == 0 {
      EscapeAfterZeros(s[1..], zeros + 1);
    }
  }

  /** An emulation prevention byte: a 03 right behind two zero bytes. */
  predicate Prevents(s: seq<byte>, i: nat)
    requires i < |s|
  {
    i >= 2 && s[i] == 3 && s[i - 1] == 0 && s[i - 2] == 0
  }

  /** The first `k` bytes without the emulation prevention bytes among them. */
  function Stripped(s: seq<byte>, k: nat): seq<byte>
    requires k <= |s|
  {
    if k == 0 then [] else Stripped(s, k - 1) + if Prevents(s, k - 1) then [] else [s[k - 1]]
  }

  /** The zero bytes right before position `k`. */
  function ZerosBefore(s: seq<byte>, k: nat): nat
    requires k <= |s|
  {
    if k == 0 || s[k - 1] != 0 then 0 else 1 + ZerosBefore(s, k - 1)
  }

  lemma {:induction false} UnescapeFrom(s: seq<byte>, k: nat)
    requires k <= |s|
    ensures Unescape(s, 0) == Stripped(s, k) + Unescape(s[k..], ZerosBefore(s, k))
  {
    if k == 0 {
      assert s[0..] == s;
    } else {
      UnescapeFrom(s, k - 1);
      var rest, zeros := s[k - 1..], ZerosBefore(s, k - 1);
      assert rest[0] == s[k - 1] && rest[1..] == s[k..];
      TwoZeros(s, k - 1);
      assert Unescape(rest, zeros) ==
             (if Prevents(s, k - 1) then [] else [s[k - 1]]) + Unescape(s[k..], ZerosBefore(s, k));
      Assoc(Stripped(s, k - 1), if Prevents(s, k - 1) then [] else [s[k - 1]], Unescape(s[k..], ZerosBefore(s, k)));
    }
  }

  lemma {:induction false} TwoZeros(s: seq<byte>, k: nat)
    requires k <= |s|
    ensures ZerosBefore(s, k) >= 2 <==> k >= 2 && s[k - 1] == 0 && s[k - 2] == 0
  {
  }

  /** Whatever the bytes, unescaping removes every 03 that stands right behind two zero bytes, and nothing
      else. */
  lemma {:induction false} UnescapeExact(s: seq<byte>)
    ensures Unescape(s, 0) == Stripped(s, |s|)
  {
    UnescapeFrom(s, |s|);
    assert s[|s|..] == [];
  }

  method UnescapeRbsp(payload: seq<byte>) returns (out: seq<byte>)
    ensures out == Unescape(payload, 0)
  {
    out := [];
    var zeroRun := 0;
    assert payload[0..] == payload;
    for i := 0 to |payload|
      invariant zeroRun >= 0
      invariant Unescape(payload, 0) == out + Unescape(payload[i..], zeroRun)
    {
      var b := payload[i];
      assert payload[i..][1..] == payload[i + 1..];
      if zeroRun >= 2 && b == 3 {
        zeroRun := 0;
      } else {
        out := out + [b];
        zeroRun := if b == 0 then zeroRun + 1 else 0;
      }
    }
  }

  // ---------------------------------------------------------------- numbers as bits

  function Pow2(n: nat): (r: nat)
    ensures r > 0
  {
    if n == 0 then 1 else 2 * Pow2(n - 1)
  }

  lemma {:induction false} Pow2Monotone(m: nat, n: nat)
    requires m <= n
    ensures Pow2(m) <= Pow2(n)
  {
    if m < n {
      Pow2Monotone(m, n - 1);
    }
  }

  lemma {:induction false} Pow2Word(n: nat)
    requires n <= 32
    ensures Pow2(n) <= 0x1_0000_0000
  {
    Pow2Bytes(n, 4);
  }

  lemma {:induction false} Pow2Bytes(n: nat, k: nat)
    requires k <= 4 && n <= 8 * k
    ensures Pow2(n) <= [1, 0x100, 0x1_0000, 0x100_0000, 0x1_0000_0000][k]
  {
    if k > 0 {
      var m := Max(n - 8, 0);
      Pow2Bytes(m, k - 1);
      Pow2Monotone(n, m + 8);
      Pow2Eight(m);
    }
  }

  lemma {:induction false} Pow2Eight(n: nat)
    ensures Pow2(n + 8) == 256 * Pow2(n)
  {
    Pow2Four(n);
    Pow2Four(n + 4);
  }

  lemma {:induction false} Pow2Four(n: nat)
    ensures Pow2(n + 4) == 16 * Pow2(n)
  {
    assert Pow2(n + 1) == 2 * Pow2(n) && Pow2(n + 2) == 2 * Pow2(n + 1);
    assert Pow2(n + 3) == 2 * Pow2(n + 2) && Pow2(n + 4) == 2 * Pow2(n + 3);
  }

  lemma {:induction false} Pow2OfBytes(n: nat, k: nat)
    requires k <= 4 && n == 8 * k
    ensures Pow2(n) == [1, 0x100, 0x1_0000, 0x100_0000, 0x1_0000_0000][k]
  {
    if k > 0 {
      Pow2OfBytes(n - 8, k - 1);
      Pow2Eight(n - 8);
    }
  }

  /** The number written by `bits`, most significant first. */
  function Value(bits: seq<bit>): nat {
    if bits == [] then 0 else 2 * Value(bits[..|bits| - 1]) + bits[|bits| - 1]
  }

  lemma {:induction false} ValueBound(bits: seq<bit>)
    ensures Value(bits) < Pow2(|bits|)
  {
    if bits != [] {
      ValueBound(bits[..|bits| - 1]);
    }
  }

  lemma {:induction false} ValueLeadingOne(bits: seq<bit>)
    ensures Value([1] + bits) == Pow2(|bits|) + Value(bits)
  {
    if bits == [] {
      assert [1] + bits == [1];
      assert Value([1]) == 2 * Value([]) + 1;
    } else {
      var init := bits[..|bits| - 1];
      ValueLeadingOne(init);
      assert ([1] + bits)[..|bits|] == [1] + init;
    }
  }

  /** The binary digits of a positive number. */
  function Binary(x: nat): (r: seq<bit>)
    requires x >= 1
    ensures |r| >= 1 && r[0] == 1
  {
    if x == 1 then [1] else Binary(x / 2) + [x % 2]
  }

  lemma {:induction false} BinaryValue(x: nat)
    requires x >= 1
    ensures Value(Binary(x)) == x
  {
    if x == 1 {
      assert Value([1]) == 2 * Value([]) + 1;
    } else {
      BinaryValue(x / 2);
      assert Binary(x)[..|Binary(x)| - 1] == Binary(x / 2);
    }
  }

  lemma {:induction false} BinaryLength(x: nat, n: nat)
    requires 1 <= x < Pow2(n)
    ensures |Binary(x)| <= n
  {
    if x > 1 {
      BinaryLength(x / 2, n - 1);
    }
  }
}
