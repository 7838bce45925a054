/** A legally written parameter set that the parser misreads (crates/oxagent/src/h264.rs,
    `sps_ref_frame_info`; ITU-T H.264, section 7.4.1.1), worked out bit by bit. */
module SpsMisread {
  import opened Prelude
  import opened Bits
  import opened Golomb
  import opened Sps

  /** Level byte zero, seq_parameter_set_id 63: the escape falls on the border behind the prefix. */
  function MisreadFields(): SpsFields {
    SpsFields(0x67, 66, 0, 0, 63, 0, Implicit, 0, [0, 1, 0, 0, 0, 0])
  }

  const SIX_ZEROS: seq<bit> := [0, 0, 0, 0, 0, 0]

  function MisreadBits(): seq<bit> {
    (SIX_ZEROS + ([1] + SIX_ZEROS)) + ([1] + ([0, 1, 1] + ([] + ([1] + [0, 1, 0, 0, 0, 0]))))
  }

  lemma {:induction false} BinaryOfPow2(n: nat)
    ensures Binary(Pow2(n)) == [1] + Zeros(n)
  {
    if n > 0 {
      BinaryOfPow2(n - 1);
      ZerosSnoc(n - 1);
    }
  }

  lemma {:induction false} ZerosSnoc(n: nat)
    ensures Zeros(n + 1) == Zeros(n) + [0]
  {
  }

  lemma {:induction false} Code63()
    ensures WriteUe(63) == SIX_ZEROS + ([1] + SIX_ZEROS)
  {
    BinaryOfPow2(6);
    assert Zeros(6) == SIX_ZEROS;
  }

  lemma {:induction false} Code2()
    ensures WriteUe(2) == [0, 1, 1]
  {
    assert Binary(1) == [1];
    assert Binary(3) == [1] + [1];
  }

  lemma {:induction false} Code0()
    ensures WriteUe(0) == [1]
  {
    assert Binary(1) == [1];
  }

  lemma {:induction false} MisreadBody()
    ensures WriteBody(MisreadFields()) == MisreadBits()
  {
    Code63();
    Code2();
    Code0();
  }

  lemma {:induction false} PackOne(b: seq<bit>, rest: seq<bit>)
    requires |b| == 8 && |rest| % 8 == 0
    ensures Pack(b + rest) == [ByteOf(b)] + Pack(rest)
  {
    assert (b + rest)[..8] == b && (b + rest)[8..] == rest;
  }

  const FIRST: seq<bit> := [0, 0, 0, 0, 0, 0, 1, 0]
  const SECOND: seq<bit> := [0, 0, 0, 0, 0, 1, 0, 1]
  const THIRD: seq<bit> := [1, 1, 0, 1, 0, 0, 0, 0]

  lemma {:induction false} MisreadOctets()
    ensures MisreadBits() == FIRST + (SECOND + THIRD)
  {
  }

  lemma {:induction false} MisreadBytes()
    ensures |MisreadBits()| == 24 && Pack(MisreadBits()) == [2, 5, 0xD0]
  {
    MisreadOctets();
    assert THIRD + [] == THIRD;
    PackOne(THIRD, []);
    PackOne(SECOND, THIRD);
    PackOne(FIRST, SECOND + THIRD);
  }

  lemma {:induction false} BitsOne(b: byte, rest: seq<byte>)
    ensures BitsOf([b] + rest) == ByteBits(b) + BitsOf(rest)
  {
    assert ([b] + rest)[1..] == rest;
  }

  /** The bits the parser meets: the escape byte, then the body. */
  lemma {:induction false} MisreadStream()
    ensures BitsOf([3] + [2, 5, 0xD0]) == [0, 0, 0, 0, 0, 0, 1, 1] + MisreadBits()
  {
    MisreadBytes();
    BitsOfPack(MisreadBits());
    BitsOne(3, [2, 5, 0xD0]);
    BitsOfThree();
  }

  lemma {:induction false} BitsOfThree()
    ensures ByteBits(3) == [0, 0, 0, 0, 0, 0, 1, 1]
  {
  }

  /** A code with the given digits behind its leading one, and what follows it. */
  function Code(suffix: seq<bit>, rest: seq<bit>): seq<bit> {
    Zeros(|suffix|) + ([1] + suffix + rest)
  }

  function CodeValue(suffix: seq<bit>): nat {
    Pow2(|suffix|) - 1 + Value(suffix)
  }

  lemma {:induction false} WalkOfCodes(a: seq<bit>, b: seq<bit>, c: seq<bit>, d: seq<bit>, rest: seq<bit>)
    requires |a| <= 31 && |b| <= 31 && |c| <= 31 && |d| <= 31 && CodeValue(c) >= 2
    ensures Walk(Code(a, Code(b, Code(c, Code(d, rest))))) == Some(Info(CodeValue(d), CodeValue(c)))
  {
    ReadsCode(a, Code(b, Code(c, Code(d, rest))));
    ReadsCode(b, Code(c, Code(d, rest)));
    ReadsCode(c, Code(d, rest));
    ReadsCode(d, rest);
    assert SkipUe(Code(c, Code(d, rest)), 0) == Got((), Code(c, Code(d, rest)));
  }

  /** The second half of what the parser meets, as codes. */
  lemma {:induction false} LaterCodes()
    ensures Code([0, 1, 1, 1, 0], Code([], [0, 0, 0, 0])) == SECOND + THIRD
  {
    assert Zeros(0) == [] && Zeros(5) == [0, 0, 0, 0, 0];
    assert Code([], [0, 0, 0, 0]) == [1, 0, 0, 0, 0];
  }

  lemma {:induction false} EarlierCodes(rest: seq<bit>)
    ensures Code([1, 0, 0, 0, 0, 0], Code([0], rest)) == [0, 0, 0, 0, 0, 0, 1, 1] + (FIRST + rest)
  {
    assert Zeros(1) == [0] && Zeros(6) == SIX_ZEROS;
    assert Code([0], rest) == [0, 1, 0] + rest;
  }

  lemma {:induction false} MisreadCodes()
    ensures [0, 0, 0, 0, 0, 0, 1, 1] + MisreadBits() ==
            Code([1, 0, 0, 0, 0, 0], Code([0], Code([0, 1, 1, 1, 0], Code([], [0, 0, 0, 0]))))
  {
    MisreadOctets();
    LaterCodes();
    EarlierCodes(SECOND + THIRD);
  }

  lemma {:induction false} MisreadWalk()
    ensures Walk([0, 0, 0, 0, 0, 0, 1, 1] + MisreadBits()) == Some(Info(0, 45))
  {
    MisreadCodes();
    Suffix14();
    assert CodeValue([]) == 0;
    WalkOfCodes([1, 0, 0, 0, 0, 0], [0], [0, 1, 1, 1, 0], [], [0, 0, 0, 0]);
  }

  lemma {:induction false} ValueSnoc(bits: seq<bit>, b: bit)
    ensures Value(bits + [b]) == 2 * Value(bits) + b as int
  {
    assert (bits + [b])[..|bits|] == bits;
  }

  lemma {:induction false} Suffix14()
    ensures Value([0, 1, 1, 1, 0]) == 14 && Pow2(5) == 32
  {
    ValueSnoc([], 0);
    ValueSnoc([0], 1);
    ValueSnoc([0, 1], 1);
    ValueSnoc([0, 1, 1], 1);
    ValueSnoc([0, 1, 1, 1], 0);
    assert [] + [0] == [0] && [0] + [1] == [0, 1] && [0, 1] + [1] == [0, 1, 1];
    assert [0, 1, 1] + [1] == [0, 1, 1, 1] && [0, 1, 1, 1] + [0] == [0, 1, 1, 1, 0];
  }

  /** With an escape on the border, the parser reads the escape byte as the start of the body. */
  lemma {:induction false} BorderMisread(s: SpsFields)
    requires Codable(s) && |WriteBody(s)| % 8 == 0 && s.header != 0 && s.profile !in CHROMA_PROFILES
    requires s.profile != 0 && s.constraints == 0 && s.level == 0 && Straddles(Pack(WriteBody(s)), 2)
    ensures RefFrameInfo(WriteNal(s)) == Walk(BitsOf([3] + Pack(WriteBody(s)))) && !Seamless(s)
  {
    SpsRoundTrip(s);
  }

  /** That unit is written legally, and the parser answers pic_order_cnt_type 45 for the 2 written. */
  lemma {:induction false} Misread()
    ensures var s := MisreadFields();
            && Codable(s) && |WriteBody(s)| % 8 == 0 && s.profile !in CHROMA_PROFILES && !Seamless(s)
            && PocType(s.poc) == 2 && RefFrameInfo(WriteNal(s)) == Some(Info(0, 45))
  {
    MisreadBody();
    MisreadBytes();
    BorderMisread(MisreadFields());
    MisreadStream();
    MisreadWalk();
  }
}
