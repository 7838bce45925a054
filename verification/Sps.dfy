/** The sequence parameter set walk down to max_num_ref_frames (crates/oxagent/src/h264.rs,
    `sps_ref_frame_info`; ITU-T H.264, section 7.3.2.1.1). */
module Sps {
  import opened Prelude
  import opened Runs
  import opened Annexb
  import opened Reframe
  import opened Bits
  import opened Golomb

  datatype Info = Info(maxNumRefFrames: nat, picOrderCntType: nat)

  const CHROMA_PROFILES: seq<byte> := [100, 110, 122, 244, 44, 83, 86, 118, 128, 138, 139, 134, 135]

  // ---------------------------------------------------------------- reading

  /** Skip `n` signed codes. */
  function SkipSe(bs: seq<bit>, n: nat): Read<()>
    decreases n
  {
    if n == 0 then Got((), bs)
    else
      match ReadSe(bs)
      case Bad => Bad
      case Got(_, rest) => SkipSe(rest, n - 1)
  }

  /** Type 1: a flag, two offsets, and a counted list of offsets, at most 255 of them. */
  function SkipCycle(bs: seq<bit>): Read<()> {
    match ReadU(bs, 1)
    case Bad => Bad
    case Got(_, rest) =>
      match SkipSe(rest, 2)
      case Bad => Bad
      case Got(_, rest') => SkipOffsets(rest')
  }

  function SkipOffsets(bs: seq<bit>): Read<()> {
    match ReadUe(bs)
    case Bad => Bad
    case Got(n, rest) => if n > 255 then Bad else SkipSe(rest, n)
  }

  /** The fields that depend on pic_order_cnt_type. */
  function SkipPoc(bs: seq<bit>, pocType: nat): Read<()> {
    if pocType == 0 then SkipUe(bs, 1)
    else if pocType == 1 then SkipCycle(bs)
    else Got((), bs)
  }

  function WalkAfterType(bs: seq<bit>, pocType: nat): Option<Info> {
    match SkipPoc(bs, pocType)
    case Bad => None
    case Got(_, rest) =>
      match ReadUe(rest)
      case Bad => None
      case Got(frames, _) => Some(Info(frames, pocType))
  }

  function Walk(bs: seq<bit>): Option<Info> {
    match SkipUe(bs, 2)
    case Bad => None
    case Got(_, rest) =>
      match ReadUe(rest)
      case Bad => None
      case Got(pocType, rest') => WalkAfterType(rest', pocType)
  }

  /** Skip `n` unsigned codes: seq_parameter_set_id and log2_max_frame_num_minus4. */
  function SkipUe(bs: seq<bit>, n: nat): Read<()>
    decreases n
  {
    if n == 0 then Got((), bs)
    else
      match ReadUe(bs)
      case Bad => Bad
      case Got(_, rest) => SkipUe(rest, n - 1)
  }

  function RefFrameInfo(payload: Nal): Option<Info> {
    if |payload| < 4 || payload[1] in CHROMA_PROFILES then None
    else Walk(BitsOf(Unescape(payload[4..], 0)))
  }

  // ---------------------------------------------------------------- writing

  datatype Poc =
    | Lsb(log2Lsb: nat)
    | Cycle(alwaysZero: bit, nonRef: int, topToBottom: int, offsets: seq<int>)
    | Implicit

  datatype SpsFields = SpsFields(
    header: byte, profile: byte, constraints: byte, level: byte,
    id: nat, log2FrameNum: nat, poc: Poc, maxNumRefFrames: nat,
    following: seq<bit>)

  function PocType(p: Poc): nat {
    match p case Lsb(_) => 0 case Cycle(_, _, _, _) => 1 case Implicit => 2
  }

  predicate SeRange(v: int) {
    -SE_MAX <= v <= SE_MAX
  }

  ghost predicate CodablePoc(p: Poc) {
    match p
    case Lsb(n) => n <= UE_MAX
    case Cycle(_, a, b, os) =>
      SeRange(a) && SeRange(b) && |os| <= 255 && forall i :: 0 <= i < |os| ==> SeRange(os[i])
    case Implicit => true
  }

  ghost predicate Codable(s: SpsFields) {
    && s.id <= UE_MAX && s.log2FrameNum <= UE_MAX && s.maxNumRefFrames <= UE_MAX
    && CodablePoc(s.poc)
  }

  function WriteSes(vs: seq<int>): seq<bit> {
    if vs == [] then [] else WriteSe(vs[0]) + WriteSes(vs[1..])
  }

  function WritePoc(p: Poc): seq<bit> {
    match p
    case Lsb(n) => WriteUe(n)
    case Cycle(z, a, b, os) => [z] + (WriteSes([a, b]) + (WriteUe(|os|) + WriteSes(os)))
    case Implicit => []
  }

  /** The body in the order of section 7.3.2.1.1; `following` is everything after
      max_num_ref_frames, down to the trailing bits. */
  function WriteBody(s: SpsFields): seq<bit> {
    WriteUe(s.id) + (WriteUe(s.log2FrameNum) + (WriteUe(PocType(s.poc)) + (WritePoc(s.poc) +
    (WriteUe(s.maxNumRefFrames) + s.following))))
  }

  function Prefix(s: SpsFields): seq<byte> {
    [s.header, s.profile, s.constraints, s.level]
  }

  /** The NAL unit as it travels: emulation prevention over all of it. */
  function WriteNal(s: SpsFields): Nal
    requires |WriteBody(s)| % 8 == 0
  {
    Escape(Prefix(s) + Pack(WriteBody(s)), 0)
  }

  // ---------------------------------------------------------------- round trip

  lemma {:induction false} SkipSesWritten(vs: seq<int>, rest: seq<bit>)
    requires forall i :: 0 <= i < |vs| ==> SeRange(vs[i])
    ensures SkipSe(WriteSes(vs) + rest, |vs|) == Got((), rest)
  {
    if vs == [] {
      assert [] + rest == rest;
    } else {
      var more := WriteSes(vs[1..]) + rest;
      assert WriteSes(vs) + rest == WriteSe(vs[0]) + more;
      SeRoundTrip(vs[0], more);
      SkipSesWritten(vs[1..], rest);
    }
  }

  lemma {:induction false} SkipOffsetsWritten(os: seq<int>, rest: seq<bit>)
    requires |os| <= 255 && forall i :: 0 <= i < |os| ==> SeRange(os[i])
    ensures SkipOffsets(WriteUe(|os|) + (WriteSes(os) + rest)) == Got((), rest)
  {
    UeRoundTrip(|os|, WriteSes(os) + rest);
    SkipSesWritten(os, rest);
  }

  /** A longer cycle is declined, whatever follows. */
  lemma {:induction false} LongCycleDeclined(n: nat, rest: seq<bit>)
    requires 255 < n <= UE_MAX
    ensures SkipOffsets(WriteUe(n) + rest).Bad?
  {
    UeRoundTrip(n, rest);
  }

  lemma {:induction false} SkipCycleWritten(p: Poc, rest: seq<bit>)
    requires p.Cycle? && CodablePoc(p)
    ensures SkipCycle(WritePoc(p) + rest) == Got((), rest)
  {
    var tail := WriteUe(|p.offsets|) + (WriteSes(p.offsets) + rest);
    var pair := [p.nonRef, p.topToBottom];
    var all := WritePoc(p) + rest;
    assert WriteUe(|p.offsets|) + WriteSes(p.offsets) + rest == tail;
    assert all == [p.alwaysZero] + (WriteSes(pair) + tail);
    assert all[1..] == WriteSes(pair) + tail;
    SkipSesWritten(pair, tail);
    SkipOffsetsWritten(p.offsets, rest);
  }

  lemma {:induction false} SkipPocWritten(p: Poc, rest: seq<bit>)
    requires CodablePoc(p)
    ensures SkipPoc(WritePoc(p) + rest, PocType(p)) == Got((), rest)
  {
    match p
    case Lsb(n) =>
      UeRoundTrip(n, rest);
      assert SkipUe(rest, 0) == Got((), rest);
    case Cycle(_, _, _, _) =>
      SkipCycleWritten(p, rest);
    case Implicit =>
      assert WritePoc(p) + rest == rest;
  }

  lemma {:induction false} SkipTwo(a: nat, b: nat, rest: seq<bit>)
    requires a <= UE_MAX && b <= UE_MAX
    ensures SkipUe(WriteUe(a) + (WriteUe(b) + rest), 2) == Got((), rest)
  {
    UeRoundTrip(a, WriteUe(b) + rest);
    UeRoundTrip(b, rest);
    assert SkipUe(rest, 0) == Got((), rest);
  }

  lemma {:induction false} WalkWritten(s: SpsFields)
    requires Codable(s)
    ensures Walk(WriteBody(s)) == Some(Info(s.maxNumRefFrames, PocType(s.poc)))
  {
    var r4 := WriteUe(s.maxNumRefFrames) + s.following;
    var r3 := WritePoc(s.poc) + r4;
    SkipTwo(s.id, s.log2FrameNum, WriteUe(PocType(s.poc)) + r3);
    UeRoundTrip(PocType(s.poc), r3);
    SkipPocWritten(s.poc, r4);
    UeRoundTrip(s.maxNumRefFrames, s.following);
  }

  /** Main result: whatever parameter set is written, with its coded body escaped, the parser finds its
      max_num_ref_frames and pic_order_cnt_type -- unless the profile is one of those it declines. */
  lemma {:induction false} SpsBodyRoundTrip(s: SpsFields)
    requires Codable(s) && |WriteBody(s)| % 8 == 0
    ensures RefFrameInfo(Prefix(s) + Escape(Pack(WriteBody(s)), 0)) ==
            if s.profile in CHROMA_PROFILES then None
            else Some(Info(s.maxNumRefFrames, PocType(s.poc)))
  {
    var body := Pack(WriteBody(s));
    var n := Prefix(s) + Escape(body, 0);
    assert n[4..] == Escape(body, 0) && n[1] == s.profile;
    UnescapeInverts(body, 0);
    BitsOfPack(WriteBody(s));
    WalkWritten(s);
  }

  // ---------------------------------------------------------------- escaped from the first byte on

  lemma {:induction false} EscapeOne(b: byte, rest: seq<byte>, zeros: nat)
    ensures Escape([b] + rest, zeros) ==
            (if zeros >= 2 && b <= 3 then [3, b] + Escape(rest, if b == 0 then 1 else 0)
             else [b] + Escape(rest, if b == 0 then zeros + 1 else 0))
  {
    assert ([b] + rest)[1..] == rest;
  }

  lemma {:induction false} UnescapeOne(b: byte, rest: seq<byte>, zeros: nat)
    requires !(zeros >= 2 && b == 3)
    ensures Unescape([b] + rest, zeros) == [b] + Unescape(rest, if b == 0 then zeros + 1 else 0)
  {
    assert ([b] + rest)[1..] == rest;
  }

  /** Behind a prefix ending in one or two zero bytes, the body's own first bytes complete a pattern that
      has to be escaped. */
  predicate Straddles(body: seq<byte>, zeros: nat) {
    if zeros == 1 then |body| >= 2 && body[0] == 0 && body[1] <= 3 else |body| >= 1 && body[0] <= 3
  }

  /** Read without the zeros that called for it, an escape byte stays. */
  lemma {:induction false} EscapeByteStays(b: byte, tail: seq<byte>, zeros: nat)
    requires b <= 3 && zeros < 2
    ensures Unescape(Escape([b] + tail, 2), zeros) == [3] + ([b] + tail)
  {
    var z: nat := if b == 0 then 1 else 0;
    var e := Escape(tail, z);
    EscapeOne(b, tail, 2);
    assert [3, b] + e == [3] + ([b] + e);
    UnescapeOne(3, [b] + e, zeros);
    UnescapeOne(b, e, 0);
    UnescapeInverts(tail, z);
  }

  lemma {:induction false} EscapeBehindTwo(body: seq<byte>, zeros: nat)
    requires zeros < 2
    ensures if Straddles(body, 2) then Unescape(Escape(body, 2), zeros) == [3] + body
            else Escape(body, 2) == Escape(body, zeros)
  {
    if body != [] {
      var b, rest := body[0], body[1..];
      assert body == [b] + rest;
      if b <= 3 {
        EscapeByteStays(b, rest, zeros);
      } else {
        EscapeOne(b, rest, 2);
        EscapeOne(b, rest, zeros);
      }
    }
  }

  lemma {:induction false} EscapeBehindOne(body: seq<byte>)
    ensures if Straddles(body, 1) then Unescape(Escape(body, 1), 0) == [0] + ([3] + body[1..])
            else Escape(body, 1) == Escape(body, 0)
  {
    if body != [] {
      var b, rest := body[0], body[1..];
      assert body == [b] + rest;
      EscapeOne(b, rest, 1);
      EscapeOne(b, rest, 0);
      if b == 0 {
        UnescapeOne(0, Escape(rest, 2), 0);
        EscapeBehindTwo(rest, 1);
      }
    }
  }

  /** No escape falls into the fixed prefix or on the border behind it. */
  predicate Seamless(s: SpsFields)
    requires |WriteBody(s)| % 8 == 0
  {
    && !(s.profile == 0 && s.constraints == 0 && s.level <= 3)
    && (s.level == 0 ==> !Straddles(Pack(WriteBody(s)), if s.constraints == 0 then 2 else 1))
  }

  /** The zero run behind the first three bytes. */
  function RunBehind(s: SpsFields): nat {
    if s.constraints != 0 then 0 else if s.profile != 0 then 1 else 2
  }

  lemma {:induction false} FirstThree(s: SpsFields, rest: seq<byte>)
    requires s.header != 0
    ensures Escape([s.header] + ([s.profile] + ([s.constraints] + rest)), 0) ==
            [s.header, s.profile, s.constraints] + Escape(rest, RunBehind(s))
  {
    EscapeOne(s.header, [s.profile] + ([s.constraints] + rest), 0);
    EscapeOne(s.profile, [s.constraints] + rest, 0);
    EscapeOne(s.constraints, rest, if s.profile == 0 then 1 else 0);
  }

  /** The unit's bytes: the prefix, an escape inside it if it needs one, and the body escaped in the zero
      run the prefix leaves. */
  lemma {:induction false} WrittenBytes(s: SpsFields, body: seq<byte>)
    requires s.header != 0
    ensures Escape(Prefix(s) + body, 0) ==
            [s.header, s.profile, s.constraints] + Escape([s.level] + body, RunBehind(s))
  {
    assert Prefix(s) + body == [s.header] + ([s.profile] + ([s.constraints] + ([s.level] + body)));
    FirstThree(s, [s.level] + body);
  }

  lemma {:induction false} PlainPrefix(s: SpsFields, body: seq<byte>)
    requires s.header != 0 && !(s.profile == 0 && s.constraints == 0 && s.level <= 3)
    ensures var run := if s.level != 0 then 0 else if s.constraints != 0 then 1 else 2;
            Escape(Prefix(s) + body, 0) == Prefix(s) + Escape(body, run)
  {
    WrittenBytes(s, body);
    EscapeOne(s.level, body, RunBehind(s));
  }

  lemma {:induction false} EscapeLonger(s: seq<byte>, zeros: nat)
    ensures |Escape(s, zeros)| >= |s|
  {
    if s != [] {
      var z := if s[0] != 0 then 0 else if zeros >= 2 then 1 else zeros + 1;
      EscapeLonger(s[1..], z);
    }
  }

  /** Behind an escape inside the prefix the parser takes the level byte for the start of the body. */
  lemma {:induction false} EscapedPrefixShifts(s: SpsFields, body: seq<byte>)
    requires s.header != 0 && s.profile == 0 && s.constraints == 0 && s.level <= 3
    ensures |Escape(Prefix(s) + body, 0)| >= 4
    ensures Unescape(Escape(Prefix(s) + body, 0)[4..], 0) == [s.level] + body
  {
    var run: nat := if s.level != 0 then 0 else 1;
    WrittenBytes(s, body);
    EscapeOne(s.level, body, 2);
    var e := Escape(Prefix(s) + body, 0);
    assert e[4..] == [s.level] + Escape(body, run);
    UnescapeOne(s.level, Escape(body, run), 0);
    UnescapeInverts(body, run);
  }

  /** What the parser takes for the coded body of a unit escaped from its first byte on: with an escape in
      the prefix, the level byte too; with one on the border, the escape byte too. */
  function SeenBody(s: SpsFields): seq<byte>
    requires |WriteBody(s)| % 8 == 0
  {
    var body := Pack(WriteBody(s));
    if s.profile == 0 && s.constraints == 0 && s.level <= 3 then [s.level] + body
    else if s.level == 0 && s.constraints == 0 && Straddles(body, 2) then [3] + body
    else if s.level == 0 && s.constraints != 0 && Straddles(body, 1) then [0] + ([3] + body[1..])
    else body
  }

  lemma {:induction false} BodySeen(s: SpsFields)
    requires |WriteBody(s)| % 8 == 0 && s.header != 0
    ensures |WriteNal(s)| >= 4 && WriteNal(s)[1] == s.profile
    ensures Unescape(WriteNal(s)[4..], 0) == SeenBody(s)
  {
    var body := Pack(WriteBody(s));
    WrittenBytes(s, body);
    EscapeLonger([s.level] + body, RunBehind(s));
    if s.profile == 0 && s.constraints == 0 && s.level <= 3 {
      EscapedPrefixShifts(s, body);
    } else {
      PlainPrefix(s, body);
      var run := if s.level != 0 then 0 else if s.constraints != 0 then 1 else 2;
      assert WriteNal(s)[4..] == Escape(body, run);
      UnescapeInverts(body, 0);
      EscapeBehindOne(body);
      EscapeBehindTwo(body, 0);
    }
  }

  /** The parser sees the body that was written exactly when the unit is seamless. */
  lemma {:induction false} BodySeenExact(s: SpsFields)
    requires |WriteBody(s)| % 8 == 0 && s.header != 0
    ensures |WriteNal(s)| >= 4
    ensures Unescape(WriteNal(s)[4..], 0) == Pack(WriteBody(s)) <==> Seamless(s)
  {
    BodySeen(s);
    assert !Seamless(s) ==> |SeenBody(s)| == |Pack(WriteBody(s))| + 1;
  }

  /** What the parser answers for a unit escaped from its first byte on, as it travels: nothing for the
      profiles it declines, what was written for a seamless unit, and for any other unit whatever the body
      it sees instead happens to say. */
  function Answer(s: SpsFields): Option<Info>
    requires |WriteBody(s)| % 8 == 0
  {
    if s.profile in CHROMA_PROFILES then None
    else if Seamless(s) then Some(Info(s.maxNumRefFrames, PocType(s.poc)))
    else Walk(BitsOf(SeenBody(s)))
  }

  lemma {:induction false} SpsRoundTrip(s: SpsFields)
    requires Codable(s) && |WriteBody(s)| % 8 == 0 && s.header != 0
    ensures RefFrameInfo(WriteNal(s)) == Answer(s)
  {
    BodySeen(s);
    if Seamless(s) {
      BitsOfPack(WriteBody(s));
      WalkWritten(s);
    }
  }

  /** A written parameter set can be delimited, so it survives any framing ... */
  lemma {:induction false} WrittenNalClean(s: SpsFields)
    requires |WriteBody(s)| % 8 == 0 && s.header != 0
    ensures Clean(WriteNal(s))
  {
    var whole := Prefix(s) + Pack(WriteBody(s));
    BodySeen(s);
    forall i | 0 <= i < |WriteNal(s)| - 2
      ensures var e := WriteNal(s); !(e[i] == 0 && e[i + 1] == 0 && e[i + 2] == 1)
    {
      EscapeHasNoStartCode(whole, 0, i);
    }
  }

  /** The first SPS of an access unit, parsed. */
  function FirstSpsInfo(raw: seq<byte>): Option<Info> {
    var found := Keep(IsSps, Split(raw));
    if found == [] then None else RefFrameInfo(found[0])
  }

  lemma {:induction false} FirstKept(p: Nal -> bool, before: seq<Nal>, n: Nal, after: seq<Nal>)
    requires NoneOf(p, before) && p(n)
    ensures Keep(p, before + [n] + after) == [n] + Keep(p, after)
  {
    KeepNone(p, before);
    KeepSplit(p, before, [n] + after);
    assert before + [n] + after == before + ([n] + after);
    assert ([n] + after)[1..] == after;
  }

  lemma {:induction false} WrittenKind(s: SpsFields)
    requires |WriteBody(s)| % 8 == 0 && s.header % 32 == 7
    ensures IsSps(WriteNal(s))
  {
    WrittenBytes(s, Pack(WriteBody(s)));
  }

  /** ... and is read back out of the access unit it was put in. */
  lemma {:induction false} SpsFoundInUnit(before: seq<Nal>, s: SpsFields, after: seq<Nal>)
    requires Codable(s) && |WriteBody(s)| % 8 == 0
    requires s.header % 32 == 7
    requires AllClean(before) && AllClean(after) && NoneOf(IsSps, before)
    ensures FirstSpsInfo(Join(before + [WriteNal(s)] + after)) == Answer(s)
  {
    var n := WriteNal(s);
    WrittenNalClean(s);
    WrittenKind(s);
    SplitInvertsJoin(before + [n] + after);
    FirstKept(IsSps, before, n, after);
    SpsRoundTrip(s);
  }

  // ---------------------------------------------------------------- the parser as the source runs it

  /** Skip `n` signed codes with the cursor. */
  method SkipSigned(r: BitReader, n: nat) returns (ok: bool)
    requires r.Valid()
    modifies r
    ensures r.Valid()
    ensures SkipSe(old(r.Rest()), n) == if ok then Got((), r.Rest()) else Bad
  {
    for i := 0 to n
      invariant r.Valid() && SkipSe(old(r.Rest()), n) == SkipSe(r.Rest(), n - i)
    {
      var v := r.Se();
      if v.None? {
        return false;
      }
    }
    ok := true;
  }

  method SkipPocFields(r: BitReader, pocType: nat) returns (ok: bool)
    requires r.Valid()
    modifies r
    ensures r.Valid()
    ensures SkipPoc(old(r.Rest()), pocType) == if ok then Got((), r.Rest()) else Bad
  {
    ok := true;
    if pocType == 0 {
      var v := r.Ue();
      ok := v.Some?;
      if ok {
        assert SkipUe(r.Rest(), 0) == Got((), r.Rest());
      }
    } else if pocType == 1 {
      ok := SkipCycleFields(r);
    }
  }

  method SkipCycleFields(r: BitReader) returns (ok: bool)
    requires r.Valid()
    modifies r
    ensures r.Valid()
    ensures SkipCycle(old(r.Rest())) == if ok then Got((), r.Rest()) else Bad
  {
    var flag := r.U(1);
    if flag.None? {
      return false;
    }
    ok := SkipSigned(r, 2);
    if !ok {
      return;
    }
    var n := r.Ue();
    if n.None? || n.value > 255 {
      return false;
    }
    ok := SkipSigned(r, n.value);
  }

  /** seq_parameter_set_id and log2_max_frame_num_minus4. */
  method SkipIds(r: BitReader) returns (ok: bool)
    requires r.Valid()
    modifies r
    ensures r.Valid()
    ensures SkipUe(old(r.Rest()), 2) == if ok then Got((), r.Rest()) else Bad
  {
    var id := r.Ue();
    if id.None? {
      return false;
    }
    var log2FrameNum := r.Ue();
    ok := log2FrameNum.Some?;
    if ok {
      assert SkipUe(r.Rest(), 0) == Got((), r.Rest());
    }
  }

  method FinishWalk(r: BitReader, pocType: nat) returns (info: Option<Info>)
    requires r.Valid()
    modifies r
    ensures info == WalkAfterType(old(r.Rest()), pocType)
  {
    var ok := SkipPocFields(r, pocType);
    if !ok {
      return None;
    }
    var frames := r.Ue();
    if frames.None? {
      return None;
    }
    info := Some(Info(frames.value, pocType));
  }

  method SpsRefFrameInfo(payload: Nal) returns (info: Option<Info>)
    ensures info == RefFrameInfo(payload)
  {
    if |payload| < 2 || payload[1] in CHROMA_PROFILES || |payload| < 4 {
      return None;
    }
    var rbsp := UnescapeRbsp(payload[4..]);
    var r := new BitReader(rbsp);
    var ok := SkipIds(r);
    if !ok {
      return None;
    }
    var pocType := r.Ue();
    if pocType.None? {
      return None;
    }
    info := FinishWalk(r, pocType.value);
  }
}
