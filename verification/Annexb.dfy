/** Annex-B byte streams of NAL units (crates/oxagent/src/h264.rs; ITU-T H.264, Annex B). */
module Annexb {
  import opened Prelude
  import opened Runs

  type Nal = seq<byte>

  /** Length of the start code at the front of `d`, or 0. */
  function CodeLen(d: seq<byte>): (n: nat)
    ensures n <= |d|
  {
    if |d| >= 3 && d[0] == 0 && d[1] == 0 && d[2] == 1 then 3
    else if |d| >= 4 && d[0] == 0 && d[1] == 0 && d[2] == 0 && d[3] == 1 then 4
    else 0
  }

  /** How many bytes precede the first start code (all of them if there is none). */
  function Lead(d: seq<byte>): (n: nat)
    ensures n <= |d|
  {
    if d == [] || CodeLen(d) > 0 then 0 else 1 + Lead(d[1..])
  }

  /** The NAL units of a stream: each start code opens one, which runs to the next start code.
      Empty ones are skipped. */
  function Split(d: seq<byte>): seq<Nal>
    decreases |d|
  {
    if d == [] then []
    else if CodeLen(d) == 0 then Split(d[1..])
    else
      var body := d[CodeLen(d)..];
      Slice(body, 0, Lead(body)) + Split(body)
  }

  function Slice(d: seq<byte>, from: nat, to: nat): seq<Nal> {
    if from < to <= |d| then [d[from..to]] else []
  }

  const START_CODE: seq<byte> := [0, 0, 0, 1]

  /** Every unit behind a 4-byte start code. */
  function Join(ns: seq<Nal>): seq<byte> {
    if ns == [] then [] else START_CODE + ns[0] + Join(ns[1..])
  }

  /** A unit that can be delimited: it has a header byte and contains no 00 00 01. */
  ghost predicate Clean(n: Nal) {
    && n != []
    && forall i :: 0 <= i < |n| - 2 ==> !(n[i] == 0 && n[i + 1] == 0 && n[i + 2] == 1)
  }

  ghost predicate AllClean(ns: seq<Nal>) {
    forall n :: n in ns ==> Clean(n)
  }

  // ---------------------------------------------------------------- split inverts join

  ghost predicate Delimited(d: seq<byte>) {
    d == [] || CodeLen(d) == 4
  }

  lemma {:induction false} CleanFront(n: Nal, rest: seq<byte>)
    requires Clean(n) && Delimited(rest)
    ensures CodeLen(n + rest) == 0
  {
    var d := n + rest;
    if |n| >= 3 {
      assert !(n[0] == 0 && n[1] == 0 && n[2] == 1);
      if |n| >= 4 {
        assert !(n[1] == 0 && n[1 + 1] == 0 && n[1 + 2] == 1);
      }
    }
  }

  lemma {:induction false} TailClean(n: Nal)
    requires Clean(n) && |n| > 1
    ensures Clean(n[1..])
  {
    var t := n[1..];
    forall i | 0 <= i < |t| - 2
      ensures !(t[i] == 0 && t[i + 1] == 0 && t[i + 2] == 1)
    {
      assert !(n[i + 1] == 0 && n[i + 1 + 1] == 0 && n[i + 1 + 2] == 1);
    }
  }

  /** A unit is skipped over whole, up to the start code behind it. */
  lemma {:induction false} CleanSkipped(n: Nal, rest: seq<byte>)
    requires Clean(n) && Delimited(rest)
    ensures Lead(n + rest) == |n| && Split(n + rest) == Split(rest)
  {
    CleanFront(n, rest);
    if |n| == 1 {
      assert (n + rest)[1..] == rest;
    } else {
      TailClean(n);
      CleanSkipped(n[1..], rest);
      assert (n + rest)[1..] == n[1..] + rest;
    }
  }

  lemma {:induction false} JoinDelimited(ns: seq<Nal>)
    ensures Delimited(Join(ns))
  {
  }

  /** Splitting inverts joining, for any list of delimitable units. */
  lemma {:induction false} SplitInvertsJoin(ns: seq<Nal>)
    requires AllClean(ns)
    ensures Split(Join(ns)) == ns
  {
    if ns != [] {
      var d, n, rest := Join(ns), ns[0], Join(ns[1..]);
      assert Clean(n);
      JoinDelimited(ns);
      JoinDelimited(ns[1..]);
      assert d[4..] == n + rest;
      CleanSkipped(n, rest);
      assert (n + rest)[0..|n|] == n;
      SplitInvertsJoin(ns[1..]);
    }
  }

  // ---------------------------------------------------------------- every split is clean

  lemma {:induction false} LeadHasNoCode(d: seq<byte>, i: nat)
    requires i < Lead(d)
    ensures CodeLen(d[i..]) == 0
  {
    if i > 0 {
      LeadHasNoCode(d[1..], i - 1);
      assert d[1..][i - 1..] == d[i..];
    }
  }

  lemma {:induction false} LeadIsClean(d: seq<byte>)
    requires Lead(d) > 0
    ensures Clean(d[..Lead(d)])
  {
    var n := d[..Lead(d)];
    forall i | 0 <= i < |n| - 2
      ensures !(n[i] == 0 && n[i + 1] == 0 && n[i + 2] == 1)
    {
      LeadHasNoCode(d, i);
      assert d[i..][0] == n[i] && d[i..][1] == n[i + 1] && d[i..][2] == n[i + 2];
    }
  }

  /** Whatever the bytes, every unit found is delimitable again. */
  lemma {:induction false} SplitClean(d: seq<byte>)
    ensures AllClean(Split(d))
    decreases |d|
  {
    if d != [] && CodeLen(d) == 0 {
      SplitClean(d[1..]);
    } else if d != [] {
      var body := d[CodeLen(d)..];
      SplitClean(body);
      if Lead(body) > 0 {
        LeadIsClean(body);
        assert body[0..Lead(body)] == body[..Lead(body)];
      }
    }
  }

  // ---------------------------------------------------------------- start codes of both lengths

  /** A start code of four bytes or of three, and what stands behind it. */
  datatype Segment = Segment(long: bool, unit: seq<byte>)

  function Code(long: bool): seq<byte> {
    if long then [0, 0, 0, 1] else [0, 0, 1]
  }

  function Bytes(segs: seq<Segment>): seq<byte> {
    if segs == [] then [] else Code(segs[0].long) + (segs[0].unit + Bytes(segs[1..]))
  }

  /** The non-empty units. */
  function Units(segs: seq<Segment>): seq<Nal> {
    if segs == [] then []
    else (if segs[0].unit == [] then [] else [segs[0].unit]) + Units(segs[1..])
  }

  ghost predicate NoCode(u: seq<byte>) {
    forall i :: 0 <= i < |u| - 2 ==> !(u[i] == 0 && u[i + 1] == 0 && u[i + 2] == 1)
  }

  predicate EndsInZero(u: seq<byte>) {
    u != [] && u[|u| - 1] == 0
  }

  /** Nothing between start codes could be taken for one, not even a zero in front of a short one. */
  ghost predicate CutFrom(before: seq<byte>, segs: seq<Segment>)
    decreases |segs|
  {
    && NoCode(before)
    && (segs != [] ==> (segs[0].long || !EndsInZero(before)) && CutFrom(segs[0].unit, segs[1..]))
  }

  lemma {:induction false} NoCodeHere(before: seq<byte>, segs: seq<Segment>)
    requires CutFrom(before, segs) && before != []
    ensures CodeLen(before + Bytes(segs)) == 0
  {
    var d, n := before + Bytes(segs), |before|;
    if segs != [] {
      assert Bytes(segs)[..3] == Code(segs[0].long)[..3];
    }
    if n >= 3 {
      assert !(before[0] == 0 && before[0 + 1] == 0 && before[0 + 2] == 1);
    }
    if n >= 4 {
      assert !(before[1] == 0 && before[1 + 1] == 0 && before[1 + 2] == 1);
    }
  }

  lemma {:induction false} CutTail(before: seq<byte>, segs: seq<Segment>)
    requires CutFrom(before, segs) && before != []
    ensures CutFrom(before[1..], segs)
  {
    var t := before[1..];
    forall i | 0 <= i < |t| - 2
      ensures !(t[i] == 0 && t[i + 1] == 0 && t[i + 2] == 1)
    {
      assert !(before[i + 1] == 0 && before[i + 1 + 1] == 0 && before[i + 1 + 2] == 1);
    }
  }

  lemma {:induction false} CodeInFront(segs: seq<Segment>)
    requires segs != []
    ensures CodeLen(Bytes(segs)) == |Code(segs[0].long)|
    ensures Bytes(segs)[|Code(segs[0].long)|..] == segs[0].unit + Bytes(segs[1..])
  {
  }

  lemma {:induction false} LeadAtCode(segs: seq<Segment>)
    ensures Lead(Bytes(segs)) == 0
  {
    if segs != [] {
      CodeInFront(segs);
    }
  }

  lemma {:induction false} CutDrop(before: seq<byte>, segs: seq<Segment>, i: nat)
    requires CutFrom(before, segs) && i <= |before|
    ensures CutFrom(before[i..], segs)
    decreases i
  {
    if i == 0 {
      assert before[0..] == before;
    } else {
      CutTail(before, segs);
      CutDrop(before[1..], segs, i - 1);
      assert before[1..][i - 1..] == before[i..];
    }
  }

  /** Bytes at which no start code stands are passed over. */
  lemma {:induction false} PassedOver(d: seq<byte>, n: nat)
    requires n <= |d| && forall i :: 0 <= i < n ==> CodeLen(d[i..]) == 0
    ensures Lead(d) == n + Lead(d[n..]) && Split(d) == Split(d[n..])
    decreases n
  {
    if n == 0 {
      assert d[0..] == d;
    } else {
      assert d[0..] == d;
      forall i | 0 <= i < n - 1
        ensures CodeLen(d[1..][i..]) == 0
      {
        assert d[1..][i..] == d[i + 1..];
      }
      PassedOver(d[1..], n - 1);
      assert d[1..][n - 1..] == d[n..];
    }
  }

  /** What stands before a start code is passed over whole. */
  lemma {:induction false} Passed(before: seq<byte>, segs: seq<Segment>)
    requires CutFrom(before, segs)
    ensures Lead(before + Bytes(segs)) == |before| && Split(before + Bytes(segs)) == Split(Bytes(segs))
  {
    var d := before + Bytes(segs);
    forall i | 0 <= i < |before|
      ensures CodeLen(d[i..]) == 0
    {
      CutDrop(before, segs, i);
      NoCodeHere(before[i..], segs);
      assert d[i..] == before[i..] + Bytes(segs);
    }
    PassedOver(d, |before|);
    assert d[|before|..] == Bytes(segs);
    LeadAtCode(segs);
  }

  /** The units found are the units put there: for any mixture of 3- and 4-byte start codes, with or
      without something in front of the first. */
  lemma {:induction false} SplitInvertsBytes(before: seq<byte>, segs: seq<Segment>)
    requires CutFrom(before, segs)
    ensures Split(before + Bytes(segs)) == Units(segs)
    decreases |segs|
  {
    Passed(before, segs);
    if segs != [] {
      var u, rest := segs[0].unit, segs[1..];
      CodeInFront(segs);
      Passed(u, rest);
      SplitInvertsBytes(u, rest);
      assert (u + Bytes(rest))[0..|u|] == u;
    }
  }

  /** ... and every stream at all is of that form. */
  function Cutting(d: seq<byte>): (seq<byte>, seq<Segment>)
    decreases |d|
  {
    var n := Lead(d);
    var code := CodeLen(d[n..]);
    if code == 0 then (d, [])
    else
      var (unit, segs) := Cutting(d[n + code..]);
      (d[..n], [Segment(code == 4, unit)] + segs)
  }

  lemma {:induction false} LeadEnds(d: seq<byte>)
    ensures Lead(d) < |d| ==> CodeLen(d[Lead(d)..]) > 0
  {
    if d != [] && CodeLen(d) == 0 {
      LeadEnds(d[1..]);
      assert d[1..][Lead(d[1..])..] == d[Lead(d)..];
    }
  }

  /** A zero in front of a short code would have made it a long one. */
  lemma {:induction false} NoZeroBefore(d: seq<byte>)
    requires Lead(d) < |d| && CodeLen(d[Lead(d)..]) == 3
    ensures !EndsInZero(d[..Lead(d)])
  {
    var n := Lead(d);
    if n > 0 {
      LeadHasNoCode(d, n - 1);
      var e := d[n - 1..];
      assert e[1..] == d[n..] && e[0] == d[n - 1];
      assert e[1] == d[n..][0] && e[2] == d[n..][1] && e[3] == d[n..][2];
    }
  }

  lemma {:induction false} EveryStreamCut(d: seq<byte>)
    ensures var (before, segs) := Cutting(d); CutFrom(before, segs) && before + Bytes(segs) == d
    decreases |d|
  {
    var n := Lead(d);
    LeadEnds(d);
    LeadNoCode(d);
    if n < |d| {
      var code := CodeLen(d[n..]);
      var (unit, segs) := Cutting(d[n + code..]);
      EveryStreamCut(d[n + code..]);
      if code == 3 {
        NoZeroBefore(d);
      }
      CutCons(d[..n], Segment(code == 4, unit), segs);
      BytesCons(Segment(code == 4, unit), segs);
      CutInThree(d, n);
    }
  }

  lemma {:induction false} LeadNoCode(d: seq<byte>)
    ensures NoCode(d[..Lead(d)]) && (Lead(d) == |d| ==> NoCode(d))
  {
    if Lead(d) > 0 {
      LeadIsClean(d);
    }
    assert d[..|d|] == d;
  }

  lemma {:induction false} CutInThree(d: seq<byte>, n: nat)
    requires n <= |d| && CodeLen(d[n..]) > 0
    ensures var code := CodeLen(d[n..]); n + code <= |d| && d == d[..n] + (Code(code == 4) + d[n + code..])
  {
    var code := CodeLen(d[n..]);
    assert d[n..][..code] == Code(code == 4);
    assert d[n..] == d[n..][..code] + d[n..][code..];
    assert d[n..][code..] == d[n + code..] && d == d[..n] + d[n..];
  }

  lemma {:induction false} BytesCons(seg: Segment, segs: seq<Segment>)
    ensures Bytes([seg] + segs) == Code(seg.long) + (seg.unit + Bytes(segs))
  {
    assert ([seg] + segs)[1..] == segs;
  }

  lemma {:induction false} CutCons(before: seq<byte>, seg: Segment, segs: seq<Segment>)
    requires NoCode(before) && (seg.long || !EndsInZero(before)) && CutFrom(seg.unit, segs)
    ensures CutFrom(before, [seg] + segs)
  {
    assert ([seg] + segs)[1..] == segs;
  }

  /** So for any bytes the split is known: everything between two start codes, in order. */
  lemma {:induction false} SplitExact(d: seq<byte>)
    ensures Split(d) == Units(Cutting(d).1)
  {
    EveryStreamCut(d);
    SplitInvertsBytes(Cutting(d).0, Cutting(d).1);
  }

  lemma {:induction false} JoinSplit(a: seq<Nal>, b: seq<Nal>)
    ensures Join(a + b) == Join(a) + Join(b)
  {
    if a == [] {
      assert a + b == b;
    } else {
      assert (a + b)[1..] == a[1..] + b;
      JoinSplit(a[1..], b);
      assert START_CODE + a[0] + (Join(a[1..]) + Join(b)) == START_CODE + a[0] + Join(a[1..]) + Join(b);
    }
  }

  // ---------------------------------------------------------------- the scanning loops

  datatype Start = Start(pos: nat, len: nat)

  /** Start codes found scanning from `i`. */
  function StartsFrom(d: seq<byte>, i: nat): seq<Start>
    decreases |d| - i
  {
    if i + 3 > |d| then []
    else
      var len := CodeAt(d, i);
      if len > 0 then [Start(i, len)] + StartsFrom(d, i + len) else StartsFrom(d, i + 1)
  }

  function CodeAt(d: seq<byte>, i: nat): (n: nat)
    requires i + 3 <= |d|
    ensures i + n <= |d|
  {
    if d[i] == 0 && d[i + 1] == 0 && d[i + 2] == 1 then 3
    else if i + 4 <= |d| && d[i] == 0 && d[i + 1] == 0 && d[i + 2] == 0 && d[i + 3] == 1 then 4
    else 0
  }

  /** The units between consecutive start codes, the last one running to the end. */
  function Between(d: seq<byte>, starts: seq<Start>): seq<Nal> {
    if starts == [] then []
    else Payload(d, starts[0], if |starts| > 1 then starts[1].pos else |d|) + Between(d, starts[1..])
  }

  function Payload(d: seq<byte>, start: Start, to: nat): seq<Nal> {
    Slice(d, start.pos + start.len, to)
  }

  lemma {:induction false} CodeAtLen(d: seq<byte>, i: nat)
    requires i + 3 <= |d|
    ensures CodeAt(d, i) == CodeLen(d[i..])
  {
  }

  lemma {:induction false} ShortLead(d: seq<byte>)
    requires |d| < 3
    ensures Lead(d) == |d|
  {
    if d != [] {
      ShortLead(d[1..]);
    }
  }

  lemma {:induction false} ShortSplit(d: seq<byte>)
    requires |d| < 3
    ensures Split(d) == []
  {
    if d != [] {
      ShortSplit(d[1..]);
    }
  }

  lemma {:induction false} FirstStart(d: seq<byte>, i: nat)
    requires i <= |d|
    ensures i + Lead(d[i..]) == if StartsFrom(d, i) == [] then |d| else StartsFrom(d, i)[0].pos
    decreases |d| - i
  {
    if i + 3 > |d| {
      ShortLead(d[i..]);
    } else {
      CodeAtLen(d, i);
      if CodeAt(d, i) == 0 {
        FirstStart(d, i + 1);
        assert d[i..][1..] == d[i + 1..];
      }
    }
  }

  lemma {:induction false} SliceShift(d: seq<byte>, from: nat, n: nat)
    requires from + n <= |d|
    ensures Slice(d, from, from + n) == Slice(d[from..], 0, n)
  {
    assert d[from..][0..n] == d[from..from + n];
  }

  lemma {:induction false} BetweenCons(d: seq<byte>, s: Start, rest: seq<Start>)
    ensures Between(d, [s] + rest) ==
            Payload(d, s, if rest == [] then |d| else rest[0].pos) + Between(d, rest)
  {
    assert ([s] + rest)[1..] == rest;
  }

  lemma {:induction false} CutAtCode(d: seq<byte>, i: nat, len: nat, rest: seq<Start>)
    requires i <= i + len <= |d| && len == CodeLen(d[i..]) && len > 0
    requires Between(d, rest) == Split(d[i + len..])
    requires i + len + Lead(d[i + len..]) == if rest == [] then |d| else rest[0].pos
    ensures Between(d, [Start(i, len)] + rest) == Split(d[i..])
  {
    var s := d[i..];
    var body := d[i + len..];
    assert s[len..] == body;
    BetweenCons(d, Start(i, len), rest);
    SliceShift(d, i + len, Lead(body));
  }

  lemma {:induction false} ScanMatchesSplit(d: seq<byte>, i: nat)
    requires i <= |d|
    ensures Between(d, StartsFrom(d, i)) == Split(d[i..])
    decreases |d| - i
  {
    if i + 3 > |d| {
      ShortSplit(d[i..]);
    } else {
      CodeAtLen(d, i);
      var len := CodeAt(d, i);
      if len == 0 {
        ScanMatchesSplit(d, i + 1);
        assert d[i..][1..] == d[i + 1..];
      } else {
        ScanMatchesSplit(d, i + len);
        FirstStart(d, i + len);
        CutAtCode(d, i, len, StartsFrom(d, i + len));
      }
    }
  }

  lemma {:induction false} StartsNext(d: seq<byte>, i: nat)
    requires i + 3 <= |d|
    ensures var len := CodeAt(d, i);
            StartsFrom(d, i) == if len > 0 then [Start(i, len)] + StartsFrom(d, i + len) else StartsFrom(d, i + 1)
  {
  }

  /** First loop of `split_annexb`: where the start codes are. */
  method CollectStarts(data: seq<byte>) returns (starts: seq<Start>)
    ensures starts == StartsFrom(data, 0)
  {
    starts := [];
    var i := 0;
    ghost var all := StartsFrom(data, i);
    while i + 3 <= |data|
      invariant 0 <= i <= |data|
      invariant all == starts + StartsFrom(data, i)
    {
      var len := 0;
      if data[i] == 0 && data[i + 1] == 0 {
        if data[i + 2] == 1 {
          len := 3;
        } else if i + 4 <= |data| && data[i + 2] == 0 && data[i + 3] == 1 {
          len := 4;
        }
      }
      assert len == CodeAt(data, i);
      StartsNext(data, i);
      if len > 0 {
        Assoc(starts, [Start(i, len)], StartsFrom(data, i + len));
        starts := starts + [Start(i, len)];
        i := i + len;
      } else {
        i := i + 1;
      }
    }
  }

  /** Second loop: the payloads between them, empty ones skipped. */
  method SplitAnnexb(data: seq<byte>) returns (nals: seq<Nal>)
    ensures nals == Split(data)
  {
    var starts := CollectStarts(data);
    ScanMatchesSplit(data, 0);
    assert data[0..] == data && starts[0..] == starts;
    ghost var all := Between(data, starts);
    nals := [];
    for idx := 0 to |starts|
      invariant all == nals + Between(data, starts[idx..])
    {
      assert starts[idx..][1..] == starts[idx + 1..];
      var to := if idx + 1 < |starts| then starts[idx + 1].pos else |data|;
      nals := nals + Payload(data, starts[idx], to);
    }
  }
}
