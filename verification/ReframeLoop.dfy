/** `reframe` as the source runs it: one pass sorting units into slots, then the slots written out
    (crates/oxagent/src/h264.rs). */
module ReframeLoop {
  import opened Prelude
  import opened Runs
  import opened Annexb
  import opened Reframe

  /** The slots of one access unit; optional slots are lists of at most one. */
  datatype Slots = Slots(aud: seq<Nal>, sei: seq<Nal>, sps: seq<Nal>, pps: seq<Nal>,
                         slices: seq<Nal>, trailing: seq<Nal>, isIdr: bool)

  ghost function Last(p: Nal -> bool, ns: seq<Nal>): seq<Nal> {
    Opt(LastOr(p, ns, []))
  }

  ghost function SlotsOf(ns: seq<Nal>): Slots {
    var rest := Keep(IsRest, ns);
    Slots(FirstAud(rest), Keep(IsSei, ns), Last(IsSps, ns), Last(IsPps, ns),
          Keep(IsSlice, ns), WithoutFirstAud(rest), HasIdr(ns))
  }

  lemma {:induction false} KeepSnoc(p: Nal -> bool, ns: seq<Nal>, n: Nal)
    ensures Keep(p, ns + [n]) == if p(n) then Keep(p, ns) + [n] else Keep(p, ns)
  {
    KeepSplit(p, ns, [n]);
    var one: seq<Nal> := [n];
    assert one[1..] == [];
  }

  lemma {:induction false} AudSnoc(ns: seq<Nal>, n: Nal)
    ensures FirstAud(ns + [n]) == if FirstAud(ns) == [] && IsAud(n) then [n] else FirstAud(ns)
    ensures WithoutFirstAud(ns + [n]) ==
            if FirstAud(ns) == [] && IsAud(n) then WithoutFirstAud(ns) else WithoutFirstAud(ns) + [n]
  {
    if ns == [] {
      assert (ns + [n])[1..] == [];
    } else {
      assert (ns + [n])[1..] == ns[1..] + [n];
      AudSnoc(ns[1..], n);
    }
  }

  lemma {:induction false} LastSnoc(p: Nal -> bool, ns: seq<Nal>, n: Nal)
    requires n != []
    ensures Last(p, ns + [n]) == if p(n) then [n] else Last(p, ns)
  {
    assert (ns + [n])[..|ns|] == ns;
  }

  /** What one more unit does to the slots. */
  lemma {:induction false} SlotsSnoc(ns: seq<Nal>, n: Nal)
    requires n != []
    ensures var s := SlotsOf(ns);
            SlotsOf(ns + [n]) ==
            if IsAud(n) && s.aud == [] then s.(aud := [n])
            else if IsSei(n) then s.(sei := s.sei + [n])
            else if IsSps(n) then s.(sps := [n])
            else if IsPps(n) then s.(pps := [n])
            else if IsIdr(n) then s.(isIdr := true, slices := s.slices + [n])
            else if IsSlice(n) then s.(slices := s.slices + [n])
            else s.(trailing := s.trailing + [n])
  {
    KeepSnoc(IsSei, ns, n);
    KeepSnoc(IsSlice, ns, n);
    KeepSnoc(IsIdr, ns, n);
    KeepSnoc(IsRest, ns, n);
    AudSnoc(Keep(IsRest, ns), n);
    LastSnoc(IsSps, ns, n);
    LastSnoc(IsPps, ns, n);
  }

  method Classify(nals: seq<Nal>) returns (s: Slots)
    requires AllClean(nals)
    ensures s == SlotsOf(nals)
  {
    s := Slots([], [], [], [], [], [], false);
    for i := 0 to |nals|
      invariant s == SlotsOf(nals[..i])
    {
      var n := nals[i];
      assert n in nals && Clean(n);
      assert nals[..i + 1] == nals[..i] + [n];
      SlotsSnoc(nals[..i], n);
      var kind := Kind(n);
      if kind == 9 && s.aud == [] {
        s := s.(aud := [n]);
      } else if kind == 6 {
        s := s.(sei := s.sei + [n]);
      } else if kind == 7 {
        s := s.(sps := [n]);
      } else if kind == 8 {
        s := s.(pps := [n]);
      } else if kind == 5 {
        s := s.(isIdr := true, slices := s.slices + [n]);
      } else if kind == 1 {
        s := s.(slices := s.slices + [n]);
      } else {
        s := s.(trailing := s.trailing + [n]);
      }
    }
    assert nals[..|nals|] == nals;
  }

  /** Append each unit behind a 4-byte start code; `before` is what `out` already holds. */
  method PushAll(out: seq<byte>, nals: seq<Nal>, ghost before: seq<Nal>) returns (out': seq<byte>)
    requires out == Join(before)
    ensures out' == Join(before + nals)
  {
    out' := out;
    assert before + nals[..0] == before;
    for i := 0 to |nals|
      invariant out' == Join(before + nals[..i])
    {
      assert before + nals[..i + 1] == before + nals[..i] + [nals[i]];
      JoinSplit(before + nals[..i], [nals[i]]);
      JoinOne(nals[i]);
      out' := out' + (START_CODE + nals[i]);
    }
    assert nals[..|nals|] == nals;
  }

  lemma {:induction false} JoinOne(n: Nal)
    ensures Join([n]) == START_CODE + n
  {
    var one: seq<Nal> := [n];
    assert one[1..] == [];
  }

  class ParamSets {
    var sps: Nal
    var pps: Nal

    function Value(): Cache
      reads this
    {
      Cache(sps, pps)
    }

    constructor ()
      ensures Value() == EMPTY
    {
      sps := [];
      pps := [];
    }
  }

  lemma {:induction false} LastOrDefault(p: Nal -> bool, ns: seq<Nal>, default: Nal)
    requires AllClean(ns)
    ensures LastOr(p, ns, default) == if Last(p, ns) == [] then default else Last(p, ns)[0]
  {
    if ns != [] {
      assert ns[|ns| - 1] in ns;
      if !p(ns[|ns| - 1]) {
        LastOrDefault(p, ns[..|ns| - 1], default);
      }
    }
  }

  /** The parameter sets a unit goes out with: its own, else the cached ones. */
  function ParamSlots(s: Slots, c: Cache): seq<Nal> {
    if s.isIdr then
      (if s.sps != [] then s.sps else Opt(c.sps)) + (if s.pps != [] then s.pps else Opt(c.pps))
    else []
  }

  method Emit(s: Slots, c: Cache) returns (out: seq<byte>)
    ensures out == Join(s.aud + s.sei + ParamSlots(s, c) + s.slices + s.trailing)
  {
    out := PushAll([], s.aud, []);
    assert [] + s.aud == s.aud;
    out := PushAll(out, s.sei, s.aud);
    out := PushAll(out, ParamSlots(s, c), s.aud + s.sei);
    out := PushAll(out, s.slices, s.aud + s.sei + ParamSlots(s, c));
    out := PushAll(out, s.trailing, s.aud + s.sei + ParamSlots(s, c) + s.slices);
  }

  method ReframeUnit(raw: seq<byte>, cached: ParamSets) returns (out: seq<byte>, isIdr: bool)
    modifies cached
    ensures (cached.Value(), (out, isIdr)) == Step(old(cached.Value()), raw)
  {
    var nals := SplitAnnexb(raw);
    SplitClean(raw);
    var s := Classify(nals);
    LastOrDefault(IsSps, nals, cached.sps);
    LastOrDefault(IsPps, nals, cached.pps);
    if s.sps != [] {
      cached.sps := s.sps[0];
    }
    if s.pps != [] {
      cached.pps := s.pps[0];
    }
    assert ParamSlots(s, cached.Value()) == Params(nals, cached.Value());
    out := Emit(s, cached.Value());
    isIdr := s.isIdr;
  }
}
