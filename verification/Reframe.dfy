/** Normalising an encoder's access units: NAL ordering and parameter sets on every keyframe
    (crates/oxagent/src/h264.rs, `reframe`). */
module Reframe {
  import opened Prelude
  import opened Runs
  import opened Annexb

  function Kind(n: Nal): nat {
    if n == [] then 0 else n[0] % 32
  }

  predicate IsSei(n: Nal) { Kind(n) == 6 }
  predicate IsSps(n: Nal) { Kind(n) == 7 }
  predicate IsPps(n: Nal) { Kind(n) == 8 }
  predicate IsAud(n: Nal) { Kind(n) == 9 }
  predicate IsIdr(n: Nal) { Kind(n) == 5 }
  predicate IsSlice(n: Nal) { Kind(n) == 1 || Kind(n) == 5 }

  /** Access unit delimiters and every kind the layout has no slot for. */
  predicate IsRest(n: Nal) {
    !IsSei(n) && !IsSps(n) && !IsPps(n) && !IsSlice(n)
  }

  /** The most recent parameter sets; empty means none seen. */
  datatype Cache = Cache(sps: Nal, pps: Nal)

  const EMPTY: Cache := Cache([], [])

  /** The last unit satisfying `p`, or `default`. */
  function LastOr(p: Nal -> bool, ns: seq<Nal>, default: Nal): Nal {
    if ns == [] then default
    else if p(ns[|ns| - 1]) then ns[|ns| - 1]
    else LastOr(p, ns[..|ns| - 1], default)
  }

  function Refresh(c: Cache, ns: seq<Nal>): Cache {
    Cache(LastOr(IsSps, ns, c.sps), LastOr(IsPps, ns, c.pps))
  }

  function Opt(n: Nal): seq<Nal> {
    if n == [] then [] else [n]
  }

  /** The first delimiter, as a list of at most one. */
  function FirstAud(ns: seq<Nal>): seq<Nal> {
    if ns == [] then [] else if IsAud(ns[0]) then [ns[0]] else FirstAud(ns[1..])
  }

  function WithoutFirstAud(ns: seq<Nal>): seq<Nal> {
    if ns == [] then [] else if IsAud(ns[0]) then ns[1..] else [ns[0]] + WithoutFirstAud(ns[1..])
  }

  function HasIdr(ns: seq<Nal>): bool {
    Keep(IsIdr, ns) != []
  }

  function Params(ns: seq<Nal>, c: Cache): seq<Nal> {
    if HasIdr(ns) then Opt(c.sps) + Opt(c.pps) else []
  }

  /** The layout of the outgoing unit; `c` is the cache already refreshed from `ns`. */
  function Layout(ns: seq<Nal>, c: Cache): seq<Nal> {
    FirstAud(Keep(IsRest, ns)) + Keep(IsSei, ns) + Params(ns, c) + Keep(IsSlice, ns) +
    WithoutFirstAud(Keep(IsRest, ns))
  }

  // ---------------------------------------------------------------- filters

  ghost predicate All(p: Nal -> bool, ns: seq<Nal>) {
    forall n :: n in ns ==> p(n)
  }

  ghost predicate NoneOf(p: Nal -> bool, ns: seq<Nal>) {
    forall n :: n in ns ==> !p(n)
  }

  lemma {:induction false} KeepMembers(p: Nal -> bool, ns: seq<Nal>)
    ensures forall n :: n in Keep(p, ns) <==> n in ns && p(n)
  {
    if ns != [] {
      KeepMembers(p, ns[1..]);
      assert forall n :: n in ns <==> n == ns[0] || n in ns[1..];
    }
  }

  lemma {:induction false} KeepAll(p: Nal -> bool, ns: seq<Nal>)
    requires All(p, ns)
    ensures Keep(p, ns) == ns
  {
    if ns != [] {
      KeepAll(p, ns[1..]);
    }
  }

  lemma {:induction false} KeepNone(p: Nal -> bool, ns: seq<Nal>)
    requires NoneOf(p, ns)
    ensures Keep(p, ns) == []
  {
    if ns != [] {
      KeepNone(p, ns[1..]);
    }
  }

  /** A class that owns one block of a list is that block. */
  lemma {:induction false} KeepBlock(p: Nal -> bool, before: seq<Nal>, block: seq<Nal>, after: seq<Nal>)
    requires NoneOf(p, before) && All(p, block) && NoneOf(p, after)
    ensures Keep(p, before + block + after) == block
  {
    KeepSplit(p, before, block);
    KeepSplit(p, before + block, after);
    KeepNone(p, before);
    KeepAll(p, block);
    KeepNone(p, after);
  }

  /** A class that owns the two outer blocks is the two of them. */
  lemma {:induction false} KeepEnds(p: Nal -> bool, front: seq<Nal>, middle: seq<Nal>, back: seq<Nal>)
    requires All(p, front) && NoneOf(p, middle) && All(p, back)
    ensures Keep(p, front + middle + back) == front + back
  {
    KeepSplit(p, front, middle);
    KeepSplit(p, front + middle, back);
    KeepAll(p, front);
    KeepNone(p, middle);
    KeepAll(p, back);
  }

  lemma {:induction false} AudParts(ns: seq<Nal>)
    ensures var (f, w) := (FirstAud(ns), WithoutFirstAud(ns));
            && |f| <= 1 && All(IsAud, f)
            && (f == [] ==> w == ns && NoneOf(IsAud, ns))
            && (forall n :: n in f || n in w <==> n in ns)
  {
    if ns != [] {
      AudParts(ns[1..]);
      assert forall n :: n in ns <==> n == ns[0] || n in ns[1..];
    }
  }

  /** Moving the first delimiter to the front and looking again finds the same split. */
  lemma {:induction false} AudStable(ns: seq<Nal>)
    ensures var (f, w) := (FirstAud(ns), WithoutFirstAud(ns));
            FirstAud(f + w) == f && WithoutFirstAud(f + w) == w
  {
    var f, w := FirstAud(ns), WithoutFirstAud(ns);
    AudParts(ns);
    if f == [] {
      assert f + w == ns;
    } else {
      assert f[0] in f && IsAud(f[0]);
      assert (f + w)[0] == f[0] && (f + w)[1..] == w && f == [f[0]];
    }
  }

  lemma {:induction false} MoveFront(p: Nal -> bool, f: seq<Nal>, n: Nal, w: seq<Nal>)
    requires p(n) ==> Keep(p, f) == []
    ensures Keep(p, f + ([n] + w)) == (if p(n) then [n] else []) + Keep(p, f + w)
  {
    KeepSplit(p, f, w);
    KeepSplit(p, f, [n] + w);
    assert ([n] + w)[1..] == w;
    assert Keep(p, [n] + w) == (if p(n) then [n] else []) + Keep(p, w);
  }

  /** ... and does not reorder the delimiters, nor the units that are not delimiters. */
  lemma {:induction false} AudOrder(p: Nal -> bool, ns: seq<Nal>)
    requires (forall n :: p(n) ==> IsAud(n)) || (forall n :: p(n) ==> !IsAud(n))
    ensures Keep(p, FirstAud(ns) + WithoutFirstAud(ns)) == Keep(p, ns)
  {
    if ns != [] {
      var f, w := FirstAud(ns), WithoutFirstAud(ns);
      if IsAud(ns[0]) {
        assert f + w == ns;
      } else {
        var w' := WithoutFirstAud(ns[1..]);
        AudOrder(p, ns[1..]);
        if p(ns[0]) {
          AudParts(ns[1..]);
          KeepNone(p, f);
        }
        MoveFront(p, f, ns[0], w');
      }
    }
  }

  // ---------------------------------------------------------------- what the layout contains

  /** The blocks of a layout, by what their members are. */
  lemma {:induction false} Blocks(ns: seq<Nal>, c: Cache)
    requires c.sps != [] ==> IsSps(c.sps)
    requires c.pps != [] ==> IsPps(c.pps)
    ensures All(IsRest, FirstAud(Keep(IsRest, ns)))
    ensures All(IsSei, Keep(IsSei, ns))
    ensures All(IsParam, Params(ns, c))
    ensures All(IsSlice, Keep(IsSlice, ns))
    ensures All(IsRest, WithoutFirstAud(Keep(IsRest, ns)))
  {
    KeepMembers(IsRest, ns);
    KeepMembers(IsSei, ns);
    KeepMembers(IsSlice, ns);
    AudParts(Keep(IsRest, ns));
  }

  predicate IsParam(n: Nal) {
    IsSps(n) || IsPps(n)
  }

  ghost predicate CacheKinds(c: Cache) {
    (c.sps != [] ==> IsSps(c.sps)) && (c.pps != [] ==> IsPps(c.pps))
  }

  lemma {:induction false} LayoutSei(ns: seq<Nal>, c: Cache)
    requires CacheKinds(c)
    ensures Keep(IsSei, Layout(ns, c)) == Keep(IsSei, ns)
  {
    Blocks(ns, c);
    var f, w := FirstAud(Keep(IsRest, ns)), WithoutFirstAud(Keep(IsRest, ns));
    var params, slices := Params(ns, c), Keep(IsSlice, ns);
    KeepBlock(IsSei, f, Keep(IsSei, ns), params + slices + w);
    Assoc(f + Keep(IsSei, ns), params, slices);
    Assoc(f + Keep(IsSei, ns), params + slices, w);
  }

  lemma {:induction false} LayoutSlices(ns: seq<Nal>, c: Cache)
    requires CacheKinds(c)
    ensures Keep(IsSlice, Layout(ns, c)) == Keep(IsSlice, ns)
  {
    Blocks(ns, c);
    var f, w := FirstAud(Keep(IsRest, ns)), WithoutFirstAud(Keep(IsRest, ns));
    KeepBlock(IsSlice, f + Keep(IsSei, ns) + Params(ns, c), Keep(IsSlice, ns), w);
  }

  lemma {:induction false} LayoutParams(ns: seq<Nal>, c: Cache)
    requires CacheKinds(c)
    ensures Keep(IsParam, Layout(ns, c)) == Params(ns, c)
  {
    Blocks(ns, c);
    var f, w := FirstAud(Keep(IsRest, ns)), WithoutFirstAud(Keep(IsRest, ns));
    var before, after := f + Keep(IsSei, ns), Keep(IsSlice, ns) + w;
    KeepBlock(IsParam, before, Params(ns, c), after);
    Assoc(before + Params(ns, c), Keep(IsSlice, ns), w);
  }

  lemma {:induction false} LayoutRest(ns: seq<Nal>, c: Cache)
    requires CacheKinds(c)
    ensures Keep(IsRest, Layout(ns, c)) ==
            FirstAud(Keep(IsRest, ns)) + WithoutFirstAud(Keep(IsRest, ns))
  {
    Blocks(ns, c);
    var f, w := FirstAud(Keep(IsRest, ns)), WithoutFirstAud(Keep(IsRest, ns));
    var sei, params, slices := Keep(IsSei, ns), Params(ns, c), Keep(IsSlice, ns);
    Assoc(f, sei, params);
    Assoc(f, sei + params, slices);
    KeepEnds(IsRest, f, sei + params + slices, w);
  }

  lemma {:induction false} KeepKeep(p: Nal -> bool, q: Nal -> bool, ns: seq<Nal>)
    requires forall n :: q(n) ==> p(n)
    ensures Keep(q, Keep(p, ns)) == Keep(q, ns)
  {
    if ns != [] {
      KeepKeep(p, q, ns[1..]);
      KeepSplit(q, if p(ns[0]) then [ns[0]] else [], Keep(p, ns[1..]));
      var one: seq<Nal> := [ns[0]];
      assert one[1..] == [];
    }
  }

  lemma {:induction false} LayoutIdr(ns: seq<Nal>, c: Cache)
    requires CacheKinds(c)
    ensures HasIdr(Layout(ns, c)) == HasIdr(ns)
  {
    LayoutSlices(ns, c);
    KeepKeep(IsSlice, IsIdr, Layout(ns, c));
    KeepKeep(IsSlice, IsIdr, ns);
  }

  predicate IsOther(n: Nal) {
    IsRest(n) && !IsAud(n)
  }

  /** No unit but a parameter set is lost, added or reordered within its class. */
  lemma {:induction false} LayoutPreserves(ns: seq<Nal>, c: Cache)
    requires CacheKinds(c)
    ensures Keep(IsAud, Layout(ns, c)) == Keep(IsAud, ns)
    ensures Keep(IsSei, Layout(ns, c)) == Keep(IsSei, ns)
    ensures Keep(IsSlice, Layout(ns, c)) == Keep(IsSlice, ns)
    ensures Keep(IsOther, Layout(ns, c)) == Keep(IsOther, ns)
  {
    LayoutSei(ns, c);
    LayoutSlices(ns, c);
    LayoutRest(ns, c);
    LayoutRestOrder(IsAud, ns, c);
    LayoutRestOrder(IsOther, ns, c);
  }

  lemma {:induction false} LayoutRestOrder(p: Nal -> bool, ns: seq<Nal>, c: Cache)
    requires CacheKinds(c)
    requires forall n :: p(n) ==> IsRest(n)
    requires (forall n :: p(n) ==> IsAud(n)) || (forall n :: p(n) ==> !IsAud(n))
    ensures Keep(p, Layout(ns, c)) == Keep(p, ns)
  {
    LayoutRest(ns, c);
    KeepKeep(IsRest, p, Layout(ns, c));
    KeepKeep(IsRest, p, ns);
    AudOrder(p, Keep(IsRest, ns));
  }

  /** Laying out a layout changes nothing. */
  lemma {:induction false} LayoutIdempotent(ns: seq<Nal>, c: Cache)
    requires CacheKinds(c)
    ensures Layout(Layout(ns, c), c) == Layout(ns, c)
  {
    LayoutSei(ns, c);
    LayoutSlices(ns, c);
    LayoutRest(ns, c);
    LayoutIdr(ns, c);
    AudStable(Keep(IsRest, ns));
  }

  // ---------------------------------------------------------------- the cache

  ghost predicate CacheOk(c: Cache) {
    CacheKinds(c) && (c.sps != [] ==> Clean(c.sps)) && (c.pps != [] ==> Clean(c.pps))
  }

  lemma {:induction false} LastOrMember(p: Nal -> bool, ns: seq<Nal>, default: Nal)
    ensures var n := LastOr(p, ns, default);
            (NoneOf(p, ns) && n == default) || (n in ns && p(n))
  {
    if ns != [] && !p(ns[|ns| - 1]) {
      LastOrMember(p, ns[..|ns| - 1], default);
    }
  }

  lemma {:induction false} LastOrSplit(p: Nal -> bool, a: seq<Nal>, b: seq<Nal>, default: Nal)
    ensures LastOr(p, a + b, default) == LastOr(p, b, LastOr(p, a, default))
  {
    if b == [] {
      assert a + b == a;
    } else {
      LastOrSplit(p, a, b[..|b| - 1], default);
      assert (a + b)[..|a + b| - 1] == a + b[..|b| - 1];
    }
  }

  lemma {:induction false} RefreshOk(c: Cache, ns: seq<Nal>)
    requires CacheOk(c) && AllClean(ns)
    ensures CacheOk(Refresh(c, ns))
  {
    LastOrMember(IsSps, ns, c.sps);
    LastOrMember(IsPps, ns, c.pps);
  }

  lemma {:induction false} LayoutClean(ns: seq<Nal>, c: Cache)
    requires CacheOk(c) && AllClean(ns)
    ensures AllClean(Layout(ns, c))
  {
    KeepMembers(IsRest, ns);
    KeepMembers(IsSei, ns);
    KeepMembers(IsSlice, ns);
    AudParts(Keep(IsRest, ns));
  }

  lemma {:induction false} LayoutParamsCached(ns: seq<Nal>, c: Cache, n: Nal)
    requires CacheKinds(c) && n in Layout(ns, c)
    ensures IsSps(n) ==> n == c.sps
    ensures IsPps(n) ==> n == c.pps
  {
    LayoutParams(ns, c);
    KeepMembers(IsParam, Layout(ns, c));
  }

  lemma {:induction false} RefreshFromLayout(ns: seq<Nal>, c: Cache)
    requires CacheKinds(c)
    ensures Refresh(c, Layout(ns, c)) == c
  {
    var l := Layout(ns, c);
    LastOrMember(IsSps, l, c.sps);
    LastOrMember(IsPps, l, c.pps);
    var s, p := LastOr(IsSps, l, c.sps), LastOr(IsPps, l, c.pps);
    if s in l {
      LayoutParamsCached(ns, c, s);
    }
    if p in l {
      LayoutParamsCached(ns, c, p);
    }
  }

  // ---------------------------------------------------------------- access units as bytes

  /** One call: new cache, outgoing bytes, and whether the unit is a keyframe. */
  function Step(c: Cache, raw: seq<byte>): (Cache, (seq<byte>, bool)) {
    var ns := Split(raw);
    var c' := Refresh(c, ns);
    (c', (Join(Layout(ns, c')), HasIdr(ns)))
  }

  lemma {:induction false} StepFacts(c: Cache, raw: seq<byte>)
    requires CacheOk(c)
    ensures var (c', out) := Step(c, raw);
            && CacheOk(c')
            && Split(out.0) == Layout(Split(raw), c')
  {
    var ns := Split(raw);
    SplitClean(raw);
    RefreshOk(c, ns);
    LayoutClean(ns, Refresh(c, ns));
    SplitInvertsJoin(Layout(ns, Refresh(c, ns)));
  }

  /** Reframing is a normaliser: its output is its own image, with the cache it left behind. */
  lemma {:induction false} ReframeIdempotent(c: Cache, raw: seq<byte>)
    requires CacheOk(c)
    ensures var (c', out) := Step(c, raw); Step(c', out.0) == (c', out)
  {
    StepFacts(c, raw);
    var ns := Split(raw);
    var c' := Refresh(c, ns);
    LayoutIdempotent(ns, c');
    LayoutIdr(ns, c');
    RefreshFromLayout(ns, c');
  }

  /** Every unit other than a parameter set survives, in order within its class, whichever start codes the
      encoder put before the units. */
  lemma {:induction false} UnitsSurvive(c: Cache, before: seq<byte>, segs: seq<Segment>)
    requires CacheOk(c) && CutFrom(before, segs)
    ensures var sent := Split(Step(c, before + Bytes(segs)).1.0);
            && Keep(IsAud, sent) == Keep(IsAud, Units(segs))
            && Keep(IsSei, sent) == Keep(IsSei, Units(segs))
            && Keep(IsSlice, sent) == Keep(IsSlice, Units(segs))
            && Keep(IsOther, sent) == Keep(IsOther, Units(segs))
  {
    var raw := before + Bytes(segs);
    SplitInvertsBytes(before, segs);
    StepFacts(c, raw);
    LayoutPreserves(Split(raw), Step(c, raw).0);
  }

  // ---------------------------------------------------------------- whole streams

  /** All units of a sequence of access units. */
  function History(units: seq<seq<byte>>): seq<Nal> {
    if units == [] then [] else History(units[..|units| - 1]) + Split(units[|units| - 1])
  }

  lemma {:induction false} CacheIsLatest(units: seq<seq<byte>>)
    ensures End(Step, EMPTY, units) == Refresh(EMPTY, History(units))
    ensures CacheOk(End(Step, EMPTY, units))
    decreases |units|
  {
    if units != [] {
      var init, last := units[..|units| - 1], units[|units| - 1];
      assert units == init + [last];
      CacheIsLatest(init);
      RunSnoc(Step, EMPTY, init, last);
      StepFacts(End(Step, EMPTY, init), last);
      LastOrSplit(IsSps, History(init), Split(last), []);
      LastOrSplit(IsPps, History(init), Split(last), []);
    }
  }

  /** A keyframe has an IDR slice, nal_unit_type 5, and nothing else makes one. */
  lemma {:induction false} IdrExact(ns: seq<Nal>)
    ensures HasIdr(ns) <==> exists n :: n in ns && n != [] && n[0] % 32 == 5
  {
    KeepMembers(IsIdr, ns);
    if HasIdr(ns) {
      var n := Keep(IsIdr, ns)[0];
      assert n in Keep(IsIdr, ns);
    }
  }

  /** Main result over whole streams. With `seen` all units so far, this access unit included: a
      keyframe goes out as delimiter and SEI, then the latest SPS seen, then the latest PPS seen,
      then its slices, then the rest; it lacks a parameter set exactly when none was ever seen.
      Any other access unit goes out in the same order with neither. */
  lemma {:induction false} KeyframesCarryParameters(units: seq<seq<byte>>, raw: seq<byte>)
    ensures var ns := Split(raw);
            var seen := History(units + [raw]);
            var (out, idr) := Step(End(Step, EMPTY, units), raw).1;
            var sps, pps := LastOr(IsSps, seen, []), LastOr(IsPps, seen, []);
            && (idr <==> exists n :: n in ns && n != [] && n[0] % 32 == 5)
            && (!idr ==> NoneOf(IsParam, Split(out)))
            && (idr ==> Keep(IsParam, Split(out)) == Opt(sps) + Opt(pps))
            && Split(out) == FirstAud(Keep(IsRest, ns)) + Keep(IsSei, ns) + (if idr then Opt(sps) + Opt(pps) else []) +
                             Keep(IsSlice, ns) + WithoutFirstAud(Keep(IsRest, ns))
            && (idr ==> Keep(IsSlice, ns) != [])
            && (sps == [] <==> NoneOf(IsSps, seen))
            && (pps == [] <==> NoneOf(IsPps, seen))
  {
    var ns, seen := Split(raw), History(units + [raw]);
    var c := End(Step, EMPTY, units);
    CacheIsLatest(units);
    CacheIsLatest(units + [raw]);
    RunSnoc(Step, EMPTY, units, raw);
    StepFacts(c, raw);
    var c' := Step(c, raw).0;
    LayoutParams(ns, c');
    KeepMembers(IsParam, Layout(ns, c'));
    KeepKeep(IsSlice, IsIdr, ns);
    IdrExact(ns);
    LastOrMember(IsSps, seen, []);
    LastOrMember(IsPps, seen, []);
  }

  /** The place of a class in an outgoing unit. */
  function Place(n: Nal): nat {
    if Kind(n) == 6 then 1 else if Kind(n) == 7 then 2 else if Kind(n) == 8 then 3
    else if Kind(n) == 1 || Kind(n) == 5 then 4 else 5
  }

  ghost predicate Ordered(ns: seq<Nal>) {
    forall i, j :: 0 <= i < j < |ns| ==> Place(ns[i]) <= Place(ns[j])
  }

  ghost predicate AllFrom(ns: seq<Nal>, k: nat) {
    forall n :: n in ns ==> Place(n) >= k
  }

  ghost predicate AllAt(ns: seq<Nal>, k: nat) {
    forall n :: n in ns ==> Place(n) == k
  }

  lemma {:induction false} OrderedFront(a: seq<Nal>, b: seq<Nal>, k: nat)
    requires AllAt(a, k) && AllFrom(b, k) && Ordered(b)
    ensures Ordered(a + b) && AllFrom(a + b, k)
  {
    var ns := a + b;
    forall i, j | 0 <= i < j < |ns|
      ensures Place(ns[i]) <= Place(ns[j])
    {
      if i < |a| {
        assert ns[i] in a;
        assert if j < |a| then ns[j] in a else ns[j] in b;
      }
    }
  }

  /** The parameter sets a unit goes out with, one kind at a time. */
  function SpsOf(ns: seq<Nal>, c: Cache): seq<Nal> {
    if HasIdr(ns) then Opt(c.sps) else []
  }

  function PpsOf(ns: seq<Nal>, c: Cache): seq<Nal> {
    if HasIdr(ns) then Opt(c.pps) else []
  }

  lemma {:induction false} LayoutPlaces(ns: seq<Nal>, c: Cache)
    requires CacheKinds(c)
    ensures AllAt(Keep(IsSei, ns), 1) && AllAt(SpsOf(ns, c), 2) && AllAt(PpsOf(ns, c), 3)
    ensures AllAt(Keep(IsSlice, ns), 4) && AllAt(WithoutFirstAud(Keep(IsRest, ns)), 5)
  {
    Blocks(ns, c);
  }

  /** What follows the first delimiter. */
  lemma {:induction false} TailOrdered(ns: seq<Nal>, c: Cache)
    requires CacheKinds(c)
    ensures var w := WithoutFirstAud(Keep(IsRest, ns));
            Ordered(Keep(IsSei, ns) + (SpsOf(ns, c) + (PpsOf(ns, c) + (Keep(IsSlice, ns) + w))))
  {
    var w := WithoutFirstAud(Keep(IsRest, ns));
    LayoutPlaces(ns, c);
    assert w + [] == w;
    OrderedFront(w, [], 5);
    OrderedFront(Keep(IsSlice, ns), w, 4);
    OrderedFront(PpsOf(ns, c), Keep(IsSlice, ns) + w, 3);
    OrderedFront(SpsOf(ns, c), PpsOf(ns, c) + (Keep(IsSlice, ns) + w), 2);
    OrderedFront(Keep(IsSei, ns), SpsOf(ns, c) + (PpsOf(ns, c) + (Keep(IsSlice, ns) + w)), 1);
  }

  lemma {:induction false} FirstAudExact(ns: seq<Nal>)
    ensures var f := FirstAud(Keep(IsRest, ns));
            if NoneOf(IsAud, ns) then f == [] else |f| == 1 && IsAud(f[0])
  {
    var f := FirstAud(Keep(IsRest, ns));
    AudParts(Keep(IsRest, ns));
    KeepMembers(IsRest, ns);
    if f != [] {
      assert f[0] in f;
    }
  }

  lemma {:induction false} LayoutOrdered(ns: seq<Nal>, c: Cache)
    requires CacheKinds(c)
    ensures var sent := Layout(ns, c);
            if NoneOf(IsAud, ns) then Ordered(sent)
            else sent != [] && IsAud(sent[0]) && Ordered(sent[1..])
  {
    var f, w := FirstAud(Keep(IsRest, ns)), WithoutFirstAud(Keep(IsRest, ns));
    FirstAudExact(ns);
    TailOrdered(ns, c);
    LayoutBlocks(f, Keep(IsSei, ns), SpsOf(ns, c), PpsOf(ns, c), Keep(IsSlice, ns), w);
    assert Params(ns, c) == SpsOf(ns, c) + PpsOf(ns, c);
    var tail := Keep(IsSei, ns) + (SpsOf(ns, c) + (PpsOf(ns, c) + (Keep(IsSlice, ns) + w)));
    assert (f + tail)[|f|..] == tail;
  }

  lemma {:induction false} LayoutBlocks(
    f: seq<Nal>, sei: seq<Nal>, sps: seq<Nal>, pps: seq<Nal>, slices: seq<Nal>, w: seq<Nal>)
    ensures f + sei + (sps + pps) + slices + w == f + (sei + (sps + (pps + (slices + w))))
  {
  }

  /** Position by position, for every unit sent in any run: the access unit delimiter first if there was
      one, then SEI, SPS, PPS, slices and the rest, and no class before a lower one. */
  lemma {:induction false} UnitsOrdered(c: Cache, before: seq<byte>, segs: seq<Segment>)
    requires CacheOk(c) && CutFrom(before, segs)
    ensures var sent := Split(Step(c, before + Bytes(segs)).1.0);
            if NoneOf(IsAud, Units(segs)) then Ordered(sent)
            else sent != [] && IsAud(sent[0]) && Ordered(sent[1..])
  {
    var raw := before + Bytes(segs);
    SplitInvertsBytes(before, segs);
    StepFacts(c, raw);
    LayoutOrdered(Split(raw), Step(c, raw).0);
  }

  /** The unit found last, by where it is: none of its kind comes after it. */
  lemma {:induction false} LastOrExact(p: Nal -> bool, ns: seq<Nal>, default: Nal) returns (at: nat)
    ensures NoneOf(p, ns) ==> LastOr(p, ns, default) == default
    ensures !NoneOf(p, ns) ==> at < |ns| && p(ns[at]) && LastOr(p, ns, default) == ns[at]
    ensures !NoneOf(p, ns) ==> forall i :: at < i < |ns| ==> !p(ns[i])
  {
    at := 0;
    if ns != [] {
      var n := |ns| - 1;
      if p(ns[n]) {
        at := n;
      } else {
        at := LastOrExact(p, ns[..n], default);
        assert forall x :: x in ns <==> x in ns[..n] || x == ns[n];
      }
    }
  }

  /** The documentation promises parameter sets on every keyframe; a keyframe that arrives before
      any were seen goes out without them. */
  lemma {:induction false} BareKeyframe()
    ensures Step(EMPTY, [0, 0, 0, 1, 5]) == (EMPTY, ([0, 0, 0, 1, 5], true))
  {
    var idr: Nal := [5];
    var raw: seq<byte> := [0, 0, 0, 1, 5];
    assert Clean(idr);
    assert Join([idr]) == raw by {
      assert [idr][1..] == [];
    }
    SplitInvertsJoin([idr]);
    KeepAll(IsSlice, [idr]);
    KeepAll(IsIdr, [idr]);
    KeepNone(IsSei, [idr]);
    KeepNone(IsRest, [idr]);
    assert Refresh(EMPTY, [idr]) == EMPTY by {
      LastOrMember(IsSps, [idr], []);
      LastOrMember(IsPps, [idr], []);
    }
    assert Layout([idr], EMPTY) == [idr];
  }
}
