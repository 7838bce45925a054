/** Protocol ids and video channels for native windows (crates/oxagent/src/registry.rs). */
module Registry {
  import opened Prelude

  const VIDEO_BASE := 16
  const LAST_ID := 0xFFFF_FFFF
  const LAST_CHANNEL := 0xFFFF

  datatype Tracked = Tracked(id: nat, channel: nat)

  /** `free` is the stack of released channels, last in first out. */
  datatype Reg = Reg(byHandle: map<int, Tracked>, byId: map<nat, int>, nextId: nat, free: seq<nat>,
                     nextChannel: nat)

  const EMPTY: Reg := Reg(map[], map[], 1, [], VIDEO_BASE)

  /** Neither counter would overflow if a new window were tracked; the source panics otherwise. */
  predicate HasRoom(r: Reg) {
    r.nextId < LAST_ID && (r.free != [] || r.nextChannel < LAST_CHANNEL)
  }

  function Fresh(r: Reg): Tracked {
    Tracked(r.nextId, if r.free != [] then r.free[|r.free| - 1] else r.nextChannel)
  }

  function Insert(r: Reg, h: int): Reg {
    var t := Fresh(r);
    Reg(r.byHandle[h := t], r.byId[t.id := h], r.nextId + 1,
        if r.free != [] then r.free[..|r.free| - 1] else [],
        if r.free != [] then r.nextChannel else r.nextChannel + 1)
  }

  function Remove(r: Reg, h: int): Reg
    requires h in r.byHandle
  {
    var t := r.byHandle[h];
    r.(byHandle := r.byHandle - {h}, byId := r.byId - {t.id}, free := r.free + [t.channel])
  }

  // ---------------------------------------------------------------- invariant

  ghost function Used(r: Reg): set<nat> {
    set h | h in r.byHandle :: r.byHandle[h].channel
  }

  ghost function Free(r: Reg): set<nat> {
    set c | c in r.free
  }

  predicate Issued(r: Reg, c: nat) {
    VIDEO_BASE <= c < r.nextChannel
  }

  /** The two maps are inverse, and ids stay below the next one. */
  ghost predicate Indexed(r: Reg) {
    && (forall h :: h in r.byHandle ==>
          r.byHandle[h].id in r.byId && r.byId[r.byHandle[h].id] == h)
    && (forall i :: i in r.byId ==> r.byId[i] in r.byHandle && r.byHandle[r.byId[i]].id == i)
    && (forall i :: i in r.byId ==> 1 <= i < r.nextId)
    && 1 <= r.nextId
  }

  ghost predicate Injective(r: Reg) {
    forall g, h :: g in r.byHandle && h in r.byHandle && g != h ==>
      r.byHandle[g].channel != r.byHandle[h].channel
  }

  ghost predicate DistinctFree(r: Reg) {
    forall i, j :: 0 <= i < j < |r.free| ==> r.free[i] != r.free[j]
  }

  /** Every channel handed out so far is either in use by exactly one window or free exactly once,
      and the number ever handed out is the number in use plus the number free. */
  ghost predicate Partitioned(r: Reg) {
    && Used(r) !! Free(r)
    && (forall c :: Issued(r, c) <==> c in Used(r) || c in Free(r))
    && Injective(r) && DistinctFree(r)
    && VIDEO_BASE + |r.byHandle| + |r.free| == r.nextChannel
  }

  ghost predicate Valid(r: Reg) {
    Indexed(r) && Partitioned(r) && r.nextId <= LAST_ID && r.nextChannel <= LAST_CHANNEL
  }

  lemma {:induction false} EmptyValid()
    ensures Valid(EMPTY)
  {
    assert Used(EMPTY) + Free(EMPTY) == {};
  }

  lemma {:induction false} InsertIndexed(r: Reg, h: int)
    requires Indexed(r) && h !in r.byHandle
    ensures Indexed(Insert(r, h))
  {
  }

  lemma {:induction false} InsertUsed(r: Reg, h: int)
    requires h !in r.byHandle
    ensures Used(Insert(r, h)) == Used(r) + {Fresh(r).channel}
  {
    var r' := Insert(r, h);
    forall c | c in Used(r) + {Fresh(r).channel}
      ensures c in Used(r')
    {
      if c in Used(r) {
        var g :| g in r.byHandle && r.byHandle[g].channel == c;
        assert r'.byHandle[g].channel == c;
      } else {
        assert r'.byHandle[h].channel == c;
      }
    }
  }

  lemma {:induction false} FreshUnused(r: Reg)
    requires Partitioned(r)
    ensures Fresh(r).channel !in Used(r)
    ensures forall g :: g in r.byHandle ==> r.byHandle[g].channel != Fresh(r).channel
  {
    if r.free != [] {
      assert r.free[|r.free| - 1] in Free(r);
    } else {
      assert !Issued(r, r.nextChannel);
      assert r.nextChannel !in Used(r);
    }
    forall g | g in r.byHandle
      ensures r.byHandle[g].channel != Fresh(r).channel
    {
      assert r.byHandle[g].channel in Used(r);
    }
  }

  lemma {:induction false} InsertFree(r: Reg, h: int)
    requires DistinctFree(r)
    ensures DistinctFree(Insert(r, h))
    ensures Free(Insert(r, h)) == Free(r) - {Fresh(r).channel} || r.free == []
    ensures r.free == [] ==> Free(r) == {} == Free(Insert(r, h))
  {
    var r' := Insert(r, h);
    if r.free != [] {
      var c := Fresh(r).channel;
      forall x | x in Free(r) - {c}
        ensures x in Free(r')
      {
        var i :| 0 <= i < |r.free| && r.free[i] == x;
        assert r'.free[i] == x;
      }
      assert c !in Free(r');
    }
  }

  lemma {:induction false} InsertCovers(r: Reg, h: int, c: nat)
    requires Partitioned(r) && h !in r.byHandle
    ensures var r' := Insert(r, h); Issued(r', c) <==> c in Used(r') || c in Free(r')
    ensures c !in Used(Insert(r, h)) || c !in Free(Insert(r, h))
  {
    FreshUnused(r);
    InsertUsed(r, h);
    InsertFree(r, h);
    assert Issued(r, c) <==> c in Used(r) || c in Free(r);
    if r.free != [] {
      assert Fresh(r).channel in Free(r);
    }
  }

  lemma {:induction false} InsertPartitioned(r: Reg, h: int)
    requires Partitioned(r) && h !in r.byHandle
    ensures Partitioned(Insert(r, h))
  {
    var r' := Insert(r, h);
    FreshUnused(r);
    InsertFree(r, h);
    forall c
      ensures Issued(r', c) <==> c in Used(r') || c in Free(r')
      ensures c !in Used(r') || c !in Free(r')
    {
      InsertCovers(r, h, c);
    }
    assert r'.byHandle.Keys == r.byHandle.Keys + {h};
    assert |r'.byHandle| == |r.byHandle| + 1;
  }

  lemma {:induction false} InsertValid(r: Reg, h: int)
    requires Valid(r) && h !in r.byHandle && HasRoom(r)
    ensures Valid(Insert(r, h))
    ensures |Insert(r, h).byHandle| == |r.byHandle| + 1
  {
    InsertIndexed(r, h);
    InsertPartitioned(r, h);
    assert Insert(r, h).byHandle.Keys == r.byHandle.Keys + {h};
  }

  lemma {:induction false} RemoveValid(r: Reg, h: int)
    requires Valid(r) && h in r.byHandle
    ensures Valid(Remove(r, h))
    ensures |Remove(r, h).byHandle| == |r.byHandle| - 1
  {
    RemoveIndexed(r, h);
    RemovePartitioned(r, h);
    assert Remove(r, h).byHandle.Keys == r.byHandle.Keys - {h};
  }

  lemma {:induction false} RemoveIndexed(r: Reg, h: int)
    requires Indexed(r) && h in r.byHandle
    ensures Indexed(Remove(r, h))
  {
  }

  lemma {:induction false} RemovePartitioned(r: Reg, h: int)
    requires Partitioned(r) && h in r.byHandle
    ensures Partitioned(Remove(r, h))
  {
    var r', c := Remove(r, h), r.byHandle[h].channel;
    assert c in Used(r);
    assert Used(r') == Used(r) - {c} by {
      forall x | x in Used(r) - {c}
        ensures x in Used(r')
      {
        var g :| g in r.byHandle && r.byHandle[g].channel == x;
        assert r'.byHandle[g].channel == x;
      }
    }
    assert Free(r') == Free(r) + {c} by {
      assert r'.free[|r.free|] == c;
      assert forall i :: 0 <= i < |r.free| ==> r'.free[i] == r.free[i];
    }
    forall x
      ensures Issued(r', x) <==> x in Used(r') || x in Free(r')
    {
      assert Issued(r, x) <==> x in Used(r) || x in Free(r);
    }
    assert forall i :: 0 <= i < |r.free| ==> r.free[i] in Free(r);
    assert r'.byHandle.Keys == r.byHandle.Keys - {h};
    assert |r'.byHandle| == |r.byHandle| - 1;
  }

  /** The channel given back last is the first to be handed out again. */
  lemma {:induction false} FreedReusedFirst(r: Reg, h: int)
    requires h in r.byHandle
    ensures Fresh(Remove(r, h)).channel == r.byHandle[h].channel
  {
  }

  /** There is no room for another window exactly when the last id has been reached or every channel from 16
      to 65534 is in use. */
  lemma {:induction false} ExhaustedExact(r: Reg)
    requires Valid(r)
    ensures !HasRoom(r) <==> r.nextId == 4_294_967_295 || forall c: nat :: 16 <= c < 65_535 ==> c in Used(r)
  {
    if r.free != [] {
      var c := r.free[0];
      assert c in Free(r) && Issued(r, c) && c !in Used(r);
    } else if r.nextChannel < 65_535 {
      assert !Issued(r, r.nextChannel);
    } else {
      forall c: nat | 16 <= c < 65_535
        ensures c in Used(r)
      {
        assert Issued(r, c);
      }
    }
  }

  /** As many ids as handles are tracked. */
  lemma {:induction false} SizesAgree(r: Reg)
    requires Indexed(r)
    ensures |r.byId| == |r.byHandle|
    decreases |r.byHandle|
  {
    if h :| h in r.byHandle {
      var r' := Remove(r, h);
      RemoveIndexed(r, h);
      assert r'.byHandle.Keys == r.byHandle.Keys - {h};
      assert r'.byId.Keys == r.byId.Keys - {r.byHandle[h].id};
      SizesAgree(r');
    } else {
      assert forall h :: h !in r.byHandle;
      assert r.byHandle == map[] && r.byId == map[];
    }
  }

  // ---------------------------------------------------------------- the object

  class WindowRegistry {
    var byHandle: map<int, Tracked>
    var byId: map<nat, int>
    var nextId: nat
    var free: seq<nat>
    var nextChannel: nat
    /** The largest number of windows tracked at once so far. */
    ghost var peak: nat

    function Value(): Reg
      reads this
    {
      Reg(byHandle, byId, nextId, free, nextChannel)
    }

    /** The channels ever handed out are exactly as many as the most windows ever tracked at once. */
    ghost predicate Ok()
      reads this
    {
      Valid(Value()) && |byHandle| <= peak && peak == nextChannel - VIDEO_BASE
    }

    constructor ()
      ensures Ok() && Value() == EMPTY
    {
      byHandle, byId, nextId, free, nextChannel := map[], map[], 1, [], VIDEO_BASE;
      peak := 0;
      new;
      EmptyValid();
    }

    method Track(handle: int) returns (t: Tracked, isNew: bool)
      requires Ok() && (handle in byHandle || HasRoom(Value()))
      modifies this
      ensures Ok()
      ensures isNew == (handle !in old(byHandle))
      ensures Value() == if isNew then Insert(old(Value()), handle) else old(Value())
      ensures t == byHandle[handle]
      ensures peak == Max(old(peak), |byHandle|)
    {
      if handle in byHandle {
        return byHandle[handle], false;
      }
      ghost var after := Insert(Value(), handle);
      InsertValid(Value(), handle);
      var id := nextId;
      nextId := nextId + 1;
      var channel;
      if free != [] {
        channel := free[|free| - 1];
        free := free[..|free| - 1];
      } else {
        channel := nextChannel;
        nextChannel := nextChannel + 1;
      }
      t := Tracked(id, channel);
      byHandle := byHandle[handle := t];
      byId := byId[id := handle];
      isNew := true;
      assert Value() == after;
      peak := Max(peak, |byHandle|);
    }

    /** By id and by handle reach the same window. */
    method ById(id: nat) returns (t: Option<Tracked>)
      requires Ok()
      ensures t.Some? ==> t.value.id == id && exists h :: h in byHandle && byHandle[h] == t.value
      ensures t.None? ==> forall h :: h in byHandle ==> byHandle[h].id != id
    {
      if id !in byId {
        return None;
      }
      var h := byId[id];
      t := Some(byHandle[h]);
    }

    method Forget(handle: int) returns (t: Option<Tracked>)
      requires Ok()
      modifies this
      ensures Ok() && peak == old(peak)
      ensures t == if handle in old(byHandle) then Some(old(byHandle)[handle]) else None
      ensures Value() == if t.Some? then Remove(old(Value()), handle) else old(Value())
    {
      if handle !in byHandle {
        return None;
      }
      RemoveValid(Value(), handle);
      var tracked := byHandle[handle];
      byHandle := byHandle - {handle};
      byId := byId - {tracked.id};
      free := free + [tracked.channel];
      t := Some(tracked);
    }

    /** Forget every tracked window whose handle is not live, in order of id. */
    method RetainLive(live: set<int>) returns (removed: seq<Tracked>)
      requires Ok()
      modifies this
      ensures Ok() && peak == old(peak) && nextId == old(nextId)
      ensures Kept(old(Value()), Value(), live)
      ensures Ids(removed) == old(byId).Keys - byId.Keys
      ensures SortedById(removed)
    {
      ghost var r0 := Value();
      removed := [];
      RetainStart(r0, live);
      while exists h :: h in byHandle && h !in live
        invariant Ok() && peak == old(peak) && nextId == old(nextId)
        invariant Retaining(r0, Value(), live, removed)
        decreases |byHandle|
      {
        var h := NextGone(live);
        RetainStep(r0, Value(), live, removed, h);
        RemoveValid(Value(), h);
        var t := Forget(h);
        removed := removed + [t.value];
      }
      RetainDone(r0, Value(), live, removed);
    }

    /** The source sorts the departed handles by id first; taking the smallest id each time visits
        them in the same order. */
    method NextGone(live: set<int>) returns (h: int)
      requires exists h :: h in byHandle && h !in live
      ensures SmallestGone(Value(), live, h)
    {
      var gone := set g | g in byHandle && g !in live;
      var g: int :| g in byHandle && g !in live;
      h := g;
      gone := gone - {g};
      while exists k :: k in gone
        invariant h in byHandle && h !in live && gone <= (set g | g in byHandle && g !in live)
        invariant forall g :: g in byHandle && g !in live && g !in gone ==> byHandle[h].id <= byHandle[g].id
        decreases |gone|
      {
        var k: int :| k in gone;
        if byHandle[k].id < byHandle[h].id {
          h := k;
        }
        gone := gone - {k};
      }
    }
  }

  ghost predicate SmallestGone(r: Reg, live: set<int>, h: int) {
    && h in r.byHandle && h !in live
    && forall g :: g in r.byHandle && g !in live ==> r.byHandle[h].id <= r.byHandle[g].id
  }

  ghost function Ids(ts: seq<Tracked>): set<nat> {
    set t | t in ts :: t.id
  }

  ghost predicate SortedById(ts: seq<Tracked>) {
    forall j, k :: 0 <= j < k < |ts| ==> ts[j].id < ts[k].id
  }

  /** `r` is `r0` with the windows outside `live` forgotten. */
  ghost predicate Kept(r0: Reg, r: Reg, live: set<int>) {
    && (forall h :: h in r.byHandle <==> h in r0.byHandle && h in live)
    && Within(r0, r)
  }

  /** Everything `r` still tracks, it tracks as `r0` did. */
  ghost predicate Within(r0: Reg, r: Reg) {
    && (forall h :: h in r.byHandle ==> h in r0.byHandle && r.byHandle[h] == r0.byHandle[h])
    && (forall i :: i in r.byId ==> i in r0.byId && r.byId[i] == r0.byId[i])
  }

  /** Half way through: live windows untouched, the others forgotten in order of id. */
  ghost predicate Retaining(r0: Reg, r: Reg, live: set<int>, removed: seq<Tracked>) {
    && Within(r0, r)
    && (forall h :: h in r0.byHandle && h in live ==> h in r.byHandle)
    && Ids(removed) == r0.byId.Keys - r.byId.Keys
    && SortedById(removed)
    && AllBefore(r, live, removed)
  }

  lemma {:induction false} RetainStart(r: Reg, live: set<int>)
    ensures Retaining(r, r, live, [])
  {
    assert r.byId.Keys - r.byId.Keys == {} == Ids([]);
  }

  lemma {:induction false} IdsSnoc(ts: seq<Tracked>, t: Tracked)
    ensures Ids(ts + [t]) == Ids(ts) + {t.id}
  {
    assert (ts + [t])[|ts|] == t;
    forall i | i in Ids(ts)
      ensures i in Ids(ts + [t])
    {
      var x :| x in ts && x.id == i;
      assert x in ts + [t];
    }
  }

  /** Behind the departed so far, every window still to go has a larger id. */
  ghost predicate AllBefore(r: Reg, live: set<int>, removed: seq<Tracked>) {
    forall t, h :: t in removed && h in r.byHandle && h !in live ==> t.id < r.byHandle[h].id
  }

  lemma {:induction false} RetainIds(r0: Reg, r: Reg, removed: seq<Tracked>, h: int)
    requires Ids(removed) == r0.byId.Keys - r.byId.Keys && Within(r0, r) && Indexed(r) && h in r.byHandle
    ensures Ids(removed + [r.byHandle[h]]) == r0.byId.Keys - Remove(r, h).byId.Keys
  {
    var t := r.byHandle[h];
    IdsSnoc(removed, t);
    assert t.id in r.byId && t.id in r0.byId;
    assert Remove(r, h).byId.Keys == r.byId.Keys - {t.id};
  }

  lemma {:induction false} RetainSorted(r: Reg, live: set<int>, removed: seq<Tracked>, h: int)
    requires SortedById(removed) && AllBefore(r, live, removed) && h in r.byHandle && h !in live
    ensures SortedById(removed + [r.byHandle[h]])
  {
    var all := removed + [r.byHandle[h]];
    forall j, k | 0 <= j < k < |all|
      ensures all[j].id < all[k].id
    {
      assert all[j] == removed[j] && removed[j] in removed;
    }
  }

  lemma {:induction false} RetainBefore(r: Reg, live: set<int>, removed: seq<Tracked>, h: int)
    requires AllBefore(r, live, removed) && Indexed(r) && SmallestGone(r, live, h)
    ensures AllBefore(Remove(r, h), live, removed + [r.byHandle[h]])
  {
    var t, r' := r.byHandle[h], Remove(r, h);
    forall u, g | u in removed + [t] && g in r'.byHandle && g !in live
      ensures u.id < r'.byHandle[g].id
    {
      assert g in r.byHandle && g != h && r'.byHandle[g] == r.byHandle[g];
      if u in removed {
        assert u.id < r.byHandle[g].id;
      } else {
        assert u == t && r.byId[r.byHandle[g].id] == g && r.byId[t.id] == h;
      }
    }
  }

  lemma {:induction false} RetainStep(r0: Reg, r: Reg, live: set<int>, removed: seq<Tracked>, h: int)
    requires Retaining(r0, r, live, removed) && Indexed(r) && SmallestGone(r, live, h)
    ensures Retaining(r0, Remove(r, h), live, removed + [r.byHandle[h]])
  {
    RetainIds(r0, r, removed, h);
    RetainSorted(r, live, removed, h);
    RetainBefore(r, live, removed, h);
  }

  lemma {:induction false} RetainDone(r0: Reg, r: Reg, live: set<int>, removed: seq<Tracked>)
    requires Retaining(r0, r, live, removed) && forall h :: h in r.byHandle ==> h in live
    ensures Kept(r0, r, live)
  {
  }
}
