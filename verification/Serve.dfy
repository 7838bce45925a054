/** The agent's driver: diffing windows each tick, sending frames, taking acknowledgements
    (crates/oxagent/src/serve.rs). */
module Serve {
  import opened Prelude
  import opened Runs
  import opened WindowMessages
  import opened Registry
  import opened Pacing
  import opened WindowStream
  import opened FrameLog
  import opened Mirror

  /** Each announced window has a stream, under its id, with its handle and channel. */
  ghost predicate Matches(r: Reg, streams: Streams) {
    && streams.Keys == r.byId.Keys
    && (forall id :: id in streams ==> r.byId[id] in r.byHandle)
    && (forall id :: id in streams ==> streams[id].handle == r.byId[id])
    && (forall id :: id in streams ==> streams[id].channel == r.byHandle[r.byId[id]].channel)
    && (forall id :: id in streams ==> Contiguous(streams[id].budget))
  }

  /** Between two states, every window but the one with handle `h` is as it was. */
  ghost predicate Undisturbed(r0: Reg, s0: Streams, r: Reg, s: Streams, h: int) {
    forall g :: g in r0.byHandle && g != h ==>
      && g in r.byHandle && r.byHandle[g] == r0.byHandle[g]
      && r0.byHandle[g].id in s0 && r0.byHandle[g].id in s
      && s[r0.byHandle[g].id] == s0[r0.byHandle[g].id]
  }

  /** The window is tracked and its stream is up to date. */
  ghost predicate UpToDate(r: Reg, s: Streams, w: SourceWindow) {
    w.handle in r.byHandle && r.byHandle[w.handle].id in s && Reported(s[r.byHandle[w.handle].id], w)
  }

  lemma {:induction false} FreshFor(r: Reg, streams: Streams)
    requires Valid(r) && Matches(r, streams) && HasRoom(r)
    ensures Fresh(r).id == r.nextId && Fresh(r).id !in streams && Fresh(r).channel < 0x1_0000
    ensures forall id :: id in streams ==> streams[id].channel != Fresh(r).channel
  {
    FreshUnused(r);
    if r.free != [] {
      assert Fresh(r).channel in Free(r);
      assert Issued(r, Fresh(r).channel);
    }
  }

  lemma {:induction false} OpenKeepsMatch(r: Reg, streams: Streams, w: SourceWindow, max: nat)
    requires Indexed(r) && Matches(r, streams) && w.handle !in r.byHandle
    ensures var t := Fresh(r); Matches(Insert(r, w.handle), streams[t.id := Open(w, t, max)])
  {
    var t := Fresh(r);
    var r', s' := Insert(r, w.handle), streams[t.id := Open(w, t, max)];
    assert s'.Keys == streams.Keys + {t.id} && r'.byId.Keys == r.byId.Keys + {t.id};
    forall id | id in streams
      ensures id != t.id && r'.byId[id] == r.byId[id] && r'.byHandle[r.byId[id]] == r.byHandle[r.byId[id]]
    {
    }
  }

  lemma {:induction false} OpenUndisturbed(r: Reg, streams: Streams, w: SourceWindow, max: nat)
    requires Indexed(r) && Matches(r, streams) && w.handle !in r.byHandle
    ensures var t := Fresh(r);
            Undisturbed(r, streams, Insert(r, w.handle), streams[t.id := Open(w, t, max)], w.handle)
  {
    var t := Fresh(r);
    var r', s' := Insert(r, w.handle), streams[t.id := Open(w, t, max)];
    forall g | g in r.byHandle && g != w.handle
      ensures r'.byHandle[g] == r.byHandle[g] && r.byHandle[g].id in streams && r.byHandle[g].id != t.id
    {
      assert r.byHandle[g].id in r.byId;
    }
  }

  lemma {:induction false} EditKeepsMatch(r: Reg, streams: Streams, h: int, s: Stream)
    requires Indexed(r) && Matches(r, streams) && h in r.byHandle
    requires var old' := streams[r.byHandle[h].id];
             s.handle == old'.handle && s.channel == old'.channel && Contiguous(s.budget)
    ensures Matches(r, streams[r.byHandle[h].id := s])
  {
    assert r.byId[r.byHandle[h].id] == h;
    assert streams[r.byHandle[h].id := s].Keys == streams.Keys;
  }

  lemma {:induction false} EditUndisturbed(r: Reg, streams: Streams, h: int, s: Stream)
    requires Indexed(r) && Matches(r, streams) && h in r.byHandle
    ensures Undisturbed(r, streams, r, streams[r.byHandle[h].id := s], h)
  {
    forall g | g in r.byHandle && g != h
      ensures r.byHandle[g].id in streams && r.byHandle[g].id != r.byHandle[h].id
    {
      assert r.byId[r.byHandle[g].id] == g && r.byId[r.byHandle[h].id] == h;
    }
  }

  /** Where a live window stands after a diff from `r0` and `s0`: one tracked before is its old stream
      having observed `w`, a new one is just opened under an id not issued before. */
  ghost predicate Placed(r0: Reg, s0: Streams, r: Reg, s: Streams, w: SourceWindow, max: nat) {
    && w.handle in r.byHandle && r.byHandle[w.handle].id in s
    && var t := r.byHandle[w.handle];
       if w.handle in r0.byHandle
       then t == r0.byHandle[w.handle] && t.id in s0 && s[t.id] == Announce(s0[t.id], w, t.id).0
       else t.id >= r0.nextId && s[t.id] == Open(w, t, max)
  }

  lemma {:induction false} PlacedUpToDate(r0: Reg, s0: Streams, r: Reg, s: Streams, w: SourceWindow, max: nat)
    requires Placed(r0, s0, r, s, w, max)
    ensures UpToDate(r, s, w)
  {
    var t := r.byHandle[w.handle];
    if w.handle in r0.byHandle {
      AnnounceReports(s0[t.id], w, t.id);
    }
  }

  /** What observing one live window does to the agent: the window is placed, the others are as before. */
  ghost predicate Observed(r: Reg, s: Streams, r': Reg, s': Streams, w: SourceWindow, max: nat) {
    && Matches(r', s') && Undisturbed(r, s, r', s', w.handle) && Placed(r, s, r', s', w, max)
    && r'.byHandle.Keys == r.byHandle.Keys + {w.handle} && r.nextId <= r'.nextId
  }

  lemma {:induction false} OpenObserved(r: Reg, s: Streams, w: SourceWindow, max: nat)
    requires Indexed(r) && Matches(r, s) && w.handle !in r.byHandle
    ensures var t := Fresh(r); Observed(r, s, Insert(r, w.handle), s[t.id := Open(w, t, max)], w, max)
  {
    OpenKeepsMatch(r, s, w, max);
    OpenUndisturbed(r, s, w, max);
  }

  lemma {:induction false} OpenFollows(p: Peer, r: Reg, s: Streams, w: SourceWindow, max: nat)
    requires Valid(r) && Matches(r, s) && HasRoom(r) && InStep(p, s, r.nextId) && Consistent(w)
    ensures var t := Fresh(r);
            && t.channel < 0x1_0000
            && Follows(p, [OpenMsg(w, t)], s[t.id := Open(w, t, max)], r.nextId + 1)
  {
    FreshFor(r, s);
    FollowsOpen(p, s, r.nextId, w, Fresh(r), max);
  }

  lemma {:induction false} UpdateObserved(r: Reg, s: Streams, w: SourceWindow, max: nat)
    requires Indexed(r) && Matches(r, s) && w.handle in r.byHandle
    ensures var id := r.byHandle[w.handle].id;
            id in s && Observed(r, s, r, s[id := Announce(s[id], w, id).0], w, max)
  {
    var id := r.byHandle[w.handle].id;
    assert id in r.byId;
    AnnounceReports(s[id], w, id);
    AnnounceContiguous(s[id], w, id);
    EditKeepsMatch(r, s, w.handle, Announce(s[id], w, id).0);
    EditUndisturbed(r, s, w.handle, Announce(s[id], w, id).0);
    assert r.byHandle.Keys + {w.handle} == r.byHandle.Keys;
  }

  lemma {:induction false} PumpedMatches(r: Reg, s0: Streams, s: Streams, h264: bool, oracle: nat -> Oracle)
    requires Indexed(r) && Matches(r, s0) && Pumped(s0, s, h264, oracle, r.nextId)
    ensures Matches(r, s) && SameAnnounced(s0, s)
  {
    forall id | id in s
      ensures s[id] == s0[id].(budget := s[id].budget, needsKeyframe := s[id].needsKeyframe)
      ensures Contiguous(s[id].budget)
    {
      assert id in r.byId;
      PumpContiguous(s0[id], h264, oracle(id));
    }
  }

  lemma {:induction false} PumpContiguous(s: Stream, h264: bool, o: Oracle)
    requires Contiguous(s.budget)
    ensures Contiguous(Pump(s, h264, o).0.budget)
  {
    StepContiguous(s.budget, Capture);
  }

  /** Sending and acknowledging frames leaves everything announced as it was. */
  ghost predicate SameAnnounced(s0: Streams, s: Streams) {
    && s.Keys == s0.Keys
    && forall id :: id in s ==>
         s[id] == s0[id].(budget := s[id].budget, needsKeyframe := s[id].needsKeyframe)
  }

  lemma {:induction false} InStepSame(p: Peer, s0: Streams, s: Streams, n: nat)
    requires InStep(p, s0, n) && SameAnnounced(s0, s)
    ensures InStep(p, s, n)
  {
  }

  lemma {:induction false} AgreesSame(r: Reg, s0: Streams, s: Streams, live: seq<SourceWindow>)
    requires Agrees(r, s0, live) && SameAnnounced(s0, s)
    ensures Agrees(r, s, live)
  {
    forall i | 0 <= i < |live|
      ensures UpToDate(r, s, live[i])
    {
      assert UpToDate(r, s0, live[i]);
    }
  }

  ghost predicate LiveList(live: seq<SourceWindow>) {
    && (forall i, j :: 0 <= i < j < |live| ==> live[i].handle != live[j].handle)
    && (forall i :: 0 <= i < |live| ==> Consistent(live[i]))
  }

  /** The agent's picture is the live list. */
  ghost predicate Agrees(r: Reg, s: Streams, live: seq<SourceWindow>) {
    && (forall i :: 0 <= i < |live| ==> UpToDate(r, s, live[i]))
    && (forall h :: h in r.byHandle ==> exists i :: 0 <= i < |live| && live[i].handle == h)
  }

  function CloseMsgs(removed: seq<Tracked>): seq<Event> {
    if removed == [] then []
    else CloseMsgs(removed[..|removed| - 1]) + [WindowClosed(removed[|removed| - 1].id)]
  }

  /** A departed window is still open until its own turn to be closed. */
  lemma {:induction false} LastStillOpen(init: seq<Tracked>, t: Tracked)
    requires SortedById(init + [t])
    ensures SortedById(init) && t.id !in Ids(init) && Ids(init + [t]) == Ids(init) + {t.id}
  {
    var all := init + [t];
    IdsSnoc(init, t);
    assert forall j :: 0 <= j < |init| ==> all[j] == init[j] && all[j].id < all[|init|].id;
  }

  lemma {:induction false} FollowsClosings(p: Peer, s0: Streams, n: nat, removed: seq<Tracked>)
    requires InStep(p, s0, n) && SortedById(removed) && Ids(removed) <= s0.Keys
    ensures Follows(p, CloseMsgs(removed), s0 - Ids(removed), n)
  {
    if removed == [] {
      assert s0 - Ids(removed) == s0;
      FollowsNothing(p, s0, n);
    } else {
      var init, t := removed[..|removed| - 1], removed[|removed| - 1];
      assert removed == init + [t];
      LastStillOpen(init, t);
      FollowsClosings(p, s0, n, init);
      var s := s0 - Ids(init);
      assert s - {t.id} == s0 - Ids(removed);
      FollowsCloseToo(p, CloseMsgs(init), s, n, t.id);
    }
  }

  lemma {:induction false} CloseKeepsMatch(r0: Reg, s0: Streams, r: Reg, live: set<int>)
    requires Matches(r0, s0) && Kept(r0, r, live) && Indexed(r)
    ensures Matches(r, s0 - (r0.byId.Keys - r.byId.Keys))
  {
  }

  /** Part of a diff: the first `i` live windows are placed, the others are as they were. */
  ghost predicate Diffed(
    r0: Reg, s0: Streams, r: Reg, s: Streams, live: seq<SourceWindow>, i: nat, max: nat)
    requires i <= |live|
  {
    && r0.nextId <= r.nextId
    && (forall j :: 0 <= j < i ==> Placed(r0, s0, r, s, live[j], max))
    && (forall j :: i <= j < |live| ==> Untouched(r0, s0, r, s, live[j].handle))
  }

  ghost predicate Untouched(r0: Reg, s0: Streams, r: Reg, s: Streams, h: int) {
    if h in r0.byHandle
    then h in r.byHandle && r.byHandle[h] == r0.byHandle[h]
         && r0.byHandle[h].id in s0 && r0.byHandle[h].id in s && s[r0.byHandle[h].id] == s0[r0.byHandle[h].id]
    else h !in r.byHandle
  }

  lemma {:induction false} DiffedNothing(r: Reg, s: Streams, live: seq<SourceWindow>, max: nat)
    requires Indexed(r) && Matches(r, s)
    ensures Diffed(r, s, r, s, live, 0, max)
  {
    forall j | 0 <= j < |live|
      ensures Untouched(r, s, r, s, live[j].handle)
    {
      var h := live[j].handle;
      if h in r.byHandle {
        assert r.byHandle[h].id in r.byId;
      }
    }
  }

  /** A window placed earlier stays so while another is observed. */
  lemma {:induction false} StayPlaced(
    r0: Reg, s0: Streams, r: Reg, s: Streams, r': Reg, s': Streams, v: SourceWindow, w: SourceWindow, max: nat)
    requires Placed(r0, s0, r, s, v, max) && Undisturbed(r, s, r', s', w.handle) && v.handle != w.handle
    ensures Placed(r0, s0, r', s', v, max)
  {
  }

  /** Observing a window not touched yet places it relative to the start of the diff. */
  lemma {:induction false} NewlyPlaced(
    r0: Reg, s0: Streams, r: Reg, s: Streams, r': Reg, s': Streams, w: SourceWindow, max: nat)
    requires Untouched(r0, s0, r, s, w.handle) && Placed(r, s, r', s', w, max) && r0.nextId <= r.nextId
    ensures Placed(r0, s0, r', s', w, max)
  {
  }

  lemma {:induction false} StayUntouched(
    r0: Reg, s0: Streams, r: Reg, s: Streams, r': Reg, s': Streams, h: int, w: SourceWindow, max: nat)
    requires Untouched(r0, s0, r, s, h) && Observed(r, s, r', s', w, max) && h != w.handle
    ensures Untouched(r0, s0, r', s', h)
  {
    assert h in r'.byHandle.Keys <==> h in r.byHandle.Keys;
  }

  lemma {:induction false} DiffedNext(
    r0: Reg, s0: Streams, r: Reg, s: Streams, r': Reg, s': Streams, live: seq<SourceWindow>, i: nat, max: nat)
    requires i < |live| && LiveList(live)
    requires Diffed(r0, s0, r, s, live, i, max) && Observed(r, s, r', s', live[i], max)
    ensures Diffed(r0, s0, r', s', live, i + 1, max)
  {
    forall j | 0 <= j <= i
      ensures Placed(r0, s0, r', s', live[j], max)
    {
      if j < i {
        StayPlaced(r0, s0, r, s, r', s', live[j], live[i], max);
      } else {
        NewlyPlaced(r0, s0, r, s, r', s', live[i], max);
      }
    }
    forall j | i < j < |live|
      ensures Untouched(r0, s0, r', s', live[j].handle)
    {
      StayUntouched(r0, s0, r, s, r', s', live[j].handle, live[i], max);
    }
  }

  ghost function Handles(live: seq<SourceWindow>): set<int> {
    set i | 0 <= i < |live| :: live[i].handle
  }

  lemma {:induction false} PlacedAfterClose(
    r0: Reg, s0: Streams, r: Reg, s: Streams, r': Reg, s': Streams, w: SourceWindow, live: set<int>, max: nat)
    requires Placed(r0, s0, r, s, w, max) && w.handle in live
    requires Kept(r, r', live) && Indexed(r') && Matches(r', s')
    requires forall id :: id in s' ==> id in s && s'[id] == s[id]
    ensures Placed(r0, s0, r', s', w, max)
  {
    assert r'.byHandle[w.handle].id in r'.byId;
  }

  /** Closing what has gone leaves the live windows placed and nothing else. */
  lemma {:induction false} DiffedClosed(
    r0: Reg, s0: Streams, r: Reg, s: Streams, r': Reg, s': Streams, live: seq<SourceWindow>, max: nat)
    requires Diffed(r0, s0, r, s, live, |live|, max)
    requires Kept(r, r', Handles(live)) && Indexed(r') && Matches(r', s') && r'.nextId == r.nextId
    requires forall id :: id in s' ==> id in s && s'[id] == s[id]
    ensures Diffed(r0, s0, r', s', live, |live|, max) && Agrees(r', s', live)
  {
    forall j | 0 <= j < |live|
      ensures Placed(r0, s0, r', s', live[j], max) && UpToDate(r', s', live[j])
    {
      assert live[j].handle in Handles(live);
      PlacedAfterClose(r0, s0, r, s, r', s', live[j], Handles(live), max);
      PlacedUpToDate(r0, s0, r', s', live[j], max);
    }
  }

  // ---------------------------------------------------------------- how a diff ends

  /** A diff runs through, finds no id or channel left, or is refused a message by a full queue. */
  datatype Stop = Done | Exhausted | QueueFull(refused: Event)

  function StopOf(refused: Option<Event>): Stop {
    if refused.None? then Done else QueueFull(refused.value)
  }

  /** How many video channels have ever been handed out. */
  function Peak(r: Reg): nat {
    if r.nextChannel < VIDEO_BASE then 0 else r.nextChannel - VIDEO_BASE
  }

  /** The client follows the messages to `s`, and the channels handed out are as many as the most windows
      it has had open. */
  ghost predicate Advances(p: Peer, es: seq<Event>, r0: Reg, r: Reg, s: Streams) {
    Follows(p, es, s, r.nextId) && Peak(r) == PeakOpen(p, es, Peak(r0))
  }

  /** Message `e` was refused: the client has followed the others to `told`, and `e` is just what it lacks.
      A window whose announcement was refused has no stream; anything else is recorded already, and with
      `e` the client would be in step. */
  ghost predicate Halted(p: Peer, es: seq<Event>, e: Event, told: Streams, r0: Reg, r: Reg, s: Streams) {
    && Follows(p, es, told, r.nextId)
    && AllLegal(Outs(Receive, p, es + [e])) && Peak(r) == PeakOpen(p, es + [e], Peak(r0))
    && if e.WindowOpened? then told == s && e.id !in s && r.byId.Keys == s.Keys + {e.id}
       else && InStep(End(Receive, p, es + [e]), s, r.nextId)
            && if e.WindowClosed? then r.byId.Keys <= s.Keys else r.byId.Keys == s.Keys
  }

  ghost predicate Ended(
    p: Peer, es: seq<Event>, stop: Stop, told: Streams, room: nat, r0: Reg, r: Reg, s: Streams)
  {
    match stop
    case Done => Advances(p, es, r0, r, s) && |es| <= room && told == s
    case Exhausted => Advances(p, es, r0, r, s) && |es| <= room && told == s && !HasRoom(r)
    case QueueFull(e) => Halted(p, es, e, told, r0, r, s) && |es| == room
  }

  lemma {:induction false} HaltedThen(
    p: Peer, es: seq<Event>, r0: Reg, r1: Reg, s1: Streams,
    msgs: seq<Event>, e: Event, told: Streams, r: Reg, s: Streams)
    requires Advances(p, es, r0, r1, s1) && Halted(End(Receive, p, es), msgs, e, told, r1, r, s)
    ensures Halted(p, es + msgs, e, told, r0, r, s)
  {
    RunSplit(Receive, p, es, msgs);
    RunSplit(Receive, p, es, msgs + [e]);
    PeakSplit(p, es, msgs + [e], Peak(r0));
    Assoc(es, msgs, [e]);
  }

  lemma {:induction false} AdvancesThen(
    p: Peer, es: seq<Event>, r0: Reg, r1: Reg, s1: Streams, msgs: seq<Event>, r: Reg, s: Streams)
    requires Advances(p, es, r0, r1, s1) && Advances(End(Receive, p, es), msgs, r1, r, s)
    ensures Advances(p, es + msgs, r0, r, s)
  {
    FollowsThen(p, es, msgs, s1, r1.nextId, s, r.nextId);
    PeakSplit(p, es, msgs, Peak(r0));
  }

  /** One stretch of messages after another. */
  lemma {:induction false} EndedThen(
    p: Peer, es: seq<Event>, room: nat, r0: Reg, r1: Reg, s1: Streams,
    msgs: seq<Event>, stop: Stop, told: Streams, r: Reg, s: Streams)
    requires Advances(p, es, r0, r1, s1) && |es| <= room
    requires Ended(End(Receive, p, es), msgs, stop, told, room - |es|, r1, r, s)
    ensures Ended(p, es + msgs, stop, told, room, r0, r, s)
  {
    if stop.QueueFull? {
      HaltedThen(p, es, r0, r1, s1, msgs, stop.refused, told, r, s);
    } else {
      AdvancesThen(p, es, r0, r1, s1, msgs, r, s);
    }
  }

  lemma {:induction false} AdvancesNothing(p: Peer, r: Reg, s: Streams)
    requires InStep(p, s, r.nextId)
    ensures Advances(p, [], r, r, s)
  {
    FollowsNothing(p, s, r.nextId);
  }

  // ---------------------------------------------------------------- one window

  /** The client has as many windows open as are tracked. */
  lemma {:induction false} OpenCount(p: Peer, r: Reg, s: Streams)
    requires Indexed(r) && Matches(r, s) && InStep(p, s, r.nextId)
    ensures |p.ledger.open| == |r.byHandle|
  {
    SizesAgree(r);
    assert |p.ledger.open| == |p.ledger.open.Keys| && |r.byId| == |r.byId.Keys|;
  }

  lemma {:induction false} UpdateNoOpens(s: Stream, w: SourceWindow, id: nat, room: nat)
    ensures var d := AnnounceWithin(s, w, id, room);
            NoOpens(d.sent) && (d.refused.Some? ==> IsEdit(d.refused.value))
  {
  }

  lemma {:induction false} UpdatePeak(p: Peer, r: Reg, s: Streams, id: nat, w: SourceWindow, room: nat)
    requires Indexed(r) && |r.byHandle| <= Peak(r) && Matches(r, s) && InStep(p, s, r.nextId) && id in s
    ensures var d := AnnounceWithin(s[id], w, id, room);
            && PeakOpen(p, d.sent, Peak(r)) == Peak(r)
            && (d.refused.Some? ==> PeakOpen(p, d.sent + [d.refused.value], Peak(r)) == Peak(r))
            && (d.refused.Some? ==> IsEdit(d.refused.value))
  {
    var d := AnnounceWithin(s[id], w, id, room);
    UpdateNoOpens(s[id], w, id, room);
    OpenCount(p, r, s);
    StillNoOpens(p, d.sent, d.refused, Peak(r));
  }

  lemma {:induction false} StillNoOpens(p: Peer, es: seq<Event>, e: Option<Event>, peak: nat)
    requires NoOpens(es) && (e.Some? ==> IsEdit(e.value)) && |p.ledger.open| <= peak
    ensures PeakOpen(p, es, peak) == peak && (e.Some? ==> PeakOpen(p, es + [e.value], peak) == peak)
  {
    QuietPeak(p, es, peak);
    if e.Some? {
      QuietPeak(p, es + [e.value], peak);
    }
  }

  /** An update that may be cut short, as the client sees it. */
  lemma {:induction false} UpdateEnds(p: Peer, r: Reg, s: Streams, id: nat, w: SourceWindow, room: nat)
    requires Indexed(r) && |r.byHandle| <= Peak(r) && Matches(r, s) && InStep(p, s, r.nextId) && id in s
    ensures var d := AnnounceWithin(s[id], w, id, room);
            && Ended(p, d.sent, StopOf(d.refused), s[id := d.told], room, r, r, s[id := d.agent])
            && (d.refused.None? ==> d.agent == Announce(s[id], w, id).0 && d.sent == Announce(s[id], w, id).1)
            && (d.refused.Some? ==> d.sent + [d.refused.value] <= Announce(s[id], w, id).1)
  {
    var d := AnnounceWithin(s[id], w, id, room);
    FollowsWithin(p, s, r.nextId, id, w, room);
    UpdatePeak(p, r, s, id, w, room);
    assert s[id := d.agent].Keys == s.Keys;
    if d.refused.Some? {
      EditHalts(p, d.sent, d.refused.value, s[id := d.told], r, s[id := d.agent]);
    }
  }

  lemma {:induction false} EditHalts(p: Peer, es: seq<Event>, e: Event, told: Streams, r: Reg, s: Streams)
    requires Follows(p, es, told, r.nextId) && Follows(p, es + [e], s, r.nextId) && IsEdit(e)
    requires PeakOpen(p, es + [e], Peak(r)) == Peak(r) && r.byId.Keys == s.Keys
    ensures Halted(p, es, e, told, r, r, s)
  {
  }

  lemma {:induction false} OpenGrows(p: Peer, w: SourceWindow, t: Tracked)
    requires t.id !in p.ledger.open && t.channel < 0x1_0000
    ensures |Receive(p, OpenMsg(w, t)).0.ledger.open| == |p.ledger.open| + 1
  {
    assert Receive(p, OpenMsg(w, t)).0.ledger.open.Keys == p.ledger.open.Keys + {t.id};
  }

  lemma {:induction false} OpensPeak(p: Peer, r: Reg, s: Streams, w: SourceWindow)
    requires Valid(r) && Matches(r, s) && HasRoom(r) && InStep(p, s, r.nextId)
    ensures Fresh(r).channel < 0x1_0000
    ensures PeakOpen(p, [OpenMsg(w, Fresh(r))], Peak(r)) == Max(Peak(r), |r.byHandle| + 1)
  {
    var t := Fresh(r);
    FreshFor(r, s);
    OpenCount(p, r, s);
    OpenGrows(p, w, t);
    OpenPeak(p, OpenMsg(w, t), Peak(r));
  }

  /** An announcement, sent ... */
  lemma {:induction false} OpenAdvances(p: Peer, r: Reg, s: Streams, w: SourceWindow, max: nat)
    requires Valid(r) && Matches(r, s) && HasRoom(r) && InStep(p, s, r.nextId) && Consistent(w)
    requires Peak(Insert(r, w.handle)) == Max(Peak(r), |r.byHandle| + 1)
    ensures Fresh(r).channel < 0x1_0000
    ensures var t := Fresh(r);
            Advances(p, [OpenMsg(w, t)], r, Insert(r, w.handle), s[t.id := Open(w, t, max)])
  {
    OpenFollows(p, r, s, w, max);
    OpensPeak(p, r, s, w);
  }

  /** ... or refused, when the handle stays tracked without a stream. */
  lemma {:induction false} OpenHalts(p: Peer, r: Reg, s: Streams, w: SourceWindow, max: nat)
    requires Valid(r) && Matches(r, s) && HasRoom(r) && InStep(p, s, r.nextId) && Consistent(w)
    requires Peak(Insert(r, w.handle)) == Max(Peak(r), |r.byHandle| + 1)
    ensures Fresh(r).channel < 0x1_0000
    ensures Halted(p, [], OpenMsg(w, Fresh(r)), s, r, Insert(r, w.handle), s)
  {
    var t := Fresh(r);
    FreshFor(r, s);
    OpenAdvances(p, r, s, w, max);
    TrackedToo(r, s, w.handle);
    OpenRefused(p, OpenMsg(w, t), s, r, Insert(r, w.handle), s[t.id := Open(w, t, max)]);
  }

  lemma {:induction false} TrackedToo(r: Reg, s: Streams, h: int)
    requires Matches(r, s)
    ensures Insert(r, h).byId.Keys == s.Keys + {Fresh(r).id} && Insert(r, h).nextId == r.nextId + 1
  {
  }

  lemma {:induction false} OpenRefused(p: Peer, e: Event, s: Streams, r: Reg, r': Reg, s': Streams)
    requires InStep(p, s, r.nextId) && r'.nextId == r.nextId + 1 && Advances(p, [e], r, r', s')
    requires e.WindowOpened? && e.id !in s && r'.byId.Keys == s.Keys + {e.id}
    ensures Halted(p, [], e, s, r, r', s)
  {
    FollowsNothing(p, s, r'.nextId);
    assert [] + [e] == [e];
  }

  lemma {:induction false} OpenCutShort(r: Reg, s: Streams, w: SourceWindow)
    requires w.handle !in r.byHandle && Fresh(r).channel < 0x1_0000
    ensures CutShort([], OpenMsg(w, Fresh(r)), r, s, Insert(r, w.handle), w)
    ensures WindowMsgs(r, s, Insert(r, w.handle), w) == [OpenMsg(w, Fresh(r))]
  {
    assert [] + [OpenMsg(w, Fresh(r))] == [OpenMsg(w, Fresh(r))];
  }

  /** Either way, as `OpenWindow` leaves it. */
  lemma {:induction false} OpenEnds(p: Peer, r: Reg, s: Streams, w: SourceWindow, room: nat, max: nat)
    requires Valid(r) && Matches(r, s) && HasRoom(r) && InStep(p, s, r.nextId) && Consistent(w)
    requires w.handle !in r.byHandle && Peak(Insert(r, w.handle)) == Max(Peak(r), |r.byHandle| + 1)
    ensures Fresh(r).channel < 0x1_0000
    ensures var t, r' := Fresh(r), Insert(r, w.handle);
            var s' := s[t.id := Open(w, t, max)];
            && (room == 0 ==> Ended(p, [], QueueFull(OpenMsg(w, t)), s, room, r, r', s))
            && (room > 0 ==> Ended(p, [OpenMsg(w, t)], Done, s', room, r, r', s') && Observed(r, s, r', s', w, max))
  {
    OpenAdvances(p, r, s, w, max);
    if room == 0 {
      OpenHalts(p, r, s, w, max);
    } else {
      OpenObserved(r, s, w, max);
    }
  }

  // ---------------------------------------------------------------- closing

  /** Closings that may be cut short: the first `k` are sent. */
  lemma {:induction false} ClosingsAdvance(p: Peer, r0: Reg, s0: Streams, r: Reg, removed: seq<Tracked>, k: nat)
    requires Indexed(r0) && |r0.byHandle| <= Peak(r0) && Matches(r0, s0) && InStep(p, s0, r0.nextId)
    requires SortedById(removed) && Ids(removed) <= s0.Keys && k <= |removed|
    requires Peak(r) == Peak(r0) && r.nextId == r0.nextId
    ensures Advances(p, CloseMsgs(removed[..k]), r0, r, s0 - Ids(removed[..k]))
  {
    IdsPrefix(removed, k);
    FollowsClosings(p, s0, r0.nextId, removed[..k]);
    CloseMsgsNoOpens(removed[..k]);
    OpenCount(p, r0, s0);
    QuietPeak(p, CloseMsgs(removed[..k]), Peak(r0));
  }

  lemma {:induction false} IdsPrefix(removed: seq<Tracked>, k: nat)
    requires k <= |removed|
    ensures Ids(removed[..k]) <= Ids(removed) && (SortedById(removed) ==> SortedById(removed[..k]))
  {
    forall id | id in Ids(removed[..k])
      ensures id in Ids(removed)
    {
      var t :| t in removed[..k] && t.id == id;
      assert t in removed;
    }
  }

  lemma {:induction false} CloseMsgsNoOpens(removed: seq<Tracked>)
    ensures NoOpens(CloseMsgs(removed)) && |CloseMsgs(removed)| == |removed|
  {
    if removed != [] {
      CloseMsgsNoOpens(removed[..|removed| - 1]);
    }
  }

  lemma {:induction false} CloseMsgsNext(removed: seq<Tracked>, k: nat)
    requires k < |removed|
    ensures CloseMsgs(removed[..k + 1]) == CloseMsgs(removed[..k]) + [WindowClosed(removed[k].id)]
    ensures Ids(removed[..k + 1]) == Ids(removed[..k]) + {removed[k].id}
  {
    assert removed[..k + 1] == removed[..k] + [removed[k]] && removed[..k + 1][..k] == removed[..k];
    IdsSnoc(removed[..k], removed[k]);
  }

  /** Either way, as `CloseGone` leaves it. */
  lemma {:induction false} ClosingsEnd(
    p: Peer, r0: Reg, s0: Streams, r: Reg, removed: seq<Tracked>, room: nat,
    es: seq<Event>, refused: Option<Event>, s: Streams)
    requires Indexed(r0) && |r0.byHandle| <= Peak(r0) && Matches(r0, s0) && InStep(p, s0, r0.nextId)
    requires SortedById(removed) && Ids(removed) == r0.byId.Keys - r.byId.Keys
    requires r.byId.Keys <= r0.byId.Keys && Peak(r) == Peak(r0) && r.nextId == r0.nextId
    requires |es| <= |removed| && |es| <= room && es == CloseMsgs(removed[..|es|])
    requires refused.None? ==> |es| == |removed| && s == s0 - Ids(removed)
    requires refused.Some? ==> |es| == room < |removed| && refused.value == WindowClosed(removed[room].id)
    requires refused.Some? ==> s == s0 - Ids(removed[..room + 1])
    ensures Ended(p, es, StopOf(refused), s0 - Ids(removed[..|es|]), room, r0, r, s)
  {
    if refused.Some? {
      ClosingsHalt(p, r0, s0, r, removed, room);
    } else {
      assert removed[..|removed|] == removed;
      ClosingsAdvance(p, r0, s0, r, removed, |es|);
    }
  }

  /** The closing after the first `k` is refused: its stream is gone, the client still has the window. */
  lemma {:induction false} ClosingsHalt(p: Peer, r0: Reg, s0: Streams, r: Reg, removed: seq<Tracked>, k: nat)
    requires Indexed(r0) && |r0.byHandle| <= Peak(r0) && Matches(r0, s0) && InStep(p, s0, r0.nextId)
    requires SortedById(removed) && Ids(removed) == r0.byId.Keys - r.byId.Keys && k < |removed|
    requires r.byId.Keys <= r0.byId.Keys && Peak(r) == Peak(r0) && r.nextId == r0.nextId
    ensures Halted(p, CloseMsgs(removed[..k]), WindowClosed(removed[k].id), s0 - Ids(removed[..k]),
                   r0, r, s0 - Ids(removed[..k + 1]))
  {
    ClosingsAdvance(p, r0, s0, r, removed, k);
    ClosingsAdvance(p, r0, s0, r, removed, k + 1);
    CloseMsgsNext(removed, k);
    IdsPrefix(removed, k + 1);
    assert (s0 - Ids(removed[..k + 1])).Keys == s0.Keys - Ids(removed[..k + 1]);
  }

  // ---------------------------------------------------------------- which messages

  /** What one live window gives rise to in a diff from `r0` and `s0` to `r`: its announcement if it is new,
      otherwise what has changed. */
  ghost function WindowMsgs(r0: Reg, s0: Streams, r: Reg, w: SourceWindow): seq<Event> {
    if w.handle !in r.byHandle then []
    else
      var t := r.byHandle[w.handle];
      if w.handle !in r0.byHandle then if t.channel < 0x1_0000 then [OpenMsg(w, t)] else []
      else if t.id in s0 then Announce(s0[t.id], w, t.id).1 else []
  }

  ghost function LiveMsgs(r0: Reg, s0: Streams, r: Reg, live: seq<SourceWindow>): seq<Event> {
    if live == [] then []
    else LiveMsgs(r0, s0, r, live[..|live| - 1]) + WindowMsgs(r0, s0, r, live[|live| - 1])
  }

  lemma {:induction false} LiveMsgsSame(r0: Reg, s0: Streams, r: Reg, r': Reg, live: seq<SourceWindow>)
    requires forall j :: 0 <= j < |live| ==> live[j].handle in r.byHandle
    requires forall j :: 0 <= j < |live| ==>
               live[j].handle in r'.byHandle && r'.byHandle[live[j].handle] == r.byHandle[live[j].handle]
    ensures LiveMsgs(r0, s0, r', live) == LiveMsgs(r0, s0, r, live)
  {
    if live != [] {
      LiveMsgsSame(r0, s0, r, r', live[..|live| - 1]);
    }
  }

  lemma {:induction false} LiveMsgsNext(
    r0: Reg, s0: Streams, r: Reg, s: Streams, r': Reg, s': Streams, live: seq<SourceWindow>, i: nat, max: nat)
    requires i < |live| && LiveList(live)
    requires Diffed(r0, s0, r, s, live, i, max) && Observed(r, s, r', s', live[i], max)
    ensures LiveMsgs(r0, s0, r', live[..i + 1]) ==
            LiveMsgs(r0, s0, r, live[..i]) + WindowMsgs(r, s, r', live[i])
  {
    var front := live[..i];
    forall j | 0 <= j < i
      ensures front[j].handle in r.byHandle && front[j].handle in r'.byHandle
      ensures r'.byHandle[front[j].handle] == r.byHandle[front[j].handle]
    {
      assert Placed(r0, s0, r, s, live[j], max) && live[j].handle != live[i].handle;
    }
    LiveMsgsSame(r0, s0, r, r', front);
    assert live[..i + 1][..i] == front;
    assert Untouched(r0, s0, r, s, live[i].handle);
  }

  lemma {:induction false} LiveMsgsKept(
    r0: Reg, s0: Streams, r: Reg, s: Streams, r': Reg, live: seq<SourceWindow>, max: nat)
    requires Diffed(r0, s0, r, s, live, |live|, max) && Kept(r, r', Handles(live))
    ensures LiveMsgs(r0, s0, r', live) == LiveMsgs(r0, s0, r, live)
  {
    forall j | 0 <= j < |live|
      ensures live[j].handle in r.byHandle && live[j].handle in r'.byHandle
      ensures r'.byHandle[live[j].handle] == r.byHandle[live[j].handle]
    {
      assert Placed(r0, s0, r, s, live[j], max) && live[j].handle in Handles(live);
    }
    LiveMsgsSame(r0, s0, r, r', live);
  }

  lemma {:induction false} UpdateTracked(r: Reg, s: Streams, h: int)
    requires Indexed(r) && Matches(r, s) && h in r.byHandle
    ensures r.byHandle[h].id in s
  {
    assert r.byHandle[h].id in r.byId;
  }

  /** All that `UpdateWindow` has to show. */
  lemma {:induction false} UpdateLeaves(p: Peer, r: Reg, s: Streams, w: SourceWindow, room: nat, max: nat)
    requires Indexed(r) && |r.byHandle| <= Peak(r) && Matches(r, s) && InStep(p, s, r.nextId)
    requires w.handle in r.byHandle
    ensures r.byHandle[w.handle].id in s
    ensures var id := r.byHandle[w.handle].id;
            var d := AnnounceWithin(s[id], w, id, room);
            && Ended(p, d.sent, StopOf(d.refused), s[id := d.told], room, r, r, s[id := d.agent])
            && (d.refused.None? ==> Observed(r, s, r, s[id := d.agent], w, max) && d.sent == WindowMsgs(r, s, r, w))
            && (d.refused.Some? ==> d.sent + [d.refused.value] <= WindowMsgs(r, s, r, w))
  {
    UpdateTracked(r, s, w.handle);
    UpdateEnds(p, r, s, r.byHandle[w.handle].id, w, room);
    UpdateObserved(r, s, w, max);
  }

  /** The message refused is the next one the window gives rise to, after those sent; tracking it has not
      disturbed the others. */
  ghost predicate CutShort(es: seq<Event>, e: Event, r0: Reg, s0: Streams, r: Reg, w: SourceWindow) {
    && es + [e] <= WindowMsgs(r0, s0, r, w)
    && forall h :: h in r0.byHandle ==> h in r.byHandle && r.byHandle[h] == r0.byHandle[h]
  }

  /** The message refused by the queue is the next one due: one that a live window gives rise to, or a
      closing after all of those. */
  ghost predicate DueNext(es: seq<Event>, e: Event, r0: Reg, s0: Streams, r: Reg, live: seq<SourceWindow>) {
    || es + [e] <= LiveMsgs(r0, s0, r, live)
    || (OnlyChanges(es, r0, s0, r, live) && e.WindowClosed?)
  }

  lemma {:induction false} LiveMsgsPrefix(r0: Reg, s0: Streams, r: Reg, live: seq<SourceWindow>, k: nat)
    requires k <= |live|
    ensures LiveMsgs(r0, s0, r, live[..k]) <= LiveMsgs(r0, s0, r, live)
    decreases |live|
  {
    if k == |live| {
      assert live[..k] == live;
    } else {
      var init := live[..|live| - 1];
      LiveMsgsPrefix(r0, s0, r, init, k);
      assert init[..k] == live[..k];
    }
  }

  lemma {:induction false} FrontSame(
    r0: Reg, s0: Streams, r: Reg, s: Streams, r': Reg, live: seq<SourceWindow>, i: nat, max: nat)
    requires i <= |live| && Diffed(r0, s0, r, s, live, i, max)
    requires forall h :: h in r.byHandle ==> h in r'.byHandle && r'.byHandle[h] == r.byHandle[h]
    ensures LiveMsgs(r0, s0, r', live[..i]) == LiveMsgs(r0, s0, r, live[..i])
  {
    forall j | 0 <= j < i
      ensures live[..i][j].handle in r.byHandle
    {
      assert Placed(r0, s0, r, s, live[j], max);
    }
    LiveMsgsSame(r0, s0, r, r', live[..i]);
  }

  lemma {:induction false} PrefixChain(front: seq<Event>, msgs: seq<Event>, e: Event, more: seq<Event>, all: seq<Event>)
    requires msgs + [e] <= more && front + more <= all
    ensures front + msgs + [e] <= all
  {
    assert front + msgs + [e] == front + (msgs + [e]);
    assert more == (msgs + [e]) + more[|msgs| + 1..];
  }

  lemma {:induction false} CutShortDue(
    p: Peer, es: seq<Event>, room: nat, r0: Reg, s0: Streams, r: Reg, s: Streams,
    live: seq<SourceWindow>, i: nat, max: nat, msgs: seq<Event>, e: Event, r': Reg)
    requires i < |live| && Observing(p, es, room, r0, s0, r, s, live, i, max)
    requires CutShort(msgs, e, r, s, r', live[i])
    ensures DueNext(es + msgs, e, r0, s0, r', live)
  {
    FrontSame(r0, s0, r, s, r', live, i, max);
    assert Untouched(r0, s0, r, s, live[i].handle);
    SameMsgs(r0, s0, r, s, r', live[i]);
    LiveMsgsPrefix(r0, s0, r', live, i + 1);
    assert live[..i + 1][..i] == live[..i];
    PrefixChain(es, msgs, e, WindowMsgs(r0, s0, r', live[i]), LiveMsgs(r0, s0, r', live));
  }

  lemma {:induction false} SameMsgs(r0: Reg, s0: Streams, r: Reg, s: Streams, r': Reg, w: SourceWindow)
    requires Untouched(r0, s0, r, s, w.handle)
    requires forall h :: h in r.byHandle ==> h in r'.byHandle && r'.byHandle[h] == r.byHandle[h]
    ensures WindowMsgs(r, s, r', w) == WindowMsgs(r0, s0, r', w)
  {
  }

  /** Part of the way through the live windows. */
  ghost predicate Observing(
    p: Peer, es: seq<Event>, room: nat, r0: Reg, s0: Streams, r: Reg, s: Streams,
    live: seq<SourceWindow>, i: nat, max: nat)
    requires i <= |live|
  {
    && Advances(p, es, r0, r, s) && |es| <= room
    && Diffed(r0, s0, r, s, live, i, max) && es == LiveMsgs(r0, s0, r, live[..i])
  }

  lemma {:induction false} ObservingNothing(
    p: Peer, room: nat, r: Reg, s: Streams, live: seq<SourceWindow>, max: nat)
    requires Indexed(r) && Matches(r, s) && InStep(p, s, r.nextId)
    ensures Observing(p, [], room, r, s, r, s, live, 0, max)
  {
    AdvancesNothing(p, r, s);
    DiffedNothing(r, s, live, max);
  }

  lemma {:induction false} ObservingNext(
    p: Peer, es: seq<Event>, room: nat, r0: Reg, s0: Streams, r: Reg, s: Streams,
    live: seq<SourceWindow>, i: nat, max: nat, msgs: seq<Event>, r': Reg, s': Streams)
    requires i < |live| && LiveList(live) && Observing(p, es, room, r0, s0, r, s, live, i, max)
    requires Advances(End(Receive, p, es), msgs, r, r', s') && |msgs| <= room - |es|
    requires Observed(r, s, r', s', live[i], max) && msgs == WindowMsgs(r, s, r', live[i])
    ensures Observing(p, es + msgs, room, r0, s0, r', s', live, i + 1, max)
  {
    AdvancesThen(p, es, r0, r, s, msgs, r', s');
    DiffedNext(r0, s0, r, s, r', s', live, i, max);
    LiveMsgsNext(r0, s0, r, s, r', s', live, i, max);
  }

  ghost predicate AllCloses(es: seq<Event>) {
    forall i :: 0 <= i < |es| ==> es[i].WindowClosed?
  }

  /** A diff says what the live windows give rise to, in order, and then closes windows; nothing more. */
  ghost predicate OnlyChanges(es: seq<Event>, r0: Reg, s0: Streams, r: Reg, live: seq<SourceWindow>) {
    LiveMsgs(r0, s0, r, live) <= es && AllCloses(es[|LiveMsgs(r0, s0, r, live)|..])
  }

  lemma {:induction false} CloseMsgsClose(removed: seq<Tracked>)
    ensures AllCloses(CloseMsgs(removed))
  {
    if removed != [] {
      CloseMsgsClose(removed[..|removed| - 1]);
    }
  }

  class Agent {
    const registry: WindowRegistry
    const maxInFlight: nat
    var streams: Streams

    ghost predicate Ok()
      reads this, registry
    {
      registry.Ok() && Matches(registry.Value(), streams)
    }

    constructor (max: nat)
      ensures Ok() && fresh(registry) && maxInFlight == max && streams == map[] && registry.Value() == Registry.EMPTY
    {
      registry := new WindowRegistry();
      maxInFlight := max;
      streams := map[];
    }

    /** The loop body of `sync_windows`, while the outbound queue takes `room` more messages. */
    method ObserveWindow(w: SourceWindow, room: nat, ghost p: Peer)
      returns (es: seq<Event>, stop: Stop, ghost told: Streams)
      requires Ok() && InStep(p, streams, registry.nextId) && Consistent(w)
      modifies this, registry
      ensures registry.Ok() && (!stop.QueueFull? ==> Ok())
      ensures Ended(p, es, stop, told, room, old(registry.Value()), registry.Value(), streams)
      ensures stop.Done? ==> Observed(old(registry.Value()), old(streams), registry.Value(), streams, w, maxInFlight)
      ensures stop.Done? ==> es == WindowMsgs(old(registry.Value()), old(streams), registry.Value(), w)
      ensures stop.QueueFull? ==> CutShort(es, stop.refused, old(registry.Value()), old(streams), registry.Value(), w)
      ensures stop.Exhausted? ==> streams == old(streams) && registry.Value() == old(registry.Value())
    {
      if w.handle in registry.byHandle {
        es, stop, told := UpdateWindow(w, room, p);
      } else if HasRoom(registry.Value()) {
        es, stop, told := OpenWindow(w, room, p);
      } else {
        AdvancesNothing(p, registry.Value(), streams);
        es, stop, told := [], Exhausted, streams;
      }
    }

    /** A handle seen for the first time: it is tracked, then announced, and only then gets a stream. */
    method OpenWindow(w: SourceWindow, room: nat, ghost p: Peer)
      returns (es: seq<Event>, stop: Stop, ghost told: Streams)
      requires Ok() && InStep(p, streams, registry.nextId) && Consistent(w)
      requires w.handle !in registry.byHandle && HasRoom(registry.Value())
      modifies this, registry
      ensures registry.Ok() && !stop.Exhausted? && (stop.Done? ==> Ok())
      ensures Ended(p, es, stop, told, room, old(registry.Value()), registry.Value(), streams)
      ensures stop.Done? ==> Observed(old(registry.Value()), old(streams), registry.Value(), streams, w, maxInFlight)
      ensures stop.Done? ==> es == WindowMsgs(old(registry.Value()), old(streams), registry.Value(), w)
      ensures stop.QueueFull? ==> CutShort(es, stop.refused, old(registry.Value()), old(streams), registry.Value(), w)
    {
      ghost var r, s := registry.Value(), streams;
      var t, _ := registry.Track(w.handle);
      assert t == Fresh(r) && registry.Value() == Insert(r, w.handle);
      FreshFor(r, s);
      if room == 0 {
        es, stop := [], QueueFull(OpenMsg(w, t));
      } else {
        es, stop := [OpenMsg(w, t)], Done;
        streams := streams[t.id := Open(w, t, maxInFlight)];
      }
      told := streams;
      assert registry.Value() == Insert(r, w.handle);
      OpenEnds(p, r, s, w, room, maxInFlight);
      OpenCutShort(r, s, w);
    }

    /** A handle already announced. */
    method UpdateWindow(w: SourceWindow, room: nat, ghost p: Peer)
      returns (es: seq<Event>, stop: Stop, ghost told: Streams)
      requires Ok() && InStep(p, streams, registry.nextId) && w.handle in registry.byHandle
      modifies this, registry
      ensures registry.Ok() && !stop.Exhausted? && (stop.Done? ==> Ok())
      ensures Ended(p, es, stop, told, room, old(registry.Value()), registry.Value(), streams)
      ensures stop.Done? ==> Observed(old(registry.Value()), old(streams), registry.Value(), streams, w, maxInFlight)
      ensures stop.Done? ==> es == WindowMsgs(old(registry.Value()), old(streams), registry.Value(), w)
      ensures stop.QueueFull? ==> CutShort(es, stop.refused, old(registry.Value()), old(streams), registry.Value(), w)
    {
      ghost var r, s := registry.Value(), streams;
      var t, _ := registry.Track(w.handle);
      UpdateTracked(r, s, w.handle);
      var d := AnnounceWithin(streams[t.id], w, t.id, room);
      es, stop := d.sent, StopOf(d.refused);
      streams := streams[t.id := d.agent];
      told := s[t.id := d.told];
      assert registry.Value() == r;
      UpdateLeaves(p, r, s, w, room, maxInFlight);
    }

    /** The closing half of `sync_windows`. */
    method CloseGone(live: set<int>, room: nat, ghost p: Peer)
      returns (es: seq<Event>, stop: Stop, ghost told: Streams)
      requires Ok() && InStep(p, streams, registry.nextId)
      modifies this, registry
      ensures registry.Ok() && !stop.Exhausted? && (stop.Done? ==> Ok())
      ensures Ended(p, es, stop, told, room, old(registry.Value()), registry.Value(), streams)
      ensures Kept(old(registry.Value()), registry.Value(), live) && registry.nextId == old(registry.nextId)
      ensures stop.Done? ==> forall id :: id in streams ==> id in old(streams) && streams[id] == old(streams)[id]
      ensures AllCloses(es) && (stop.QueueFull? ==> stop.refused.WindowClosed?)
    {
      ghost var r0, s0 := registry.Value(), streams;
      var removed := registry.RetainLive(live);
      ghost var r := registry.Value();
      CloseKeepsMatch(r0, s0, r, live);
      var refused;
      es, refused := DropStreams(removed, room);
      stop, told := StopOf(refused), s0 - Ids(removed[..|es|]);
      assert registry.Value() == r;
      ClosingsEnd(p, r0, s0, r, removed, room, es, refused, streams);
      CloseMsgsClose(removed[..|es|]);
    }

    /** The loop over the departed: the stream goes first, then the message. */
    method DropStreams(removed: seq<Tracked>, room: nat) returns (es: seq<Event>, refused: Option<Event>)
      modifies this`streams
      ensures |es| <= |removed| && |es| <= room && es == CloseMsgs(removed[..|es|])
      ensures refused.None? ==> |es| == |removed| && streams == old(streams) - Ids(removed)
      ensures refused.Some? ==> |es| == room < |removed| && refused.value == WindowClosed(removed[room].id)
      ensures refused.Some? ==> streams == old(streams) - Ids(removed[..room + 1])
    {
      es := [];
      assert streams - Ids(removed[..0]) == streams;
      for k := 0 to |removed|
        invariant |es| == k <= room && es == CloseMsgs(removed[..k])
        invariant streams == old(streams) - Ids(removed[..k])
      {
        var t := removed[k];
        CloseMsgsNext(removed, k);
        assert old(streams) - Ids(removed[..k]) - {t.id} == old(streams) - Ids(removed[..k + 1]);
        streams := streams - {t.id};
        if k == room {
          return es, Some(WindowClosed(t.id));
        }
        es := es + [WindowClosed(t.id)];
      }
      assert removed[..|removed|] == removed;
      refused := None;
    }

    /** One tick's diff, while the outbound queue takes `room` more messages. Handles are distinct, as
        window handles are. Every message is legal when it is sent and keeps the client in step. When the
        diff runs through, the windows tracked are exactly the live ones, each placed by its own
        observation and up to date; when the queue refuses a message, exactly `room` were sent and the
        client lacks just that one. */
    method SyncWindows(live: seq<SourceWindow>, room: nat, ghost p: Peer)
      returns (es: seq<Event>, stop: Stop, ghost told: Streams)
      requires Ok() && InStep(p, streams, registry.nextId)
      requires LiveList(live)
      modifies this, registry
      ensures registry.Ok() && (!stop.QueueFull? ==> Ok())
      ensures Ended(p, es, stop, told, room, old(registry.Value()), registry.Value(), streams)
      ensures stop.Done? ==> Agrees(registry.Value(), streams, live)
      ensures stop.Done? ==>
                Diffed(old(registry.Value()), old(streams), registry.Value(), streams, live, |live|, maxInFlight)
      ensures stop.Done? ==> OnlyChanges(es, old(registry.Value()), old(streams), registry.Value(), live)
      ensures stop.QueueFull? ==> DueNext(es, stop.refused, old(registry.Value()), old(streams), registry.Value(), live)
    {
      ghost var r0, s0 := registry.Value(), streams;
      es, stop, told := ObserveAll(live, room, p);
      if stop.Done? {
        ghost var r, s := registry.Value(), streams;
        var handles := set i | 0 <= i < |live| :: live[i].handle;
        var closed;
        closed, stop, told := CloseGone(handles, room - |es|, End(Receive, p, es));
        EndedThen(p, es, room, r0, r, s, closed, stop, told, registry.Value(), streams);
        if stop.Done? {
          DiffedClosed(r0, s0, r, s, registry.Value(), streams, live, maxInFlight);
        }
        LiveMsgsKept(r0, s0, r, s, registry.Value(), live, maxInFlight);
        assert (es + closed)[|es|..] == closed;
        es := es + closed;
      }
    }

    /** The loop over the live windows. */
    method ObserveAll(live: seq<SourceWindow>, room: nat, ghost p: Peer)
      returns (es: seq<Event>, stop: Stop, ghost told: Streams)
      requires Ok() && InStep(p, streams, registry.nextId)
      requires LiveList(live)
      modifies this, registry
      ensures registry.Ok() && (!stop.QueueFull? ==> Ok())
      ensures Ended(p, es, stop, told, room, old(registry.Value()), registry.Value(), streams)
      ensures stop.Done? ==>
                Diffed(old(registry.Value()), old(streams), registry.Value(), streams, live, |live|, maxInFlight)
      ensures stop.Done? ==> es == LiveMsgs(old(registry.Value()), old(streams), registry.Value(), live)
      ensures stop.QueueFull? ==> DueNext(es, stop.refused, old(registry.Value()), old(streams), registry.Value(), live)
    {
      ghost var r0, s0 := registry.Value(), streams;
      es, stop, told := [], Done, streams;
      ObservingNothing(p, room, r0, s0, live, maxInFlight);
      for i := 0 to |live|
        invariant Ok() && stop.Done? && told == streams
        invariant Observing(p, es, room, r0, s0, registry.Value(), streams, live, i, maxInFlight)
      {
        ghost var r, s := registry.Value(), streams;
        var msgs;
        msgs, stop, told := ObserveWindow(live[i], room - |es|, End(Receive, p, es));
        if !stop.Done? {
          EndedThen(p, es, room, r0, r, s, msgs, stop, told, registry.Value(), streams);
          if stop.QueueFull? {
            CutShortDue(p, es, room, r0, s0, r, s, live, i, maxInFlight, msgs, stop.refused, registry.Value());
          }
          es := es + msgs;
          return;
        }
        ObservingNext(p, es, room, r0, s0, r, s, live, i, maxInFlight, msgs, registry.Value(), streams);
        es := es + msgs;
      }
      assert live[..|live|] == live;
    }

    /** Send this tick's frames. Nothing the client has been told about a window changes. */
    method PumpFrames(h264: bool, oracle: nat -> Oracle) returns (frames: seq<SentFrame>)
      requires Ok()
      modifies this`streams
      ensures Ok() && SameAnnounced(old(streams), streams)
      ensures Pumped(old(streams), streams, h264, oracle, registry.nextId)
      ensures FramesOf(old(streams), frames, h264, oracle, registry.nextId)
    {
      var s, sent := PumpBelow(streams, registry.nextId, h264, oracle);
      PumpedMatches(registry.Value(), streams, s, h264, oracle);
      streams := s;
      frames := sent;
    }

    /** An acknowledgement for a window that is not open is ignored. */
    method OnFrameAck(id: nat, frameId: nat)
      requires Ok()
      modifies this`streams
      ensures Ok() && SameAnnounced(old(streams), streams)
      ensures streams == AckedIn(old(streams), id, frameId)
    {
      AckedMatches(registry.Value(), streams, id, frameId);
      if id in streams {
        streams := streams[id := StreamStep(streams[id], AckFrame(frameId)).0];
      }
    }
  }

  lemma {:induction false} AckedMatches(r: Reg, s: Streams, id: nat, frameId: nat)
    requires Matches(r, s)
    ensures Matches(r, AckedIn(s, id, frameId)) && SameAnnounced(s, AckedIn(s, id, frameId))
  {
    if id in s {
      StepContiguous(s[id].budget, Ack(frameId));
      assert AckedIn(s, id, frameId).Keys == s.Keys;
    }
  }

  lemma {:induction false} AnnounceContiguous(s: Stream, w: SourceWindow, id: nat)
    requires Contiguous(s.budget)
    ensures Contiguous(Announce(s, w, id).0.budget)
  {
    StepContiguous(s.budget, Restart);
  }
}
