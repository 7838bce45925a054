/** The client as the agent's messages leave it, and the rules those messages obey. */
module Mirror {
  import opened Prelude
  import opened Runs
  import opened WindowMessages
  import opened ClientModel
  import opened Registry
  import opened WindowStream

  // ---------------------------------------------------------------- one window

  /** The client shows what the agent last announced. */
  ghost predicate Mirrors(s: Stream, w: RemoteWindow, id: nat) {
    && w.id == id && w.channel == s.channel && w.title == s.title && w.geometry == s.geometry
    && w.minimized == (s.showState == MINIMIZED) && w.maximized == (s.showState == MAXIMIZED)
  }

  /** What the agent last announced is what the window is, geometry aside while minimized. */
  ghost predicate Reported(s: Stream, w: SourceWindow) {
    && s.title == w.title && s.showState == ShowState(w) && s.flags == WindowFlags(w)
    && (!w.minimized ==> s.geometry == w.geometry)
  }

  /** A window can be both only by contradiction of the platform's own two queries. */
  predicate Consistent(w: SourceWindow) {
    !(w.minimized && w.maximized)
  }

  /** A newly announced window is mirrored exactly when it is not both minimized and maximized. */
  lemma {:induction false} OpenMirrors(w: SourceWindow, t: Tracked, max: nat)
    requires t.channel < 0x1_0000
    ensures Mirrors(Open(w, t, max), FromOpened(OpenMsg(w, t)), t.id) <==> Consistent(w)
    ensures Reported(Open(w, t, max), w)
  {
    FlagsDecode(w.resizable, w.hasFrame, w.topmost, w.minimized, w.maximized);
  }

  /** An announcement tells the client everything it keeps of a window, as the agent has it. */
  lemma {:induction false} OpenTells(w: SourceWindow, t: Tracked)
    requires t.channel < 0x1_0000
    ensures FromOpened(OpenMsg(w, t)) ==
            RemoteWindow(t.id, t.channel, w.appId, w.title, w.geometry, w.dpi, 0, w.minimized, w.maximized,
                         w.resizable, w.hasFrame, w.topmost, None)
    ensures OpenMsg(w, t).pid == w.pid
  {
    FlagsDecode(w.resizable, w.hasFrame, w.topmost, w.minimized, w.maximized);
  }

  lemma {:induction false} AnnounceReports(s: Stream, w: SourceWindow, id: nat)
    ensures Reported(Announce(s, w, id).0, w)
    ensures Announce(s, w, id).0.handle == s.handle && Announce(s, w, id).0.channel == s.channel
  {
  }

  // ---------------------------------------------------------------- the whole client

  /** Ids ever announced, and the channels of the windows open now. */
  datatype Ledger = Ledger(ever: set<nat>, open: map<nat, nat>)

  /** The client model together with the record of what it has been told. */
  datatype Peer = Peer(model: Model, ledger: Ledger)

  const FRESH_PEER: Peer := Peer(ClientModel.EMPTY, Ledger({}, map[]))

  /** A message the protocol allows next: a new id and an unused channel for an open, a window that
      is open for anything else. */
  predicate Legal(l: Ledger, e: Event) {
    match e
    case WindowOpened(id, channel, _, _, _, _, _, _, _) => id !in l.ever && channel !in l.open.Values
    case WindowClosed(id) => id in l.open
    case WindowGeometry(id, _) => id in l.open
    case WindowTitle(id, _) => id in l.open
    case WindowState(id, _, _) => id in l.open
    case _ => false
  }

  function Record(l: Ledger, e: Event): Ledger {
    match e
    case WindowOpened(id, channel, _, _, _, _, _, _, _) => Ledger(l.ever + {id}, l.open[id := channel])
    case WindowClosed(id) => l.(open := l.open - {id})
    case _ => l
  }

  function Receive(p: Peer, e: Event): (Peer, bool) {
    (Peer(Apply(p.model, e).0, Record(p.ledger, e)), Legal(p.ledger, e))
  }

  ghost predicate AllLegal(outs: seq<bool>) {
    forall i :: 0 <= i < |outs| ==> outs[i]
  }

  /** The peer agrees with the agent's streams; `nextId` bounds the ids announced so far. */
  ghost predicate InStep(p: Peer, streams: map<nat, Stream>, nextId: nat) {
    && p.model.windows.Keys == streams.Keys && p.ledger.open.Keys == streams.Keys
    && (forall id :: id in streams ==> Mirrors(streams[id], p.model.windows[id], id))
    && (forall id :: id in streams ==> p.ledger.open[id] == streams[id].channel)
    && (forall id :: id in p.ledger.ever ==> id < nextId)
  }

  /** Receiving `es` is legal throughout and ends in step with `streams'`. */
  ghost predicate Follows(p: Peer, es: seq<Event>, streams': map<nat, Stream>, nextId: nat) {
    AllLegal(Outs(Receive, p, es)) && InStep(End(Receive, p, es), streams', nextId)
  }

  lemma {:induction false} FollowsNothing(p: Peer, streams: map<nat, Stream>, nextId: nat)
    requires InStep(p, streams, nextId)
    ensures Follows(p, [], streams, nextId)
  {
  }

  lemma {:induction false} FollowsThen(
    p: Peer, a: seq<Event>, b: seq<Event>, s1: map<nat, Stream>, n1: nat, s2: map<nat, Stream>, n2: nat)
    requires Follows(p, a, s1, n1) && Follows(End(Receive, p, a), b, s2, n2)
    ensures Follows(p, a + b, s2, n2)
  {
    RunSplit(Receive, p, a, b);
  }

  lemma {:induction false} FollowsOne(p: Peer, e: Event, streams': map<nat, Stream>, nextId: nat)
    requires Legal(p.ledger, e) && InStep(Receive(p, e).0, streams', nextId)
    ensures Follows(p, [e], streams', nextId)
  {
    RunSnoc(Receive, p, [], e);
    assert [] + [e] == [e];
  }

  lemma {:induction false} FollowsOpen(
    p: Peer, streams: map<nat, Stream>, nextId: nat, w: SourceWindow, t: Tracked, max: nat)
    requires InStep(p, streams, nextId) && Consistent(w)
    requires t.id == nextId && t.id !in streams && t.channel < 0x1_0000
    requires forall id :: id in streams ==> streams[id].channel != t.channel
    ensures Follows(p, [OpenMsg(w, t)], streams[t.id := Open(w, t, max)], nextId + 1)
  {
    OpenMirrors(w, t, max);
    assert t.channel !in p.ledger.open.Values;
    FollowsOne(p, OpenMsg(w, t), streams[t.id := Open(w, t, max)], nextId + 1);
  }

  lemma {:induction false} FollowsClose(p: Peer, streams: map<nat, Stream>, nextId: nat, id: nat)
    requires InStep(p, streams, nextId) && id in streams
    ensures Follows(p, [WindowClosed(id)], streams - {id}, nextId)
  {
    FollowsOne(p, WindowClosed(id), streams - {id}, nextId);
  }

  lemma {:induction false} FollowsCloseToo(p: Peer, es: seq<Event>, streams: map<nat, Stream>, nextId: nat, id: nat)
    requires Follows(p, es, streams, nextId) && id in streams
    ensures Follows(p, es + [WindowClosed(id)], streams - {id}, nextId)
  {
    FollowsClose(End(Receive, p, es), streams, nextId, id);
    FollowsThen(p, es, [WindowClosed(id)], streams, nextId, streams - {id}, nextId);
  }

  predicate IsEdit(e: Event) {
    e.WindowGeometry? || e.WindowTitle? || e.WindowState?
  }

  /** What an update makes of the window it names. */
  function Edit(w: RemoteWindow, e: Event): RemoteWindow
    requires IsEdit(e)
  {
    match e
    case WindowGeometry(_, g) => w.(geometry := g)
    case WindowTitle(_, title) => w.(title := title)
    case WindowState(_, state, _) => w.(minimized := state == MINIMIZED, maximized := state == MAXIMIZED)
  }

  lemma {:induction false} ApplyEdits(m: Model, e: Event)
    requires IsEdit(e) && e.id in m.windows
    ensures Apply(m, e).0.windows == m.windows[e.id := Edit(m.windows[e.id], e)]
  {
  }

  lemma {:induction false} InStepUpdate(
    p: Peer, p': Peer, streams: map<nat, Stream>, nextId: nat, id: nat, w: RemoteWindow, s: Stream)
    requires InStep(p, streams, nextId) && id in streams && s.channel == streams[id].channel
    requires p'.ledger == p.ledger && p'.model.windows == p.model.windows[id := w] && Mirrors(s, w, id)
    ensures InStep(p', streams[id := s], nextId)
  {
  }

  lemma {:induction false} FollowsEdit(p: Peer, streams: map<nat, Stream>, nextId: nat, e: Event, s: Stream)
    requires InStep(p, streams, nextId) && IsEdit(e) && e.id in streams
    requires s.channel == streams[e.id].channel && Mirrors(s, Edit(p.model.windows[e.id], e), e.id)
    ensures Follows(p, [e], streams[e.id := s], nextId)
  {
    ApplyEdits(p.model, e);
    InStepUpdate(p, Receive(p, e).0, streams, nextId, e.id, Edit(p.model.windows[e.id], e), s);
    FollowsOne(p, e, streams[e.id := s], nextId);
  }

  /** A part of a diff that has nothing to say. */
  lemma {:induction false} FollowsSilence(p: Peer, streams: map<nat, Stream>, nextId: nat, id: nat, s: Stream)
    requires InStep(p, streams, nextId) && id in streams && s == streams[id]
    ensures Follows(p, [], streams[id := s], nextId)
  {
    assert streams[id := s] == streams;
    FollowsNothing(p, streams, nextId);
  }

  lemma {:induction false} FollowsRetitle(p: Peer, streams: map<nat, Stream>, nextId: nat, id: nat, w: SourceWindow)
    requires InStep(p, streams, nextId) && id in streams
    ensures var (s', es) := Retitle(streams[id], w, id); Follows(p, es, streams[id := s'], nextId)
  {
    var (s', es) := Retitle(streams[id], w, id);
    if es == [] {
      FollowsSilence(p, streams, nextId, id, s');
    } else {
      FollowsEdit(p, streams, nextId, es[0], s');
    }
  }

  lemma {:induction false} FollowsReshow(p: Peer, streams: map<nat, Stream>, nextId: nat, id: nat, w: SourceWindow)
    requires InStep(p, streams, nextId) && id in streams
    ensures var (s', es) := Reshow(streams[id], w, id); Follows(p, es, streams[id := s'], nextId)
  {
    var (s', es) := Reshow(streams[id], w, id);
    if es == [] {
      FollowsSilence(p, streams, nextId, id, s');
    } else {
      FollowsEdit(p, streams, nextId, es[0], s');
    }
  }

  lemma {:induction false} FollowsReplace(
    p: Peer, streams: map<nat, Stream>, nextId: nat, id: nat, w: SourceWindow, flipped: bool)
    requires InStep(p, streams, nextId) && id in streams
    ensures var (s', es) := Replace(streams[id], w, id, flipped); Follows(p, es, streams[id := s'], nextId)
  {
    var (s', es) := Replace(streams[id], w, id, flipped);
    if es == [] {
      FollowsSilence(p, streams, nextId, id, s');
    } else {
      FollowsEdit(p, streams, nextId, es[0], s');
    }
  }

  lemma {:induction false} FollowsTwo(p: Peer, streams: map<nat, Stream>, nextId: nat, id: nat, w: SourceWindow)
    requires InStep(p, streams, nextId) && id in streams
    ensures var (s1, e1) := Retitle(streams[id], w, id);
            var (s2, e2) := Reshow(s1, w, id);
            Follows(p, e1 + e2, streams[id := s2], nextId)
  {
    var (s1, e1) := Retitle(streams[id], w, id);
    var (s2, e2) := Reshow(s1, w, id);
    var m1 := streams[id := s1];
    FollowsRetitle(p, streams, nextId, id, w);
    FollowsReshow(End(Receive, p, e1), m1, nextId, id, w);
    assert m1[id := s2] == streams[id := s2];
    FollowsThen(p, e1, e2, m1, nextId, streams[id := s2], nextId);
  }

  /** A diff of one window keeps the client in step, one message at a time. */
  lemma {:induction false} FollowsAnnounce(p: Peer, streams: map<nat, Stream>, nextId: nat, id: nat, w: SourceWindow)
    requires InStep(p, streams, nextId) && id in streams
    ensures var (s', es) := Announce(streams[id], w, id); Follows(p, es, streams[id := s'], nextId)
  {
    var flipped := HasFrame(WindowFlags(w)) != HasFrame(streams[id].flags);
    var (s1, e1) := Retitle(streams[id], w, id);
    var (s2, e2) := Reshow(s1, w, id);
    var (s3, e3) := Replace(s2, w, id, flipped);
    var m2 := streams[id := s2];
    FollowsTwo(p, streams, nextId, id, w);
    FollowsReplace(End(Receive, p, e1 + e2), m2, nextId, id, w, flipped);
    assert m2[id := s3] == streams[id := s3];
    FollowsThen(p, e1 + e2, e3, m2, nextId, streams[id := s3], nextId);
  }

  // ---------------------------------------------------------------- a queue that fills up

  lemma {:induction false} OneMessage(s: Stream, w: SourceWindow, id: nat, flipped: bool)
    ensures |Retitle(s, w, id).1| <= 1 && |Reshow(s, w, id).1| <= 1 && |Replace(s, w, id, flipped).1| <= 1
  {
  }

  /** However much room the queue has left, the client follows what was sent to the stream as it was told,
      and with the refused message it would have followed to the stream as the agent has it. */
  lemma {:induction false} FollowsWithin(
    p: Peer, streams: map<nat, Stream>, nextId: nat, id: nat, w: SourceWindow, room: nat)
    requires InStep(p, streams, nextId) && id in streams
    ensures var d := AnnounceWithin(streams[id], w, id, room);
            && Follows(p, d.sent, streams[id := d.told], nextId)
            && (d.refused.None? ==> d.told == d.agent && (d.agent, d.sent) == Announce(streams[id], w, id))
            && (d.refused.None? ==> |d.sent| <= room)
            && (d.refused.Some? ==> |d.sent| == room)
            && (d.refused.Some? ==> Follows(p, d.sent + [d.refused.value], streams[id := d.agent], nextId))
            && (d.refused.Some? ==> d.sent + [d.refused.value] <= Announce(streams[id], w, id).1)
  {
    var s, flipped := streams[id], HasFrame(WindowFlags(w)) != HasFrame(streams[id].flags);
    var (s1, e1) := Retitle(s, w, id);
    var (s2, e2) := Reshow(s1, w, id);
    var (s3, e3) := Replace(s2, w, id, flipped);
    OneMessage(s, w, id, flipped);
    OneMessage(s1, w, id, flipped);
    OneMessage(s2, w, id, flipped);
    FollowsSilence(p, streams, nextId, id, s);
    FollowsRetitle(p, streams, nextId, id, w);
    FollowsTwo(p, streams, nextId, id, w);
    FollowsAnnounce(p, streams, nextId, id, w);
    LastRefused([], e1, room);
    LastRefused(e1, e2, room);
    LastRefused(e1 + e2, e3, room);
  }

  /** At most one more message, and no room for it: it is the last, and what came before filled the
      queue. */
  lemma {:induction false} LastRefused(before: seq<Event>, e: seq<Event>, room: nat)
    requires |e| <= 1
    ensures |before| <= room < |before + e| ==> |before| == room && before + [e[0]] == before + e
    ensures before == [] ==> before + e == e
  {
  }

  // ---------------------------------------------------------------- how many windows at once

  /** The most windows open after any of the messages, or `peak` if that was more. */
  ghost function PeakOpen(p: Peer, es: seq<Event>, peak: nat): nat
    decreases |es|
  {
    if es == [] then peak
    else
      var next := Receive(p, es[0]).0;
      PeakOpen(next, es[1..], if |next.ledger.open| > peak then |next.ledger.open| else peak)
  }

  lemma {:induction false} PeakSplit(p: Peer, a: seq<Event>, b: seq<Event>, peak: nat)
    ensures PeakOpen(p, a + b, peak) == PeakOpen(End(Receive, p, a), b, PeakOpen(p, a, peak))
    decreases |a|
  {
    if a == [] {
      assert a + b == b;
    } else {
      var next := Receive(p, a[0]).0;
      assert (a + b)[1..] == a[1..] + b;
      PeakSplit(next, a[1..], b, if |next.ledger.open| > peak then |next.ledger.open| else peak);
    }
  }

  ghost predicate NoOpens(es: seq<Event>) {
    forall i :: 0 <= i < |es| ==> !es[i].WindowOpened?
  }

  lemma {:induction false} RecordShrinks(l: Ledger, e: Event)
    requires !e.WindowOpened?
    ensures |Record(l, e).open| <= |l.open|
  {
    if e.WindowClosed? {
      assert (l.open - {e.id}).Keys == l.open.Keys - {e.id};
    }
  }

  /** Updates and closings set no new peak. */
  lemma {:induction false} QuietPeak(p: Peer, es: seq<Event>, peak: nat)
    requires NoOpens(es) && |p.ledger.open| <= peak
    ensures PeakOpen(p, es, peak) == peak
    decreases |es|
  {
    if es != [] {
      RecordShrinks(p.ledger, es[0]);
      QuietPeak(Receive(p, es[0]).0, es[1..], peak);
    }
  }

  lemma {:induction false} OpenPeak(p: Peer, e: Event, peak: nat)
    ensures PeakOpen(p, [e], peak) ==
            var open := |Receive(p, e).0.ledger.open|; if open > peak then open else peak
  {
    assert [e][1..] == [];
  }
}
