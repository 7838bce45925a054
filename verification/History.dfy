/** What a session has done, seen from one window: every open window stands where its own observations,
    frames and acknowledgements have put it (crates/oxagent/src/serve.rs). */
module History {
  import opened Prelude
  import opened Runs
  import opened WindowMessages
  import opened Registry
  import opened Pacing
  import opened WindowStream
  import opened FrameLog
  import opened Serve

  /** The live list was diffed, the frames of a tick were sent, or an acknowledgement came in. */
  datatype Moment =
    | Seen(live: seq<SourceWindow>)
    | Sent(h264: bool, oracle: nat -> Oracle)
    | Acknowledged(id: nat, frameId: nat)

  /** How a window opened and what has happened to it since. */
  datatype Life = Life(opening: SourceWindow, ops: seq<StreamOp>)

  function LiveAt(live: seq<SourceWindow>, h: int): Option<SourceWindow> {
    if live == [] then None
    else if live[0].handle == h then Some(live[0]) else LiveAt(live[1..], h)
  }

  function Lived(life: Option<Life>, op: StreamOp): Option<Life> {
    if life.None? then None else Some(life.value.(ops := life.value.ops + [op]))
  }

  /** The life of the window with handle `h`, announced under `id`, read off the history: it opens when
      the handle shows up and ends when the handle is missing. */
  function LifeOf(ms: seq<Moment>, h: int, id: nat): Option<Life> {
    if ms == [] then None else LifeNext(LifeOf(ms[..|ms| - 1], h, id), ms[|ms| - 1], h, id)
  }

  function LifeNext(before: Option<Life>, m: Moment, h: int, id: nat): Option<Life> {
    match m
    case Seen(live) =>
      var w := LiveAt(live, h);
      if w.None? then None
      else if before.None? then Some(Life(w.value, []))
      else Lived(before, Observe(w.value, id))
    case Sent(h264, oracle) => Lived(before, Send(h264, oracle(id)))
    case Acknowledged(i, frameId) => if i == id then Lived(before, AckFrame(frameId)) else before
  }

  lemma {:induction false} LifeSnoc(ms: seq<Moment>, m: Moment, h: int, id: nat)
    ensures LifeOf(ms + [m], h, id) == LifeNext(LifeOf(ms, h, id), m, h, id)
  {
    assert (ms + [m])[..|ms|] == ms;
  }

  lemma {:induction false} LiveAtFound(live: seq<SourceWindow>, j: nat)
    requires LiveList(live) && j < |live|
    ensures LiveAt(live, live[j].handle) == Some(live[j])
  {
    if j > 0 {
      assert live[0].handle != live[j].handle;
      assert LiveList(live[1..]);
      LiveAtFound(live[1..], j - 1);
    }
  }

  lemma {:induction false} LiveAtMissing(live: seq<SourceWindow>, h: int)
    requires forall j :: 0 <= j < |live| ==> live[j].handle != h
    ensures LiveAt(live, h) == None
  {
    if live != [] {
      LiveAtMissing(live[1..], h);
    }
  }

  /** The stream `s` of the window tracked as `t` is what `life` makes of it, and `frames` are the frames
      that life has sent. */
  ghost predicate Stands(life: Option<Life>, s: Stream, t: Tracked, max: nat, frames: seq<Frame>) {
    life.Some? && Lives(s, Open(life.value.opening, t, max), life.value.ops, frames)
  }

  lemma {:induction false} StandsNext(
    life: Option<Life>, s: Stream, t: Tracked, max: nat, frames: seq<Frame>, op: StreamOp)
    requires Stands(life, s, t, max, frames)
    ensures var (s', sent) := StreamStep(s, op); Stands(Lived(life, op), s', t, max, frames + Sole(sent))
  {
    LivesStep(s, Open(life.value.opening, t, max), life.value.ops, frames, op);
  }

  ghost predicate Told(ms: seq<Moment>, r: Reg, s: Streams, log: seq<SentFrame>, max: nat, id: nat) {
    && id in s && id in r.byId && r.byId[id] in r.byHandle
    && Stands(LifeOf(ms, r.byId[id], id), s[id], r.byHandle[r.byId[id]], max, FramesBy(log, id))
  }

  ghost predicate AllTold(ms: seq<Moment>, r: Reg, s: Streams, log: seq<SentFrame>, max: nat) {
    forall id :: id in s ==> Told(ms, r, s, log, max, id)
  }

  /** A handle that is not tracked has no life. */
  ghost predicate NoneElse(ms: seq<Moment>, r: Reg) {
    forall h, id :: h !in r.byHandle ==> LifeOf(ms, h, id).None?
  }

  ghost predicate UnusedSilent(log: seq<SentFrame>, nextId: nat) {
    forall id :: id >= nextId ==> FramesBy(log, id) == []
  }

  /** Every open window is exactly what the history has made of it, frames included. */
  ghost predicate Storied(ms: seq<Moment>, r: Reg, s: Streams, log: seq<SentFrame>, max: nat) {
    AllTold(ms, r, s, log, max) && NoneElse(ms, r) && UnusedSilent(log, r.nextId)
  }

  lemma {:induction false} ToldCounted(ms: seq<Moment>, r: Reg, s: Streams, log: seq<SentFrame>, max: nat)
    requires AllTold(ms, r, s, log, max)
    ensures Counted(log, s)
  {
    forall id | id in s
      ensures s[id].budget.nextId == 1 + |FramesBy(log, id)|
    {
      assert Told(ms, r, s, log, max, id);
      var t := r.byHandle[r.byId[id]];
      var life := LifeOf(ms, r.byId[id], id).value;
      LivesNumbers(s[id], Open(life.opening, t, max), life.ops, FramesBy(log, id));
    }
  }

  // ---------------------------------------------------------------- a diff

  lemma {:induction false} SeenTold(
    ms: seq<Moment>, live: seq<SourceWindow>, r0: Reg, s0: Streams, r: Reg, s: Streams,
    log: seq<SentFrame>, max: nat, j: nat)
    requires Storied(ms, r0, s0, log, max) && Indexed(r0) && Indexed(r)
    requires LiveList(live) && j < |live| && Placed(r0, s0, r, s, live[j], max)
    ensures Told(ms + [Seen(live)], r, s, log, max, r.byHandle[live[j].handle].id)
  {
    var w := live[j];
    var h, t := w.handle, r.byHandle[w.handle];
    LiveAtFound(live, j);
    LifeSnoc(ms, Seen(live), h, t.id);
    assert t.id in r.byId && r.byId[t.id] == h;
    if h in r0.byHandle {
      assert Told(ms, r0, s0, log, max, t.id);
      StandsNext(LifeOf(ms, h, t.id), s0[t.id], t, max, FramesBy(log, t.id), Observe(w, t.id));
      assert FramesBy(log, t.id) + [] == FramesBy(log, t.id);
    } else {
      assert LifeOf(ms, h, t.id).None?;
      LivesStart(Open(w, t, max));
    }
  }

  lemma {:induction false} SeenAllTold(
    ms: seq<Moment>, live: seq<SourceWindow>, r0: Reg, s0: Streams, r: Reg, s: Streams,
    log: seq<SentFrame>, max: nat)
    requires Storied(ms, r0, s0, log, max) && Indexed(r0) && Indexed(r) && Matches(r, s)
    requires LiveList(live) && Agrees(r, s, live) && Diffed(r0, s0, r, s, live, |live|, max)
    ensures AllTold(ms + [Seen(live)], r, s, log, max)
  {
    forall id | id in s
      ensures Told(ms + [Seen(live)], r, s, log, max, id)
    {
      assert id in r.byId && r.byId[id] in r.byHandle;
      var j :| 0 <= j < |live| && live[j].handle == r.byId[id];
      SeenTold(ms, live, r0, s0, r, s, log, max, j);
    }
  }

  lemma {:induction false} SeenNoneElse(ms: seq<Moment>, live: seq<SourceWindow>, r: Reg, s: Streams)
    requires Agrees(r, s, live)
    ensures NoneElse(ms + [Seen(live)], r)
  {
    forall h, id | h !in r.byHandle
      ensures LifeOf(ms + [Seen(live)], h, id).None?
    {
      forall j | 0 <= j < |live|
        ensures live[j].handle != h
      {
        assert UpToDate(r, s, live[j]);
      }
      LiveAtMissing(live, h);
      LifeSnoc(ms, Seen(live), h, id);
    }
  }

  /** A diff adds to the life of every live window, opens lives for the new ones and ends the others. */
  lemma {:induction false} StoriedSeen(
    ms: seq<Moment>, live: seq<SourceWindow>, r0: Reg, s0: Streams, r: Reg, s: Streams,
    log: seq<SentFrame>, max: nat)
    requires Storied(ms, r0, s0, log, max) && Indexed(r0) && Indexed(r) && Matches(r, s)
    requires LiveList(live) && Agrees(r, s, live) && Diffed(r0, s0, r, s, live, |live|, max)
    ensures Storied(ms + [Seen(live)], r, s, log, max)
  {
    SeenAllTold(ms, live, r0, s0, r, s, log, max);
    SeenNoneElse(ms, live, r, s);
  }

  // ---------------------------------------------------------------- frames

  lemma {:induction false} SentTold(
    ms: seq<Moment>, r: Reg, s0: Streams, s: Streams, log: seq<SentFrame>, max: nat,
    frames: seq<SentFrame>, h264: bool, oracle: nat -> Oracle, id: nat)
    requires Told(ms, r, s0, log, max, id) && id < r.nextId && id in s
    requires s[id] == Pump(s0[id], h264, oracle(id)).0 && FramesOf(s0, frames, h264, oracle, r.nextId)
    ensures Told(ms + [Sent(h264, oracle)], r, s, log + frames, max, id)
  {
    var h := r.byId[id];
    LifeSnoc(ms, Sent(h264, oracle), h, id);
    StandsNext(LifeOf(ms, h, id), s0[id], r.byHandle[h], max, FramesBy(log, id), Send(h264, oracle(id)));
    SentThisTick(s0, frames, h264, oracle, r.nextId, id);
    FramesBySplit(log, frames, id);
  }

  lemma {:induction false} SentNoneElse(ms: seq<Moment>, m: Moment, r: Reg)
    requires NoneElse(ms, r) && !m.Seen?
    ensures NoneElse(ms + [m], r)
  {
    forall h, id | h !in r.byHandle
      ensures LifeOf(ms + [m], h, id).None?
    {
      LifeSnoc(ms, m, h, id);
    }
  }

  lemma {:induction false} SentUnusedSilent(
    log: seq<SentFrame>, s0: Streams, frames: seq<SentFrame>, h264: bool, oracle: nat -> Oracle, n: nat)
    requires UnusedSilent(log, n) && FramesOf(s0, frames, h264, oracle, n)
    ensures UnusedSilent(log + frames, n)
  {
    forall id | id >= n
      ensures FramesBy(log + frames, id) == []
    {
      FramesBySplit(log, frames, id);
      assert forall k :: 0 <= k < |frames| ==> frames[k] in frames;
      FramesByNone(frames, id);
    }
  }

  lemma {:induction false} SentAllTold(
    ms: seq<Moment>, r: Reg, s0: Streams, s: Streams, log: seq<SentFrame>, max: nat,
    frames: seq<SentFrame>, h264: bool, oracle: nat -> Oracle)
    requires AllTold(ms, r, s0, log, max) && Indexed(r)
    requires Pumped(s0, s, h264, oracle, r.nextId) && FramesOf(s0, frames, h264, oracle, r.nextId)
    ensures AllTold(ms + [Sent(h264, oracle)], r, s, log + frames, max)
  {
    forall id | id in s
      ensures Told(ms + [Sent(h264, oracle)], r, s, log + frames, max, id)
    {
      assert Told(ms, r, s0, log, max, id);
      SentTold(ms, r, s0, s, log, max, frames, h264, oracle, id);
    }
  }

  /** Each window's life takes in the frame of its own turn and no other. */
  lemma {:induction false} StoriedSent(
    ms: seq<Moment>, r: Reg, s0: Streams, s: Streams, log: seq<SentFrame>, max: nat,
    frames: seq<SentFrame>, h264: bool, oracle: nat -> Oracle)
    requires Storied(ms, r, s0, log, max) && Indexed(r)
    requires Pumped(s0, s, h264, oracle, r.nextId) && FramesOf(s0, frames, h264, oracle, r.nextId)
    ensures Storied(ms + [Sent(h264, oracle)], r, s, log + frames, max)
  {
    SentAllTold(ms, r, s0, s, log, max, frames, h264, oracle);
    SentNoneElse(ms, Sent(h264, oracle), r);
    SentUnusedSilent(log, s0, frames, h264, oracle, r.nextId);
  }

  // ---------------------------------------------------------------- acknowledgements

  lemma {:induction false} AckTold(
    ms: seq<Moment>, r: Reg, s: Streams, log: seq<SentFrame>, max: nat, i: nat, frameId: nat, id: nat)
    requires Told(ms, r, s, log, max, id)
    ensures Told(ms + [Acknowledged(i, frameId)], r, AckedIn(s, i, frameId), log, max, id)
  {
    var h := r.byId[id];
    LifeSnoc(ms, Acknowledged(i, frameId), h, id);
    if i == id {
      StandsNext(LifeOf(ms, h, id), s[id], r.byHandle[h], max, FramesBy(log, id), AckFrame(frameId));
      assert FramesBy(log, id) + [] == FramesBy(log, id);
    }
  }

  lemma {:induction false} StoriedAck(
    ms: seq<Moment>, r: Reg, s: Streams, log: seq<SentFrame>, max: nat, i: nat, frameId: nat)
    requires Storied(ms, r, s, log, max)
    ensures Storied(ms + [Acknowledged(i, frameId)], r, AckedIn(s, i, frameId), log, max)
  {
    forall id | id in AckedIn(s, i, frameId)
      ensures Told(ms + [Acknowledged(i, frameId)], r, AckedIn(s, i, frameId), log, max, id)
    {
      assert Told(ms, r, s, log, max, id);
      AckTold(ms, r, s, log, max, i, frameId, id);
    }
    SentNoneElse(ms, Acknowledged(i, frameId), r);
  }

  // ---------------------------------------------------------------- which frames are sent

  /** The window with handle `h` as the last diff saw it; none while it is not open. */
  function LastSeen(ms: seq<Moment>, h: int): Option<SourceWindow> {
    if ms == [] then None
    else
      match ms[|ms| - 1]
      case Seen(live) => LiveAt(live, h)
      case _ => LastSeen(ms[..|ms| - 1], h)
  }

  /** The frames due to a window so far: at each turn to send, one if the window, as last seen, is not
      minimized and has something ready. They are numbered from 1, anew for a handle that was gone. */
  function FramesDue(ms: seq<Moment>, h: int, id: nat): seq<Frame> {
    if ms == [] then []
    else
      var init := ms[..|ms| - 1];
      var before, w := FramesDue(init, h, id), LastSeen(init, h);
      match ms[|ms| - 1]
      case Seen(live) => if w.None? || LiveAt(live, h).None? then [] else before
      case Sent(h264, oracle) =>
        if w.None? then before else before + Due(w.value.minimized, h264, oracle(id), 1 + |before|)
      case Acknowledged(_, _) => before
  }

  /** A recorded life, by what it looks like from outside: when it is one, what it shows and what it has
      sent. */
  ghost predicate Visible(ms: seq<Moment>, h: int, id: nat, t: Tracked, max: nat) {
    var life, due := LifeOf(ms, h, id), FramesDue(ms, h, id);
    && (life.Some? <==> LastSeen(ms, h).Some?)
    && (life.None? ==> due == [])
    && (life.Some? ==>
          var start := Open(life.value.opening, t, max);
          var s := End(StreamStep, start, life.value.ops);
          && Lives(s, start, life.value.ops, due)
          && s.showState == ShowState(LastSeen(ms, h).value) && s.budget.nextId == 1 + |due|)
  }

  lemma {:induction false} SeenVisible(ms: seq<Moment>, live: seq<SourceWindow>, h: int, id: nat, t: Tracked, max: nat)
    requires Visible(ms, h, id, t, max)
    ensures Visible(ms + [Seen(live)], h, id, t, max)
  {
    var all := ms + [Seen(live)];
    assert all[..|ms|] == ms;
    var w, life := LiveAt(live, h), LifeOf(ms, h, id);
    if w.Some? {
      if life.None? {
        LivesStart(Open(w.value, t, max));
      } else {
        var start := Open(life.value.opening, t, max);
        var s := End(StreamStep, start, life.value.ops);
        LivesStep(s, start, life.value.ops, FramesDue(ms, h, id), Observe(w.value, id));
        FrameStep(s, Observe(w.value, id));
        AnnounceShows(s, w.value, id);
        assert FramesDue(ms, h, id) + [] == FramesDue(ms, h, id);
      }
    }
  }

  lemma {:induction false} AnnounceShows(s: Stream, w: SourceWindow, id: nat)
    ensures Announce(s, w, id).0.showState == ShowState(w)
  {
  }

  lemma {:induction false} SentVisible(
    ms: seq<Moment>, h264: bool, oracle: nat -> Oracle, h: int, id: nat, t: Tracked, max: nat)
    requires Visible(ms, h, id, t, max)
    ensures Visible(ms + [Sent(h264, oracle)], h, id, t, max)
  {
    var all := ms + [Sent(h264, oracle)];
    assert all[..|ms|] == ms;
    var life := LifeOf(ms, h, id);
    if life.Some? {
      var start := Open(life.value.opening, t, max);
      var s := End(StreamStep, start, life.value.ops);
      LivesStep(s, start, life.value.ops, FramesDue(ms, h, id), Send(h264, oracle(id)));
      FrameStep(s, Send(h264, oracle(id)));
      PumpExact(s, h264, oracle(id));
      PumpShows(s, h264, oracle(id));
      MinimizedShown(LastSeen(ms, h).value);
    }
  }

  lemma {:induction false} PumpShows(s: Stream, h264: bool, o: Oracle)
    ensures Pump(s, h264, o).0.showState == s.showState
  {
  }

  lemma {:induction false} MinimizedShown(w: SourceWindow)
    ensures ShowState(w) == MINIMIZED <==> w.minimized
  {
  }

  lemma {:induction false} AckVisible(ms: seq<Moment>, i: nat, frameId: nat, h: int, id: nat, t: Tracked, max: nat)
    requires Visible(ms, h, id, t, max)
    ensures Visible(ms + [Acknowledged(i, frameId)], h, id, t, max)
  {
    var all := ms + [Acknowledged(i, frameId)];
    assert all[..|ms|] == ms;
    var life := LifeOf(ms, h, id);
    if life.Some? && i == id {
      var start := Open(life.value.opening, t, max);
      var s := End(StreamStep, start, life.value.ops);
      LivesStep(s, start, life.value.ops, FramesDue(ms, h, id), AckFrame(frameId));
      assert FramesDue(ms, h, id) + [] == FramesDue(ms, h, id);
    }
  }

  lemma {:induction false} EveryLifeVisible(ms: seq<Moment>, h: int, id: nat, t: Tracked, max: nat)
    ensures Visible(ms, h, id, t, max)
    decreases |ms|
  {
    if ms != [] {
      var init, m := ms[..|ms| - 1], ms[|ms| - 1];
      assert ms == init + [m];
      EveryLifeVisible(init, h, id, t, max);
      match m
      case Seen(live) => SeenVisible(init, live, h, id, t, max);
      case Sent(h264, oracle) => SentVisible(init, h264, oracle, h, id, t, max);
      case Acknowledged(i, frameId) => AckVisible(init, i, frameId, h, id, t, max);
    }
  }

  /** In a session, the frames in the log of every open window are exactly those due to it. */
  lemma {:induction false} FramesExact(
    ms: seq<Moment>, r: Reg, s: Streams, log: seq<SentFrame>, max: nat, id: nat)
    requires Storied(ms, r, s, log, max) && id in s
    ensures id in r.byId && FramesBy(log, id) == FramesDue(ms, r.byId[id], id)
  {
    assert Told(ms, r, s, log, max, id);
    EveryLifeVisible(ms, r.byId[id], id, r.byHandle[r.byId[id]], max);
  }

  // ---------------------------------------------------------------- what follows for a session

  /** The stream a life started from. */
  function Opening(life: Life, t: Tracked, max: nat): Stream {
    Open(life.opening, t, max)
  }

  /** In a session, a keyframe is asked of an open window exactly while no H.264 keyframe has been sent
      since it opened or last changed size, and once asked for no more, one is among its frames. */
  lemma {:induction false} KeyframesExact(
    ms: seq<Moment>, r: Reg, s: Streams, log: seq<SentFrame>, max: nat, id: nat)
    requires Storied(ms, r, s, log, max) && id in s
    ensures Told(ms, r, s, log, max, id)
    ensures var life := LifeOf(ms, r.byId[id], id).value;
            s[id].needsKeyframe <==> !Keyed(Opening(life, r.byHandle[r.byId[id]], max), life.ops)
    ensures !s[id].needsKeyframe ==> exists f :: f in FramesBy(log, id) && f.h264 && f.keyframe
  {
    assert Told(ms, r, s, log, max, id);
    var life := LifeOf(ms, r.byId[id], id).value;
    var start := Opening(life, r.byHandle[r.byId[id]], max);
    KeyframeRequestExact(start, life.ops);
    if !s[id].needsKeyframe {
      KeyedSent(start, life.ops);
    }
  }

  /** In a session, the frames in flight of every open window are the newest few it sent, in order, and no
      more than the session's budget allows. */
  lemma {:induction false} BudgetsExact(
    ms: seq<Moment>, r: Reg, s: Streams, log: seq<SentFrame>, max: nat, id: nat)
    requires Storied(ms, r, s, log, max) && id in s
    ensures Contiguous(s[id].budget) && s[id].budget.max == Max(max, 1)
    ensures s[id].budget.nextId == 1 + |FramesBy(log, id)|
  {
    assert Told(ms, r, s, log, max, id);
    var life, t := LifeOf(ms, r.byId[id], id).value, r.byHandle[r.byId[id]];
    var start := Opening(life, t, max);
    BudgetContiguous(start, life.ops);
    BudgetMaxKept(start, life.ops);
    LivesNumbers(s[id], start, life.ops, FramesBy(log, id));
  }

  /** In a session, acknowledging a frame that a window sent before an observation that restarted its
      budget changes nothing, however late it comes. */
  lemma {:induction false} StaleAcksIgnored(
    ms: seq<Moment>, r: Reg, s: Streams, log: seq<SentFrame>, max: nat, id: nat,
    before: seq<StreamOp>, w: SourceWindow, after: seq<StreamOp>, frameId: nat)
    requires Storied(ms, r, s, log, max) && Told(ms, r, s, log, max, id)
    requires LifeOf(ms, r.byId[id], id).value.ops == before + ([Observe(w, id)] + after)
    requires var start := Opening(LifeOf(ms, r.byId[id], id).value, r.byHandle[r.byId[id]], max);
             var then' := End(StreamStep, start, before);
             Restarts(then', w) && frameId < then'.budget.nextId
    ensures AckedIn(s, id, frameId) == s
  {
    var start := Opening(LifeOf(ms, r.byId[id], id).value, r.byHandle[r.byId[id]], max);
    var then' := End(StreamStep, start, before);
    RunSplit(StreamStep, start, before, [Observe(w, id)] + after);
    assert ([Observe(w, id)] + after)[1..] == after;
    StaleAckIgnored(then', w, id, after, frameId);
  }
}
