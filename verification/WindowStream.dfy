/** What the agent keeps per announced window, and what it tells the client about it
    (crates/oxagent/src/serve.rs, `sync_windows` and `pump_frames`). */
module WindowStream {
  import opened Prelude
  import opened Runs
  import opened WindowMessages
  import opened Registry
  import opened Pacing

  datatype SourceWindow = SourceWindow(
    handle: int, pid: u32, appId: string, title: string, geometry: Geometry, dpi: u16,
    minimized: bool, maximized: bool, resizable: bool, hasFrame: bool, topmost: bool)

  datatype Stream = Stream(
    handle: int, channel: nat, budget: Budget, geometry: Geometry, title: string, showState: nat,
    flags: nat, needsKeyframe: bool)

  function WindowFlags(w: SourceWindow): nat {
    Flags(w.resizable, w.hasFrame, w.topmost, w.minimized, w.maximized)
  }

  function ShowState(w: SourceWindow): nat {
    if w.minimized then MINIMIZED else if w.maximized then MAXIMIZED else NORMAL
  }

  function Open(w: SourceWindow, t: Tracked, max: nat): Stream {
    Stream(w.handle, t.channel, New(max), w.geometry, w.title, ShowState(w), WindowFlags(w), true)
  }

  function OpenMsg(w: SourceWindow, t: Tracked): Event
    requires t.channel < 0x1_0000
  {
    WindowOpened(t.id, t.channel, w.pid, w.appId, w.title, w.geometry, w.dpi, WindowFlags(w), 0)
  }

  // ---------------------------------------------------------------- diffing one window

  function Retitle(s: Stream, w: SourceWindow, id: nat): (Stream, seq<Event>) {
    if s.title == w.title then (s, [])
    else (s.(title := w.title), [WindowTitle(id, w.title)])
  }

  function Reshow(s: Stream, w: SourceWindow, id: nat): (Stream, seq<Event>) {
    if s.showState == ShowState(w) && s.flags == WindowFlags(w) then (s, [])
    else (s.(showState := ShowState(w), flags := WindowFlags(w)),
          [WindowState(id, ShowState(w), WindowFlags(w))])
  }

  function Size(g: Geometry): (u16, u16) {
    (g.width, g.height)
  }

  /** Geometry is not looked at while minimized; otherwise a change, or a flip of HAS_FRAME, restarts
      the budget, and a change of size also asks for a keyframe. */
  function Replace(s: Stream, w: SourceWindow, id: nat, frameFlipped: bool): (Stream, seq<Event>) {
    if w.minimized || (s.geometry == w.geometry && !frameFlipped) then (s, [])
    else (s.(geometry := w.geometry, budget := Restarted(s.budget),
             needsKeyframe := s.needsKeyframe || Size(s.geometry) != Size(w.geometry)),
          [WindowGeometry(id, w.geometry)])
  }

  function Announce(s: Stream, w: SourceWindow, id: nat): (Stream, seq<Event>) {
    var frameFlipped := HasFrame(WindowFlags(w)) != HasFrame(s.flags);
    var (s1, e1) := Retitle(s, w, id);
    var (s2, e2) := Reshow(s1, w, id);
    var (s3, e3) := Replace(s2, w, id, frameFlipped);
    (s3, e1 + e2 + e3)
  }

  /** A diff that may be cut short: what the agent has recorded, what the client has been told, the
      messages sent, and the one that found no slot in the outbound queue. */
  datatype Diff = Diff(agent: Stream, told: Stream, sent: seq<Event>, refused: Option<Event>)

  /** The diff of one window while the queue takes `room` more messages. Each part is recorded before it
      is sent, and the first refusal ends the diff. */
  function AnnounceWithin(s: Stream, w: SourceWindow, id: nat, room: nat): Diff {
    var frameFlipped := HasFrame(WindowFlags(w)) != HasFrame(s.flags);
    var (s1, e1) := Retitle(s, w, id);
    if |e1| > room then Diff(s1, s, [], Some(e1[0]))
    else
      var (s2, e2) := Reshow(s1, w, id);
      if |e1 + e2| > room then Diff(s2, s1, e1, Some(e2[0]))
      else
        var (s3, e3) := Replace(s2, w, id, frameFlipped);
        if |e1 + e2 + e3| > room then Diff(s3, s2, e1 + e2, Some(e3[0]))
        else Diff(s3, s3, e1 + e2 + e3, None)
  }

  // ---------------------------------------------------------------- sending a frame

  /** Everything outside the driver that decides one window's frame this tick: whether the outbound
      queue had a slot, what capture returned (and whether it came with pixels), whether the window's
      encoder has failed, and what it had ready (and whether that was a keyframe). */
  datatype Oracle = Oracle(slot: bool, frame: Option<bool>, failed: bool, polled: Option<bool>)

  datatype Frame = Frame(frameId: nat, h264: bool, keyframe: bool)

  function Pump(s: Stream, h264: bool, o: Oracle): (Stream, Option<Frame>) {
    if s.showState == MINIMIZED || !o.slot || o.frame.None? then (s, None)
    else if h264 && !o.failed then
      match o.polled
      case None => (s, None)
      case Some(key) =>
        (s.(budget := Captured(s.budget), needsKeyframe := s.needsKeyframe && !key),
         Some(Frame(s.budget.nextId, true, key)))
    else if o.frame.value then
      (s.(budget := Captured(s.budget)), Some(Frame(s.budget.nextId, false, true)))
    else (s, None)
  }

  /** It is a window's turn to send: it is not minimized, the outbound queue has a slot, and capture has
      answered with something ready -- an encoded frame on a working H.264 path, pixels otherwise. */
  predicate Ready(minimized: bool, h264: bool, o: Oracle) {
    && !minimized && o.slot && o.frame.Some?
    && if h264 && !o.failed then o.polled.Some? else o.frame.value
  }

  /** The frame that is then due: coded, and a keyframe if the encoder says so, on a working H.264 path;
      raw, and always a keyframe, otherwise. */
  function Due(minimized: bool, h264: bool, o: Oracle, number: nat): seq<Frame> {
    if !Ready(minimized, h264, o) then []
    else [Frame(number, h264 && !o.failed, h264 && !o.failed ==> o.polled.value)]
  }

  lemma {:induction false} PumpExact(s: Stream, h264: bool, o: Oracle)
    ensures Sole(Pump(s, h264, o).1) == Due(s.showState == MINIMIZED, h264, o, s.budget.nextId)
  {
  }

  /** A diff tells the client exactly what has changed, once each and in this order: the title; the show
      state with the flags; and, unless minimized, the geometry, also when the flags move it to another
      coordinate space. A window that has not changed is not mentioned. */
  lemma {:induction false} AnnounceExact(s: Stream, w: SourceWindow, id: nat)
    ensures var es := Announce(s, w, id).1;
            var retitled := s.title != w.title;
            var reshown := s.showState != ShowState(w) || s.flags != WindowFlags(w);
            var moved := !w.minimized && (s.geometry != w.geometry || HasFrame(WindowFlags(w)) != HasFrame(s.flags));
            && (WindowTitle(id, w.title) in es <==> retitled)
            && (WindowState(id, ShowState(w), WindowFlags(w)) in es <==> reshown)
            && (WindowGeometry(id, w.geometry) in es <==> moved)
            && |es| == (if retitled then 1 else 0) + (if reshown then 1 else 0) + (if moved then 1 else 0)
            && forall i, j :: 0 <= i < j < |es| ==> Turn(es[i]) < Turn(es[j])
  {
  }

  function Turn(e: Event): nat {
    if e.WindowTitle? then 0 else if e.WindowState? then 1 else 2
  }

  // ---------------------------------------------------------------- runs of one window

  datatype StreamOp = Observe(w: SourceWindow, id: nat) | Send(h264: bool, o: Oracle) | AckFrame(frameId: nat)

  /** One step of an open window; outputs the frame it sent, if any. */
  function StreamStep(s: Stream, op: StreamOp): (Stream, Option<Frame>) {
    match op
    case Observe(w, id) => (Announce(s, w, id).0, None)
    case Send(h264, o) => Pump(s, h264, o)
    case AckFrame(frameId) => (s.(budget := Acked(s.budget, frameId)), None)
  }

  lemma {:induction false} BudgetContiguous(s: Stream, ops: seq<StreamOp>)
    requires Contiguous(s.budget)
    ensures Contiguous(End(StreamStep, s, ops).budget)
    decreases |ops|
  {
    if ops != [] {
      match ops[0] {
        case Observe(_, _) => StepContiguous(s.budget, Restart);
        case Send(_, _) => StepContiguous(s.budget, Capture);
        case AckFrame(frameId) => StepContiguous(s.budget, Ack(frameId));
      }
      BudgetContiguous(StreamStep(s, ops[0]).0, ops[1..]);
    }
  }

  lemma {:induction false} BudgetMaxKept(s: Stream, ops: seq<StreamOp>)
    ensures End(StreamStep, s, ops).budget.max == s.budget.max
    decreases |ops|
  {
    if ops != [] {
      BudgetMaxKept(StreamStep(s, ops[0]).0, ops[1..]);
    }
  }

  function FramesIn(outs: seq<Option<Frame>>): nat {
    if outs == [] then 0 else (if outs[0].Some? then 1 else 0) + FramesIn(outs[1..])
  }

  lemma {:induction false} FrameStep(s: Stream, op: StreamOp)
    ensures var (s', sent) := StreamStep(s, op);
            && s'.budget.nextId == s.budget.nextId + (if sent.Some? then 1 else 0)
            && (sent.Some? ==> sent.value.frameId == s.budget.nextId)
  {
  }

  /** Whatever ticks, resizes, drops and acknowledgements happen, the frames a window sends carry
      consecutive ids. */
  lemma {:induction false} SentFramesNumbered(s: Stream, ops: seq<StreamOp>, i: nat)
    requires i < |ops|
    ensures var outs := Outs(StreamStep, s, ops);
            outs[i].Some? ==> outs[i].value.frameId == s.budget.nextId + FramesIn(outs[..i])
    decreases |ops|
  {
    var s1 := StreamStep(s, ops[0]).0;
    var outs := Outs(StreamStep, s, ops);
    FrameStep(s, ops[0]);
    if i > 0 {
      SentFramesNumbered(s1, ops[1..], i - 1);
      assert outs[1..] == Outs(StreamStep, s1, ops[1..]);
      assert outs[..i][1..] == outs[1..][..i - 1];
    }
  }

  /** An H.264 keyframe has been sent since the window opened or its announced size last changed. */
  ghost function Keyed(s: Stream, ops: seq<StreamOp>): bool
    decreases |ops|
  {
    if ops == [] then false
    else
      var init := ops[..|ops| - 1];
      var before, (after, sent) := End(StreamStep, s, init), StreamStep(End(StreamStep, s, init), ops[|ops| - 1]);
      if before.geometry.width != after.geometry.width || before.geometry.height != after.geometry.height then false
      else if sent.Some? && sent.value.h264 && sent.value.keyframe then true
      else Keyed(s, init)
  }

  lemma {:induction false} KeyframeStep(s: Stream, op: StreamOp)
    ensures var (s', sent) := StreamStep(s, op);
            s'.needsKeyframe ==
            if s.geometry.width != s'.geometry.width || s.geometry.height != s'.geometry.height then true
            else s.needsKeyframe && !(sent.Some? && sent.value.h264 && sent.value.keyframe)
  {
  }

  /** The keyframe request is withdrawn exactly while that is so. */
  lemma {:induction false} KeyframeRequestExact(s: Stream, ops: seq<StreamOp>)
    requires s.needsKeyframe
    ensures End(StreamStep, s, ops).needsKeyframe <==> !Keyed(s, ops)
    decreases |ops|
  {
    if ops != [] {
      var init, last := ops[..|ops| - 1], ops[|ops| - 1];
      assert ops == init + [last];
      KeyframeRequestExact(s, init);
      RunSnoc(StreamStep, s, init, last);
      KeyframeStep(End(StreamStep, s, init), last);
    }
  }

  // ---------------------------------------------------------------- from one state to another

  function SentIn(outs: seq<Option<Frame>>): seq<Frame> {
    if outs == [] then [] else (if outs[0].Some? then [outs[0].value] else []) + SentIn(outs[1..])
  }

  lemma {:induction false} SentInSplit(a: seq<Option<Frame>>, b: seq<Option<Frame>>)
    ensures SentIn(a + b) == SentIn(a) + SentIn(b)
  {
    if a == [] {
      assert a + b == b;
    } else {
      assert (a + b)[1..] == a[1..] + b;
      SentInSplit(a[1..], b);
      Assoc(if a[0].Some? then [a[0].value] else [], SentIn(a[1..]), SentIn(b));
    }
  }

  function Sole(sent: Option<Frame>): seq<Frame> {
    if sent.Some? then [sent.value] else []
  }

  /** From `start`, the run `ops` leads to `s` and sends exactly `frames`. */
  ghost predicate Lives(s: Stream, start: Stream, ops: seq<StreamOp>, frames: seq<Frame>) {
    End(StreamStep, start, ops) == s && SentIn(Outs(StreamStep, start, ops)) == frames
  }

  lemma {:induction false} LivesStart(s: Stream)
    ensures Lives(s, s, [], [])
  {
  }

  lemma {:induction false} SentInOne(sent: Option<Frame>)
    ensures SentIn([sent]) == Sole(sent)
  {
    assert SentIn([sent][1..]) == [];
  }

  lemma {:induction false} LivesStep(s: Stream, start: Stream, ops: seq<StreamOp>, frames: seq<Frame>, op: StreamOp)
    requires Lives(s, start, ops, frames)
    ensures var (s', sent) := StreamStep(s, op); Lives(s', start, ops + [op], frames + Sole(sent))
  {
    var sent := StreamStep(s, op).1;
    RunSnoc(StreamStep, start, ops, op);
    SentInSplit(Outs(StreamStep, start, ops), [sent]);
    SentInOne(sent);
  }

  lemma {:induction false} RunNumbers(a: Stream, ops: seq<StreamOp>)
    ensures End(StreamStep, a, ops).budget.nextId == a.budget.nextId + |SentIn(Outs(StreamStep, a, ops))|
    decreases |ops|
  {
    if ops != [] {
      FrameStep(a, ops[0]);
      RunNumbers(StreamStep(a, ops[0]).0, ops[1..]);
      assert Outs(StreamStep, a, ops)[1..] == Outs(StreamStep, StreamStep(a, ops[0]).0, ops[1..]);
    }
  }

  /** A window that has sent n frames since it opened is about to use id n + 1. */
  lemma {:induction false} LivesNumbers(s: Stream, start: Stream, ops: seq<StreamOp>, frames: seq<Frame>)
    requires Lives(s, start, ops, frames) && start.budget.nextId == 1
    ensures s.budget.nextId == 1 + |frames|
  {
    RunNumbers(start, ops);
  }

  lemma {:induction false} SentInHas(outs: seq<Option<Frame>>, i: nat)
    requires i < |outs| && outs[i].Some?
    ensures outs[i].value in SentIn(outs)
  {
    if i > 0 {
      SentInHas(outs[1..], i - 1);
    }
  }

  lemma {:induction false} KeyedSent(s: Stream, ops: seq<StreamOp>)
    requires Keyed(s, ops)
    ensures exists f :: f in SentIn(Outs(StreamStep, s, ops)) && f.h264 && f.keyframe
    decreases |ops|
  {
    var init, last := ops[..|ops| - 1], ops[|ops| - 1];
    assert ops == init + [last];
    RunSnoc(StreamStep, s, init, last);
    var outs, sent := Outs(StreamStep, s, ops), StreamStep(End(StreamStep, s, init), last).1;
    if sent.Some? && sent.value.h264 && sent.value.keyframe {
      assert outs[|ops| - 1] == sent;
      SentInHas(outs, |ops| - 1);
    } else {
      KeyedSent(s, init);
      SentInSplit(Outs(StreamStep, s, init), [sent]);
    }
  }

  // ---------------------------------------------------------------- acknowledgements across a restart

  /** Observing `w` restarts the budget. */
  predicate Restarts(s: Stream, w: SourceWindow) {
    !w.minimized && (s.geometry != w.geometry || HasFrame(WindowFlags(w)) != HasFrame(s.flags))
  }

  lemma {:induction false} ObserveBudget(s: Stream, w: SourceWindow, id: nat)
    ensures Announce(s, w, id).0.budget == if Restarts(s, w) then Restarted(s.budget) else s.budget
  {
  }

  lemma {:induction false} StepAllFrom(s: Stream, op: StreamOp, first: nat)
    requires AllFrom(s.budget.inFlight, first) && first <= s.budget.nextId
    ensures var b := StreamStep(s, op).0.budget; AllFrom(b.inFlight, first) && first <= b.nextId
  {
    match op
    case Observe(w, id) => ObserveBudget(s, w, id);
    case Send(h264, o) =>
    case AckFrame(frameId) => NewerFrom(s.budget.inFlight, frameId, first);
  }

  lemma {:induction false} StreamAllFrom(s: Stream, ops: seq<StreamOp>, first: nat)
    requires AllFrom(s.budget.inFlight, first) && first <= s.budget.nextId
    ensures AllFrom(End(StreamStep, s, ops).budget.inFlight, first)
    decreases |ops|
  {
    if ops != [] {
      StepAllFrom(s, ops[0], first);
      StreamAllFrom(StreamStep(s, ops[0]).0, ops[1..], first);
    }
  }

  /** An acknowledgement of a frame sent before a move, resize or change of frame style, however late,
      changes nothing. */
  lemma {:induction false} StaleAckIgnored(s: Stream, w: SourceWindow, id: nat, ops: seq<StreamOp>, frameId: nat)
    requires Restarts(s, w) && frameId < s.budget.nextId
    ensures var now := End(StreamStep, StreamStep(s, Observe(w, id)).0, ops);
            StreamStep(now, AckFrame(frameId)).0 == now
  {
    var s1 := StreamStep(s, Observe(w, id)).0;
    ObserveBudget(s, w, id);
    StreamAllFrom(s1, ops, s.budget.nextId);
    NewerFrom(End(StreamStep, s1, ops).budget.inFlight, frameId, s.budget.nextId);
  }
}
