/** Whole sessions: an agent's ticks and acknowledgements against the client's fold of its messages
    (crates/oxagent/src/serve.rs, `drive`; crates/oxclient/src/model.rs). */
module Sessions {
  import opened Prelude
  import opened Runs
  import opened WindowMessages
  import opened ClientModel
  import opened Registry
  import opened WindowStream
  import opened FrameLog
  import opened Mirror
  import opened Serve
  import opened History

  /** A tick comes with the live list, how many window messages the outbound queue takes before it
      refuses one, and the oracles of its frames. */
  datatype SessionStep =
    | Tick(live: seq<SourceWindow>, room: nat, h264: bool, oracle: nat -> Oracle)
    | FrameAck(id: nat, frameId: nat)

  /** The client shows exactly the live windows, each with its title and show state, and with its
      geometry unless it is minimized. */
  ghost predicate ClientShows(m: Model, r: Reg, live: seq<SourceWindow>) {
    && (forall i :: 0 <= i < |live| ==>
          && live[i].handle in r.byHandle
          && r.byHandle[live[i].handle].id in m.windows
          && var w := m.windows[r.byHandle[live[i].handle].id];
             && w.title == live[i].title
             && w.minimized == live[i].minimized && w.maximized == live[i].maximized
             && (!live[i].minimized ==> w.geometry == live[i].geometry))
    && (forall id :: id in m.windows ==>
          id in r.byId && exists i :: 0 <= i < |live| && live[i].handle == r.byId[id])
  }

  /** The client has exactly the agent's open windows, each as last announced. */
  ghost predicate MirrorsAll(m: Model, s: Streams) {
    m.windows.Keys == s.Keys && forall id :: id in s ==> Mirrors(s[id], m.windows[id], id)
  }

  lemma {:induction false} InStepShows(p: Peer, r: Reg, s: Streams, live: seq<SourceWindow>)
    requires Indexed(r) && Matches(r, s) && InStep(p, s, r.nextId) && Agrees(r, s, live) && LiveList(live)
    ensures ClientShows(p.model, r, live)
  {
    forall i | 0 <= i < |live|
      ensures UpToDate(r, s, live[i])
      ensures var id := r.byHandle[live[i].handle].id; Mirrors(s[id], p.model.windows[id], id)
    {
      assert UpToDate(r, s, live[i]);
    }
    forall id | id in p.model.windows
      ensures id in r.byId && r.byId[id] in r.byHandle
    {
      assert id in s;
    }
  }

  lemma {:induction false} ReceiveIsApply(p: Peer, es: seq<Event>)
    ensures End(Receive, p, es).model == End(Apply, p.model, es)
    decreases |es|
  {
    if es != [] {
      ReceiveIsApply(Receive(p, es[0]).0, es[1..]);
    }
  }

  lemma {:induction false} SettledShows(msgs: seq<Event>, r: Reg, s: Streams, live: seq<SourceWindow>)
    requires InStep(End(Receive, FRESH_PEER, msgs), s, r.nextId) && Indexed(r) && Matches(r, s)
    requires Agrees(r, s, live) && LiveList(live)
    ensures ClientShows(End(Apply, ClientModel.EMPTY, msgs), r, live)
  {
    ReceiveIsApply(FRESH_PEER, msgs);
    InStepShows(End(Receive, FRESH_PEER, msgs), r, s, live);
  }

  /** The live list of the last tick, if there was one. */
  function LatestTick(steps: seq<SessionStep>, before: Option<seq<SourceWindow>>): Option<seq<SourceWindow>> {
    if steps == [] then before
    else if steps[|steps| - 1].Tick? then Some(steps[|steps| - 1].live)
    else LatestTick(steps[..|steps| - 1], before)
  }

  /** A tick is a diff followed by frames. */
  function MomentsOf(step: SessionStep): seq<Moment> {
    match step
    case Tick(live, _, h264, oracle) => [Seen(live)] + [Sent(h264, oracle)]
    case FrameAck(id, frameId) => [Acknowledged(id, frameId)]
  }

  function Moments(steps: seq<SessionStep>): seq<Moment> {
    if steps == [] then [] else Moments(steps[..|steps| - 1]) + MomentsOf(steps[|steps| - 1])
  }

  ghost predicate Current(r: Reg, s: Streams, shown: Option<seq<SourceWindow>>) {
    shown.Some? ==> Agrees(r, s, shown.value) && LiveList(shown.value)
  }

  lemma {:induction false} CurrentSame(r: Reg, s0: Streams, s: Streams, shown: Option<seq<SourceWindow>>)
    requires Current(r, s0, shown) && SameAnnounced(s0, s)
    ensures Current(r, s, shown)
  {
    if shown.Some? {
      AgreesSame(r, s0, s, shown.value);
    }
  }

  /** The state of a session as values: the messages and frames sent, what the agent has been through,
      the live list it has last caught up with, and the agent's own maps. */
  datatype World = World(
    msgs: seq<Event>, frames: seq<SentFrame>, moments: seq<Moment>, shown: Option<seq<SourceWindow>>,
    reg: Reg, streams: Streams)

  /** The client is in step, no more channels are in use than it took, and the frames are numbered. */
  ghost predicate Legible(x: World) {
    Advances(FRESH_PEER, x.msgs, Registry.EMPTY, x.reg, x.streams) && Numbered(x.frames)
  }

  /** How a session stands that has come to `stop`. */
  ghost predicate Standing(x: World, stop: Stop, told: Streams) {
    && Numbered(x.frames)
    && Ended(FRESH_PEER, x.msgs, stop, told, |x.msgs|, Registry.EMPTY, x.reg, x.streams)
  }

  ghost predicate Good(x: World, max: nat) {
    && Legible(x)
    && Storied(x.moments, x.reg, x.streams, x.frames, max)
    && Current(x.reg, x.streams, x.shown)
  }

  lemma {:induction false} LegibleSame(x: World, y: World)
    requires Legible(x) && SameAnnounced(x.streams, y.streams)
    requires y.msgs == x.msgs && y.reg == x.reg && Numbered(y.frames)
    ensures Legible(y)
  {
    InStepSame(End(Receive, FRESH_PEER, x.msgs), x.streams, y.streams, x.reg.nextId);
  }

  lemma {:induction false} DiffStands(
    x: World, y: World, es: seq<Event>, stop: Stop, told: Streams, room: nat)
    requires Legible(x) && Ended(End(Receive, FRESH_PEER, x.msgs), es, stop, told, room, x.reg, y.reg, y.streams)
    requires y.msgs == x.msgs + es && y.frames == x.frames
    ensures Standing(y, stop, told)
  {
    EndedThen(FRESH_PEER, x.msgs, |x.msgs| + room, Registry.EMPTY, x.reg, x.streams,
              es, stop, told, y.reg, y.streams);
  }

  function Acked(x: World, id: nat, frameId: nat): World {
    x.(moments := x.moments + [Acknowledged(id, frameId)], streams := AckedIn(x.streams, id, frameId))
  }

  lemma {:induction false} GoodAck(x: World, max: nat, id: nat, frameId: nat)
    requires Good(x, max) && Matches(x.reg, x.streams)
    ensures Good(Acked(x, id, frameId), max)
  {
    var y := Acked(x, id, frameId);
    AckedMatches(x.reg, x.streams, id, frameId);
    LegibleSame(x, y);
    StoriedAck(x.moments, x.reg, x.streams, x.frames, max, id, frameId);
    CurrentSame(x.reg, x.streams, y.streams, x.shown);
  }

  function Pumping(x: World, sent: seq<SentFrame>, h264: bool, oracle: nat -> Oracle, s: Streams): World {
    x.(frames := x.frames + sent, moments := x.moments + [Sent(h264, oracle)], streams := s)
  }

  lemma {:induction false} GoodSent(
    x: World, max: nat, sent: seq<SentFrame>, h264: bool, oracle: nat -> Oracle, s: Streams)
    requires Good(x, max) && Indexed(x.reg) && SameAnnounced(x.streams, s)
    requires Pumped(x.streams, s, h264, oracle, x.reg.nextId)
    requires FramesOf(x.streams, sent, h264, oracle, x.reg.nextId)
    ensures Good(Pumping(x, sent, h264, oracle, s), max)
  {
    ToldCounted(x.moments, x.reg, x.streams, x.frames, max);
    TickNumbered(x.frames, x.streams, sent, h264, oracle, x.reg.nextId);
    LegibleSame(x, Pumping(x, sent, h264, oracle, s));
    StoriedSent(x.moments, x.reg, x.streams, s, x.frames, max, sent, h264, oracle);
    CurrentSame(x.reg, x.streams, s, x.shown);
  }

  function Diffing(x: World, es: seq<Event>, live: seq<SourceWindow>, r: Reg, s: Streams): World {
    World(x.msgs + es, x.frames, x.moments + [Seen(live)], Some(live), r, s)
  }

  /** The messages of a diff, and if it ran through, the live list, go on record. */
  function Noted(x: World, es: seq<Event>, stop: Stop, live: seq<SourceWindow>): World {
    var y := x.(msgs := x.msgs + es);
    if stop.Done? then y.(moments := x.moments + [Seen(live)], shown := Some(live)) else y
  }

  lemma {:induction false} GoodSeen(x: World, max: nat, es: seq<Event>, live: seq<SourceWindow>, r: Reg, s: Streams)
    requires Good(x, max) && Advances(End(Receive, FRESH_PEER, x.msgs), es, x.reg, r, s)
    requires Indexed(x.reg) && Indexed(r) && Matches(r, s)
    requires LiveList(live) && Agrees(r, s, live) && Diffed(x.reg, x.streams, r, s, live, |live|, max)
    ensures Good(Diffing(x, es, live, r, s), max)
  {
    AdvancesThen(FRESH_PEER, x.msgs, Registry.EMPTY, x.reg, x.streams, es, r, s);
    StoriedSeen(x.moments, live, x.reg, x.streams, r, s, x.frames, max);
  }

  /** An agent and what it has sent. */
  class Session {
    const agent: Agent
    var msgs: seq<Event>
    var frames: seq<SentFrame>
    ghost var moments: seq<Moment>
    ghost var shown: Option<seq<SourceWindow>>

    ghost function Value(): World
      reads this, agent, agent.registry
    {
      World(msgs, frames, moments, shown, agent.registry.Value(), agent.streams)
    }

    /** What holds however the session has stopped. */
    ghost predicate InOrder(stop: Stop, told: Streams)
      reads this, agent, agent.registry
    {
      agent.registry.Ok() && (!stop.QueueFull? ==> agent.Ok()) && Standing(Value(), stop, told)
    }

    ghost predicate Ok()
      reads this, agent, agent.registry
    {
      agent.Ok() && Good(Value(), agent.maxInFlight)
    }

    constructor (max: nat)
      ensures Ok() && fresh(agent) && fresh(agent.registry) && agent.maxInFlight == max
      ensures moments == [] && shown == None
    {
      agent := new Agent(max);
      msgs := [];
      frames := [];
      moments := [];
      shown := None;
      new;
      AdvancesNothing(FRESH_PEER, Registry.EMPTY, agent.streams);
    }

    /** The first `k` steps are done. */
    ghost predicate Through(steps: seq<SessionStep>, k: nat)
      requires k <= |steps|
      reads this, agent, agent.registry
    {
      Ok() && moments == Moments(steps[..k]) && shown == LatestTick(steps[..k], None)
    }

    method Advance(steps: seq<SessionStep>, k: nat) returns (stop: Stop, ghost told: Streams)
      requires k < |steps| && Through(steps, k) && (steps[k].Tick? ==> LiveList(steps[k].live))
      modifies this, agent, agent.registry
      ensures InOrder(stop, told)
      ensures stop.Done? ==> told == agent.streams && Through(steps, k + 1)
      ensures stop.QueueFull? ==> steps[k].Tick? && steps[k].room <= |msgs|
    {
      ghost var before := steps[..k];
      assert steps[..k + 1][..k] == before;
      stop, told := Perform(steps[k]);
    }

    /** `at` is the step that was cut short, if one was. */
    method Run(steps: seq<SessionStep>) returns (stop: Stop, ghost told: Streams, ghost at: nat)
      requires Ok() && moments == [] && shown == None
      requires forall k :: 0 <= k < |steps| && steps[k].Tick? ==> LiveList(steps[k].live)
      modifies this, agent, agent.registry
      ensures InOrder(stop, told)
      ensures stop.Done? ==> Through(steps, |steps|)
      ensures stop.QueueFull? ==> at < |steps| && steps[at].Tick? && steps[at].room <= |msgs|
    {
      stop, told, at := Done, agent.streams, 0;
      for k := 0 to |steps|
        invariant stop.Done? && told == agent.streams && Through(steps, k)
      {
        stop, told := Advance(steps, k);
        at := k;
        if !stop.Done? {
          return;
        }
      }
    }

    method Perform(step: SessionStep) returns (stop: Stop, ghost told: Streams)
      requires Ok() && (step.Tick? ==> LiveList(step.live))
      modifies this, agent, agent.registry
      ensures InOrder(stop, told)
      ensures stop.Done? ==> Ok() && told == agent.streams && moments == old(moments) + MomentsOf(step)
      ensures stop.Done? ==> shown == if step.Tick? then Some(step.live) else old(shown)
      ensures stop.QueueFull? ==> step.Tick? && |msgs| == |old(msgs)| + step.room
    {
      match step {
        case Tick(live, room, h264, oracle) =>
          stop, told := OnTick(live, room, h264, oracle);
        case FrameAck(id, frameId) =>
          Acknowledge(id, frameId);
          stop, told := Done, agent.streams;
      }
    }

    /** A tick is the diff followed by the frames. */
    method OnTick(live: seq<SourceWindow>, room: nat, h264: bool, oracle: nat -> Oracle)
      returns (stop: Stop, ghost told: Streams)
      requires Ok() && LiveList(live)
      modifies this, agent, agent.registry
      ensures InOrder(stop, told)
      ensures stop.Done? ==> Ok() && told == agent.streams && shown == Some(live)
      ensures stop.Done? ==> moments == old(moments) + ([Seen(live)] + [Sent(h264, oracle)])
      ensures stop.QueueFull? ==> |msgs| == |old(msgs)| + room
    {
      stop, told := Diff(live, room);
      if stop.Done? {
        Assoc(old(moments), [Seen(live)], [Sent(h264, oracle)]);
        var _ := Frames(h264, oracle);
        told := agent.streams;
      }
    }

    /** Whatever the outcome, the messages sent are legal, no more than the queue took, and no frame is
        sent; a completed diff is one more moment in every live window's life. */
    method Diff(live: seq<SourceWindow>, room: nat) returns (stop: Stop, ghost told: Streams)
      requires Ok() && LiveList(live)
      modifies this, agent, agent.registry
      ensures InOrder(stop, told) && frames == old(frames) && old(msgs) <= msgs
      ensures if stop.QueueFull? then |msgs| == |old(msgs)| + room else |msgs| <= |old(msgs)| + room
      ensures stop.Done? ==> Ok() && moments == old(moments) + [Seen(live)] && shown == Some(live)
    {
      ghost var x := Value();
      var es;
      es, stop, told := agent.SyncWindows(live, room, End(Receive, FRESH_PEER, msgs));
      ghost var y := Value();
      DiffStands(x, Noted(y, es, stop, live), es, stop, told, room);
      if stop.Done? {
        GoodSeen(x, agent.maxInFlight, es, live, y.reg, y.streams);
        assert Noted(y, es, stop, live) == Diffing(x, es, live, y.reg, y.streams);
      }
      Note(es, stop, live);
    }

    method Note(es: seq<Event>, stop: Stop, ghost live: seq<SourceWindow>)
      modifies `msgs, `moments, `shown
      ensures Value() == Noted(old(Value()), es, stop, live)
    {
      msgs := msgs + es;
      if stop.Done? {
        moments := moments + [Seen(live)];
        shown := Some(live);
      }
    }

    /** Frames are appended to the log, numbered on, and change nothing the client shows. */
    method Frames(h264: bool, oracle: nat -> Oracle) returns (sent: seq<SentFrame>)
      requires Ok()
      modifies this`frames, this`moments, agent`streams
      ensures Ok() && frames == old(frames) + sent && moments == old(moments) + [Sent(h264, oracle)]
      ensures FramesOf(old(agent.streams), sent, h264, oracle, agent.registry.nextId)
    {
      ghost var x := Value();
      sent := agent.PumpFrames(h264, oracle);
      GoodSent(x, agent.maxInFlight, sent, h264, oracle, agent.streams);
      frames := frames + sent;
      moments := moments + [Sent(h264, oracle)];
      assert Value() == Pumping(x, sent, h264, oracle, agent.streams);
    }

    method Acknowledge(id: nat, frameId: nat)
      requires Ok()
      modifies this`moments, agent`streams
      ensures Ok() && moments == old(moments) + [Acknowledged(id, frameId)]
      ensures agent.streams == AckedIn(old(agent.streams), id, frameId)
    {
      ghost var x := Value();
      GoodAck(x, agent.maxInFlight, id, frameId);
      agent.OnFrameAck(id, frameId);
      moments := moments + [Acknowledged(id, frameId)];
      assert Value() == Acked(x, id, frameId);
    }

    /** What a session in order has to show for itself. */
    lemma Sound(stop: Stop, told: Streams)
      requires InOrder(stop, told)
      ensures AllLegal(Outs(Receive, FRESH_PEER, msgs)) && Valid(agent.registry.Value()) && Numbered(frames)
      ensures MirrorsAll(End(Apply, ClientModel.EMPTY, msgs), told)
    {
      ReceiveIsApply(FRESH_PEER, msgs);
    }

    lemma SoundRunning(stop: Stop, told: Streams)
      requires InOrder(stop, told) && !stop.QueueFull?
      ensures told == agent.streams && agent.streams.Keys == agent.registry.byId.Keys
      ensures Peak(agent.registry.Value()) == PeakOpen(FRESH_PEER, msgs, 0)
    {
    }

    lemma SoundHalted(stop: Stop, told: Streams)
      requires InOrder(stop, told) && stop.QueueFull?
      ensures Lacks(msgs, stop.refused, told, agent.registry.Value(), agent.streams)
    {
      ReceiveIsApply(FRESH_PEER, msgs + [stop.refused]);
    }

    lemma Shows()
      requires Ok() && shown.Some?
      ensures ClientShows(End(Apply, ClientModel.EMPTY, msgs), agent.registry.Value(), shown.value)
    {
      SettledShows(msgs, agent.registry.Value(), agent.streams, shown.value);
    }
  }

  /** The one message a client is short of when the queue has refused it: it would have been legal, and
      with it the client would show the streams as the agent has them -- or, if it announces a window,
      the agent has the handle tracked but no stream for it yet. */
  ghost predicate Lacks(msgs: seq<Event>, e: Event, told: Streams, r: Reg, s: Streams) {
    && AllLegal(Outs(Receive, FRESH_PEER, msgs + [e])) && Peak(r) == PeakOpen(FRESH_PEER, msgs + [e], 0)
    && if e.WindowOpened? then told == s && e.id !in s && r.byId.Keys == s.Keys + {e.id}
       else && MirrorsAll(End(Apply, ClientModel.EMPTY, msgs + [e]), s)
            && if e.WindowClosed? then r.byId.Keys <= s.Keys else r.byId.Keys == s.Keys
  }

  /** Every open window has sent exactly the frames due to it, by what the ticks saw of it and what the
      queue, capture and the encoder answered. */
  ghost predicate AllFramesDue(ms: seq<Moment>, r: Reg, s: Streams, log: seq<SentFrame>) {
    forall id :: id in s ==> id in r.byId && FramesBy(log, id) == FramesDue(ms, r.byId[id], id)
  }

  lemma {:induction false} StoriedFramesDue(ms: seq<Moment>, r: Reg, s: Streams, log: seq<SentFrame>, max: nat)
    requires Storied(ms, r, s, log, max)
    ensures AllFramesDue(ms, r, s, log)
  {
    forall id | id in s
      ensures id in r.byId && FramesBy(log, id) == FramesDue(ms, r.byId[id], id)
    {
      FramesExact(ms, r, s, log, max, id);
    }
  }

  /** Main result over whole sessions: any sequence of ticks, frame outcomes and acknowledgements.
      Every window message is legal when sent -- no id announced twice, no update or close of a window
      that is not open, no channel shared by two open windows -- and folding the messages into the
      client gives exactly what it was told, and the live windows of the last tick. Every window's
      frames are numbered 1, 2, 3, ... and every open window stands exactly where the observations,
      frames and acknowledgements that these steps hold for it have put it, having sent exactly its
      frames in the log: one at each tick at which the window was seen not minimized, the queue had a
      slot, and capture answered with something ready, and no other. As many channels have been handed
      out as the most windows that were open at once. The run stops early only where the source panics
      for lack of ids or channels, or where the outbound queue refuses a window message and the source
      gives the session up; then the client lacks just that message. */
  method RunSession(steps: seq<SessionStep>, max: nat)
    returns (
      msgs: seq<Event>, frames: seq<SentFrame>, reg: Reg, streams: Streams, stop: Stop, ghost told: Streams)
    requires forall k :: 0 <= k < |steps| && steps[k].Tick? ==> LiveList(steps[k].live)
    ensures AllLegal(Outs(Receive, FRESH_PEER, msgs)) && Numbered(frames) && Valid(reg)
    ensures MirrorsAll(End(Apply, ClientModel.EMPTY, msgs), told)
    ensures !stop.QueueFull? ==> told == streams && streams.Keys == reg.byId.Keys
    ensures !stop.QueueFull? ==> Peak(reg) == PeakOpen(FRESH_PEER, msgs, 0)
    ensures stop.Done? ==> Storied(Moments(steps), reg, streams, frames, max)
    ensures stop.Done? ==> AllFramesDue(Moments(steps), reg, streams, frames)
    ensures stop.Done? && LatestTick(steps, None).Some? ==>
              ClientShows(End(Apply, ClientModel.EMPTY, msgs), reg, LatestTick(steps, None).value)
    ensures stop.Exhausted? ==> !HasRoom(reg)
    ensures stop.QueueFull? ==> Lacks(msgs, stop.refused, told, reg, streams)
    ensures stop.QueueFull? ==> exists k :: 0 <= k < |steps| && steps[k].Tick? && steps[k].room <= |msgs|
  {
    var session := new Session(max);
    ghost var at;
    stop, told, at := session.Run(steps);
    assert steps[..|steps|] == steps;
    msgs, frames := session.msgs, session.frames;
    reg, streams := session.agent.registry.Value(), session.agent.streams;
    session.Sound(stop, told);
    if stop.QueueFull? {
      session.SoundHalted(stop, told);
    } else {
      session.SoundRunning(stop, told);
    }
    if stop.Done? {
      StoriedFramesDue(Moments(steps), reg, streams, frames, max);
      if LatestTick(steps, None).Some? {
        session.Shows();
      }
    }
  }
}
