/** Per-window frame accounting on the client (crates/oxclient/src/latency.rs, `LatencyMonitor`). */
module FrameLatency {
  import opened Prelude
  import opened Runs
  import opened Samples

  const SAMPLE_WINDOW: nat := 2048
  const MAX_IN_FLIGHT: nat := 256

  datatype Partial = Partial(captured: u64, encoded: u64, arrived: u64, decoded: Option<u64>)

  datatype Stages = Stages(captureToEncode: u64, encodeToArrival: u64, arrivalToDecode: u64,
                           decodeToPresent: u64, client: u64, total: u64)

  datatype Completed = Completed(window: nat, frame: nat, presentedAt: u64, stages: Stages)

  datatype Win = Win(inFlight: map<nat, Partial>, presented: nat, dropped: nat)

  datatype Monitor = Monitor(windows: map<nat, Win>, timeline: seq<Completed>, evicted: nat)

  const EMPTY: Monitor := Monitor(map[], [], 0)

  datatype Event =
    | Arrival(window: nat, frame: nat, captured: u64, encoded: u64, arrived: u64)
    | Decoded(window: nat, frame: nat, at: u64)
    | Presented(window: nat, frame: nat, at: u64, offset: i64)
    | Dropped(window: nat, frame: nat)
    | Forget(window: nat)

  // ---------------------------------------------------------------- stages

  function AgentToClient(agent: u64, offset: i64): u64 {
    if offset >= 0 then SatSub(agent, offset) else SatAdd(agent, -(offset as int))
  }

  function StagesOf(p: Partial, presented: u64, offset: i64): Stages {
    var decoded := if p.decoded.Some? then p.decoded.value else p.arrived;
    Stages(SatSub(p.encoded, p.captured), SatSub(p.arrived, AgentToClient(p.encoded, offset)),
           SatSub(decoded, p.arrived), SatSub(presented, decoded),
           SatSub(presented, p.arrived), SatSub(presented, AgentToClient(p.captured, offset)))
  }

  function StageSum(s: Stages): int {
    s.captureToEncode as int + s.encodeToArrival as int + s.arrivalToDecode as int + s.decodeToPresent as int
  }

  /** Neither agent timestamp saturates on its way to the client's clock. */
  predicate Convertible(p: Partial, offset: i64) {
    0 <= p.captured - offset <= U64_MAX && 0 <= p.encoded - offset <= U64_MAX
  }

  /** The four points after capture, each no earlier than the one before. */
  predicate Ordered(p: Partial, presented: u64, offset: i64) {
    var decoded := if p.decoded.Some? then p.decoded.value else p.arrived;
    p.captured <= p.encoded && p.encoded - offset <= p.arrived <= decoded <= presented
  }

  predicate Reversed(p: Partial, presented: u64, offset: i64) {
    var decoded := if p.decoded.Some? then p.decoded.value else p.arrived;
    p.captured >= p.encoded && p.encoded - offset >= p.arrived >= decoded >= presented
  }

  /** The four stages never add up to less than the total, and add up to exactly the total just when
      the timestamps are ordered (or entirely reversed, when every figure is zero). */
  lemma {:induction false} StagesAddUp(p: Partial, presented: u64, offset: i64)
    requires Convertible(p, offset)
    ensures var s := StagesOf(p, presented, offset);
            && StageSum(s) >= s.total
            && (StageSum(s) == s.total <==> Ordered(p, presented, offset) || Reversed(p, presented, offset))
  {
    var decoded := if p.decoded.Some? then p.decoded.value else p.arrived;
    Converted(p.encoded, offset);
    Converted(p.captured, offset);
    SatSubPos(p.encoded, p.captured);
    SatSubPos(p.arrived, p.encoded - offset);
    SatSubPos(decoded, p.arrived);
    SatSubPos(presented, decoded);
    SatSubPos(presented, p.captured - offset);
    PositiveParts(p.encoded - p.captured, p.arrived - (p.encoded - offset), decoded - p.arrived, presented - decoded);
  }

  lemma {:induction false} Converted(agent: u64, offset: i64)
    requires 0 <= agent - offset <= U64_MAX
    ensures AgentToClient(agent, offset) == agent - offset
  {
  }

  lemma {:induction false} SatSubPos(a: u64, b: u64)
    ensures SatSub(a, b) == Pos(a - b)
  {
  }

  /** Each stage by itself: the time from one point to the next, or zero if that runs backwards. */
  lemma {:induction false} StagesExact(p: Partial, presented: u64, offset: i64)
    requires Convertible(p, offset)
    ensures var s := StagesOf(p, presented, offset);
            var decoded := if p.decoded.Some? then p.decoded.value else p.arrived;
            && s.captureToEncode == Pos(p.encoded - p.captured)
            && s.encodeToArrival == Pos(p.arrived - (p.encoded - offset))
            && s.arrivalToDecode == Pos(decoded - p.arrived)
            && s.decodeToPresent == Pos(presented - decoded)
            && s.client == Pos(presented - p.arrived)
            && s.total == Pos(presented - (p.captured - offset))
  {
    Converted(p.encoded, offset);
    Converted(p.captured, offset);
    SatSubPos(p.encoded, p.captured);
    SatSubPos(p.arrived, p.encoded - offset);
    SatSubPos(presented, p.captured - offset);
  }

  function Pos(v: int): int {
    if v < 0 then 0 else v
  }

  lemma {:induction false} PositiveParts(a: int, b: int, c: int, d: int)
    ensures Pos(a) + Pos(b) + Pos(c) + Pos(d) >= Pos(a + b + c + d)
    ensures Pos(a) + Pos(b) + Pos(c) + Pos(d) == Pos(a + b + c + d) <==>
            (a >= 0 && b >= 0 && c >= 0 && d >= 0) || (a <= 0 && b <= 0 && c <= 0 && d <= 0)
  {
  }

  // ---------------------------------------------------------------- one event

  /** The oldest id in flight. */
  predicate IsOldest(m: map<nat, Partial>, id: nat) {
    id in m && forall k :: k in m ==> id <= k
  }

  lemma {:induction false} OldestExists(m: map<nat, Partial>, bound: nat)
    requires exists k :: k in m && k < bound
    ensures exists id :: IsOldest(m, id)
    decreases bound
  {
    if k :| k in m && k < bound {
      if exists j :: j in m && j < k {
        OldestExists(m, k);
      } else {
        assert IsOldest(m, k);
      }
    }
  }

  ghost function Oldest(m: map<nat, Partial>): nat
    requires |m| > 0
    ensures IsOldest(m, Oldest(m))
  {
    var k :| k in m;
    OldestExists(m, k + 1);
    var id :| IsOldest(m, id);
    id
  }

  /** Beyond the limit, the oldest frame is given up. */
  ghost function Evict(w: Win): Win {
    if |w.inFlight| > MAX_IN_FLIGHT then w.(inFlight := w.inFlight - {Oldest(w.inFlight)}, dropped := w.dropped + 1)
    else w
  }

  function WinOf(m: Monitor, id: nat): Win {
    if id in m.windows then m.windows[id] else Win(map[], 0, 0)
  }

  /** What an event does to its own window; a frame not in flight is left alone. */
  ghost function WinStep(w: Win, e: Event): Win {
    match e
    case Arrival(_, frame, captured, encoded, arrived) =>
      Evict(w.(inFlight := w.inFlight[frame := Partial(captured, encoded, arrived, None)]))
    case Decoded(_, frame, at) =>
      if frame !in w.inFlight then w
      else w.(inFlight := w.inFlight[frame := w.inFlight[frame].(decoded := Some(at))])
    case Presented(_, frame, _, _) =>
      if frame !in w.inFlight then w
      else w.(inFlight := w.inFlight - {frame}, presented := w.presented + 1)
    case Dropped(_, frame) =>
      if frame !in w.inFlight then w
      else w.(inFlight := w.inFlight - {frame}, dropped := w.dropped + 1)
    case Forget(_) => w
  }

  function AddCompleted(m: Monitor, c: Completed): Monitor {
    if |m.timeline| == SAMPLE_WINDOW then m.(timeline := m.timeline[1..] + [c], evicted := m.evicted + 1)
    else m.(timeline := m.timeline + [c])
  }

  /** A presented frame yields its stages, if it was seen arriving. */
  ghost function Step(m: Monitor, e: Event): (Monitor, Option<Stages>) {
    if e.Forget? then (m.(windows := m.windows - {e.window}), None)
    else if e.window !in m.windows && !e.Arrival? then (m, None)
    else
      var w := WinOf(m, e.window);
      var m' := m.(windows := m.windows[e.window := WinStep(w, e)]);
      if e.Presented? && e.frame in w.inFlight then
        var s := StagesOf(w.inFlight[e.frame], e.at, e.offset);
        (AddCompleted(m', Completed(e.window, e.frame, e.at, s)), Some(s))
      else (m', None)
  }

  // ---------------------------------------------------------------- conservation

  /** Frames a window has an account of: finished, given up, or still in flight. */
  function Account(w: Win): nat {
    w.presented + w.dropped + |w.inFlight|
  }

  function Accounted(m: Monitor, id: nat): nat {
    Account(WinOf(m, id))
  }

  /** What an event should do to that account: an arrival of a frame not already in flight adds one,
      forgetting the window clears it, and nothing else touches it. */
  function Expected(m: Monitor, id: nat, e: Event, before: nat): nat {
    if e.window != id then before
    else if e.Forget? then 0
    else if e.Arrival? && e.frame !in WinOf(m, id).inFlight then before + 1
    else before
  }

  ghost predicate Bounded(m: Monitor) {
    && (forall id :: id in m.windows ==> |m.windows[id].inFlight| <= MAX_IN_FLIGHT)
    && |m.timeline| <= SAMPLE_WINDOW
  }

  lemma {:induction false} RemoveOne(m: map<nat, Partial>, k: nat)
    requires k in m
    ensures |m - {k}| == |m| - 1
  {
    assert (m - {k}).Keys == m.Keys - {k};
  }

  lemma {:induction false} InsertOne(m: map<nat, Partial>, k: nat, v: Partial)
    ensures |m[k := v]| == if k in m then |m| else |m| + 1
  {
    assert m[k := v].Keys == m.Keys + {k};
    if k in m {
      assert m[k := v].Keys == m.Keys;
    }
  }

  lemma {:induction false} EvictAccounts(w: Win)
    requires |w.inFlight| <= MAX_IN_FLIGHT + 1
    ensures Account(Evict(w)) == Account(w) && |Evict(w).inFlight| <= MAX_IN_FLIGHT
  {
    if |w.inFlight| > MAX_IN_FLIGHT {
      RemoveOne(w.inFlight, Oldest(w.inFlight));
    }
  }

  lemma {:induction false} WinStepAccounts(w: Win, e: Event)
    requires |w.inFlight| <= MAX_IN_FLIGHT
    ensures |WinStep(w, e).inFlight| <= MAX_IN_FLIGHT
    ensures Account(WinStep(w, e)) == Account(w) + if e.Arrival? && e.frame !in w.inFlight then 1 else 0
  {
    match e
    case Arrival(_, frame, captured, encoded, arrived) =>
      InsertOne(w.inFlight, frame, Partial(captured, encoded, arrived, None));
      EvictAccounts(w.(inFlight := w.inFlight[frame := Partial(captured, encoded, arrived, None)]));
    case Decoded(_, frame, at) =>
      if frame in w.inFlight {
        InsertOne(w.inFlight, frame, w.inFlight[frame].(decoded := Some(at)));
      }
    case Presented(_, frame, _, _) =>
      if frame in w.inFlight {
        RemoveOne(w.inFlight, frame);
      }
    case Dropped(_, frame) =>
      if frame in w.inFlight {
        RemoveOne(w.inFlight, frame);
      }
    case Forget(_) =>
  }

  lemma {:induction false} StepBounded(m: Monitor, e: Event)
    requires Bounded(m)
    ensures Bounded(Step(m, e).0)
  {
    WinStepAccounts(WinOf(m, e.window), e);
    forall id | id in Step(m, e).0.windows
      ensures |Step(m, e).0.windows[id].inFlight| <= MAX_IN_FLIGHT
    {
    }
  }

  /** An event acts on its own window alone. */
  lemma {:induction false} StepWindow(m: Monitor, e: Event, id: nat)
    ensures WinOf(Step(m, e).0, id) ==
            if e.window != id then WinOf(m, id)
            else if e.Forget? then Win(map[], 0, 0)
            else if id !in m.windows && !e.Arrival? then WinOf(m, id)
            else WinStep(WinOf(m, id), e)
  {
  }

  lemma {:induction false} StepAccounts(m: Monitor, e: Event, id: nat)
    requires |WinOf(m, id).inFlight| <= MAX_IN_FLIGHT
    ensures Accounted(Step(m, e).0, id) == Expected(m, id, e, Accounted(m, id))
  {
    StepWindow(m, e, id);
    WinStepAccounts(WinOf(m, id), e);
  }

  /** Arrivals of a window since it was last forgotten, a frame already in flight not counted again. */
  ghost function Arrivals(m: Monitor, id: nat, sofar: nat, es: seq<Event>): nat
    decreases |es|
  {
    if es == [] then sofar else Arrivals(Step(m, es[0]).0, id, Expected(m, id, es[0], sofar), es[1..])
  }

  /** Main result: over every run, whatever is decoded, presented, dropped or evicted and in whatever
      order, every arrival is presented, dropped or in flight, exactly once. */
  lemma {:induction false} FramesConserved(m: Monitor, id: nat, es: seq<Event>)
    requires Bounded(m)
    ensures Bounded(End(Step, m, es))
    ensures Accounted(End(Step, m, es), id) == Arrivals(m, id, Accounted(m, id), es)
    decreases |es|
  {
    if es != [] {
      StepBounded(m, es[0]);
      StepAccounts(m, es[0], id);
      FramesConserved(Step(m, es[0]).0, id, es[1..]);
    }
  }

  /** No frame id arrives twice on one window. */
  ghost predicate ArriveOnce(es: seq<Event>) {
    forall i, j :: 0 <= i < j < |es| && es[i].Arrival? && es[j].Arrival? && es[i].window == es[j].window ==>
      es[i].frame != es[j].frame
  }

  /** Arrival events of a window since it was last forgotten. */
  function Arrived(es: seq<Event>, id: nat): nat {
    if es == [] then 0
    else
      var before, e := Arrived(es[..|es| - 1], id), es[|es| - 1];
      if e.window != id then before else if e.Forget? then 0 else if e.Arrival? then before + 1 else before
  }

  ghost predicate HasArrived(es: seq<Event>, id: nat, frame: nat) {
    exists i :: 0 <= i < |es| && es[i].Arrival? && es[i].window == id && es[i].frame == frame
  }

  lemma {:induction false} InFlightStep(m: Monitor, e: Event, id: nat, frame: nat)
    requires frame in WinOf(Step(m, e).0, id).inFlight
    ensures frame in WinOf(m, id).inFlight || (e.Arrival? && e.window == id && e.frame == frame)
  {
    StepWindow(m, e, id);
  }

  /** Only frames that have arrived are in flight. */
  lemma {:induction false} InFlightArrived(es: seq<Event>, id: nat, frame: nat)
    requires frame in WinOf(End(Step, EMPTY, es), id).inFlight
    ensures HasArrived(es, id, frame)
    decreases |es|
  {
    if es != [] {
      var init, e := es[..|es| - 1], es[|es| - 1];
      assert es == init + [e];
      RunSnoc(Step, EMPTY, init, e);
      InFlightStep(End(Step, EMPTY, init), e, id, frame);
      ArrivedSnoc(init, e, id, frame);
      if !(e.Arrival? && e.window == id && e.frame == frame) {
        InFlightArrived(init, id, frame);
      }
    }
  }

  lemma {:induction false} ArrivedSnoc(es: seq<Event>, e: Event, id: nat, frame: nat)
    ensures HasArrived(es + [e], id, frame) <==>
            HasArrived(es, id, frame) || (e.Arrival? && e.window == id && e.frame == frame)
  {
    var all := es + [e];
    assert all[|es|] == e && forall i :: 0 <= i < |es| ==> all[i] == es[i];
  }

  /** When frame ids are not reused, the account is simply the number of arrivals: presented plus
      dropped plus in flight, at most 256 of the last. */
  lemma {:induction false} ArrivalsConserved(es: seq<Event>, id: nat)
    requires ArriveOnce(es)
    ensures var w := WinOf(End(Step, EMPTY, es), id);
            Arrived(es, id) == w.presented + w.dropped + |w.inFlight| && |w.inFlight| <= MAX_IN_FLIGHT
    decreases |es|
  {
    if es != [] {
      var init, e := es[..|es| - 1], es[|es| - 1];
      assert es == init + [e];
      ArrivalsConserved(init, id);
      var m := End(Step, EMPTY, init);
      RunSnoc(Step, EMPTY, init, e);
      StepAccounts(m, e, id);
      FramesConserved(EMPTY, id, es);
      if e.Arrival? && e.window == id && e.frame in WinOf(m, id).inFlight {
        InFlightArrived(init, id, e.frame);
        assert false;
      }
    }
  }

  // ---------------------------------------------------------------- which frame, which figures

  /** An arrival is always taken in; beyond 256 in flight it costs the frame with the smallest id, and only
      that one, which is counted as dropped. */
  lemma {:induction false} ArrivalExact(w: Win, frame: nat, p: Partial, e: Event)
    requires |w.inFlight| <= 256 && p.decoded.None? && e == Arrival(e.window, frame, p.captured, p.encoded, p.arrived)
    ensures var all := w.inFlight[frame := p];
            var w' := WinStep(w, e);
            && w'.presented == w.presented
            && (|all| <= 256 ==> w'.inFlight == all && w'.dropped == w.dropped)
            && (|all| > 256 ==>
                  && w'.dropped == w.dropped + 1
                  && exists k :: k in all && (forall j :: j in all ==> k <= j) && w'.inFlight == all - {k})
  {
    var all := w.inFlight[frame := p];
    if |all| > 256 {
      assert IsOldest(all, Oldest(all));
    }
  }

  /** What is known of a frame of a window from the events alone. */
  function Journey(es: seq<Event>, window: nat, frame: nat): Option<Partial> {
    if es == [] then None
    else
      var before, e := Journey(es[..|es| - 1], window, frame), es[|es| - 1];
      if e.window != window then before
      else if e.Forget? then None
      else if e.frame != frame then before
      else
        match e
        case Arrival(_, _, captured, encoded, arrived) => Some(Partial(captured, encoded, arrived, None))
        case Decoded(_, _, at) => if before.None? then None else Some(before.value.(decoded := Some(at)))
        case _ => None
  }

  lemma {:induction false} JourneyStep(m: Monitor, e: Event, window: nat, frame: nat, before: Option<Partial>)
    requires frame in WinOf(m, window).inFlight ==> before == Some(WinOf(m, window).inFlight[frame])
    requires frame in WinOf(Step(m, e).0, window).inFlight
    ensures Some(WinOf(Step(m, e).0, window).inFlight[frame]) ==
            if e.window != window then before
            else if e.Forget? then None
            else if e.frame != frame then before
            else
              match e
              case Arrival(_, _, captured, encoded, arrived) => Some(Partial(captured, encoded, arrived, None))
              case Decoded(_, _, at) => if before.None? then None else Some(before.value.(decoded := Some(at)))
              case _ => None
  {
    StepWindow(m, e, window);
  }

  /** What the monitor holds of a frame in flight is its own arrival and its own latest decode. */
  lemma {:induction false} InFlightIsJourney(es: seq<Event>, window: nat, frame: nat)
    ensures var w := WinOf(End(Step, EMPTY, es), window);
            frame in w.inFlight ==> Journey(es, window, frame) == Some(w.inFlight[frame])
    decreases |es|
  {
    if es != [] {
      var init, e := es[..|es| - 1], es[|es| - 1];
      assert es == init + [e];
      InFlightIsJourney(init, window, frame);
      RunSnoc(Step, EMPTY, init, e);
      var m := End(Step, EMPTY, init);
      if frame in WinOf(Step(m, e).0, window).inFlight {
        JourneyStep(m, e, window, frame, Journey(init, window, frame));
      }
    }
  }

  /** So a presented frame gets the figures of its own journey, or none if it is not in flight. */
  lemma {:induction false} PresentedExact(es: seq<Event>, window: nat, frame: nat, at: u64, offset: i64)
    ensures var m := End(Step, EMPTY, es);
            var journey := Journey(es, window, frame);
            Step(m, Presented(window, frame, at, offset)).1 ==
            if frame in WinOf(m, window).inFlight && journey.Some?
            then Some(StagesOf(journey.value, at, offset)) else None
  {
    InFlightIsJourney(es, window, frame);
  }

  /** Frames of a window presented since it was last forgotten, going by the figures handed out. */
  ghost function Shown(m: Monitor, id: nat, sofar: nat, es: seq<Event>): nat
    decreases |es|
  {
    if es == [] then sofar
    else
      var (m1, s) := Step(m, es[0]);
      Shown(m1, id, if es[0].window != id then sofar else if es[0].Forget? then 0
                    else if s.Some? then sofar + 1 else sofar, es[1..])
  }

  lemma {:induction false} StepPresented(m: Monitor, e: Event, id: nat)
    ensures var (m1, s) := Step(m, e);
            WinOf(m1, id).presented ==
            if e.window != id then WinOf(m, id).presented else if e.Forget? then 0
            else WinOf(m, id).presented + if s.Some? then 1 else 0
  {
    StepWindow(m, e, id);
  }

  /** The count of presented frames is just that, so by conservation the other count is of those dropped. */
  lemma {:induction false} PresentedCounted(m: Monitor, id: nat, es: seq<Event>)
    ensures WinOf(End(Step, m, es), id).presented == Shown(m, id, WinOf(m, id).presented, es)
    decreases |es|
  {
    if es != [] {
      StepPresented(m, es[0], id);
      PresentedCounted(Step(m, es[0]).0, id, es[1..]);
    }
  }

  /** Everything completed in a run, in order. */
  ghost function AllCompleted(m: Monitor, es: seq<Event>): seq<Completed>
    decreases |es|
  {
    if es == [] then []
    else
      var (m1, s) := Step(m, es[0]);
      (if s.Some? && es[0].Presented? then [Completed(es[0].window, es[0].frame, es[0].at, s.value)] else []) +
      AllCompleted(m1, es[1..])
  }

  lemma {:induction false} StepTimeline(m: Monitor, e: Event)
    requires |m.timeline| <= SAMPLE_WINDOW
    ensures var (m1, s) := Step(m, e);
            var one := if s.Some? && e.Presented? then [Completed(e.window, e.frame, e.at, s.value)] else [];
            m1.timeline == LastN(m.timeline + one, SAMPLE_WINDOW)
  {
    assert m.timeline + [] == m.timeline;
  }

  /** The timeline is the last 2048 frames completed, in order, whatever was forgotten. */
  lemma {:induction false} TimelineIsLatest(m: Monitor, es: seq<Event>)
    requires |m.timeline| <= SAMPLE_WINDOW
    ensures End(Step, m, es).timeline == LastN(m.timeline + AllCompleted(m, es), SAMPLE_WINDOW)
    decreases |es|
  {
    if es == [] {
      assert m.timeline + [] == m.timeline;
    } else {
      var e := es[0];
      var (m1, s) := Step(m, e);
      var one := if s.Some? && e.Presented? then [Completed(e.window, e.frame, e.at, s.value)] else [];
      var rest := AllCompleted(m1, es[1..]);
      StepTimeline(m, e);
      TimelineIsLatest(m1, es[1..]);
      LastNAgain(m.timeline + one, rest, SAMPLE_WINDOW);
      Assoc(m.timeline, one, rest);
    }
  }

  function Finished(outs: seq<Option<Stages>>): nat {
    if outs == [] then 0 else (if outs[0].Some? then 1 else 0) + Finished(outs[1..])
  }

  /** The timeline and its eviction count together account for every frame ever presented, forgotten
      windows included. */
  lemma {:induction false} TimelineConserved(m: Monitor, es: seq<Event>)
    ensures var m' := End(Step, m, es);
            |m'.timeline| + m'.evicted == |m.timeline| + m.evicted + Finished(Outs(Step, m, es))
    decreases |es|
  {
    if es != [] {
      var m1 := Step(m, es[0]).0;
      TimelineConserved(m1, es[1..]);
      assert Outs(Step, m, es)[1..] == Outs(Step, m1, es[1..]);
    }
  }

  // ---------------------------------------------------------------- the object

  class LatencyMonitor {
    const enabled: bool
    var windows: map<nat, Win>
    var timeline: seq<Completed>
    var timelineEvicted: nat

    ghost function Value(): Monitor
      reads this
    {
      Monitor(windows, timeline, timelineEvicted)
    }

    constructor (enabled: bool)
      ensures Value() == EMPTY && Bounded(Value()) && this.enabled == enabled
    {
      this.enabled := enabled;
      windows, timeline, timelineEvicted := map[], [], 0;
    }

    method OnArrival(id: nat, frame: nat, captured: u64, encoded: u64, arrived: u64)
      requires Bounded(Value())
      modifies this
      ensures Bounded(Value())
      ensures Value() == if enabled then Step(old(Value()), Arrival(id, frame, captured, encoded, arrived)).0
                         else old(Value())
    {
      if !enabled {
        return;
      }
      StepBounded(Value(), Arrival(id, frame, captured, encoded, arrived));
      var w := if id in windows then windows[id] else Win(map[], 0, 0);
      InsertOne(w.inFlight, frame, Partial(captured, encoded, arrived, None));
      w := w.(inFlight := w.inFlight[frame := Partial(captured, encoded, arrived, None)]);
      w := EvictOldest(w);
      windows := windows[id := w];
    }

    method OnDecoded(id: nat, frame: nat, at: u64)
      modifies this
      ensures Value() == if enabled then Step(old(Value()), Decoded(id, frame, at)).0 else old(Value())
    {
      if enabled && id in windows {
        var w := windows[id];
        if frame in w.inFlight {
          w := w.(inFlight := w.inFlight[frame := w.inFlight[frame].(decoded := Some(at))]);
        }
        windows := windows[id := w];
      }
    }

    method OnPresented(id: nat, frame: nat, at: u64, offset: i64) returns (stages: Option<Stages>)
      modifies this
      ensures (Value(), stages) ==
              if enabled then Step(old(Value()), Presented(id, frame, at, offset)) else (old(Value()), None)
    {
      if !enabled || id !in windows {
        return None;
      }
      var w := windows[id];
      if frame !in w.inFlight {
        windows := windows[id := w];
        return None;
      }
      var s := StagesOf(w.inFlight[frame], at, offset);
      windows := windows[id := w.(inFlight := w.inFlight - {frame}, presented := w.presented + 1)];
      if |timeline| == SAMPLE_WINDOW {
        timeline := timeline[1..];
        timelineEvicted := timelineEvicted + 1;
      }
      timeline := timeline + [Completed(id, frame, at, s)];
      stages := Some(s);
    }

    method OnDropped(id: nat, frame: nat)
      modifies this
      ensures Value() == if enabled then Step(old(Value()), Dropped(id, frame)).0 else old(Value())
    {
      if enabled && id in windows {
        var w := windows[id];
        if frame in w.inFlight {
          w := w.(inFlight := w.inFlight - {frame}, dropped := w.dropped + 1);
        }
        windows := windows[id := w];
      }
    }

    method OnForget(id: nat)
      modifies this
      ensures Value() == Step(old(Value()), Forget(id)).0
    {
      windows := windows - {id};
    }
  }

  /** The eviction loop; it removes at most one frame because at most one was added. */
  method EvictOldest(w: Win) returns (v: Win)
    requires |w.inFlight| <= MAX_IN_FLIGHT + 1
    ensures v == Evict(w)
  {
    v := w;
    while |v.inFlight| > MAX_IN_FLIGHT
      invariant v == w || v == Evict(w)
      invariant |v.inFlight| <= MAX_IN_FLIGHT ==> v == Evict(w)
      decreases |v.inFlight|
    {
      var oldest := FindOldest(v.inFlight);
      EvictAccounts(w);
      OldestUnique(v.inFlight, oldest);
      RemoveOne(v.inFlight, oldest);
      v := v.(inFlight := v.inFlight - {oldest}, dropped := v.dropped + 1);
    }
  }

  lemma {:induction false} OldestUnique(m: map<nat, Partial>, id: nat)
    requires IsOldest(m, id) && |m| > 0
    ensures Oldest(m) == id
  {
  }

  method FindOldest(m: map<nat, Partial>) returns (id: nat)
    requires |m| > 0
    ensures IsOldest(m, id)
  {
    var todo := m.Keys;
    var first: nat :| first in m;
    id := first;
    todo := todo - {first};
    while exists k :: k in todo
      invariant id in m && todo <= m.Keys
      invariant forall k :: k in m && k !in todo ==> id <= k
      decreases |todo|
    {
      var k: nat :| k in todo;
      if k < id {
        id := k;
      }
      todo := todo - {k};
    }
  }
}
