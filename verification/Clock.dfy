/** Clock-offset estimation from ping/pong exchanges (crates/oxproto/src/latency.rs, `ClockSync`;
    crates/oxclient/src/session.rs, `OffsetEstimate`). Times are whole microseconds. */
module Clock {
  import opened Prelude
  import opened Runs
  import opened Samples

  const OFFSET_CANDIDATES := 64
  const CLOCK_DRIFT_PPM := 100

  /** The exchange the current offset came from. */
  datatype Applied = Applied(sent: u64, rtt: u64, offset: int)

  datatype Sample = Sample(rtt: u64, offset: int, takenAt: u64)

  /** Pings awaiting an answer, the current offset, and the candidate samples, oldest first. */
  datatype Est = Est(pending: map<nat, u64>, applied: Option<Applied>, recent: seq<Sample>)

  const EMPTY: Est := Est(map[], None, [])

  function ClampI64(v: int): int {
    if v < -0x8000_0000_0000_0000 then -0x8000_0000_0000_0000
    else if v > 0x7FFF_FFFF_FFFF_FFFF then 0x7FFF_FFFF_FFFF_FFFF else v
  }

  /** Agent reading minus the midpoint of the exchange. */
  function OffsetOf(sent: u64, agent: u64, now: u64): int {
    ClampI64(agent - SatAdd(sent, SatSub(now, sent) / 2))
  }

  /** A pong: unknown sequence numbers are ignored; an answer to a ping older than the one applied
      records its round trip but leaves the offset alone. */
  function Answered(e: Est, num: nat, agent: u64, now: u64): (Est, Option<u64>) {
    if num !in e.pending then (e, None)
    else
      var sent := e.pending[num];
      var rtt := SatSub(now, sent);
      var applied := if e.applied.None? || sent >= e.applied.value.sent
                     then Applied(sent, rtt, OffsetOf(sent, agent, now)) else e.applied.value;
      (Est(e.pending - {num}, Some(applied), PushSample(e.recent, Sample(rtt, applied.offset, now))), Some(rtt))
  }

  function PushSample(recent: seq<Sample>, s: Sample): seq<Sample> {
    (if |recent| >= OFFSET_CANDIDATES then recent[1..] else recent) + [s]
  }

  function SatMul(a: u64, b: u64): u64 {
    if a * b > U64_MAX then U64_MAX else a * b
  }

  /** Half the round trip, plus what the clocks may have drifted since. */
  function ErrorBound(s: Sample, now: u64): nat {
    s.rtt / 2 + SatMul(SatSub(now, s.takenAt), CLOCK_DRIFT_PPM) / 1_000_000
  }

  function Best(recent: seq<Sample>, now: u64): Option<Sample> {
    if recent == [] then None
    else
      var rest := Best(recent[1..], now);
      if rest.None? || ErrorBound(recent[0], now) <= ErrorBound(rest.value, now) then Some(recent[0]) else rest
  }

  lemma {:induction false} BestIsSmallest(recent: seq<Sample>, now: u64)
    ensures Best(recent, now).None? <==> recent == []
    ensures Best(recent, now).Some? ==>
              && Best(recent, now).value in recent
              && forall s :: s in recent ==> ErrorBound(Best(recent, now).value, now) <= ErrorBound(s, now)
  {
    if recent != [] {
      BestIsSmallest(recent[1..], now);
      assert forall s :: s in recent <==> s == recent[0] || s in recent[1..];
    }
  }

  /** Among equally good ones, the oldest is chosen. */
  lemma {:induction false} BestIsFirst(recent: seq<Sample>, now: u64)
    requires recent != []
    ensures exists i :: 0 <= i < |recent| && Best(recent, now) == Some(recent[i])
                        && forall j :: 0 <= j < i ==> ErrorBound(recent[j], now) > ErrorBound(recent[i], now)
  {
    BestIsSmallest(recent, now);
    if |recent| == 1 || ErrorBound(recent[0], now) <= ErrorBound(Best(recent[1..], now).value, now) {
      assert Best(recent, now) == Some(recent[0]);
    } else {
      BestIsFirst(recent[1..], now);
      var i :| 0 <= i < |recent[1..]| && Best(recent[1..], now) == Some(recent[1..][i])
               && forall j :: 0 <= j < i ==> ErrorBound(recent[1..][j], now) > ErrorBound(recent[1..][i], now);
      forall j | 0 <= j < i + 1
        ensures ErrorBound(recent[j], now) > ErrorBound(recent[i + 1], now)
      {
        if j > 0 {
          assert recent[j] == recent[1..][j - 1];
        }
      }
      assert Best(recent, now) == Some(recent[i + 1]);
    }
  }

  /** The stated bound is half the round trip plus 100 parts per million of the sample's age, short of it
      by less than the two roundings. */
  lemma {:induction false} ErrorBoundTight(s: Sample, now: u64)
    requires s.takenAt <= now && (now - s.takenAt) * CLOCK_DRIFT_PPM <= U64_MAX
    ensures var exact := s.rtt as real / 2.0 + (now - s.takenAt) as real / 10_000.0;
            ErrorBound(s, now) as real <= exact < ErrorBound(s, now) as real + 2.0
  {
    var age: int := now - s.takenAt;
    var drift := age * 100 / 1_000_000;
    assert drift * 1_000_000 <= age * 100 < (drift + 1) * 1_000_000;
    assert drift as real <= age as real / 10_000.0 < drift as real + 1.0;
    var half: int := s.rtt / 2;
    assert 2 * half <= s.rtt <= 2 * half + 1;
    assert half as real <= s.rtt as real / 2.0 <= half as real + 0.5;
    assert ErrorBound(s, now) == half + drift;
  }

  // ---------------------------------------------------------------- one exchange

  function Abs(v: int): nat {
    if v < 0 then -v else v
  }

  /** The agent read its clock at client time `stamp`, when it was `theta` ahead. */
  predicate Exchange(sent: u64, stamp: int, now: u64, agent: u64, theta: int) {
    sent <= stamp <= now && agent == stamp + theta
  }

  /** The offset is not so large that the 64-bit clamp bites. */
  predicate Unclamped(sent: u64, agent: u64, now: u64) {
    ClampI64(agent - SatAdd(sent, SatSub(now, sent) / 2)) == agent - SatAdd(sent, SatSub(now, sent) / 2)
  }

  /** However unequal the two directions, the offset is wrong by at most half the round trip, rounded
      up. */
  lemma {:induction false} OffsetWithinHalfTrip(sent: u64, stamp: int, now: u64, agent: u64, theta: int)
    requires Exchange(sent, stamp, now, agent, theta) && Unclamped(sent, agent, now)
    ensures Abs(OffsetOf(sent, agent, now) - theta) <= (now - sent + 1) / 2
  {
  }

  /** The bound the code reports rounds down instead, and is exceeded exactly when the round trip is
      odd and the agent stamped at the very moment the answer arrived. */
  lemma {:induction false} ReportedBoundExact(sent: u64, stamp: int, now: u64, agent: u64, theta: int)
    requires Exchange(sent, stamp, now, agent, theta) && Unclamped(sent, agent, now)
    ensures Abs(OffsetOf(sent, agent, now) - theta) <= SatSub(now, sent) / 2 <==>
            !((now - sent) % 2 == 1 && stamp == now)
  {
  }

  lemma {:induction false} ReportedBoundExceeded()
    ensures Exchange(0, 1, 1, 1, 0) && Abs(OffsetOf(0, 1, 1) - 0) > SatSub(1, 0) / 2
  {
  }

  // ---------------------------------------------------------------- whole sessions

  /** Agent clock minus client clock, as it really is at each client time. */
  type Truth = int -> real

  function AbsReal(v: real): real {
    if v < 0.0 then -v else v
  }

  /** The clocks drift apart by at most 100 parts per million. */
  ghost predicate Steady(truth: Truth) {
    forall a: int, b: int :: a <= b ==> AbsReal(truth(b) - truth(a)) <= (b - a) as real / 10_000.0
  }

  datatype Event = PingSent(num: nat, sent: u64) | PongArrived(num: nat, agent: u64, now: u64, stamp: int)

  function Step(e: Est, ev: Event): (Est, Option<u64>) {
    match ev
    case PingSent(num, sent) => (e.(pending := e.pending[num := sent]), None)
    case PongArrived(num, agent, now, _) => Answered(e, num, agent, now)
  }

  function TimeOf(ev: Event): int {
    if ev.PingSent? then ev.sent else ev.now
  }

  /** A pong is genuine: stamped during its exchange, through which the offset held still, and not
      clamped. Events come in time order; pongs may come in any order. */
  ghost predicate Genuine(truth: Truth, e: Est, ev: Event, latest: int) {
    && latest <= TimeOf(ev)
    && (ev.PongArrived? && ev.num in e.pending ==>
          var sent := e.pending[ev.num];
          && sent <= ev.stamp <= ev.now
          && ev.agent as real == ev.stamp as real + truth(ev.stamp)
          && truth(ev.now) == truth(ev.stamp)
          && Unclamped(sent, ev.agent, ev.now))
  }

  ghost predicate AllGenuine(truth: Truth, e: Est, evs: seq<Event>, latest: int)
    decreases |evs|
  {
    evs != [] ==>
      Genuine(truth, e, evs[0], latest) && AllGenuine(truth, Step(e, evs[0]).0, evs[1..], TimeOf(evs[0]))
  }

  /** Half the round trip, in real terms, with half a microsecond for the rounded midpoint. */
  ghost predicate Sound(truth: Truth, rtt: u64, offset: int, at: int) {
    AbsReal(offset as real - truth(at)) <= rtt as real / 2.0 + 0.5
  }

  ghost predicate SoundEst(truth: Truth, e: Est, latest: int) {
    && (forall num :: num in e.pending ==> e.pending[num] <= latest)
    && SoundApplied(truth, e.applied, latest)
    && SoundSamples(truth, e.recent, latest)
  }

  lemma {:induction false} ExchangeSound(truth: Truth, sent: u64, stamp: int, now: u64, agent: u64)
    requires sent <= stamp <= now && Unclamped(sent, agent, now)
    requires agent as real == stamp as real + truth(stamp) && truth(now) == truth(stamp)
    ensures Sound(truth, SatSub(now, sent), OffsetOf(sent, agent, now), now)
  {
    var rtt := now - sent;
    var mid := sent + rtt / 2;
    assert OffsetOf(sent, agent, now) == agent - mid;
    assert (agent - mid) as real - truth(now) == (stamp - mid) as real;
    assert 2 * (stamp - mid) <= rtt + 1 && 2 * (mid - stamp) <= rtt + 1;
  }

  /** An answer to an older ping took at least as long as the time since the applied exchange ended, so
      reusing that exchange's offset is covered by its own, larger round trip. */
  lemma {:induction false} StaleSound(truth: Truth, a: Applied, sent: u64, now: u64)
    requires Steady(truth) && sent < a.sent && a.sent + a.rtt <= now
    requires Sound(truth, a.rtt, a.offset, a.sent + a.rtt)
    ensures Sound(truth, SatSub(now, sent), a.offset, now)
  {
    var ended := a.sent + a.rtt;
    var d := (now - ended) as real;
    assert AbsReal(truth(now) - truth(ended)) <= d / 10_000.0;
    assert (now - sent) as real >= a.rtt as real + d;
  }

  ghost predicate SoundSamples(truth: Truth, recent: seq<Sample>, latest: int) {
    forall i :: 0 <= i < |recent| ==>
      recent[i].takenAt <= latest && Sound(truth, recent[i].rtt, recent[i].offset, recent[i].takenAt)
  }

  lemma {:induction false} PushSound(truth: Truth, recent: seq<Sample>, s: Sample, latest: int)
    requires SoundSamples(truth, recent, latest) && latest <= s.takenAt
    requires Sound(truth, s.rtt, s.offset, s.takenAt)
    ensures SoundSamples(truth, PushSample(recent, s), s.takenAt)
  {
  }

  ghost predicate SoundApplied(truth: Truth, a: Option<Applied>, latest: int) {
    a.Some? ==>
      a.value.sent + a.value.rtt <= latest && Sound(truth, a.value.rtt, a.value.offset, a.value.sent + a.value.rtt)
  }

  lemma {:induction false} PongSound(truth: Truth, e: Est, ev: Event, latest: int)
    requires Steady(truth) && SoundApplied(truth, e.applied, latest) && Genuine(truth, e, ev, latest)
    requires ev.PongArrived? && ev.num in e.pending
    ensures var a := Step(e, ev).0.applied;
            && SoundApplied(truth, a, ev.now)
            && Sound(truth, SatSub(ev.now, e.pending[ev.num]), a.value.offset, ev.now)
  {
    var sent := e.pending[ev.num];
    if e.applied.None? || sent >= e.applied.value.sent {
      ExchangeSound(truth, sent, ev.stamp, ev.now, ev.agent);
      assert sent + SatSub(ev.now, sent) == ev.now;
    } else {
      StaleSound(truth, e.applied.value, sent, ev.now);
    }
  }

  lemma {:induction false} StepSound(truth: Truth, e: Est, ev: Event, latest: int)
    requires Steady(truth) && SoundEst(truth, e, latest) && Genuine(truth, e, ev, latest)
    ensures SoundEst(truth, Step(e, ev).0, TimeOf(ev))
  {
    if ev.PongArrived? && ev.num in e.pending {
      PongSound(truth, e, ev, latest);
      var a := Step(e, ev).0.applied.value;
      PushSound(truth, e.recent, Sample(SatSub(ev.now, e.pending[ev.num]), a.offset, ev.now), latest);
    }
  }

  function LastTime(evs: seq<Event>, latest: int): int {
    if evs == [] then latest else LastTime(evs[1..], TimeOf(evs[0]))
  }

  lemma {:induction false} RunSound(truth: Truth, e: Est, evs: seq<Event>, latest: int)
    requires Steady(truth) && SoundEst(truth, e, latest) && AllGenuine(truth, e, evs, latest)
    ensures SoundEst(truth, End(Step, e, evs), LastTime(evs, latest))
    decreases |evs|
  {
    if evs != [] {
      StepSound(truth, e, evs[0], latest);
      RunSound(truth, Step(e, evs[0]).0, evs[1..], TimeOf(evs[0]));
    }
  }

  /** A sound sample used later is within its stated bound plus two microseconds of truncation. */
  lemma {:induction false} SampleWithinBound(truth: Truth, s: Sample, now: u64)
    requires Steady(truth) && s.takenAt <= now && Sound(truth, s.rtt, s.offset, s.takenAt)
    requires (now - s.takenAt) * CLOCK_DRIFT_PPM <= U64_MAX
    ensures AbsReal(s.offset as real - truth(now)) <= ErrorBound(s, now) as real + 2.0
  {
    var age := now - s.takenAt;
    assert AbsReal(truth(now) - truth(s.takenAt)) <= age as real / 10_000.0;
    var drift := age * CLOCK_DRIFT_PPM / 1_000_000;
    assert age * 100 < (drift + 1) * 1_000_000;
    assert age as real / 10_000.0 <= drift as real + 1.0;
    assert s.rtt as real / 2.0 <= (s.rtt / 2) as real + 0.5;
  }

  /** Main result: after any run of pings and genuine pongs, in whatever order the pongs came, the
      sample chosen is within its stated bound plus 2 us, and no candidate has a smaller bound. */
  lemma {:induction false} EstimateWithinBound(truth: Truth, evs: seq<Event>, start: int, now: u64)
    requires Steady(truth) && AllGenuine(truth, EMPTY, evs, start)
    requires var e := End(Step, EMPTY, evs);
             forall s :: s in e.recent ==> s.takenAt <= now && (now - s.takenAt) * CLOCK_DRIFT_PPM <= U64_MAX
    ensures var e := End(Step, EMPTY, evs);
            var best := Best(e.recent, now);
            best.Some? ==>
              && AbsReal(best.value.offset as real - truth(now)) <= ErrorBound(best.value, now) as real + 2.0
              && best.value in e.recent
              && forall s :: s in e.recent ==> ErrorBound(best.value, now) <= ErrorBound(s, now)
  {
    var e := End(Step, EMPTY, evs);
    RunSound(truth, EMPTY, evs, start);
    BestIsSmallest(e.recent, now);
    if Best(e.recent, now).Some? {
      SampleWithinBound(truth, Best(e.recent, now).value, now);
    }
  }

  // ---------------------------------------------------------------- what is kept

  /** The sample an event adds: the round trip of the ping it answers, the offset then current, the time. */
  function SampleOf(e: Est, ev: Event): seq<Sample> {
    if ev.PongArrived? && ev.num in e.pending
    then [Sample(SatSub(ev.now, e.pending[ev.num]), Step(e, ev).0.applied.value.offset, ev.now)]
    else []
  }

  function AllSamples(e: Est, evs: seq<Event>): seq<Sample>
    decreases |evs|
  {
    if evs == [] then [] else SampleOf(e, evs[0]) + AllSamples(Step(e, evs[0]).0, evs[1..])
  }

  lemma {:induction false} StepRecent(e: Est, ev: Event)
    requires |e.recent| <= 64
    ensures Step(e, ev).0.recent == LastN(e.recent + SampleOf(e, ev), 64)
  {
    assert e.recent + [] == e.recent;
  }

  /** After any run the candidates are the samples of the last 64 answered pings, in order. */
  lemma {:induction false} RecentExact(e: Est, evs: seq<Event>)
    requires |e.recent| <= 64
    ensures End(Step, e, evs).recent == LastN(e.recent + AllSamples(e, evs), 64)
    decreases |evs|
  {
    if evs == [] {
      assert e.recent + [] == e.recent;
    } else {
      var e1, rest := Step(e, evs[0]).0, AllSamples(Step(e, evs[0]).0, evs[1..]);
      StepRecent(e, evs[0]);
      RecentExact(e1, evs[1..]);
      LastNAgain(e.recent + SampleOf(e, evs[0]), rest, 64);
      Assoc(e.recent, SampleOf(e, evs[0]), rest);
    }
  }

  /** The exchanges completed in a run: each ping's send time with its answer. */
  datatype Exchanged = Exchanged(sent: u64, agent: u64, now: u64)

  function ExchangeOf(e: Est, ev: Event): seq<Exchanged> {
    if ev.PongArrived? && ev.num in e.pending then [Exchanged(e.pending[ev.num], ev.agent, ev.now)] else []
  }

  function Exchanges(e: Est, evs: seq<Event>): seq<Exchanged>
    decreases |evs|
  {
    if evs == [] then [] else ExchangeOf(e, evs[0]) + Exchanges(Step(e, evs[0]).0, evs[1..])
  }

  /** The offset comes from the exchange whose ping was sent last; one answered late leaves it alone. */
  ghost predicate FromNewest(a: Option<Applied>, xs: seq<Exchanged>) {
    && (a.None? <==> xs == [])
    && (a.Some? ==> exists i :: 0 <= i < |xs| && FromExchange(a.value, xs, i))
  }

  /** The `i`-th exchange: none was sent later, and of those sent at the same time none was answered later. */
  ghost predicate FromExchange(a: Applied, xs: seq<Exchanged>, i: nat)
    requires i < |xs|
  {
    && a == Applied(xs[i].sent, SatSub(xs[i].now, xs[i].sent), OffsetOf(xs[i].sent, xs[i].agent, xs[i].now))
    && (forall j :: 0 <= j < i ==> xs[j].sent <= xs[i].sent)
    && (forall j :: i < j < |xs| ==> xs[j].sent < xs[i].sent)
  }

  lemma {:induction false} AnsweredNewest(a: Option<Applied>, xs: seq<Exchanged>, x: Exchanged)
    requires FromNewest(a, xs)
    ensures var mine := Applied(x.sent, SatSub(x.now, x.sent), OffsetOf(x.sent, x.agent, x.now));
            FromNewest(Some(if a.None? || x.sent >= a.value.sent then mine else a.value), xs + [x])
  {
    var all := xs + [x];
    var mine := Applied(x.sent, SatSub(x.now, x.sent), OffsetOf(x.sent, x.agent, x.now));
    if a.None? {
      assert FromExchange(mine, all, |xs|);
    } else {
      var i :| 0 <= i < |xs| && FromExchange(a.value, xs, i);
      if x.sent >= a.value.sent {
        assert FromExchange(mine, all, |xs|);
      } else {
        assert FromExchange(a.value, all, i);
      }
    }
  }

  lemma {:induction false} AppliedNewest(e: Est, xs: seq<Exchanged>, evs: seq<Event>)
    requires FromNewest(e.applied, xs)
    ensures FromNewest(End(Step, e, evs).applied, xs + Exchanges(e, evs))
    decreases |evs|
  {
    if evs == [] {
      assert xs + [] == xs;
    } else {
      var ev, e1 := evs[0], Step(e, evs[0]).0;
      var one := ExchangeOf(e, ev);
      if one != [] {
        AnsweredNewest(e.applied, xs, one[0]);
        assert xs + one == xs + [one[0]];
      } else {
        assert xs + one == xs;
      }
      AppliedNewest(e1, xs + one, evs[1..]);
      Assoc(xs, one, Exchanges(e1, evs[1..]));
    }
  }

  // ---------------------------------------------------------------- numbers and answers

  lemma {:induction false} StillPending(e: Est, num: nat, evs: seq<Event>)
    requires num in e.pending && forall i :: 0 <= i < |evs| ==> evs[i].num != num
    ensures num in End(Step, e, evs).pending && End(Step, e, evs).pending[num] == e.pending[num]
    decreases |evs|
  {
    if evs != [] {
      StillPending(Step(e, evs[0]).0, num, evs[1..]);
    }
  }

  /** A ping is answered once: whatever other pings and pongs come in between, the first pong with its
      number is measured from the moment it was sent, and a second one is ignored. */
  lemma {:induction false} PingAnswered(e: Est, num: nat, sent: u64, evs: seq<Event>, agent: u64, now: u64)
    requires forall i :: 0 <= i < |evs| ==> evs[i].num != num
    ensures var (after, trip) := Answered(End(Step, Step(e, PingSent(num, sent)).0, evs), num, agent, now);
            && trip == Some(SatSub(now, sent))
            && forall agent', now' :: Answered(after, num, agent', now') == (after, None)
  {
    StillPending(Step(e, PingSent(num, sent)).0, num, evs);
  }

  // ---------------------------------------------------------------- the objects

  class ClockSync {
    var pending: map<nat, u64>
    const rtt: SampleRing
    var offset: Option<int>
    var offsetRtt: Option<u64>
    var appliedSent: Option<u64>

    /** The three options are set together. */
    ghost predicate Valid()
      reads this, rtt
    {
      rtt.Valid() && (offset.Some? <==> offsetRtt.Some?) && (offset.Some? <==> appliedSent.Some?)
    }

    ghost function Value(): Option<Applied>
      reads this
    {
      if offset.None? || offsetRtt.None? || appliedSent.None? then None
      else Some(Applied(appliedSent.value, offsetRtt.value, offset.value))
    }

    constructor (window: nat)
      ensures Valid() && Value() == None && pending == map[] && fresh(rtt)
      ensures rtt.View() == [] && rtt.capacity == Max(window, 1)
    {
      rtt := new SampleRing(window);
      pending, offset, offsetRtt, appliedSent := map[], None, None, None;
    }

    /** A ping sent is a step of the run the theorems are about; `PingAnswered` says what it is for. */
    method OnPingSent(num: nat, sent: u64)
      requires Valid()
      modifies this`pending
      ensures Valid()
      ensures Est(pending, Value(), []) == Step(Est(old(pending), old(Value()), []), PingSent(num, sent)).0
    {
      pending := pending[num := sent];
    }

    /** Every answer to a ping is one more round trip in the window of samples, also where the offset is
        left alone. */
    method OnPong(num: nat, agent: u64, now: u64) returns (trip: Option<u64>)
      requires Valid()
      modifies this, rtt
      ensures Valid() && trip == Answered(Est(old(pending), old(Value()), []), num, agent, now).1
      ensures var e := Answered(Est(old(pending), old(Value()), []), num, agent, now).0;
              pending == e.pending && Value() == e.applied
      ensures rtt.View() ==
              if trip.Some? then LastN(old(rtt.View()) + [trip.value], rtt.capacity) else old(rtt.View())
    {
      if num !in pending {
        return None;
      }
      var sent := pending[num];
      pending := pending - {num};
      var elapsed := SatSub(now, sent);
      rtt.Push(elapsed);
      TakeOver(sent, agent, now);
      trip := Some(elapsed);
    }

    /** The offset moves on to this exchange unless it comes from a ping sent later. */
    method TakeOver(sent: u64, agent: u64, now: u64)
      requires Valid()
      modifies `offset, `offsetRtt, `appliedSent
      ensures Valid()
      ensures Value() == if old(Value()).None? || sent >= old(Value()).value.sent
                         then Some(Applied(sent, SatSub(now, sent), OffsetOf(sent, agent, now))) else old(Value())
    {
      if appliedSent.None? || sent >= appliedSent.value {
        var elapsed := SatSub(now, sent);
        var midpoint := SatAdd(sent, elapsed / 2);
        offset := Some(ClampI64(agent - midpoint));
        offsetRtt := Some(elapsed);
        appliedSent := Some(sent);
      }
    }
  }

  class OffsetEstimate {
    var recent: seq<Sample>

    constructor ()
      ensures recent == []
    {
      recent := [];
    }

    method Push(s: Sample)
      modifies this
      ensures recent == PushSample(old(recent), s)
      ensures old(|recent|) <= OFFSET_CANDIDATES ==> |recent| <= OFFSET_CANDIDATES
    {
      if |recent| >= OFFSET_CANDIDATES {
        recent := recent[1..];
      }
      recent := recent + [s];
    }

    /** The first candidate with the smallest bound. */
    method BestAt(now: u64) returns (best: Option<Sample>)
      ensures best == Best(recent, now)
    {
      best := None;
      var i := |recent|;
      while i > 0
        invariant 0 <= i <= |recent| && best == Best(recent[i..], now)
      {
        i := i - 1;
        assert recent[i..][1..] == recent[i + 1..];
        if best.None? || ErrorBound(recent[i], now) <= ErrorBound(best.value, now) {
          best := Some(recent[i]);
        }
      }
      assert recent[0..] == recent;
    }
  }

  /** What the session does with a pong: the estimator's offset, whichever exchange it came from, goes
      into the candidates with this exchange's round trip. */
  method PongArm(clock: ClockSync, offsets: OffsetEstimate, num: nat, agent: u64, now: u64)
    requires clock.Valid()
    modifies clock, clock.rtt, offsets
    ensures clock.Valid()
    ensures Est(clock.pending, clock.Value(), offsets.recent) ==
            Answered(Est(old(clock.pending), old(clock.Value()), old(offsets.recent)), num, agent, now).0
  {
    var trip := clock.OnPong(num, agent, now);
    if trip.Some? && clock.offset.Some? {
      offsets.Push(Sample(trip.value, clock.offset.value, now));
    }
  }
}
