/** Whole runs of the receiver: channels do not disturb one another, and interleaved fragments are
    delivered exactly (crates/oxproto/src/envelope.rs). */
module Interleaving {
  import opened Prelude
  import opened Envelope
  import opened Runs

  function OnChannel(cs: seq<Chunk>, ch: u16): seq<Chunk> {
    if cs == [] then []
    else (if cs[0].header.channel == ch then [cs[0]] else []) + OnChannel(cs[1..], ch)
  }

  /** Outcomes line up with chunks; these are the ones of channel `ch`. */
  function OutcomesOn(cs: seq<Chunk>, os: seq<Outcome>, ch: u16): seq<Outcome>
    requires |cs| == |os|
  {
    if cs == [] then []
    else (if cs[0].header.channel == ch then [os[0]] else []) + OutcomesOn(cs[1..], os[1..], ch)
  }

  function Delivered(os: seq<Outcome>): seq<Message> {
    if os == [] then []
    else (if os[0].Complete? then [os[0].message] else []) + Delivered(os[1..])
  }

  predicate IsCapError(o: Outcome) {
    o == Rejected(TooManyChannels) || o == Rejected(TooManyBytes)
  }

  ghost predicate CapFree(os: seq<Outcome>) {
    forall i :: 0 <= i < |os| ==> !IsCapError(os[i])
  }

  ghost predicate NoneRejected(os: seq<Outcome>) {
    forall i :: 0 <= i < |os| ==> !os[i].Rejected?
  }

  // ---------------------------------------------------------------- bounds over every run

  /** Every chunk sequence whatsoever, errors included, leaves the receiver within all its caps and
      delivers only messages within their own type's limit. */
  lemma {:induction false} EveryRunBounded(m: Lanes, cs: seq<Chunk>)
    requires Bounded(m)
    ensures Bounded(End(Push, m, cs))
    ensures forall x :: x in Delivered(Outs(Push, m, cs)) ==> WithinLimit(x)
    decreases |cs|
  {
    if cs != [] {
      PushBounded(m, cs[0]);
      var m1 := Push(m, cs[0]).0;
      EveryRunBounded(m1, cs[1..]);
      assert Outs(Push, m, cs)[1..] == Outs(Push, m1, cs[1..]);
    }
  }

  // ---------------------------------------------------------------- channel independence

  lemma {:induction false} PushCapError(m: Lanes, c: Chunk)
    ensures IsCapError(Push(m, c).1) <==> CapRefusal(m, c).Some?
  {
  }

  /** A chunk the caps let through acts on its own lane only. */
  lemma {:induction false} PushLane(m: Lanes, c: Chunk, ch: u16)
    requires !IsCapError(Push(m, c).1)
    ensures var (m1, o) := Push(m, c);
            if c.header.channel == ch then (LaneOf(m1, ch), o) == LaneStep(LaneOf(m, ch), c)
            else LaneOf(m1, ch) == LaneOf(m, ch)
  {
    PushCapError(m, c);
  }

  /** Unless a shared cap refuses a chunk, what happens on a channel is decided by that channel's own
      chunks: the receiver is a product of independent single-channel receivers. */
  lemma {:induction false} ChannelsIndependent(m: Lanes, cs: seq<Chunk>, ch: u16)
    requires CapFree(Outs(Push, m, cs))
    ensures LaneOf(End(Push, m, cs), ch) == End(LaneStep, LaneOf(m, ch), OnChannel(cs, ch))
    ensures OutcomesOn(cs, Outs(Push, m, cs), ch) == Outs(LaneStep, LaneOf(m, ch), OnChannel(cs, ch))
    decreases |cs|
  {
    if cs != [] {
      var c := cs[0];
      var (m1, o) := Push(m, c);
      var os := Outs(Push, m, cs);
      assert os[0] == o && os[1..] == Outs(Push, m1, cs[1..]);
      assert !IsCapError(os[0]) && CapFree(os[1..]);
      PushLane(m, c, ch);
      ChannelsIndependent(m1, cs[1..], ch);
      var rest := OnChannel(cs[1..], ch);
      if c.header.channel == ch {
        RunSplit(LaneStep, LaneOf(m, ch), [c], rest);
        RunSnoc(LaneStep, LaneOf(m, ch), [], c);
        assert [] + [c] == [c];
      } else {
        assert OnChannel(cs, ch) == rest;
      }
    }
  }

  // ---------------------------------------------------------------- the caps, in the sender's terms

  /** What channel `ch` has in flight after `cs`, judged from its own chunks. */
  ghost function InFlight(cs: seq<Chunk>, ch: u16): Lane {
    End(LaneStep, None, OnChannel(cs, ch))
  }

  ghost function SenderLanes(cs: seq<Chunk>): Lanes {
    map ch: int | 0 <= ch < 0x1_0000 && InFlight(cs, ch).Some? :: InFlight(cs, ch).value
  }

  /** The schedule never has too many channels or bytes in flight: each well-formed chunk finds room. */
  ghost predicate WithinCaps(cs: seq<Chunk>) {
    forall i :: 0 <= i < |cs| && |cs[i].payload| == cs[i].header.length ==> Fits(SenderLanes(cs[..i]), cs[i])
  }

  ghost predicate FitsNext(cs: seq<Chunk>, c: Chunk) {
    |c.payload| == c.header.length ==> Fits(SenderLanes(cs), c)
  }

  lemma {:induction false} LanesAgree(cs: seq<Chunk>)
    requires CapFree(Outs(Push, map[], cs))
    ensures End(Push, map[], cs) == SenderLanes(cs)
  {
    var m, s := End(Push, map[], cs), SenderLanes(cs);
    forall ch: u16
      ensures LaneOf(m, ch) == LaneOf(s, ch)
    {
      ChannelsIndependent(map[], cs, ch);
    }
    assert forall ch: u16 :: ch in m <==> LaneOf(m, ch).Some?;
    assert forall ch: u16 :: ch in s <==> LaneOf(s, ch).Some?;
  }

  lemma {:induction false} CapFreeSnoc(os: seq<Outcome>, o: Outcome)
    ensures CapFree(os + [o]) <==> CapFree(os) && !IsCapError(o)
  {
    assert (os + [o])[|os|] == o;
    assert forall i :: 0 <= i < |os| ==> (os + [o])[i] == os[i];
  }

  lemma {:induction false} WithinCapsSnoc(cs: seq<Chunk>, c: Chunk)
    ensures WithinCaps(cs + [c]) <==> WithinCaps(cs) && FitsNext(cs, c)
  {
    var all := cs + [c];
    assert forall i :: 0 <= i < |cs| ==> all[..i] == cs[..i] && all[i] == cs[i];
    assert all[..|cs|] == cs && all[|cs|] == c;
  }

  /** The receiver's caps stay silent exactly when the schedule never has more than 64 channels or 64 MiB
      in flight. */
  lemma {:induction false} CapsExact(cs: seq<Chunk>)
    ensures CapFree(Outs(Push, map[], cs)) <==> WithinCaps(cs)
    decreases |cs|
  {
    if cs != [] {
      var init, c := cs[..|cs| - 1], cs[|cs| - 1];
      assert cs == init + [c];
      CapsExact(init);
      var m := End(Push, map[], init);
      RunSnoc(Push, map[], init, c);
      CapFreeSnoc(Outs(Push, map[], init), Push(m, c).1);
      WithinCapsSnoc(init, c);
      PushCapError(m, c);
      CapRefusalExact(m, c);
      if WithinCaps(init) {
        LanesAgree(init);
      }
    }
  }

  // ---------------------------------------------------------------- fragments of whole messages

  function FragmentsOf(ms: seq<Message>, ch: u16): seq<Chunk> {
    if ms == [] then []
    else Fragments(ms[0].msgType, ch, ms[0].payload) + FragmentsOf(ms[1..], ch)
  }

  lemma {:induction false} DeliveredSplit(a: seq<Outcome>, b: seq<Outcome>)
    ensures Delivered(a + b) == Delivered(a) + Delivered(b)
  {
    if a == [] {
      assert a + b == b;
    } else {
      assert (a + b)[1..] == a[1..] + b;
      DeliveredSplit(a[1..], b);
      var h := if a[0].Complete? then [a[0].message] else [];
      assert h + (Delivered(a[1..]) + Delivered(b)) == (h + Delivered(a[1..])) + Delivered(b);
    }
  }

  /** A lane holding `buf` of a message; an empty buffer is also what a fresh lane amounts to. */
  predicate Holds(lane: Lane, msgType: byte, buf: seq<byte>) {
    match lane
    case None => buf == []
    case Some(p) => p == Pending(msgType, buf)
  }

  /** Outcomes of the chunks of one message: nothing, nothing, ..., the message. */
  ghost predicate Finishes(os: seq<Outcome>, m: Message) {
    && |os| > 0
    && os[|os| - 1] == Complete(m)
    && forall i :: 0 <= i < |os| - 1 ==> os[i] == Incomplete
  }

  lemma {:induction false} LaneStepHolds(
    lane: Lane, msgType: byte, ch: u16, buf: seq<byte>, piece: seq<byte>, more: bool)
    requires Holds(lane, msgType, buf)
    requires |piece| <= MAX_CHUNK_PAYLOAD && |buf| + |piece| <= MaxMessageLen(msgType)
    ensures LaneStep(lane, Piece(msgType, ch, more, piece)) ==
            if more then (Some(Pending(msgType, buf + piece)), Incomplete)
            else (None, Complete(Message(msgType, buf + piece)))
  {
  }

  lemma {:induction false} LaneRunsFragments(lane: Lane, msgType: byte, ch: u16, buf: seq<byte>, rest: seq<byte>)
    requires Holds(lane, msgType, buf)
    requires |buf| + |rest| <= MaxMessageLen(msgType)
    ensures End(LaneStep, lane, Fragments(msgType, ch, rest)) == None
    ensures Finishes(Outs(LaneStep, lane, Fragments(msgType, ch, rest)), Message(msgType, buf + rest))
    decreases |rest|
  {
    if |rest| <= MAX_CHUNK_PAYLOAD {
      var c := Piece(msgType, ch, false, rest);
      LaneStepHolds(lane, msgType, ch, buf, rest, false);
      RunCons(LaneStep, lane, c, []);
      assert [c] + [] == [c];
    } else {
      var piece, rest' := rest[..MAX_CHUNK_PAYLOAD], rest[MAX_CHUNK_PAYLOAD..];
      var next := Some(Pending(msgType, buf + piece));
      LaneStepHolds(lane, msgType, ch, buf, piece, true);
      RunCons(LaneStep, lane, Piece(msgType, ch, true, piece), Fragments(msgType, ch, rest'));
      LaneRunsFragments(next, msgType, ch, buf + piece, rest');
      Assoc(buf, piece, rest');
      assert piece + rest' == rest;
      FinishesLater(Outs(LaneStep, next, Fragments(msgType, ch, rest')), Message(msgType, buf + rest));
    }
  }

  lemma {:induction false} FinishesLater(os: seq<Outcome>, m: Message)
    requires Finishes(os, m)
    ensures Finishes([Incomplete] + os, m)
  {
  }

  lemma {:induction false} DeliveredOne(os: seq<Outcome>, m: Message)
    requires Finishes(os, m)
    ensures Delivered(os) == [m] && NoneRejected(os)
  {
    if |os| == 1 {
      assert os[1..] == [];
    } else {
      DeliveredOne(os[1..], m);
    }
  }

  lemma {:induction false} LaneDelivers(ms: seq<Message>, ch: u16)
    requires forall m :: m in ms ==> WithinLimit(m)
    ensures End(LaneStep, None, FragmentsOf(ms, ch)) == None
    ensures NoneRejected(Outs(LaneStep, None, FragmentsOf(ms, ch)))
    ensures Delivered(Outs(LaneStep, None, FragmentsOf(ms, ch))) == ms
  {
    if ms != [] {
      var fs, rest := Fragments(ms[0].msgType, ch, ms[0].payload), FragmentsOf(ms[1..], ch);
      assert WithinLimit(ms[0]);
      LaneRunsFragments(None, ms[0].msgType, ch, [], ms[0].payload);
      assert [] + ms[0].payload == ms[0].payload;
      LaneDelivers(ms[1..], ch);
      RunSplit(LaneStep, None, fs, rest);
      var os := Outs(LaneStep, None, fs);
      DeliveredOne(os, ms[0]);
      DeliveredSplit(os, Outs(LaneStep, None, rest));
    }
  }

  /** Cutting a lane's input short only cuts its deliveries short. */
  lemma {:induction false} LanePrefix(ms: seq<Message>, ch: u16, cs: seq<Chunk>)
    requires forall m :: m in ms ==> WithinLimit(m)
    requires cs <= FragmentsOf(ms, ch)
    ensures NoneRejected(Outs(LaneStep, None, cs))
    ensures Delivered(Outs(LaneStep, None, cs)) <= ms
  {
    var all := FragmentsOf(ms, ch);
    var rest := all[|cs|..];
    assert all == cs + rest;
    LaneDelivers(ms, ch);
    RunSplit(LaneStep, None, cs, rest);
    var os, tail := Outs(LaneStep, None, cs), Outs(LaneStep, End(LaneStep, None, cs), rest);
    DeliveredSplit(os, tail);
    assert forall i :: 0 <= i < |os| ==> os[i] == (os + tail)[i];
  }

  /** Main result. However the chunks of different channels are interleaved, as long as each channel
      keeps its own order and the schedule respects the caps, nothing is refused and every channel
      delivers a prefix of the messages sent on it -- all of them, leaving the channel idle, once
      all its chunks have arrived. */
  lemma {:induction false} InterleavedDelivery(cs: seq<Chunk>, ms: seq<Message>, ch: u16)
    requires WithinCaps(cs)
    requires forall m :: m in ms ==> WithinLimit(m)
    requires OnChannel(cs, ch) <= FragmentsOf(ms, ch)
    ensures var own := OutcomesOn(cs, Outs(Push, map[], cs), ch);
            && NoneRejected(own)
            && Delivered(own) <= ms
            && (OnChannel(cs, ch) == FragmentsOf(ms, ch) ==>
                  Delivered(own) == ms && ch !in End(Push, map[], cs))
  {
    CapsExact(cs);
    ChannelsIndependent(map[], cs, ch);
    LanePrefix(ms, ch, OnChannel(cs, ch));
    LaneDelivers(ms, ch);
    var m := End(Push, map[], cs);
    assert ch in m <==> LaneOf(m, ch).Some?;
  }
}
