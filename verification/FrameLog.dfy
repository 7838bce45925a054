/** Sending one frame per window, and the log of all frames sent (crates/oxagent/src/serve.rs,
    `pump_frames`). */
module FrameLog {
  import opened Prelude
  import opened Runs
  import opened WindowStream

  type Streams = map<nat, Stream>

  // ---------------------------------------------------------------- one tick's frames

  datatype SentFrame = SentFrame(id: nat, frame: Frame)

  /** Every window with an id below `n` has had its turn. */
  ghost predicate Pumped(s0: Streams, s: Streams, h264: bool, oracle: nat -> Oracle, n: nat) {
    && s.Keys == s0.Keys
    && forall id :: id in s ==> s[id] == if id < n then Pump(s0[id], h264, oracle(id)).0 else s0[id]
  }

  /** The frames of the windows with ids below `n`, in order of id and no others. */
  ghost predicate FramesOf(s0: Streams, frames: seq<SentFrame>, h264: bool, oracle: nat -> Oracle, n: nat) {
    && Ascending(frames)
    && (forall f :: f in frames ==> f.id < n && Sends(s0, h264, oracle, f))
    && (forall f: SentFrame :: f.id < n && Sends(s0, h264, oracle, f) ==> f in frames)
  }

  ghost predicate Ascending(frames: seq<SentFrame>) {
    forall k, l :: 0 <= k < l < |frames| ==> frames[k].id < frames[l].id
  }

  /** It is that window's turn to send that frame. */
  ghost predicate Sends(s0: Streams, h264: bool, oracle: nat -> Oracle, f: SentFrame) {
    f.id in s0 && Pump(s0[f.id], h264, oracle(f.id)).1 == Some(f.frame)
  }

  /** One frame per window, in ascending order of id; what is sent for a window depends only on its
      own stream and oracle. */
  method PumpBelow(s0: Streams, n: nat, h264: bool, oracle: nat -> Oracle) returns (s: Streams, frames: seq<SentFrame>)
    ensures Pumped(s0, s, h264, oracle, n) && FramesOf(s0, frames, h264, oracle, n)
  {
    s, frames := s0, [];
    for id := 0 to n
      invariant Pumped(s0, s, h264, oracle, id) && FramesOf(s0, frames, h264, oracle, id)
    {
      PumpedNext(s0, s, h264, oracle, id);
      FramesNext(s0, frames, h264, oracle, id);
      if id in s {
        var (next, frame) := Pump(s[id], h264, oracle(id));
        s := s[id := next];
        if frame.Some? {
          frames := frames + [SentFrame(id, frame.value)];
        }
      }
    }
  }

  lemma {:induction false} PumpedNext(s0: Streams, s: Streams, h264: bool, oracle: nat -> Oracle, id: nat)
    requires Pumped(s0, s, h264, oracle, id)
    ensures if id in s
            then && s[id] == s0[id]
                 && Pumped(s0, s[id := Pump(s0[id], h264, oracle(id)).0], h264, oracle, id + 1)
            else id !in s0 && Pumped(s0, s, h264, oracle, id + 1)
  {
    if id in s {
      assert s[id := Pump(s0[id], h264, oracle(id)).0].Keys == s.Keys;
    }
  }

  lemma {:induction false} FramesNext(s0: Streams, frames: seq<SentFrame>, h264: bool, oracle: nat -> Oracle, id: nat)
    requires FramesOf(s0, frames, h264, oracle, id)
    ensures if id in s0 && Pump(s0[id], h264, oracle(id)).1.Some?
            then FramesOf(s0, frames + [SentFrame(id, Pump(s0[id], h264, oracle(id)).1.value)], h264, oracle, id + 1)
            else FramesOf(s0, frames, h264, oracle, id + 1)
  {
    if id in s0 && Pump(s0[id], h264, oracle(id)).1.Some? {
      var f := SentFrame(id, Pump(s0[id], h264, oracle(id)).1.value);
      assert Sends(s0, h264, oracle, f);
      AscendingNext(frames, f);
    }
  }

  lemma {:induction false} AscendingNext(frames: seq<SentFrame>, f: SentFrame)
    requires Ascending(frames) && forall g :: g in frames ==> g.id < f.id
    ensures Ascending(frames + [f])
    ensures forall g :: g in frames + [f] <==> g in frames || g == f
  {
  }

  function AckedIn(s: Streams, id: nat, frameId: nat): Streams {
    if id in s then s[id := StreamStep(s[id], AckFrame(frameId)).0] else s
  }

  // ---------------------------------------------------------------- a session's frames

  /** The frames of window `id` in a log, in order. */
  function FramesBy(log: seq<SentFrame>, id: nat): seq<Frame> {
    if log == [] then []
    else FramesBy(log[..|log| - 1], id) + Mine(log[|log| - 1], id)
  }

  function Mine(f: SentFrame, id: nat): seq<Frame> {
    if f.id == id then [f.frame] else []
  }

  /** Each window's frames are numbered 1, 2, 3, ... in the order they were sent. */
  ghost predicate Numbered(log: seq<SentFrame>) {
    forall k :: 0 <= k < |log| ==> log[k].frame.frameId == 1 + |FramesBy(log[..k], log[k].id)|
  }

  /** Every stream's counter is where its frames have left it. */
  ghost predicate Counted(log: seq<SentFrame>, s: Streams) {
    forall id :: id in s ==> s[id].budget.nextId == 1 + |FramesBy(log, id)|
  }

  lemma {:induction false} FramesBySplit(log: seq<SentFrame>, frames: seq<SentFrame>, id: nat)
    ensures FramesBy(log + frames, id) == FramesBy(log, id) + FramesBy(frames, id)
    decreases |frames|
  {
    if frames == [] {
      assert log + frames == log;
    } else {
      var init, last := frames[..|frames| - 1], frames[|frames| - 1];
      assert (log + frames)[..|log + frames| - 1] == log + init;
      FramesBySplit(log, init, id);
      Assoc(FramesBy(log, id), FramesBy(init, id), Mine(last, id));
    }
  }

  lemma {:induction false} FramesByNone(frames: seq<SentFrame>, id: nat)
    requires forall k :: 0 <= k < |frames| ==> frames[k].id != id
    ensures FramesBy(frames, id) == []
  {
    if frames != [] {
      FramesByNone(frames[..|frames| - 1], id);
    }
  }

  /** A window sends at most one frame a tick. */
  lemma {:induction false} FramesByOne(frames: seq<SentFrame>, k: nat)
    requires Ascending(frames) && k < |frames|
    ensures FramesBy(frames[..k], frames[k].id) == [] && FramesBy(frames, frames[k].id) == [frames[k].frame]
  {
    var before, after, f := frames[..k], frames[k + 1..], frames[k];
    FramesByNone(before, f.id);
    FramesByNone(after, f.id);
    assert frames == before + [f] + after;
    FramesBySplit(before, [f], f.id);
    FramesBySplit(before + [f], after, f.id);
    assert FramesBy([f], f.id) == [f.frame] by {
      assert FramesBy([f][..0], f.id) == [];
    }
  }

  /** A tick's frames carry their windows' next numbers. */
  lemma {:induction false} NumberedFrames(log: seq<SentFrame>, frames: seq<SentFrame>)
    requires Numbered(log) && Ascending(frames)
    requires forall k :: 0 <= k < |frames| ==> frames[k].frame.frameId == 1 + |FramesBy(log, frames[k].id)|
    ensures Numbered(log + frames)
  {
    var more := log + frames;
    forall k | 0 <= k < |more|
      ensures more[k].frame.frameId == 1 + |FramesBy(more[..k], more[k].id)|
    {
      if k < |log| {
        assert more[..k] == log[..k];
      } else {
        var j := k - |log|;
        assert more[..k] == log + frames[..j];
        FramesBySplit(log, frames[..j], frames[j].id);
        FramesByOne(frames, j);
      }
    }
  }

  /** A window's frames of one tick are those its own stream and oracle give. */
  lemma {:induction false} SentThisTick(
    s0: Streams, frames: seq<SentFrame>, h264: bool, oracle: nat -> Oracle, n: nat, id: nat)
    requires FramesOf(s0, frames, h264, oracle, n) && id in s0 && id < n
    ensures FramesBy(frames, id) == Sole(Pump(s0[id], h264, oracle(id)).1)
  {
    var sent := Pump(s0[id], h264, oracle(id)).1;
    if sent.Some? {
      var f := SentFrame(id, sent.value);
      assert Sends(s0, h264, oracle, f);
      var k :| 0 <= k < |frames| && frames[k] == f;
      FramesByOne(frames, k);
    } else {
      forall k | 0 <= k < |frames|
        ensures frames[k].id != id
      {
        assert frames[k] in frames;
      }
      FramesByNone(frames, id);
    }
  }

  lemma {:induction false} TickNumbered(
    log: seq<SentFrame>, s0: Streams, frames: seq<SentFrame>, h264: bool, oracle: nat -> Oracle, n: nat)
    requires Numbered(log) && Counted(log, s0) && FramesOf(s0, frames, h264, oracle, n)
    ensures Numbered(log + frames)
  {
    forall k | 0 <= k < |frames|
      ensures frames[k].frame.frameId == 1 + |FramesBy(log, frames[k].id)|
    {
      var f := frames[k];
      assert f in frames;
      FrameStep(s0[f.id], Send(h264, oracle(f.id)));
    }
    NumberedFrames(log, frames);
  }
}
