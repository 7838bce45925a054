/** The byte stream as a chunk sequence: what a reader of the stream must see, whatever pieces the
    bytes arrive in (crates/oxtransport/src/stream.rs, crates/oxproto/src/envelope.rs). */
module Framing {
  import opened Prelude
  import opened Envelope
  import opened Interleaving
  import opened Runs

  /** The first chunk of `w`, once all its bytes are there. */
  function FirstChunk(w: seq<byte>): (r: Option<Chunk>)
    ensures r.Some? ==> CHUNK_HEADER_LEN + |r.value.payload| <= |w|
    ensures r.Some? ==> r.value.header.length == |r.value.payload|
  {
    match DecodeHeader(w)
    case None => None
    case Some(h) =>
      if |w| < CHUNK_HEADER_LEN + h.length then None
      else Some(Chunk(h, w[CHUNK_HEADER_LEN..CHUNK_HEADER_LEN + h.length]))
  }

  function ChunkLen(c: Chunk): nat {
    CHUNK_HEADER_LEN + |c.payload|
  }

  /** All complete chunks at the front of `w`; an undecodable header ends the list for good. */
  function Chunks(w: seq<byte>): seq<Chunk>
    decreases |w|
  {
    match FirstChunk(w)
    case None => []
    case Some(c) => [c] + Chunks(w[ChunkLen(c)..])
  }

  /** What is left of `w` behind them: a chunk still being received. */
  function Tail(w: seq<byte>): (r: seq<byte>)
    ensures FirstChunk(r).None?
    ensures |r| <= |w|
    decreases |w|
  {
    match FirstChunk(w)
    case None => w
    case Some(c) => Tail(w[ChunkLen(c)..])
  }

  /** The bytes of the complete chunks. */
  function Body(w: seq<byte>): seq<byte>
    decreases |w|
  {
    match FirstChunk(w)
    case None => []
    case Some(c) => w[..ChunkLen(c)] + Body(w[ChunkLen(c)..])
  }

  lemma {:induction false} DecodeHeaderExtends(w: seq<byte>, v: seq<byte>)
    requires |w| >= CHUNK_HEADER_LEN
    ensures DecodeHeader(w + v) == DecodeHeader(w)
  {
  }

  lemma {:induction false} FirstChunkExtends(w: seq<byte>, v: seq<byte>)
    requires FirstChunk(w).Some?
    ensures FirstChunk(w + v) == FirstChunk(w)
  {
    DecodeHeaderExtends(w, v);
    var n := FirstChunk(w).value.header.length;
    assert (w + v)[CHUNK_HEADER_LEN..CHUNK_HEADER_LEN + n] == w[CHUNK_HEADER_LEN..CHUNK_HEADER_LEN + n];
  }

  lemma {:induction false} ScanNext(w: seq<byte>, c: Chunk)
    requires FirstChunk(w) == Some(c)
    ensures Chunks(w) == [c] + Chunks(w[ChunkLen(c)..])
    ensures Tail(w) == Tail(w[ChunkLen(c)..])
  {
  }

  /** Scanning past a chunk boundary resumes with a clean slate. */
  lemma {:induction false} ScanResumes(a: seq<byte>, b: seq<byte>)
    requires Tail(a) == []
    ensures Chunks(a + b) == Chunks(a) + Chunks(b)
    ensures Tail(a + b) == Tail(b)
    decreases |a|
  {
    var first := FirstChunk(a);
    if first.None? {
      assert a == [] && a + b == b;
    } else {
      var c := first.value;
      var rest := a[ChunkLen(c)..];
      FirstChunkExtends(a, b);
      assert (a + b)[ChunkLen(c)..] == rest + b;
      ScanNext(a, c);
      ScanNext(a + b, c);
      ScanResumes(rest, b);
      Assoc([c], Chunks(rest), Chunks(b));
    }
  }

  lemma {:induction false} FirstChunkOf(w: seq<byte>, c: Chunk, rest: seq<byte>)
    requires FirstChunk(w) == Some(c)
    ensures FirstChunk(w[..ChunkLen(c)] + rest) == Some(c)
  {
    var v := w[..ChunkLen(c)];
    assert w == v + w[ChunkLen(c)..];
    DecodeHeaderExtends(v, w[ChunkLen(c)..]);
    assert v[CHUNK_HEADER_LEN..ChunkLen(c)] == w[CHUNK_HEADER_LEN..ChunkLen(c)];
    assert FirstChunk(v) == Some(c);
    FirstChunkExtends(v, rest);
  }

  /** The first chunk's bytes can be put in front of any other stream. */
  lemma {:induction false} Peel(w: seq<byte>, c: Chunk, rest: seq<byte>)
    requires FirstChunk(w) == Some(c)
    ensures Chunks(w[..ChunkLen(c)] + rest) == [c] + Chunks(rest)
    ensures Tail(w[..ChunkLen(c)] + rest) == Tail(rest)
  {
    FirstChunkOf(w, c, rest);
    assert (w[..ChunkLen(c)] + rest)[ChunkLen(c)..] == rest;
  }

  lemma {:induction false} BodyNext(w: seq<byte>, c: Chunk)
    requires FirstChunk(w) == Some(c)
    ensures Body(w) == w[..ChunkLen(c)] + Body(w[ChunkLen(c)..])
    ensures Tail(w) == Tail(w[ChunkLen(c)..])
  {
  }

  lemma {:induction false} BodySplit(w: seq<byte>)
    ensures w == Body(w) + Tail(w)
    decreases |w|
  {
    var first := FirstChunk(w);
    if first.Some? {
      var n := ChunkLen(first.value);
      BodyNext(w, first.value);
      BodySplit(w[n..]);
      Assoc(w[..n], Body(w[n..]), Tail(w[n..]));
      assert w == w[..n] + w[n..];
    }
  }

  lemma {:induction false} BodyScans(w: seq<byte>)
    ensures Tail(Body(w)) == []
    ensures Chunks(Body(w)) == Chunks(w)
    decreases |w|
  {
    match FirstChunk(w)
    case None =>
    case Some(c) =>
      BodyScans(w[ChunkLen(c)..]);
      Peel(w, c, Body(w[ChunkLen(c)..]));
  }

  /** More bytes never change the chunks already seen. */
  lemma {:induction false} ChunksMonotone(w: seq<byte>, v: seq<byte>)
    requires w <= v
    ensures Chunks(w) <= Chunks(v)
    decreases |w|
  {
    var x := v[|w|..];
    assert v == w + x;
    match FirstChunk(w)
    case None =>
    case Some(c) =>
      FirstChunkExtends(w, x);
      assert v[ChunkLen(c)..] == w[ChunkLen(c)..] + x;
      ChunksMonotone(w[ChunkLen(c)..], v[ChunkLen(c)..]);
  }

  // ---------------------------------------------------------------- the sender's side

  function BytesOf(cs: seq<Chunk>): seq<byte> {
    if cs == [] then [] else Wire(cs[0]) + BytesOf(cs[1..])
  }

  lemma {:induction false} BytesOfSplit(a: seq<Chunk>, b: seq<Chunk>)
    ensures BytesOf(a + b) == BytesOf(a) + BytesOf(b)
  {
    if a == [] {
      assert a + b == b;
    } else {
      assert (a + b)[1..] == a[1..] + b;
      BytesOfSplit(a[1..], b);
      assert Wire(a[0]) + (BytesOf(a[1..]) + BytesOf(b)) == Wire(a[0]) + BytesOf(a[1..]) + BytesOf(b);
    }
  }

  lemma {:induction false} FirstChunkOfWire(c: Chunk, rest: seq<byte>)
    requires Framed(c)
    ensures FirstChunk(Wire(c) + rest) == Some(c)
  {
    var w := Wire(c) + rest;
    assert w == EncodeHeader(c.header) + (c.payload + rest);
    HeaderRoundTrip(c.header, c.payload + rest);
    assert c.header.(flags := c.header.flags % 2) == c.header;
    assert w[CHUNK_HEADER_LEN..ChunkLen(c)] == c.payload;
  }

  /** Framing is lossless: the chunks written are the chunks scanned. */
  lemma {:induction false} ScanInvertsWrite(cs: seq<Chunk>)
    requires forall i :: 0 <= i < |cs| ==> Framed(cs[i])
    ensures Chunks(BytesOf(cs)) == cs && Tail(BytesOf(cs)) == []
  {
    if cs != [] {
      FirstChunkOfWire(cs[0], BytesOf(cs[1..]));
      ScanInvertsWrite(cs[1..]);
      assert BytesOf(cs)[ChunkLen(cs[0])..] == BytesOf(cs[1..]);
    }
  }

  /** The chunks of a queue of messages, each message whole before the next begins. */
  function ChunkStream(q: seq<Outgoing>): (r: seq<Chunk>)
    ensures forall i :: 0 <= i < |r| ==> Framed(r[i])
  {
    if q == [] then []
    else Fragments(q[0].msg.msgType, q[0].channel, q[0].msg.payload) + ChunkStream(q[1..])
  }

  lemma {:induction false} ChunkStreamSnoc(q: seq<Outgoing>, o: Outgoing)
    ensures ChunkStream(q + [o]) ==
            ChunkStream(q) + Fragments(o.msg.msgType, o.channel, o.msg.payload)
  {
    if q == [] {
      assert (q + [o])[1..] == [];
    } else {
      assert (q + [o])[1..] == q[1..] + [o];
      ChunkStreamSnoc(q[1..], o);
    }
  }

  /** What the calls of a reader return, in order: everything but "not yet". */
  function Results(os: seq<Outcome>): seq<Outcome> {
    Keep(Settled, os)
  }

  predicate Settled(o: Outcome) {
    !o.Incomplete?
  }

  function Completions(q: seq<Outgoing>): (r: seq<Outcome>)
    ensures |r| == |q|
  {
    if q == [] then [] else [Complete(q[0].msg)] + Completions(q[1..])
  }

  lemma {:induction false} ResultsSplit(a: seq<Outcome>, b: seq<Outcome>)
    ensures Results(a + b) == Results(a) + Results(b)
  {
    KeepSplit(Settled, a, b);
  }

  lemma {:induction false} ResultsOne(os: seq<Outcome>, m: Message)
    requires Finishes(os, m)
    ensures Results(os) == [Complete(m)]
  {
    if |os| == 1 {
      assert Keep(Settled, os[1..]) == [];
      assert Settled(os[0]);
    } else {
      ResultsOne(os[1..], m);
    }
  }

  /** A receiver with at most one channel busy is never near its caps. */
  lemma {:induction false} SoloPush(lane: Lane, ch: u16, c: Chunk)
    requires c.header.channel == ch && Framed(c)
    requires lane.Some? ==> |lane.value.buf| <= MaxMessageLen(lane.value.msgType)
    ensures var (lane', o) := LaneStep(lane, c);
            Push(WithLane(map[], ch, lane), c) == (WithLane(map[], ch, lane'), o)
  {
    var m: Lanes := WithLane(map[], ch, lane);
    BufferedUpdate(map[], ch, lane);
    WithLaneSize(map[], ch, lane);
    assert LaneOf(m, ch) == lane;
    var lane' := LaneStep(lane, c).0;
    assert WithLane(m, ch, lane') == WithLane(map[], ch, lane');
  }

  lemma {:induction false} SoloRun(lane: Lane, ch: u16, cs: seq<Chunk>)
    requires forall i :: 0 <= i < |cs| ==> cs[i].header.channel == ch && Framed(cs[i])
    requires lane.Some? ==> |lane.value.buf| <= MaxMessageLen(lane.value.msgType)
    ensures End(Push, WithLane(map[], ch, lane), cs) == WithLane(map[], ch, End(LaneStep, lane, cs))
    ensures Outs(Push, WithLane(map[], ch, lane), cs) == Outs(LaneStep, lane, cs)
    decreases |cs|
  {
    if cs != [] {
      SoloPush(lane, ch, cs[0]);
      LaneStepBounded(lane, cs[0]);
      SoloRun(LaneStep(lane, cs[0]).0, ch, cs[1..]);
    }
  }

  /** A whole message passes through an idle receiver and leaves it idle. */
  lemma {:induction false} MessagePasses(o: Outgoing)
    requires WithinLimit(o.msg)
    ensures var fs := Fragments(o.msg.msgType, o.channel, o.msg.payload);
            End(Push, map[], fs) == map[] && Results(Outs(Push, map[], fs)) == [Complete(o.msg)]
  {
    var fs := Fragments(o.msg.msgType, o.channel, o.msg.payload);
    LaneRunsFragments(None, o.msg.msgType, o.channel, [], o.msg.payload);
    assert [] + o.msg.payload == o.msg.payload;
    SoloRun(None, o.channel, fs);
    var none: Lanes := map[];
    assert none - {o.channel} == none;
    ResultsOne(Outs(LaneStep, None, fs), o.msg);
  }

  lemma {:induction false} QueuePasses(q: seq<Outgoing>)
    requires forall i :: 0 <= i < |q| ==> WithinLimit(q[i].msg)
    ensures End(Push, map[], ChunkStream(q)) == map[]
    ensures Results(Outs(Push, map[], ChunkStream(q))) == Completions(q)
  {
    if q != [] {
      var fs := Fragments(q[0].msg.msgType, q[0].channel, q[0].msg.payload);
      MessagePasses(q[0]);
      QueuePasses(q[1..]);
      RunSplit(Push, map[], fs, ChunkStream(q[1..]));
      ResultsSplit(Outs(Push, map[], fs), Outs(Push, map[], ChunkStream(q[1..])));
    }
  }

  /** What a reader has returned after consuming the bytes `w`. */
  ghost function Returned(w: seq<byte>): seq<Outcome> {
    Results(Outs(Push, map[], Chunks(w)))
  }

  /** Main result, on bytes: any prefix of a conforming sender's stream yields a prefix of its
      messages, and the whole stream yields them all. */
  lemma {:induction false} StreamRefinesQueue(q: seq<Outgoing>, w: seq<byte>)
    requires forall i :: 0 <= i < |q| ==> WithinLimit(q[i].msg)
    requires w <= BytesOf(ChunkStream(q))
    ensures Returned(w) <= Completions(q)
    ensures w == BytesOf(ChunkStream(q)) ==> Returned(w) == Completions(q)
    ensures |Tail(w)| >= CHUNK_HEADER_LEN ==> DecodeHeader(Tail(w)).Some?
  {
    var cs := ChunkStream(q);
    ScanInvertsWrite(cs);
    QueuePasses(q);
    ChunksMonotone(w, BytesOf(cs));
    var some, rest := Chunks(w), cs[|Chunks(w)|..];
    assert cs == some + rest;
    RunSplit(Push, map[], some, rest);
    ResultsSplit(Outs(Push, map[], some), Outs(Push, End(Push, map[], some), rest));
    if |Tail(w)| >= CHUNK_HEADER_LEN {
      TailDecodes(w, cs);
    }
  }

  /** In a conforming stream a header still waiting for its payload is a good one. */
  lemma {:induction false} TailDecodes(w: seq<byte>, cs: seq<Chunk>)
    requires forall i :: 0 <= i < |cs| ==> Framed(cs[i])
    requires w <= BytesOf(cs)
    requires |Tail(w)| >= CHUNK_HEADER_LEN
    ensures DecodeHeader(Tail(w)).Some?
    decreases |cs|
  {
    if cs != [] {
      var v := BytesOf(cs);
      var x := v[|w|..];
      assert v == w + x;
      FirstChunkOfWire(cs[0], BytesOf(cs[1..]));
      match FirstChunk(w)
      case None =>
        DecodeHeaderExtends(w, x);
      case Some(c) =>
        FirstChunkExtends(w, x);
        assert v[ChunkLen(c)..] == BytesOf(cs[1..]);
        TailDecodes(w[ChunkLen(c)..], cs[1..]);
    }
  }
}
