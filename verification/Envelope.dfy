/** Chunk framing: the 8-byte header, fragmentation, and per-channel reassembly under caps
    (crates/oxproto/src/envelope.rs). */
module Envelope {
  import opened Prelude
  import opened Runs

  const CHUNK_HEADER_LEN := 8
  const MAX_CHUNK_PAYLOAD := 32 * 1024
  const MAX_PENDING_CHANNELS := 64
  const MAX_PENDING_BYTES := 64 * 1024 * 1024

  /** `flags` is the raw byte; bit 0 is FRAG_MORE. */
  datatype ChunkHeader = ChunkHeader(msgType: byte, flags: byte, channel: u16, length: u32) {
    predicate HasMore() {
      flags % 2 == 1
    }
  }

  datatype Chunk = Chunk(header: ChunkHeader, payload: seq<byte>)

  datatype Message = Message(msgType: byte, payload: seq<byte>)

  /** A message addressed to a channel, as the sender holds it. */
  datatype Outgoing = Outgoing(channel: u16, msg: Message)

  datatype Error = LengthMismatch | TooManyChannels | TooManyBytes | TypeMismatch | TooLong

  datatype Outcome = Incomplete | Complete(message: Message) | Rejected(error: Error)

  function MaxMessageLen(msgType: byte): nat {
    if msgType == 0x10 || msgType == 0x13 || msgType == 0x08 || msgType == 0x03 then 8 * 1024
    else if msgType == 0x40 then 256 * 1024
    else if msgType == 0x16 then 1024 * 1024
    else if msgType == 0x20 then 32 * 1024 * 1024
    else 4 * 1024
  }

  /** No type may fill even half of what the receiver buffers in all; only frames (0x20) may come to that,
      and no type is held below a page. */
  lemma {:induction false} LimitsExact(msgType: byte)
    ensures 4096 <= MaxMessageLen(msgType) && 2 * MaxMessageLen(msgType) <= MAX_PENDING_BYTES
    ensures 2 * MaxMessageLen(msgType) == MAX_PENDING_BYTES <==> msgType == 0x20
  {
  }

  predicate WithinLimit(m: Message) {
    |m.payload| <= MaxMessageLen(m.msgType)
  }

  // ---------------------------------------------------------------- header codec

  function EncodeHeader(h: ChunkHeader): (r: seq<byte>)
    ensures |r| == CHUNK_HEADER_LEN
  {
    [h.msgType, h.flags,
     h.channel % 256, h.channel / 256,
     h.length % 256, h.length / 256 % 256, h.length / 0x1_0000 % 256, h.length / 0x100_0000]
  }

  function LittleEndian32(a: byte, b: byte, c: byte, d: byte): u32 {
    a as int + 256 * b as int + 0x1_0000 * c as int + 0x100_0000 * d as int
  }

  /** Unknown flag bits are dropped; a length above MAX_CHUNK_PAYLOAD is refused. */
  function DecodeHeader(src: seq<byte>): (r: Option<ChunkHeader>)
    ensures r.Some? ==> r.value.length <= MAX_CHUNK_PAYLOAD
  {
    if |src| < CHUNK_HEADER_LEN then None
    else
      var length := LittleEndian32(src[4], src[5], src[6], src[7]);
      if length > MAX_CHUNK_PAYLOAD then None
      else Some(ChunkHeader(src[0], src[1] % 2, src[2] as int + 256 * src[3] as int, length))
  }

  /** Decoding inverts encoding on exactly the headers that may be sent; otherwise it refuses, or
      returns the header with its reserved flag bits cleared. */
  lemma {:induction false} HeaderRoundTrip(h: ChunkHeader, rest: seq<byte>)
    ensures DecodeHeader(EncodeHeader(h) + rest) ==
            if h.length <= MAX_CHUNK_PAYLOAD then Some(h.(flags := h.flags % 2)) else None
  {
    var e := EncodeHeader(h) + rest;
    assert forall i :: 0 <= i < 8 ==> e[i] == EncodeHeader(h)[i];
    TwoBytes(h.channel);
    FourBytes(h.length);
  }

  lemma {:induction false} TwoBytes(n: u16)
    ensures n % 256 + 256 * (n / 256) == n
  {
  }

  lemma {:induction false} FourBytes(n: u32)
    ensures LittleEndian32(n % 256, n / 256 % 256, n / 0x1_0000 % 256, n / 0x100_0000) == n
  {
    assert n / 256 / 256 == n / 0x1_0000 && n / 0x1_0000 / 256 == n / 0x100_0000;
  }

  // ---------------------------------------------------------------- fragmentation

  function Wire(c: Chunk): (r: seq<byte>)
    ensures |r| == CHUNK_HEADER_LEN + |c.payload|
  {
    EncodeHeader(c.header) + c.payload
  }

  function Piece(msgType: byte, channel: u16, more: bool, piece: seq<byte>): (c: Chunk)
    requires |piece| <= MAX_CHUNK_PAYLOAD
  {
    Chunk(ChunkHeader(msgType, if more then 1 else 0, channel, |piece|), piece)
  }

  /** The chunks of one message: full-size pieces marked FRAG_MORE, then one last piece. */
  function Fragments(msgType: byte, channel: u16, payload: seq<byte>): (r: seq<Chunk>)
    ensures |r| > 0
    ensures forall i :: 0 <= i < |r| ==> Framed(r[i]) && r[i].header.channel == channel
    decreases |payload|
  {
    if |payload| <= MAX_CHUNK_PAYLOAD then [Piece(msgType, channel, false, payload)]
    else [Piece(msgType, channel, true, payload[..MAX_CHUNK_PAYLOAD])] +
         Fragments(msgType, channel, payload[MAX_CHUNK_PAYLOAD..])
  }

  /** A chunk a conforming sender may put on the wire. */
  predicate Framed(c: Chunk) {
    c.header.length == |c.payload| <= MAX_CHUNK_PAYLOAD && c.header.flags < 2
  }

  /** The `i`-th full-size piece of a payload, or what is left of it. */
  function PieceAt(payload: seq<byte>, i: nat): seq<byte>
    requires 32_768 * i <= |payload|
  {
    payload[32_768 * i..Min(32_768 * i + 32_768, |payload|)]
  }

  lemma {:induction false} PieceShift(payload: seq<byte>, i: nat)
    requires |payload| > 32_768 && i >= 1 && 32_768 * i <= |payload|
    ensures PieceAt(payload[32_768..], i - 1) == PieceAt(payload, i)
  {
    var rest, lo := payload[32_768..], 32_768 * (i - 1);
    var hi := Min(lo + 32_768, |rest|);
    assert rest[lo..hi] == payload[lo + 32_768..hi + 32_768];
  }

  ghost predicate Shaped(cs: seq<Chunk>, msgType: byte, channel: u16, payload: seq<byte>, i: nat)
    requires i < |cs|
  {
    && cs[i].header.msgType == msgType && cs[i].header.channel == channel
    && (cs[i].header.HasMore() <==> i < |cs| - 1)
    && 32_768 * i <= |payload| && cs[i].payload == PieceAt(payload, i)
  }

  /** A message is cut into as few chunks as it takes, at least one: every chunk but the last is full and
      says that more follow. */
  lemma {:induction false} FragmentsShape(msgType: byte, channel: u16, payload: seq<byte>)
    ensures var cs := Fragments(msgType, channel, payload);
            && |cs| == Max((|payload| + 32_767) / 32_768, 1)
            && forall i :: 0 <= i < |cs| ==> Shaped(cs, msgType, channel, payload, i)
    decreases |payload|
  {
    if |payload| > MAX_CHUNK_PAYLOAD {
      var rest := payload[MAX_CHUNK_PAYLOAD..];
      FragmentsShape(msgType, channel, rest);
      var cs, later := Fragments(msgType, channel, payload), Fragments(msgType, channel, rest);
      forall i | 0 <= i < |cs|
        ensures Shaped(cs, msgType, channel, payload, i)
      {
        if i > 0 {
          assert Shaped(later, msgType, channel, rest, i - 1) && cs[i] == later[i - 1];
          PieceShift(payload, i);
        }
      }
    }
  }

  function Wires(cs: seq<Chunk>): (r: seq<seq<byte>>)
  {
    seq(|cs|, i requires 0 <= i < |cs| => Wire(cs[i]))
  }

  lemma {:induction false} WiresSnoc(cs: seq<Chunk>, c: Chunk)
    ensures Wires(cs + [c]) == Wires(cs) + [Wire(c)]
  {
  }

  /** Where the offset loop stands after `done`: the rest of the payload is still to be cut. */
  lemma {:induction false} FragmentsAt(msgType: byte, channel: u16, payload: seq<byte>, offset: nat)
    requires offset <= |payload|
    ensures var end := Min(offset + MAX_CHUNK_PAYLOAD, |payload|);
            var last := end == |payload|;
            Fragments(msgType, channel, payload[offset..]) ==
            [Piece(msgType, channel, !last, payload[offset..end])] +
            if last then [] else Fragments(msgType, channel, payload[end..])
  {
    var end := Min(offset + MAX_CHUNK_PAYLOAD, |payload|);
    if end < |payload| {
      assert payload[offset..][..MAX_CHUNK_PAYLOAD] == payload[offset..end];
      assert payload[offset..][MAX_CHUNK_PAYLOAD..] == payload[end..];
    } else {
      assert payload[offset..] == payload[offset..end];
    }
  }

  /** The offset loop of `fragment`. */
  method Fragment(msgType: byte, channel: u16, payload: seq<byte>) returns (out: seq<seq<byte>>)
    ensures out == Wires(Fragments(msgType, channel, payload))
  {
    out := [];
    var offset := 0;
    ghost var done: seq<Chunk> := [];
    var more := true;
    ghost var all, left := Fragments(msgType, channel, payload), Fragments(msgType, channel, payload);
    assert payload[0..] == payload;
    while more
      invariant 0 <= offset <= |payload|
      invariant out == Wires(done) && all == done + left
      invariant left == if more then Fragments(msgType, channel, payload[offset..]) else []
      decreases more, |payload| - offset
    {
      var end := Min(offset + MAX_CHUNK_PAYLOAD, |payload|);
      FragmentsAt(msgType, channel, payload, offset);
      more := end < |payload|;
      var c := Piece(msgType, channel, more, payload[offset..end]);
      left := if more then Fragments(msgType, channel, payload[end..]) else [];
      Assoc(done, [c], left);
      WiresSnoc(done, c);
      out := out + [Wire(c)];
      done := done + [c];
      offset := end;
    }
  }

  // ---------------------------------------------------------------- reassembly

  datatype Pending = Pending(msgType: byte, buf: seq<byte>)

  /** One channel on its own: the message in flight on it, if any. */
  type Lane = Option<Pending>

  /** What a single chunk does to its own channel when no shared cap intervenes. */
  function LaneStep(lane: Lane, c: Chunk): (Lane, Outcome) {
    if |c.payload| != c.header.length then (lane, Rejected(LengthMismatch))
    else if lane.Some? && lane.value.msgType != c.header.msgType then (None, Rejected(TypeMismatch))
    else
      var buf := (if lane.Some? then lane.value.buf else []) + c.payload;
      if |buf| > MaxMessageLen(c.header.msgType) then (None, Rejected(TooLong))
      else if c.header.HasMore() then (Some(Pending(c.header.msgType, buf)), Incomplete)
      else (None, Complete(Message(c.header.msgType, buf)))
  }

  type Lanes = map<u16, Pending>

  function LaneOf(m: Lanes, channel: u16): Lane {
    if channel in m then Some(m[channel]) else None
  }

  function WithLane(m: Lanes, channel: u16, lane: Lane): Lanes {
    if lane.Some? then m[channel := lane.value] else m - {channel}
  }

  /** Bytes buffered across all channels. */
  ghost function Buffered(m: Lanes): nat
    decreases |m|
  {
    if m == map[] then 0
    else
      var ch :| ch in m;
      |m[ch].buf| + Buffered(m - {ch})
  }

  function LaneBytes(lane: Lane): nat {
    if lane.Some? then |lane.value.buf| else 0
  }

  lemma {:induction false} BufferedSplit(m: Lanes, ch: u16)
    requires ch in m
    ensures Buffered(m) == |m[ch].buf| + Buffered(m - {ch})
    decreases |m|
  {
    var k :| k in m && Buffered(m) == |m[k].buf| + Buffered(m - {k});
    if k != ch {
      BufferedSplit(m - {k}, ch);
      BufferedSplit(m - {ch}, k);
      assert m - {k} - {ch} == m - {ch} - {k};
    }
  }

  lemma {:induction false} BufferedUpdate(m: Lanes, ch: u16, lane: Lane)
    ensures Buffered(WithLane(m, ch, lane)) == Buffered(m) + LaneBytes(lane) - LaneBytes(LaneOf(m, ch))
  {
    var m' := WithLane(m, ch, lane);
    assert m' - {ch} == m - {ch};
    if ch in m' { BufferedSplit(m', ch); } else { assert m' - {ch} == m'; }
    if ch in m { BufferedSplit(m, ch); } else { assert m - {ch} == m; }
  }

  /** Whether one of the two shared caps refuses `c` in front of buffered lanes `m`. */
  ghost function CapRefusal(m: Lanes, c: Chunk): Option<Error> {
    if |c.payload| != c.header.length then None
    else if !c.header.HasMore() && c.header.channel !in m then None
    else if c.header.channel !in m && |m| >= MAX_PENDING_CHANNELS then Some(TooManyChannels)
    else if Buffered(m) + |c.payload| > MAX_PENDING_BYTES then Some(TooManyBytes)
    else None
  }

  /** What the two caps leave room for: a message complete in one chunk on an idle channel needs no
      buffer; anything else needs its channel to be in flight already or fewer than 64 in flight, and at
      most 64 MiB in flight with it. */
  ghost predicate Fits(m: Lanes, c: Chunk) {
    || (c.header.flags % 2 == 0 && c.header.channel !in m)
    || ((c.header.channel in m || |m| < 64) && Buffered(m) + |c.payload| <= 67_108_864)
  }

  /** The caps refuse a well-formed chunk exactly when there is no room for it, the count of channels
      before the count of bytes, and never have a say in a malformed one. */
  lemma {:induction false} CapRefusalExact(m: Lanes, c: Chunk)
    ensures CapRefusal(m, c).Some? <==> |c.payload| == c.header.length && !Fits(m, c)
    ensures CapRefusal(m, c) == Some(TooManyChannels) <==>
            && |c.payload| == c.header.length && c.header.flags % 2 == 1
            && c.header.channel !in m && |m| >= 64
    ensures CapRefusal(m, c).Some? ==> CapRefusal(m, c).value in {TooManyChannels, TooManyBytes}
  {
  }

  /** What a chunk that no cap refuses does to its channel, by the bytes held before: refused for its
      length, for another type than the message in flight, or for a message beyond its type's limit --
      the last two abandon that message -- and otherwise appended, and delivered if it is the last. */
  lemma {:induction false} LaneStepExact(lane: Lane, c: Chunk)
    ensures var (lane', o) := LaneStep(lane, c);
            var held := if lane.Some? then lane.value.buf else [];
            var wrongLength := |c.payload| != c.header.length;
            var wrongType := lane.Some? && lane.value.msgType != c.header.msgType;
            var tooLong := |held| + |c.payload| > MaxMessageLen(c.header.msgType);
            && (o == Rejected(LengthMismatch) <==> wrongLength)
            && (o == Rejected(TypeMismatch) <==> !wrongLength && wrongType)
            && (o == Rejected(TooLong) <==> !wrongLength && !wrongType && tooLong)
            && (o.Rejected? <==> wrongLength || wrongType || tooLong)
            && (o.Rejected? ==> lane' == if wrongLength then lane else None)
            && (o.Incomplete? ==> c.header.flags % 2 == 1 && lane' == Some(Pending(c.header.msgType, held + c.payload)))
            && (o.Complete? ==> c.header.flags % 2 == 0 && lane'.None?)
            && (o.Complete? ==> o.message == Message(c.header.msgType, held + c.payload))
  {
  }

  /** One chunk against the whole receiver. */
  ghost function Push(m: Lanes, c: Chunk): (Lanes, Outcome) {
    match CapRefusal(m, c)
    case Some(e) => (m, Rejected(e))
    case None =>
      var (lane, o) := LaneStep(LaneOf(m, c.header.channel), c);
      (WithLane(m, c.header.channel, lane), o)
  }

  /** The receiver's bounds: shared caps, per-type caps. */
  ghost predicate Bounded(m: Lanes) {
    && |m| <= MAX_PENDING_CHANNELS
    && Buffered(m) <= MAX_PENDING_BYTES
    && forall ch :: ch in m ==> |m[ch].buf| <= MaxMessageLen(m[ch].msgType)
  }

  lemma {:induction false} LaneStepBounded(lane: Lane, c: Chunk)
    requires lane.Some? ==> |lane.value.buf| <= MaxMessageLen(lane.value.msgType)
    ensures var (lane', o) := LaneStep(lane, c);
            && (lane'.Some? ==> |lane'.value.buf| <= MaxMessageLen(lane'.value.msgType))
            && LaneBytes(lane') <= LaneBytes(lane) + |c.payload|
            && (o.Complete? ==> WithinLimit(o.message))
            && (!c.header.HasMore() && lane.None? ==> lane'.None?)
  {
  }

  lemma {:induction false} WithLaneSize(m: Lanes, ch: u16, lane: Lane)
    ensures |WithLane(m, ch, lane)| <= if ch in m || lane.None? then |m| else |m| + 1
  {
    var m' := WithLane(m, ch, lane);
    if lane.Some? {
      assert m'.Keys == m.Keys + {ch};
    } else {
      assert m'.Keys == m.Keys - {ch};
    }
  }

  lemma {:induction false} PushBounded(m: Lanes, c: Chunk)
    requires Bounded(m)
    ensures Bounded(Push(m, c).0)
    ensures Push(m, c).1.Complete? ==> WithinLimit(Push(m, c).1.message)
  {
    if CapRefusal(m, c).None? {
      var ch := c.header.channel;
      LaneStepBounded(LaneOf(m, ch), c);
      var lane := LaneStep(LaneOf(m, ch), c).0;
      BufferedUpdate(m, ch, lane);
      WithLaneSize(m, ch, lane);
    }
  }

  /** The receiver object. `pendingBytes` is maintained by hand, as in the source. */
  class Reassembler {
    var pending: Lanes
    var pendingBytes: int

    ghost predicate Valid()
      reads this
    {
      pendingBytes == Buffered(pending) && Bounded(pending)
    }

    constructor ()
      ensures Valid() && pending == map[]
    {
      pending := map[];
      pendingBytes := 0;
    }

    /** Feed one chunk. Any chunk at all keeps the bounds, whether it is accepted or refused, and a
        delivered message is within its type's limit. */
    method Receive(h: ChunkHeader, payload: seq<byte>) returns (o: Outcome)
      requires Valid()
      modifies this
      ensures Valid()
      ensures (pending, o) == Push(old(pending), Chunk(h, payload))
      ensures o.Complete? ==> WithinLimit(o.message)
    {
      PushBounded(pending, Chunk(h, payload));
      if |payload| != h.length {
        assert WithLane(pending, h.channel, LaneOf(pending, h.channel)) == pending;
        return Rejected(LengthMismatch);
      }
      if !h.HasMore() && h.channel !in pending {
        assert [] + payload == payload;
        assert pending - {h.channel} == pending;
        if |payload| > MaxMessageLen(h.msgType) {
          return Rejected(TooLong);
        }
        return Complete(Message(h.msgType, payload));
      }
      if h.channel !in pending && |pending| >= MAX_PENDING_CHANNELS {
        return Rejected(TooManyChannels);
      }
      if pendingBytes + |payload| > MAX_PENDING_BYTES {
        return Rejected(TooManyBytes);
      }
      o := Accumulate(h, payload);
    }

    /** The buffering half of `push`, once both caps have let the chunk through. */
    method Accumulate(h: ChunkHeader, payload: seq<byte>) returns (o: Outcome)
      requires pendingBytes == Buffered(pending)
      requires |payload| == h.length
      modifies this
      ensures var (lane, outcome) := LaneStep(LaneOf(old(pending), h.channel), Chunk(h, payload));
              pending == WithLane(old(pending), h.channel, lane) && o == outcome
      ensures pendingBytes == Buffered(pending)
    {
      var before := pending;
      var entry := if h.channel in pending then pending[h.channel] else Pending(h.msgType, []);
      pending := pending[h.channel := entry];
      assert pending - {h.channel} == before - {h.channel};
      BufferedUpdate(before, h.channel, None);
      if entry.msgType != h.msgType || |entry.buf| + |payload| > MaxMessageLen(h.msgType) {
        pending := pending - {h.channel};
        pendingBytes := pendingBytes - |entry.buf|;
        return Rejected(if entry.msgType != h.msgType then TypeMismatch else TooLong);
      }
      var grown := Pending(entry.msgType, entry.buf + payload);
      pending := pending[h.channel := grown];
      pendingBytes := pendingBytes + |payload|;
      assert pending == WithLane(before, h.channel, Some(grown));
      BufferedUpdate(before, h.channel, Some(grown));
      if h.HasMore() {
        return Incomplete;
      }
      assert pending - {h.channel} == before - {h.channel};
      pending := pending - {h.channel};
      pendingBytes := pendingBytes - |grown.buf|;
      return Complete(Message(grown.msgType, grown.buf));
    }
  }
}
