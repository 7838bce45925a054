/** A pipe and the cancel-safe chunk reader (crates/oxtransport/src/stream.rs). Every await is a
    nondeterministic step of the pipe: some bytes move, or the future is dropped and none do. */
module Stream {
  import opened Prelude
  import opened Envelope
  import opened Framing
  import opened Runs

  datatype ReadOutcome = Moved(bytes: seq<byte>) | Eof | ReadStopped

  datatype WriteOutcome = Accepted(n: nat) | WriteStopped

  /** One direction of a connection. `sent` is everything ever written to it. */
  class Pipe {
    var sent: seq<byte>
    var taken: nat
    var closed: bool
    /** Awaits that ended without a byte moved, end of file aside: calls dropped there, and writes that
        took nothing. */
    ghost var stops: nat

    ghost predicate Valid()
      reads this
    {
      taken <= |sent|
    }

    ghost function Consumed(): seq<byte>
      requires Valid()
      reads this
    {
      sent[..taken]
    }

    constructor ()
      ensures Valid() && sent == [] && taken == 0 && !closed && stops == 0
    {
      sent := [];
      taken := 0;
      closed := false;
      stops := 0;
    }

    /** An awaited `read` into a buffer with room for `room` bytes. */
    method Read(room: nat) returns (o: ReadOutcome)
      requires Valid() && room > 0
      modifies this`taken, this`stops
      ensures Valid() && taken >= old(taken)
      ensures o.Moved? ==> 1 <= |o.bytes| <= room && Consumed() == old(Consumed()) + o.bytes
      ensures !o.Moved? ==> taken == old(taken)
      ensures o.Eof? ==> closed && taken == |sent|
      ensures stops == old(stops) + if o.ReadStopped? then 1 else 0
    {
      o := ReadStopped;
      if * {
        if taken < |sent| {
          var n: nat :| 1 <= n <= room && n <= |sent| - taken;
          o := Moved(sent[taken..taken + n]);
          taken := taken + n;
        } else if closed {
          o := Eof;
        }
      }
      if o.ReadStopped? {
        stops := stops + 1;
      }
    }

    /** The writing end goes away, with whatever it has not written. */
    method Close()
      requires Valid()
      modifies this`closed
      ensures Valid() && closed
    {
      closed := true;
    }

    /** An awaited `write` of `buf`; nothing goes through a closed pipe. */
    method Write(buf: seq<byte>) returns (o: WriteOutcome)
      requires Valid()
      modifies this`sent, this`stops
      ensures Valid() && old(sent) <= sent
      ensures o.Accepted? ==> !closed && o.n <= |buf| && sent == old(sent) + buf[..o.n]
      ensures o.WriteStopped? ==> sent == old(sent)
      ensures stops == old(stops) + if o == WriteStopped || o == Accepted(0) then 1 else 0
    {
      o := WriteStopped;
      if !closed {
        if * {
          var n: nat :| n <= |buf|;
          sent := sent + buf[..n];
          o := Accepted(n);
        }
      }
      if o == WriteStopped || o == Accepted(0) {
        stops := stops + 1;
      }
    }
  }

  // ---------------------------------------------------------------- reading

  datatype ReadState = InHeader(filled: nat) | InPayload(header: ChunkHeader, filled: nat)

  datatype ReadResult =
    | Got(message: Message)
    | Refused(error: Error)
    | BadHeader
    | UnexpectedEof
    | Dropped

  /** How often the pipe has stopped when a phase ends so: once if the call is dropped there. */
  function Stops(r: Option<ReadResult>): nat {
    if r == Some(Dropped) then 1 else 0
  }

  /** What a finished call adds to the list of results. */
  function ResultOf(r: ReadResult): seq<Outcome> {
    match r
    case Got(m) => [Complete(m)]
    case Refused(e) => [Rejected(e)]
    case _ => []
  }

  /** Bytes read into a buffer behind what it already holds. */
  method Store(buf: array<byte>, at: nat, bytes: seq<byte>)
    requires at + |bytes| <= buf.Length
    modifies buf
    ensures buf[..at + |bytes|] == old(buf[..at]) + bytes
  {
    ghost var held := buf[..at];
    forall i | 0 <= i < |bytes| {
      buf[at + i] := bytes[i];
    }
    assert forall k :: 0 <= k < at ==> buf[k] == held[k];
    assert forall k :: at <= k < at + |bytes| ==> buf[k] == bytes[k - at];
  }

  class ChunkReader {
    const headerBuf: array<byte>
    var payload: seq<byte>
    var state: ReadState

    ghost predicate WellFormed()
      reads this, headerBuf
    {
      && headerBuf.Length == CHUNK_HEADER_LEN
      && match state
         case InHeader(filled) => filled <= CHUNK_HEADER_LEN
         case InPayload(h, filled) =>
           DecodeHeader(headerBuf[..]) == Some(h) && |payload| == h.length && filled <= |payload|
    }

    /** The bytes of the chunk in progress. */
    ghost function Held(): seq<byte>
      requires WellFormed()
      reads this, headerBuf
    {
      match state
      case InHeader(filled) => headerBuf[..filled]
      case InPayload(_, filled) => headerBuf[..] + payload[..filled]
    }

    /** The reader and the reassembler are exactly where the consumed bytes put them. */
    ghost predicate Represents(w: seq<byte>, lanes: Lanes)
      reads this, headerBuf
    {
      WellFormed() && Held() == Tail(w) && lanes == End(Push, map[], Chunks(w))
    }

    constructor ()
      ensures Represents([], map[]) && fresh(headerBuf)
    {
      headerBuf := new byte[CHUNK_HEADER_LEN];
      payload := [];
      state := InHeader(0);
    }

    /** The header loop: fill `headerBuf`, recording progress after every read. `done` is the stream
        before the chunk in progress. */
    method FillHeader(pipe: Pipe, ghost done: seq<byte>) returns (stop: Option<ReadResult>)
      requires pipe.Valid() && WellFormed() && state.InHeader?
      requires pipe.Consumed() == done + Held()
      modifies `state, headerBuf, pipe`taken, pipe`stops
      ensures pipe.Valid() && WellFormed() && state.InHeader?
      ensures old(pipe.taken) <= pipe.taken && pipe.Consumed() == done + Held()
      ensures stop.None? ==> state.filled == CHUNK_HEADER_LEN
      ensures stop.Some? ==> state.filled < CHUNK_HEADER_LEN && Interrupted(stop.value, pipe)
      ensures pipe.stops == old(pipe.stops) + Stops(stop)
    {
      while state.filled < CHUNK_HEADER_LEN
        invariant pipe.Valid() && WellFormed() && state.InHeader?
        invariant old(pipe.taken) <= pipe.taken && pipe.Consumed() == done + Held()
        invariant pipe.stops == old(pipe.stops)
        decreases CHUNK_HEADER_LEN - state.filled
      {
        var filled := state.filled;
        ghost var held := Held();
        var o := pipe.Read(CHUNK_HEADER_LEN - filled);
        if !o.Moved? {
          return Some(if o.Eof? then UnexpectedEof else Dropped);
        }
        Store(headerBuf, filled, o.bytes);
        state := InHeader(filled + |o.bytes|);
        Assoc(done, held, o.bytes);
      }
      stop := None;
    }

    /** The payload loop. */
    method FillPayload(pipe: Pipe, ghost done: seq<byte>) returns (stop: Option<ReadResult>)
      requires pipe.Valid() && WellFormed() && state.InPayload?
      requires pipe.Consumed() == done + Held()
      modifies `state, `payload, pipe`taken, pipe`stops
      ensures pipe.Valid() && WellFormed() && state.InPayload?
      ensures old(pipe.taken) <= pipe.taken && pipe.Consumed() == done + Held()
      ensures state.header == old(state.header)
      ensures stop.None? ==> state.filled == |payload|
      ensures stop.Some? ==> state.filled < |payload| && Interrupted(stop.value, pipe)
      ensures pipe.stops == old(pipe.stops) + Stops(stop)
    {
      var header := state.header;
      while state.filled < |payload|
        invariant pipe.Valid() && WellFormed() && state.InPayload? && state.header == header
        invariant old(pipe.taken) <= pipe.taken && pipe.Consumed() == done + Held()
        invariant pipe.stops == old(pipe.stops)
        decreases |payload| - state.filled
      {
        var filled := state.filled;
        ghost var held := Held();
        var o := pipe.Read(|payload| - filled);
        if !o.Moved? {
          return Some(if o.Eof? then UnexpectedEof else Dropped);
        }
        ghost var got := payload[..filled];
        payload := payload[..filled] + o.bytes + payload[filled + |o.bytes|..];
        state := InPayload(header, filled + |o.bytes|);
        assert payload[..filled + |o.bytes|] == got + o.bytes;
        Assoc(headerBuf[..], got, o.bytes);
        Assoc(done, held, o.bytes);
      }
      stop := None;
    }

    /** Mid-call: `done` is chunk-aligned and fully processed, the rest of the stream is held. */
    ghost predicate Tracks(pipe: Pipe, reassembler: Reassembler, done: seq<byte>)
      reads this, headerBuf, pipe, reassembler
    {
      && pipe.Valid() && reassembler.Valid() && WellFormed()
      && pipe.Consumed() == done + Held() && Tail(done) == []
      && reassembler.pending == End(Push, map[], Chunks(done))
    }

    /** At a return: nothing but an unfinished chunk is held, and `r` is what `done` still owed. */
    ghost predicate Settles(pipe: Pipe, reassembler: Reassembler, done: seq<byte>, r: ReadResult)
      reads this, headerBuf, pipe, reassembler
    {
      && pipe.Valid() && reassembler.Valid() && Represents(pipe.Consumed(), reassembler.pending)
      && Returned(pipe.Consumed()) == Returned(done) + ResultOf(r)
      && (r.BadHeader? ==> Stuck(pipe.Consumed()))
      && (r.UnexpectedEof? ==> pipe.closed && pipe.taken == |pipe.sent|)
    }

    /** A call that stops in the middle of a chunk leaves the reader at rest there. */
    lemma Rests(pipe: Pipe, reassembler: Reassembler, done: seq<byte>, r: ReadResult)
      requires Tracks(pipe, reassembler, done) && Interrupted(r, pipe)
      requires match state
               case InHeader(filled) => filled < CHUNK_HEADER_LEN
               case InPayload(_, filled) => filled < |payload|
      ensures Settles(pipe, reassembler, done, r)
    {
      if state.InPayload? {
        Unfinished(headerBuf[..], state.header, payload[..state.filled]);
      }
      AtRest(done, Held());
    }

    method HeaderPhase(pipe: Pipe, reassembler: Reassembler, ghost done: seq<byte>) returns (r: Option<ReadResult>)
      requires Tracks(pipe, reassembler, done) && state.InHeader?
      modifies `state, `payload, headerBuf, pipe`taken, pipe`stops
      ensures old(pipe.taken) <= pipe.taken
      ensures r.None? ==> Tracks(pipe, reassembler, done) && state.InPayload?
      ensures r.Some? ==> Settles(pipe, reassembler, done, r.value)
      ensures pipe.stops == old(pipe.stops) + Stops(r)
    {
      r := FillHeader(pipe, done);
      if r.Some? {
        Rests(pipe, reassembler, done, r.value);
        return;
      }
      assert headerBuf[..CHUNK_HEADER_LEN] == headerBuf[..] == Held();
      var h := DecodeHeader(headerBuf[..]);
      if h.None? {
        AtRest(done, Held());
        return Some(BadHeader);
      }
      payload := seq(h.value.length, _ => 0);
      state := InPayload(h.value, 0);
      assert headerBuf[..] + payload[..0] == headerBuf[..];
    }

    /** Hand a whole chunk to the reassembler and go back to reading headers. */
    method FinishChunk(pipe: Pipe, reassembler: Reassembler, ghost done: seq<byte>) returns (o: Outcome)
      requires Tracks(pipe, reassembler, done) && state.InPayload? && state.filled == |payload|
      modifies `state, reassembler
      ensures state == InHeader(0) && Tracks(pipe, reassembler, pipe.Consumed())
      ensures |done| < |pipe.Consumed()|
      ensures Returned(pipe.Consumed()) == Returned(done) + if o.Incomplete? then [] else [o]
    {
      var header := state.header;
      assert payload[..|payload|] == payload;
      ghost var whole := Held();
      Finished(headerBuf[..], header, payload);
      Absorb(done, whole, Chunk(header, payload));
      assert whole != [];
      state := InHeader(0);
      o := reassembler.Receive(header, payload);
      assert pipe.Consumed() + [] == pipe.Consumed();
    }

    method PayloadPhase(pipe: Pipe, reassembler: Reassembler, ghost done: seq<byte>)
      returns (r: Option<ReadResult>, ghost done': seq<byte>)
      requires Tracks(pipe, reassembler, done) && state.InPayload?
      modifies `state, `payload, pipe`taken, pipe`stops, reassembler
      ensures old(pipe.taken) <= pipe.taken
      ensures r.None? ==> Tracks(pipe, reassembler, done') && state.InHeader?
      ensures r.None? ==> |done| < |done'| && Returned(done') == Returned(done)
      ensures r.Some? ==> Settles(pipe, reassembler, done, r.value)
      ensures pipe.stops == old(pipe.stops) + Stops(r)
    {
      done' := done;
      r := FillPayload(pipe, done);
      if r.Some? {
        Rests(pipe, reassembler, done, r.value);
        return;
      }
      var o := FinishChunk(pipe, reassembler, done);
      done' := pipe.Consumed();
      if !o.Incomplete? {
        r := Some(if o.Complete? then Got(o.message) else Refused(o.error));
      }
    }

    /** Read until the reassembler yields a result. Whatever the pipe does at each await, the reader
        stands exactly where the consumed bytes put it, and the call returns exactly the next result
        those bytes contain, if they contain a new one: a dropped call loses and repeats nothing. Only the
        pipe can cut a call short: unless it stops, the call ends with a message, a refusal, an
        undecodable header or the end of the stream. */
    method NextMessage(pipe: Pipe, reassembler: Reassembler) returns (r: ReadResult)
      requires pipe.Valid() && reassembler.Valid()
      requires Represents(pipe.Consumed(), reassembler.pending)
      modifies `state, `payload, headerBuf, pipe`taken, pipe`stops, reassembler
      ensures pipe.Valid() && reassembler.Valid() && old(pipe.taken) <= pipe.taken
      ensures Represents(pipe.Consumed(), reassembler.pending)
      ensures Returned(pipe.Consumed()) == Returned(old(pipe.Consumed())) + ResultOf(r)
      ensures r.BadHeader? ==> Stuck(pipe.Consumed())
      ensures r.UnexpectedEof? ==> pipe.closed && pipe.taken == |pipe.sent|
      ensures pipe.stops == old(pipe.stops) + if r.Dropped? then 1 else 0
    {
      ghost var before := pipe.Consumed();
      ghost var done := Body(before);
      BodySplit(before);
      BodyScans(before);
      while true
        invariant Tracks(pipe, reassembler, done) && Returned(done) == Returned(before)
        invariant old(pipe.taken) <= pipe.taken && pipe.sent == old(pipe.sent)
        invariant pipe.stops == old(pipe.stops)
        decreases |pipe.sent| - |done|, if state.InHeader? then 1 else 0
      {
        var step: Option<ReadResult>;
        if state.InHeader? {
          step := HeaderPhase(pipe, reassembler, done);
        } else {
          step, done := PayloadPhase(pipe, reassembler, done);
        }
        if step.Some? {
          return step.value;
        }
      }
    }
  }

  /** An undecodable header at the front: the stream can never be resynchronised. */
  ghost predicate Stuck(w: seq<byte>) {
    |Tail(w)| >= CHUNK_HEADER_LEN && DecodeHeader(Tail(w)).None?
  }

  /** A call that stops early either was dropped or found the stream at its end. */
  ghost predicate Interrupted(r: ReadResult, pipe: Pipe)
    reads pipe
  {
    r == Dropped || (r == UnexpectedEof && pipe.closed && pipe.taken == |pipe.sent|)
  }

  lemma {:induction false} AtRest(done: seq<byte>, held: seq<byte>)
    requires Tail(done) == [] && FirstChunk(held).None?
    ensures Tail(done + held) == held && Chunks(done + held) == Chunks(done)
  {
    ScanResumes(done, held);
  }

  lemma {:induction false} Unfinished(head: seq<byte>, h: ChunkHeader, got: seq<byte>)
    requires |head| == CHUNK_HEADER_LEN && DecodeHeader(head) == Some(h) && |got| < h.length
    ensures FirstChunk(head + got).None?
  {
    DecodeHeaderExtends(head, got);
  }

  lemma {:induction false} Finished(head: seq<byte>, h: ChunkHeader, got: seq<byte>)
    requires |head| == CHUNK_HEADER_LEN && DecodeHeader(head) == Some(h) && |got| == h.length
    ensures Chunks(head + got) == [Chunk(h, got)] && Tail(head + got) == []
  {
    DecodeHeaderExtends(head, got);
    var w := head + got;
    assert w[CHUNK_HEADER_LEN..CHUNK_HEADER_LEN + |got|] == got;
    assert FirstChunk(w) == Some(Chunk(h, got));
    assert w[ChunkLen(Chunk(h, got))..] == [];
    assert Chunks([]) == [];
  }

  /** One more whole chunk on the stream is one more push on the receiver. */
  lemma {:induction false} Absorb(done: seq<byte>, whole: seq<byte>, c: Chunk)
    requires Tail(done) == [] && Chunks(whole) == [c] && Tail(whole) == []
    ensures Tail(done + whole) == []
    ensures var (lanes, o) := Push(End(Push, map[], Chunks(done)), c);
            && End(Push, map[], Chunks(done + whole)) == lanes
            && Returned(done + whole) == Returned(done) + if o.Incomplete? then [] else [o]
  {
    ScanResumes(done, whole);
    RunSnoc(Push, map[], Chunks(done), c);
    var o := Push(End(Push, map[], Chunks(done)), c).1;
    ResultsSplit(Outs(Push, map[], Chunks(done)), [o]);
    assert Keep(Settled, [o][1..]) == [];
  }
}
