/** The cancel-safe writer, and a writer and a reader joined by a pipe under any script of queueing,
    flushing, reading and closing (crates/oxtransport/src/stream.rs). */
module Exchange {
  import opened Prelude
  import opened Envelope
  import opened Framing
  import opened Stream
  import opened Runs

  lemma {:induction false} BytesOfNext(cs: seq<Chunk>, i: nat)
    requires i < |cs|
    ensures BytesOf(cs[..i + 1]) == BytesOf(cs[..i]) + Wire(cs[i])
  {
    BytesOfSplit(cs[..i], [cs[i]]);
    assert cs[..i + 1] == cs[..i] + [cs[i]];
    assert BytesOf([cs[i]]) == Wire(cs[i]) + BytesOf([]);
  }

  lemma {:induction false} Appended(s: seq<byte>, k: nat, more: seq<byte>)
    requires k <= |s|
    ensures (s + more)[k..] == s[k..] + more
  {
  }

  class ChunkWriter {
    var pending: seq<byte>
    var written: nat

    ghost predicate Valid()
      reads this
    {
      written <= |pending|
    }

    /** Queued bytes the peer does not have yet. */
    ghost function Unsent(): seq<byte>
      requires Valid()
      reads this
    {
      pending[written..]
    }

    constructor ()
      ensures Valid() && Unsent() == []
    {
      pending := [];
      written := 0;
    }

    /** Queue a body's chunks behind everything already queued. */
    method QueueRaw(msgType: byte, channel: u16, body: seq<byte>)
      requires Valid()
      modifies `pending
      ensures Valid() && Unsent() == old(Unsent()) + BytesOf(Fragments(msgType, channel, body))
    {
      var chunks := Fragment(msgType, channel, body);
      ghost var cs := Fragments(msgType, channel, body);
      for i := 0 to |chunks|
        invariant Valid() && Unsent() == old(Unsent()) + BytesOf(cs[..i])
      {
        BytesOfNext(cs, i);
        Appended(pending, written, chunks[i]);
        Assoc(old(Unsent()), BytesOf(cs[..i]), chunks[i]);
        pending := pending + chunks[i];
      }
      assert cs[..|chunks|] == cs;
    }

    /** Write out what is queued. However the pipe behaves and wherever the call is dropped, no byte
        is lost or written twice; success means nothing is left over, and only a stop of the pipe
        prevents it. */
    method Flush(pipe: Pipe) returns (ok: bool)
      requires Valid() && pipe.Valid()
      modifies this, pipe`sent, pipe`stops
      ensures Valid() && pipe.Valid() && old(pipe.sent) <= pipe.sent
      ensures pipe.sent + Unsent() == old(pipe.sent) + old(Unsent())
      ensures ok ==> Unsent() == []
      ensures pipe.stops == old(pipe.stops) + if ok then 0 else 1
    {
      while written < |pending|
        invariant Valid() && pipe.Valid() && old(pipe.sent) <= pipe.sent
        invariant pipe.sent + Unsent() == old(pipe.sent) + old(Unsent())
        invariant pipe.stops == old(pipe.stops)
        decreases |pending| - written
      {
        ghost var sent, unsent := pipe.sent, Unsent();
        var o := pipe.Write(pending[written..]);
        if o.WriteStopped? || o.n == 0 {
          assert unsent[..0] == [];
          return false;
        }
        written := written + o.n;
        assert unsent == unsent[..o.n] + Unsent();
        assert sent + (unsent[..o.n] + Unsent()) == (sent + unsent[..o.n]) + Unsent();
      }
      assert Unsent() == [];
      pending := [];
      written := 0;
      assert Unsent() == [];
      ok := true;
    }
  }

  lemma {:induction false} CompletionsAt(q: seq<Outgoing>, i: nat)
    requires i < |q|
    ensures Completions(q)[i] == Complete(q[i].msg)
  {
    if i > 0 {
      CompletionsAt(q[1..], i - 1);
    }
  }

  ghost predicate Sendable(q: seq<Outgoing>) {
    forall i :: 0 <= i < |q| ==> WithinLimit(q[i].msg)
  }

  /** `got` is the front of the queue, in order and byte-equal. */
  ghost predicate FrontOf(got: seq<Message>, q: seq<Outgoing>) {
    |got| <= |q| && forall i :: 0 <= i < |got| ==> got[i] == q[i].msg
  }

  /** From a conforming stream a reader returns nothing but the next queued message. */
  lemma {:induction false} NextIsQueued(q: seq<Outgoing>, w: seq<byte>, before: seq<Outcome>, r: ReadResult)
    requires Sendable(q) && w <= BytesOf(ChunkStream(q))
    requires Returned(w) == before + ResultOf(r)
    requires r.BadHeader? ==> Stuck(w)
    ensures !r.BadHeader? && !r.Refused?
    ensures r.Got? ==> |before| < |q| && r.message == q[|before|].msg
  {
    StreamRefinesQueue(q, w);
    if ResultOf(r) != [] {
      assert Returned(w)[|before|] == ResultOf(r)[0];
      CompletionsAt(q, |before|);
    }
  }

  function Gained(r: ReadResult): seq<Message> {
    if r.Got? then [r.message] else []
  }

  /** Both ends of a link, as values: the bytes on the wire and the unsent ones are the framing of what was
      queued, and what was got is the front of that. */
  ghost predicate Joined(q: seq<Outgoing>, sent: seq<byte>, taken: nat, unsent: seq<byte>, got: seq<Message>) {
    && Sendable(q) && taken <= |sent| && sent + unsent == BytesOf(ChunkStream(q))
    && |Returned(sent[..taken])| == |got| && FrontOf(got, q)
  }

  lemma {:induction false} JoinedQueue(
    q: seq<Outgoing>, sent: seq<byte>, taken: nat, unsent: seq<byte>, got: seq<Message>, out: Outgoing)
    requires Joined(q, sent, taken, unsent, got) && WithinLimit(out.msg)
    ensures Joined(q + [out], sent, taken,
                   unsent + BytesOf(Fragments(out.msg.msgType, out.channel, out.msg.payload)), got)
  {
    QueueGrows(q, out, sent, unsent);
    assert forall i :: 0 <= i < |got| ==> (q + [out])[i] == q[i];
  }

  lemma {:induction false} JoinedFlush(
    q: seq<Outgoing>, sent: seq<byte>, taken: nat, unsent: seq<byte>, got: seq<Message>,
    sent': seq<byte>, unsent': seq<byte>)
    requires Joined(q, sent, taken, unsent, got) && sent <= sent' && sent' + unsent' == sent + unsent
    ensures sent'[..taken] == sent[..taken] && Joined(q, sent', taken, unsent', got)
  {
  }

  lemma {:induction false} NextExtends(
    q: seq<Outgoing>, sent: seq<byte>, old': nat, taken: nat, unsent: seq<byte>, got: seq<Message>, r: ReadResult)
    requires Joined(q, sent, old', unsent, got) && taken <= |sent|
    requires Returned(sent[..taken]) == Returned(sent[..old']) + ResultOf(r)
    requires r.BadHeader? ==> Stuck(sent[..taken])
    ensures !r.BadHeader? && !r.Refused? && Joined(q, sent, taken, unsent, got + Gained(r))
  {
    assert sent[..taken] <= sent + unsent;
    NextIsQueued(q, sent[..taken], Returned(sent[..old']), r);
    if r.Got? {
      FrontGrows(got, q, r.message);
    } else {
      assert got + Gained(r) == got;
    }
  }

  lemma {:induction false} FrontGrows(got: seq<Message>, q: seq<Outgoing>, m: Message)
    requires FrontOf(got, q) && |got| < |q| && m == q[|got|].msg
    ensures FrontOf(got + [m], q)
  {
  }

  lemma {:induction false} QueueGrows(q: seq<Outgoing>, out: Outgoing, sent: seq<byte>, unsent: seq<byte>)
    requires sent + unsent == BytesOf(ChunkStream(q))
    ensures sent + (unsent + BytesOf(Fragments(out.msg.msgType, out.channel, out.msg.payload))) ==
            BytesOf(ChunkStream(q + [out]))
  {
    var fs := Fragments(out.msg.msgType, out.channel, out.msg.payload);
    ChunkStreamSnoc(q, out);
    BytesOfSplit(ChunkStream(q), fs);
    Assoc(sent, unsent, BytesOf(fs));
  }

  /** A writer and a reader joined by a pipe. `queued` and `got` record what went in and came out,
      `unflushed` what was queued since the last flush, and `ends` how often a read found the end. */
  class Link {
    const writer: ChunkWriter
    const pipe: Pipe
    const reader: ChunkReader
    const reassembler: Reassembler
    ghost var queued: seq<Outgoing>
    ghost var unflushed: seq<Outgoing>
    ghost var ends: nat
    var got: seq<Message>

    ghost predicate Valid()
      reads this, writer, pipe, reader, reader.headerBuf, reassembler
    {
      && writer.Valid() && pipe.Valid() && reassembler.Valid()
      && reader.Represents(pipe.Consumed(), reassembler.pending)
      && Joined(queued, pipe.sent, pipe.taken, writer.Unsent(), got)
    }

    /** Unless the pipe has stopped somewhere, what is unsent was queued since the last flush. */
    ghost predicate Flushed()
      reads this, writer, pipe
    {
      writer.Valid() && FlushedTo(pipe.stops, writer.Unsent(), unflushed)
    }

    /** Messages got, ends met and stops: what read calls can end in. */
    ghost function Outcomes(): nat
      reads this, pipe
    {
      |got| + ends + pipe.stops
    }

    constructor ()
      ensures Valid() && Flushed() && queued == [] && unflushed == [] && got == [] && Outcomes() == 0
      ensures fresh(writer) && fresh(pipe) && fresh(reader) && fresh(reader.headerBuf) && fresh(reassembler)
      ensures ends == 0 && pipe.stops == 0
    {
      writer := new ChunkWriter();
      pipe := new Pipe();
      reader := new ChunkReader();
      reassembler := new Reassembler();
      queued := [];
      unflushed := [];
      ends := 0;
      got := [];
    }

    method Queue(out: Outgoing)
      requires Valid() && Flushed() && WithinLimit(out.msg)
      modifies `queued, `unflushed, writer
      ensures Valid() && Flushed() && queued == old(queued) + [out] && unflushed == old(unflushed) + [out]
    {
      JoinedQueue(queued, pipe.sent, pipe.taken, writer.Unsent(), got, out);
      UnflushedGrows(pipe.stops, writer.Unsent(), unflushed, out);
      writer.QueueRaw(out.msg.msgType, out.channel, out.msg.payload);
      queued := queued + [out];
      unflushed := unflushed + [out];
    }

    method Flush() returns (ok: bool)
      requires Valid()
      modifies `unflushed, writer, pipe`sent, pipe`stops
      ensures Valid() && Flushed() && unflushed == [] && pipe.stops == old(pipe.stops) + if ok then 0 else 1
    {
      ghost var sent, unsent := pipe.sent, writer.Unsent();
      ok := writer.Flush(pipe);
      JoinedFlush(queued, sent, pipe.taken, unsent, got, pipe.sent, writer.Unsent());
      unflushed := [];
    }

    /** Every read call yields the next queued message, meets the end of a closed and fully read stream,
        or is stopped by the pipe; no other error, and nothing else. */
    method Next() returns (r: ReadResult)
      requires Valid() && Flushed()
      modifies `got, `ends, reader, reader.headerBuf, pipe`taken, pipe`stops, reassembler
      ensures Valid() && Flushed()
      ensures r.Got? || r.Dropped? || (r.UnexpectedEof? && pipe.closed && pipe.taken == |pipe.sent|)
      ensures got == old(got) + Gained(r) && pipe.stops == old(pipe.stops) + if r.Dropped? then 1 else 0
      ensures ends == old(ends) + if r.UnexpectedEof? then 1 else 0
    {
      ghost var taken := pipe.taken;
      r := reader.NextMessage(pipe, reassembler);
      NextExtends(queued, pipe.sent, taken, pipe.taken, writer.Unsent(), got, r);
      FlushedLater(old(pipe.stops), pipe.stops, writer.Unsent(), unflushed);
      Record(r);
    }

    method Record(r: ReadResult)
      requires writer.Valid() && pipe.Valid() && reassembler.Valid()
      requires reader.Represents(pipe.Consumed(), reassembler.pending)
      requires Joined(queued, pipe.sent, pipe.taken, writer.Unsent(), got + Gained(r)) && Flushed()
      modifies `got, `ends
      ensures Valid() && Flushed()
      ensures got == old(got) + Gained(r) && ends == old(ends) + if r.UnexpectedEof? then 1 else 0
    {
      got := got + Gained(r);
      ends := ends + if r.UnexpectedEof? then 1 else 0;
    }

    /** One step of a script. */
    method Perform(action: Action)
      requires Valid() && Flushed() && (action.Enqueue? ==> WithinLimit(action.out.msg))
      modifies this, writer, pipe, reader, reader.headerBuf, reassembler
      ensures Valid() && Flushed()
      ensures queued == old(queued) + QueuedIn(action) && unflushed == UnflushedAfter(old(unflushed), action)
      ensures Outcomes() >= old(Outcomes()) + if action.Read? then 1 else 0
      ensures ends > old(ends) ==> pipe.closed
      ensures old(pipe.closed) ==> pipe.closed
    {
      ghost var q, u := queued, unflushed;
      assert q + [] == q && u + [] == u;
      match action {
        case Enqueue(out) =>
          Queue(out);
        case Write =>
          var _ := Flush();
        case Read =>
          var _ := Next();
        case Close =>
          Hang();
      }
    }

    /** The writing end goes away. */
    method Hang()
      requires Valid() && Flushed()
      modifies pipe`closed
      ensures Valid() && Flushed() && pipe.closed
    {
      pipe.Close();
    }

    /** The first `k` actions are done. */
    ghost predicate Through(script: seq<Action>, k: nat)
      requires k <= |script|
      reads this, writer, pipe, reader, reader.headerBuf, reassembler
    {
      && Valid() && Flushed()
      && queued == QueuedBy(script[..k]) && unflushed == UnflushedBy(script[..k])
      && ReadsIn(script[..k]) <= Outcomes() && (!pipe.closed ==> ends == 0)
    }

    method Advance(script: seq<Action>, k: nat)
      requires k < |script| && Through(script, k) && (script[k].Enqueue? ==> WithinLimit(script[k].out.msg))
      modifies this, writer, pipe, reader, reader.headerBuf, reassembler
      ensures Through(script, k + 1)
    {
      ghost var before := script[..k];
      assert script[..k + 1][..k] == before;
      Perform(script[k]);
    }

    /** A whole script, on a link that has done nothing yet. */
    method Run(script: seq<Action>)
      requires Through([], 0)
      requires forall i :: 0 <= i < |script| && script[i].Enqueue? ==> WithinLimit(script[i].out.msg)
      modifies this, writer, pipe, reader, reader.headerBuf, reassembler
      ensures Through(script, |script|)
    {
      for k := 0 to |script|
        invariant Through(script, k)
      {
        Advance(script, k);
      }
    }

    /** Nothing unsent and nothing unread: everything queued has been delivered. */
    lemma DrainedDelivers()
      requires Valid() && pipe.taken == |pipe.sent| && writer.Unsent() == []
      ensures |got| == |queued|
    {
      assert pipe.Consumed() == BytesOf(ChunkStream(queued));
      StreamRefinesQueue(queued, pipe.Consumed());
    }
  }

  ghost predicate FlushedTo(stops: nat, unsent: seq<byte>, unflushed: seq<Outgoing>) {
    stops == 0 ==> unsent == BytesOf(ChunkStream(unflushed))
  }

  lemma {:induction false} FlushedLater(before: nat, stops: nat, unsent: seq<byte>, unflushed: seq<Outgoing>)
    requires FlushedTo(before, unsent, unflushed) && before <= stops
    ensures FlushedTo(stops, unsent, unflushed)
  {
  }

  lemma {:induction false} UnflushedGrows(stops: nat, unsent: seq<byte>, q: seq<Outgoing>, out: Outgoing)
    requires FlushedTo(stops, unsent, q)
    ensures FlushedTo(stops, unsent + BytesOf(Fragments(out.msg.msgType, out.channel, out.msg.payload)), q + [out])
  {
    ChunkStreamSnoc(q, out);
    BytesOfSplit(ChunkStream(q), Fragments(out.msg.msgType, out.channel, out.msg.payload));
  }

  datatype Action = Enqueue(out: Outgoing) | Write | Read | Close

  function QueuedIn(action: Action): seq<Outgoing> {
    match action
    case Enqueue(out) => [out]
    case _ => []
  }

  function QueuedBy(script: seq<Action>): seq<Outgoing> {
    if script == [] then [] else QueuedBy(script[..|script| - 1]) + QueuedIn(script[|script| - 1])
  }

  function UnflushedAfter(before: seq<Outgoing>, action: Action): seq<Outgoing> {
    if action.Write? then [] else before + QueuedIn(action)
  }

  /** What a script has queued since its last flush. */
  function UnflushedBy(script: seq<Action>): seq<Outgoing> {
    if script == [] then [] else UnflushedAfter(UnflushedBy(script[..|script| - 1]), script[|script| - 1])
  }

  function ReadsIn(script: seq<Action>): nat {
    if script == [] then 0 else ReadsIn(script[..|script| - 1]) + if script[|script| - 1].Read? then 1 else 0
  }

  /** Main result, over every script and every behaviour of the pipe at every await: what has been
      read is always a prefix of what has been queued, in order and byte-equal, and all of it once
      nothing is left unsent or unread. Nothing but the pipe holds a message back: every read call has
      got one, met the end of a closed stream, or been stopped by the pipe, and if the pipe never stopped,
      only what was queued since the last flush is unsent. */
  method RunScript(script: seq<Action>) returns (link: Link)
    requires forall i :: 0 <= i < |script| && script[i].Enqueue? ==> WithinLimit(script[i].out.msg)
    ensures link.Valid() && link.queued == QueuedBy(script)
    ensures FrontOf(link.got, QueuedBy(script))
    ensures link.pipe.taken == |link.pipe.sent| && link.writer.Unsent() == [] ==>
              |link.got| == |QueuedBy(script)|
    ensures ReadsIn(script) <= |link.got| + link.ends + link.pipe.stops
    ensures !link.pipe.closed ==> link.ends == 0
    ensures link.pipe.stops == 0 ==> link.writer.Unsent() == BytesOf(ChunkStream(UnflushedBy(script)))
  {
    link := new Link();
    link.Run(script);
    assert script[..|script|] == script;
    if link.pipe.taken == |link.pipe.sent| && link.writer.Unsent() == [] {
      link.DrainedDelivers();
    }
  }
}
