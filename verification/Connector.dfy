/** The RDP connection sequence up to the end of channel join (crates/oxrdp-core/src/connector.rs;
    section 1.3.1.1 of MS-RDPBCGR). Server frames are taken already decoded; `Garbage` is a frame that
    does not decode as what the state expects. */
module Connector {
  import opened Prelude
  import opened Runs

  const PROTOCOL_RDP := 0

  datatype State =
    | Initial | SentConnectionRequest | NeedTls | SentConnectInitial | SentErectAttach | JoiningChannels | Connected

  datatype Nego = Response(selected: u32) | Failure(code: u32)

  datatype Network = Network(io: u16, ids: seq<u16>)

  datatype Input =
    | Start
    | ResumeAfterTls
    | ConnectionConfirm(nego: Option<Nego>)
    | ConnectResponse(result: nat, network: Option<Network>)
    | AttachUserConfirm(result: nat, userId: u16)
    | ChannelJoinConfirm(result: nat, channel: u16)
    | Garbage

  datatype Output =
    | SendConnectionRequest
    | UpgradeToTls
    | SendConnectInitial
    | SendErectDomain
    | SendAttachUser
    | SendJoin(user: u16, channel: u16)
    | Done(selected: u32, user: u16, io: u16)

  datatype Error =
    | Decode | UnexpectedState | NegotiationFailed(code: u32) | ConnectFailed(result: nat) | JoinFailed(channel: u16)

  datatype Result = Ok(outputs: seq<Output>) | Err(error: Error)

  datatype Conn = Conn(state: State, selected: u32, user: u16, io: u16, queue: seq<u16>, index: nat)

  const NEW: Conn := Conn(Initial, PROTOCOL_RDP, 0, 0, [], 0)

  function Step(c: Conn, input: Input): (Conn, Result) {
    match (c.state, input)
    case (Initial, Start) => (c.(state := SentConnectionRequest), Ok([SendConnectionRequest]))
    case (NeedTls, ResumeAfterTls) => (c.(state := SentConnectInitial), Ok([SendConnectInitial]))
    case (SentConnectionRequest, ConnectionConfirm(nego)) =>
      (match nego
       case Some(Failure(code)) => (c, Err(NegotiationFailed(code)))
       case Some(Response(selected)) =>
         if selected != PROTOCOL_RDP then (c.(selected := selected, state := NeedTls), Ok([UpgradeToTls]))
         else (c.(selected := selected, state := SentConnectInitial), Ok([SendConnectInitial]))
       case None => (c.(state := SentConnectInitial), Ok([SendConnectInitial])))
    case (SentConnectInitial, ConnectResponse(result, network)) =>
      if result != 0 then (c, Err(ConnectFailed(result)))
      else
        var n := if network.Some? then network.value else Network(0, []);
        (c.(io := n.io, queue := n.ids, state := SentErectAttach), Ok([SendErectDomain, SendAttachUser]))
    case (SentErectAttach, AttachUserConfirm(result, userId)) =>
      if result != 0 then (c, Err(ConnectFailed(result)))
      else (c.(user := userId, queue := [userId, c.io] + c.queue, index := 0, state := JoiningChannels),
            Ok([SendJoin(userId, userId)]))
    case (JoiningChannels, ChannelJoinConfirm(result, channel)) =>
      if result != 0 then (c, Err(JoinFailed(channel)))
      else if c.index + 1 < |c.queue| then (c.(index := c.index + 1), Ok([SendJoin(c.user, c.queue[c.index + 1])]))
      else (c.(index := c.index + 1, state := Connected), Ok([Done(c.selected, c.user, c.io)]))
    case (_, _) =>
      (c, Err(if input.Start? || input.ResumeAfterTls? || c.state.Initial? || c.state.NeedTls? || c.state.Connected?
              then UnexpectedState else Decode))
  }

  // ---------------------------------------------------------------- what has been sent

  function Joins(user: u16, queue: seq<u16>): (r: seq<Output>)
    ensures |r| == |queue|
  {
    seq(|queue|, i requires 0 <= i < |queue| => SendJoin(user, queue[i]))
  }

  /** The upgrade happens exactly when something other than plain RDP was selected. */
  function Tls(c: Conn): seq<Output> {
    if c.selected != PROTOCOL_RDP then [UpgradeToTls] else []
  }

  /** The whole conversation so far, as the connection sequence prescribes it. */
  function Prescribed(c: Conn): seq<Output> {
    match c.state
    case Initial => []
    case SentConnectionRequest => [SendConnectionRequest]
    case NeedTls => [SendConnectionRequest, UpgradeToTls]
    case SentConnectInitial => [SendConnectionRequest] + Tls(c) + [SendConnectInitial]
    case SentErectAttach => [SendConnectionRequest] + Tls(c) + [SendConnectInitial, SendErectDomain, SendAttachUser]
    case JoiningChannels =>
      [SendConnectionRequest] + Tls(c) + [SendConnectInitial, SendErectDomain, SendAttachUser] +
      (if c.index < |c.queue| then Joins(c.user, c.queue[..c.index + 1]) else [])
    case Connected =>
      [SendConnectionRequest] + Tls(c) + [SendConnectInitial, SendErectDomain, SendAttachUser] +
      Joins(c.user, c.queue) + [Done(c.selected, c.user, c.io)]
  }

  /** Everything the accepted steps of a run asked for. */
  function Emitted(rs: seq<Result>): seq<Output> {
    if rs == [] then []
    else Emitted(rs[..|rs| - 1]) + match rs[|rs| - 1] case Ok(outs) => outs case Err(_) => []
  }

  ghost predicate Sane(c: Conn) {
    && (c.state.Initial? || c.state.SentConnectionRequest? ==> c.selected == PROTOCOL_RDP)
    && (c.state.NeedTls? ==> c.selected != PROTOCOL_RDP)
    && (c.state.JoiningChannels? ==> c.index < |c.queue|)
    && (c.state.Connected? ==> c.index == |c.queue|)
    && (c.state.JoiningChannels? || c.state.Connected? ==>
          |c.queue| >= 2 && c.queue[0] == c.user && c.queue[1] == c.io)
  }

  lemma {:induction false} JoinsNext(user: u16, queue: seq<u16>, i: nat)
    requires i + 1 < |queue|
    ensures Joins(user, queue[..i + 2]) == Joins(user, queue[..i + 1]) + [SendJoin(user, queue[i + 1])]
  {
  }

  lemma {:induction false} ConfirmPrescribed(c: Conn, channel: u16)
    requires Sane(c) && c.state.JoiningChannels?
    ensures var (c', r) := Step(c, ChannelJoinConfirm(0, channel));
            Sane(c') && r.Ok? && Prescribed(c') == Prescribed(c) + r.outputs
  {
    if c.index + 1 < |c.queue| {
      JoinsNext(c.user, c.queue, c.index);
    } else {
      assert c.queue[..c.index + 1] == c.queue;
    }
  }

  lemma {:induction false} StepPrescribed(c: Conn, input: Input)
    requires Sane(c)
    ensures var (c', r) := Step(c, input);
            && Sane(c')
            && (r.Ok? ==> Prescribed(c') == Prescribed(c) + r.outputs)
            && (r.Err? ==> c' == c)
  {
    if c.state.JoiningChannels? && input.ChannelJoinConfirm? && input.result == 0 {
      ConfirmPrescribed(c, input.channel);
    } else if c.state.SentErectAttach? && input.AttachUserConfirm? && input.result == 0 {
      var c' := Step(c, input).0;
      assert c'.queue[..1] == [input.userId];
    }
  }

  /** Main result: whatever the server sends and however often the caller misuses it, the conversation
      so far is the prescribed one. In particular a run that reaches Connected sent, in this order, the
      connection request, the TLS upgrade if one was selected, Connect-Initial, Erect Domain, Attach
      User, and one join request for the user channel, the I/O channel and each virtual channel. */
  lemma {:induction false} RunPrescribed(inputs: seq<Input>)
    ensures var c := End(Step, NEW, inputs);
            Sane(c) && Emitted(Outs(Step, NEW, inputs)) == Prescribed(c)
    decreases |inputs|
  {
    if inputs != [] {
      var init, last := inputs[..|inputs| - 1], inputs[|inputs| - 1];
      assert inputs == init + [last];
      RunPrescribed(init);
      RunSnoc(Step, NEW, init, last);
      StepPrescribed(End(Step, NEW, init), last);
      var rs := Outs(Step, NEW, inputs);
      assert rs[..|rs| - 1] == Outs(Step, NEW, init);
    }
  }

  // ---------------------------------------------------------------- what is accepted

  /** The one input that takes each state on; a server's answer only with a result of zero. */
  predicate Acceptable(state: State, input: Input) {
    match state
    case Initial => input.Start?
    case SentConnectionRequest => input.ConnectionConfirm? && (input.nego.Some? ==> input.nego.value.Response?)
    case NeedTls => input.ResumeAfterTls?
    case SentConnectInitial => input.ConnectResponse? && input.result == 0
    case SentErectAttach => input.AttachUserConfirm? && input.result == 0
    case JoiningChannels => input.ChannelJoinConfirm? && input.result == 0
    case Connected => false
  }

  /** A frame of the kind the state waits for. */
  predicate Awaited(state: State, input: Input) {
    match state
    case SentConnectionRequest => input.ConnectionConfirm?
    case SentConnectInitial => input.ConnectResponse?
    case SentErectAttach => input.AttachUserConfirm?
    case JoiningChannels => input.ChannelJoinConfirm?
    case _ => false
  }

  /** A step succeeds exactly on that input. Otherwise the error says why: the server's own failure code or
      non-zero result, a frame that is not what the state waits for, or a call out of turn. */
  lemma {:induction false} AcceptedExact(c: Conn, input: Input)
    ensures var r := Step(c, input).1;
            && (r.Ok? <==> Acceptable(c.state, input))
            && (r.Err? && Awaited(c.state, input) ==>
                  match input
                  case ConnectionConfirm(nego) =>
                    nego.Some? && nego.value.Failure? && r.error == NegotiationFailed(nego.value.code)
                  case ConnectResponse(result, _) => r.error == ConnectFailed(result)
                  case AttachUserConfirm(result, _) => r.error == ConnectFailed(result)
                  case ChannelJoinConfirm(_, channel) => r.error == JoinFailed(channel)
                  case _ => false)
            && (r.Err? && !Awaited(c.state, input) ==>
                  r.error == if input.Start? || input.ResumeAfterTls? || c.state in {Initial, NeedTls, Connected}
                             then UnexpectedState else Decode)
  {
  }

  // ---------------------------------------------------------------- which channels

  /** Once the server has announced its channels, these are the channels joined. */
  ghost predicate Joining(c: Conn, n: Network) {
    && c.io == n.io
    && match c.state
       case SentErectAttach => c.queue == n.ids
       case JoiningChannels => c.queue == [c.user, n.io] + n.ids
       case Connected => c.queue == [c.user, n.io] + n.ids
       case _ => false
  }

  lemma {:induction false} JoinsAnnounced(c: Conn, n: Network, inputs: seq<Input>)
    requires Joining(c, n)
    ensures Joining(End(Step, c, inputs), n)
    decreases |inputs|
  {
    if inputs != [] {
      JoinsAnnounced(Step(c, inputs[0]).0, n, inputs[1..]);
    }
  }

  /** Accepted join confirms in a run. */
  function Accepted(inputs: seq<Input>, rs: seq<Result>): nat
    requires |inputs| == |rs|
  {
    if inputs == [] then 0
    else (if inputs[0].ChannelJoinConfirm? && rs[0].Ok? then 1 else 0) + Accepted(inputs[1..], rs[1..])
  }

  // ---------------------------------------------------------------- from the start of a run

  function NetworkOf(input: Input): Network {
    if input.ConnectResponse? && input.network.Some? then input.network.value else Network(0, [])
  }

  /** What the accepted ConnectResponse of a run announced, if there was one. */
  function Announced(inputs: seq<Input>, rs: seq<Result>): Option<Network>
    requires |inputs| == |rs|
  {
    if inputs == [] then None
    else
      var k := |inputs| - 1;
      if inputs[k].ConnectResponse? && rs[k].Ok? then Some(NetworkOf(inputs[k]))
      else Announced(inputs[..k], rs[..k])
  }

  lemma {:induction false} AnnouncedSnoc(inputs: seq<Input>, rs: seq<Result>, input: Input, r: Result)
    requires |inputs| == |rs|
    ensures Announced(inputs + [input], rs + [r]) ==
            if input.ConnectResponse? && r.Ok? then Some(NetworkOf(input)) else Announced(inputs, rs)
  {
    assert (inputs + [input])[..|inputs|] == inputs && (rs + [r])[..|rs|] == rs;
  }

  lemma {:induction false} AcceptedSnoc(inputs: seq<Input>, rs: seq<Result>, input: Input, r: Result)
    requires |inputs| == |rs|
    ensures Accepted(inputs + [input], rs + [r]) ==
            Accepted(inputs, rs) + if input.ChannelJoinConfirm? && r.Ok? then 1 else 0
  {
    if inputs == [] {
      assert (inputs + [input])[1..] == [] && (rs + [r])[1..] == [];
    } else {
      assert (inputs + [input])[1..] == inputs[1..] + [input] && (rs + [r])[1..] == rs[1..] + [r];
      AcceptedSnoc(inputs[1..], rs[1..], input, r);
    }
  }

  /** Where a run stands, given what was announced and how many join confirms were accepted. */
  ghost predicate Tallied(c: Conn, n: Option<Network>, accepted: nat) {
    match c.state
    case SentErectAttach => n.Some? && Joining(c, n.value) && accepted == 0
    case JoiningChannels => n.Some? && Joining(c, n.value) && accepted == c.index < |n.value.ids| + 2
    case Connected => n.Some? && Joining(c, n.value) && accepted == c.index == |n.value.ids| + 2
    case _ => n.None? && accepted == 0
  }

  lemma {:induction false} StepTallied(c: Conn, n: Option<Network>, accepted: nat, input: Input)
    requires Sane(c) && Tallied(c, n, accepted)
    ensures var (c', r) := Step(c, input);
            Tallied(c', if input.ConnectResponse? && r.Ok? then Some(NetworkOf(input)) else n,
                    accepted + if input.ChannelJoinConfirm? && r.Ok? then 1 else 0)
  {
  }

  lemma {:induction false} RunTallied(inputs: seq<Input>)
    ensures var rs := Outs(Step, NEW, inputs);
            Tallied(End(Step, NEW, inputs), Announced(inputs, rs), Accepted(inputs, rs))
    decreases |inputs|
  {
    if inputs != [] {
      var init, last := inputs[..|inputs| - 1], inputs[|inputs| - 1];
      assert inputs == init + [last];
      RunTallied(init);
      RunPrescribed(init);
      var c, rs := End(Step, NEW, init), Outs(Step, NEW, init);
      RunSnoc(Step, NEW, init, last);
      var r := Step(c, last).1;
      AnnouncedSnoc(init, rs, last, r);
      AcceptedSnoc(init, rs, last, r);
      StepTallied(c, Announced(init, rs), Accepted(init, rs), last);
    }
  }

  predicate IsJoin(o: Output) {
    o.SendJoin?
  }

  lemma {:induction false} KeepJoins(user: u16, queue: seq<u16>)
    ensures Keep(IsJoin, Joins(user, queue)) == Joins(user, queue)
  {
    if queue != [] {
      KeepJoins(user, queue[1..]);
      assert Joins(user, queue)[1..] == Joins(user, queue[1..]);
    }
  }

  lemma {:induction false} NoJoins(outs: seq<Output>)
    requires forall i :: 0 <= i < |outs| ==> !IsJoin(outs[i])
    ensures Keep(IsJoin, outs) == []
  {
    if outs != [] {
      NoJoins(outs[1..]);
    }
  }

  lemma {:induction false} PrescribedJoins(c: Conn)
    requires Sane(c) && (c.state.JoiningChannels? || c.state.Connected?)
    ensures Keep(IsJoin, Prescribed(c)) == Joins(c.user, c.queue[..Min(c.index + 1, |c.queue|)])
  {
    var before := [SendConnectionRequest] + Tls(c) + [SendConnectInitial, SendErectDomain, SendAttachUser];
    var joins := Joins(c.user, c.queue[..Min(c.index + 1, |c.queue|)]);
    NoJoins(before);
    KeepJoins(c.user, c.queue[..Min(c.index + 1, |c.queue|)]);
    KeepSplit(IsJoin, before, joins);
    if c.state.Connected? {
      assert c.queue[..|c.queue|] == c.queue;
      var done := [Done(c.selected, c.user, c.io)];
      NoJoins(done);
      KeepSplit(IsJoin, before + joins, done);
    }
  }

  /** Main result on completion, for every run from the start: it is connected exactly when the server
      has announced its channels and as many join confirms have been accepted as there are channels to
      join, the user channel and the I/O channel included. While joining, the join requests sent are
      those for the channels confirmed and one more, in the announced order; once connected, those for
      all of them. */
  lemma {:induction false} ConfirmsComplete(inputs: seq<Input>)
    ensures var c, rs := End(Step, NEW, inputs), Outs(Step, NEW, inputs);
            var n, accepted, sent := Announced(inputs, rs), Accepted(inputs, rs), Keep(IsJoin, Emitted(rs));
            && (c.state.Connected? <==> n.Some? && accepted == |n.value.ids| + 2)
            && (c.state.JoiningChannels? ==>
                  && n.Some? && accepted + 1 <= |n.value.ids| + 2
                  && sent == Joins(c.user, ([c.user, n.value.io] + n.value.ids)[..accepted + 1]))
            && (c.state.Connected? ==> sent == Joins(c.user, [c.user, n.value.io] + n.value.ids))
  {
    var c, rs := End(Step, NEW, inputs), Outs(Step, NEW, inputs);
    RunTallied(inputs);
    RunPrescribed(inputs);
    if c.state.JoiningChannels? || c.state.Connected? {
      TalliedJoins(c, Announced(inputs, rs).value, Accepted(inputs, rs));
    }
  }

  lemma {:induction false} TalliedJoins(c: Conn, n: Network, accepted: nat)
    requires Sane(c) && Tallied(c, Some(n), accepted) && (c.state.JoiningChannels? || c.state.Connected?)
    ensures c.state.JoiningChannels? ==>
              && accepted + 1 <= |n.ids| + 2
              && Keep(IsJoin, Prescribed(c)) == Joins(c.user, ([c.user, n.io] + n.ids)[..accepted + 1])
    ensures c.state.Connected? ==> Keep(IsJoin, Prescribed(c)) == Joins(c.user, [c.user, n.io] + n.ids)
  {
    PrescribedJoins(c);
    assert c.queue == [c.user, n.io] + n.ids && c.queue[..|c.queue|] == c.queue;
  }

  // ---------------------------------------------------------------- the server's own values

  /** What the server has said so far, going by the inputs that were accepted. */
  datatype Said = Said(selected: u32, user: Option<u16>, network: Option<Network>)

  function Hear(said: Said, input: Input, r: Result): Said {
    if r.Err? then said
    else
      match input
      case ConnectionConfirm(Some(Response(selected))) => said.(selected := selected)
      case ConnectResponse(_, _) => said.(network := Some(NetworkOf(input)))
      case AttachUserConfirm(_, userId) => said.(user := Some(userId))
      case _ => said
  }

  function Heard(inputs: seq<Input>, rs: seq<Result>): Said
    requires |inputs| == |rs|
  {
    if inputs == [] then Said(PROTOCOL_RDP, None, None)
    else Hear(Heard(inputs[..|inputs| - 1], rs[..|rs| - 1]), inputs[|inputs| - 1], rs[|rs| - 1])
  }

  /** The connector has taken over just that. */
  ghost predicate Knows(c: Conn, said: Said) {
    && c.selected == said.selected
    && (c.state.SentErectAttach? || c.state.JoiningChannels? || c.state.Connected? ==>
          said.network.Some? && c.io == said.network.value.io)
    && (c.state.SentErectAttach? ==> c.queue == said.network.value.ids)
    && (c.state.JoiningChannels? || c.state.Connected? ==>
          said.user == Some(c.user) && c.queue == [c.user, c.io] + said.network.value.ids)
  }

  lemma {:induction false} StepKnows(c: Conn, said: Said, input: Input)
    requires Sane(c) && Knows(c, said)
    ensures var (c', r) := Step(c, input); Knows(c', Hear(said, input, r))
  {
  }

  lemma {:induction false} RunKnows(inputs: seq<Input>)
    ensures Knows(End(Step, NEW, inputs), Heard(inputs, Outs(Step, NEW, inputs)))
    decreases |inputs|
  {
    if inputs != [] {
      var init, last := inputs[..|inputs| - 1], inputs[|inputs| - 1];
      assert inputs == init + [last];
      RunKnows(init);
      RunPrescribed(init);
      RunSnoc(Step, NEW, init, last);
      var rs := Outs(Step, NEW, inputs);
      assert rs[..|rs| - 1] == Outs(Step, NEW, init);
      StepKnows(End(Step, NEW, init), Heard(init, Outs(Step, NEW, init)), last);
    }
  }

  /** In every run that gets there, the join requests and the final result carry the server's own values:
      the user id it attached, the I/O channel and the channels it announced, the protocol it selected. */
  lemma {:induction false} ServerValues(inputs: seq<Input>)
    ensures var c, rs := End(Step, NEW, inputs), Outs(Step, NEW, inputs);
            var said, sent := Heard(inputs, rs), Emitted(rs);
            c.state.Connected? ==>
              && said.user.Some? && said.network.Some?
              && Keep(IsJoin, sent) ==
                 Joins(said.user.value, [said.user.value, said.network.value.io] + said.network.value.ids)
              && sent != [] && sent[|sent| - 1] == Done(said.selected, said.user.value, said.network.value.io)
              && (UpgradeToTls in sent <==> said.selected != PROTOCOL_RDP)
  {
    var c := End(Step, NEW, inputs);
    RunKnows(inputs);
    RunPrescribed(inputs);
    if c.state.Connected? {
      PrescribedJoins(c);
      assert c.queue[..|c.queue|] == c.queue;
      TlsSent(c);
    }
  }

  lemma {:induction false} TlsSent(c: Conn)
    requires c.state.Connected?
    ensures UpgradeToTls in Prescribed(c) <==> c.selected != PROTOCOL_RDP
  {
    var joins := Joins(c.user, c.queue);
    assert forall o :: o in joins ==> o.SendJoin?;
    assert Prescribed(c) == [SendConnectionRequest] + Tls(c) + [SendConnectInitial, SendErectDomain, SendAttachUser] +
                            joins + [Done(c.selected, c.user, c.io)];
    if c.selected != PROTOCOL_RDP {
      assert Prescribed(c)[1] == UpgradeToTls;
    }
  }

  // ---------------------------------------------------------------- the object

  class ClientConnector {
    var state: State
    var selectedProtocol: u32
    var userId: u16
    var ioChannel: u16
    var joinQueue: seq<u16>
    var joinIndex: nat

    ghost function Value(): Conn
      reads this
    {
      Conn(state, selectedProtocol, userId, ioChannel, joinQueue, joinIndex)
    }

    constructor ()
      ensures Value() == NEW && Sane(Value())
    {
      state, selectedProtocol, userId, ioChannel, joinQueue, joinIndex := Initial, PROTOCOL_RDP, 0, 0, [], 0;
    }

    method OnStart() returns (r: Result)
      requires Sane(Value())
      modifies this
      ensures (Value(), r) == Step(old(Value()), Start)
    {
      if state != Initial {
        return Err(UnexpectedState);
      }
      state := SentConnectionRequest;
      r := Ok([SendConnectionRequest]);
    }

    method OnResumeAfterTls() returns (r: Result)
      requires Sane(Value())
      modifies this
      ensures (Value(), r) == Step(old(Value()), ResumeAfterTls)
    {
      if state != NeedTls {
        return Err(UnexpectedState);
      }
      r := ConnectInitial();
    }

    method ConnectInitial() returns (r: Result)
      modifies this`state
      ensures state == SentConnectInitial && r == Ok([SendConnectInitial])
    {
      state := SentConnectInitial;
      r := Ok([SendConnectInitial]);
    }

    method ChannelJoin() returns (r: Result)
      requires joinIndex < |joinQueue|
      modifies this`state
      ensures state == JoiningChannels && r == Ok([SendJoin(userId, joinQueue[joinIndex])])
    {
      state := JoiningChannels;
      r := Ok([SendJoin(userId, joinQueue[joinIndex])]);
    }

    /** Feed a server frame; an error leaves everything as it was. */
    method OnFrame(frame: Input) returns (r: Result)
      requires Sane(Value()) && !frame.Start? && !frame.ResumeAfterTls?
      modifies this
      ensures (Value(), r) == Step(old(Value()), frame)
      ensures Sane(Value()) && (r.Err? ==> Value() == old(Value()))
    {
      StepPrescribed(Value(), frame);
      match state {
        case SentConnectionRequest =>
          if !frame.ConnectionConfirm? {
            return Err(Decode);
          }
          match frame.nego {
            case Some(Failure(code)) =>
              return Err(NegotiationFailed(code));
            case Some(Response(selected)) =>
              selectedProtocol := selected;
              if selected != PROTOCOL_RDP {
                state := NeedTls;
                return Ok([UpgradeToTls]);
              }
              r := ConnectInitial();
            case None =>
              r := ConnectInitial();
          }
        case SentConnectInitial =>
          if !frame.ConnectResponse? {
            return Err(Decode);
          }
          if frame.result != 0 {
            return Err(ConnectFailed(frame.result));
          }
          ioChannel := if frame.network.Some? then frame.network.value.io else 0;
          joinQueue := if frame.network.Some? then frame.network.value.ids else [];
          state := SentErectAttach;
          r := Ok([SendErectDomain, SendAttachUser]);
        case SentErectAttach =>
          if !frame.AttachUserConfirm? {
            return Err(Decode);
          }
          if frame.result != 0 {
            return Err(ConnectFailed(frame.result));
          }
          userId := frame.userId;
          joinQueue := [userId, ioChannel] + joinQueue;
          joinIndex := 0;
          r := ChannelJoin();
        case JoiningChannels =>
          if !frame.ChannelJoinConfirm? {
            return Err(Decode);
          }
          if frame.result != 0 {
            return Err(JoinFailed(frame.channel));
          }
          joinIndex := joinIndex + 1;
          if joinIndex < |joinQueue| {
            r := ChannelJoin();
          } else {
            state := Connected;
            r := Ok([Done(selectedProtocol, userId, ioChannel)]);
          }
        case _ =>
          r := Err(UnexpectedState);
      }
    }
  }
}
