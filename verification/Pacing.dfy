/** The per-window frame budget (crates/oxagent/src/pacing.rs). */
module Pacing {
  import opened Prelude
  import opened Runs

  datatype Budget = Budget(max: nat, inFlight: seq<nat>, nextId: nat, dropped: nat, sent: nat)

  function New(max: nat): Budget {
    Budget(Max(max, 1), [], 1, 0, 0)
  }

  /** The newest frame always gets in; at the limit it displaces the oldest. */
  function Captured(b: Budget): Budget {
    var full := |b.inFlight| >= b.max && b.inFlight != [];
    b.(inFlight := (if full then b.inFlight[1..] else b.inFlight) + [b.nextId],
       nextId := b.nextId + 1, sent := b.sent + 1,
       dropped := if |b.inFlight| >= b.max then b.dropped + 1 else b.dropped)
  }

  /** Frames newer than `id`. */
  function Newer(s: seq<nat>, id: nat): seq<nat> {
    if s == [] then [] else (if s[0] > id then [s[0]] else []) + Newer(s[1..], id)
  }

  /** Acknowledgements are cumulative. */
  function Acked(b: Budget, id: nat): Budget {
    b.(inFlight := Newer(b.inFlight, id))
  }

  function Restarted(b: Budget): Budget {
    b.(inFlight := [])
  }

  datatype Op = Capture | Ack(id: nat) | Restart

  /** A capture returns the frame id it used. */
  function Step(b: Budget, op: Op): (Budget, Option<nat>) {
    match op
    case Capture => (Captured(b), Some(b.nextId))
    case Ack(id) => (Acked(b, id), None)
    case Restart => (Restarted(b), None)
  }

  /** In flight are exactly the newest few ids, in order and within the budget. */
  ghost predicate Contiguous(b: Budget) {
    && 1 <= b.max && |b.inFlight| <= b.max
    && |b.inFlight| < b.nextId && b.sent == b.nextId - 1
    && forall i :: 0 <= i < |b.inFlight| ==> b.inFlight[i] == b.nextId - |b.inFlight| + i
  }

  lemma {:induction false} NewerIsSuffix(s: seq<nat>, first: nat, id: nat)
    requires forall i :: 0 <= i < |s| ==> s[i] == first + i
    ensures Newer(s, id) == if id < first then s else if id - first >= |s| then [] else s[id - first + 1..]
  {
    if s != [] {
      assert forall i :: 0 <= i < |s[1..]| ==> s[1..][i] == s[i + 1];
      NewerIsSuffix(s[1..], first + 1, id);
      assert s[0] == first && [s[0]] + s[1..] == s;
    }
  }

  lemma {:induction false} StepContiguous(b: Budget, op: Op)
    requires Contiguous(b)
    ensures Contiguous(Step(b, op).0)
  {
    if op.Ack? {
      NewerIsSuffix(b.inFlight, b.nextId - |b.inFlight|, op.id);
    }
  }

  /** Over every run of captures, acknowledgements (of any id at all) and restarts. */
  lemma {:induction false} EveryRunContiguous(b: Budget, ops: seq<Op>)
    requires Contiguous(b)
    ensures Contiguous(End(Step, b, ops))
    decreases |ops|
  {
    if ops != [] {
      StepContiguous(b, ops[0]);
      EveryRunContiguous(Step(b, ops[0]).0, ops[1..]);
    }
  }

  function Captures(ops: seq<Op>): nat {
    if ops == [] then 0 else (if ops[0].Capture? then 1 else 0) + Captures(ops[1..])
  }

  /** Frame ids count the captures: no gap, no repeat, whatever is acknowledged or restarted. */
  lemma {:induction false} FramesNumbered(b: Budget, ops: seq<Op>, i: nat)
    requires i < |ops|
    ensures Outs(Step, b, ops)[i] ==
            if ops[i].Capture? then Some(b.nextId + Captures(ops[..i])) else None
    decreases |ops|
  {
    if i > 0 {
      FramesNumbered(Step(b, ops[0]).0, ops[1..], i - 1);
      assert ops[..i][1..] == ops[1..][..i - 1];
    }
  }

  ghost predicate AllFrom(s: seq<nat>, first: nat) {
    forall i :: 0 <= i < |s| ==> s[i] >= first
  }

  lemma {:induction false} NewerFrom(s: seq<nat>, id: nat, first: nat)
    requires AllFrom(s, first)
    ensures AllFrom(Newer(s, id), first)
    ensures id < first ==> Newer(s, id) == s
  {
    if s != [] {
      NewerFrom(s[1..], id, first);
    }
  }

  lemma {:induction false} RunAllFrom(b: Budget, ops: seq<Op>, first: nat)
    requires AllFrom(b.inFlight, first) && first <= b.nextId
    ensures AllFrom(End(Step, b, ops).inFlight, first)
    decreases |ops|
  {
    if ops != [] {
      if ops[0].Ack? {
        NewerFrom(b.inFlight, ops[0].id, first);
      }
      RunAllFrom(Step(b, ops[0]).0, ops[1..], first);
    }
  }

  /** An acknowledgement of a frame sent before a restart, however late, retires nothing. */
  lemma {:induction false} LateAcksRetireNothing(b: Budget, ops: seq<Op>, id: nat)
    requires id < b.nextId
    ensures var now := End(Step, Restarted(b), ops); Acked(now, id) == now
  {
    RunAllFrom(Restarted(b), ops, b.nextId);
    var now := End(Step, Restarted(b), ops);
    NewerFrom(now.inFlight, id, b.nextId);
  }

  lemma {:induction false} NewerMembers(s: seq<nat>, id: nat)
    ensures forall x :: x in Newer(s, id) <==> x in s && x > id
  {
    if s != [] {
      NewerMembers(s[1..], id);
      assert forall x :: x in s <==> x == s[0] || x in s[1..];
    }
  }

  /** An acknowledgement retires every frame up to the one it names, and no newer one; nothing else
      changes. */
  lemma {:induction false} AckExact(b: Budget, id: nat)
    ensures forall x :: x in Acked(b, id).inFlight <==> x in b.inFlight && x > id
    ensures Acked(b, id).(inFlight := b.inFlight) == b
  {
    NewerMembers(b.inFlight, id);
  }

  /** A captured frame is always admitted. It costs the oldest frame in flight its place, and only that
      one, exactly when the budget is used up; then one more is counted as dropped. */
  lemma {:induction false} CaptureExact(b: Budget)
    requires Contiguous(b)
    ensures var b', full := Captured(b), |b.inFlight| == b.max;
            && b'.inFlight == (if full then b.inFlight[1..] else b.inFlight) + [b.nextId]
            && (forall x :: x in b'.inFlight <==>
                  x == b.nextId || (x in b.inFlight && !(full && x == b.nextId - b.max)))
            && b'.dropped == b.dropped + (if full then 1 else 0)
            && b'.nextId == b.nextId + 1 && b'.sent == b.sent + 1 && b'.max == b.max
  {
    var full := |b.inFlight| == b.max;
    if full {
      assert b.inFlight == [b.inFlight[0]] + b.inFlight[1..];
      assert forall x :: x in b.inFlight[1..] ==> x != b.inFlight[0];
    }
  }

  class FrameBudget {
    const maxInFlight: nat
    var inFlight: seq<nat>
    var nextFrameId: nat
    var dropped: nat
    var sent: nat

    ghost function Value(): Budget
      reads this
    {
      Budget(maxInFlight, inFlight, nextFrameId, dropped, sent)
    }

    constructor (max: nat)
      ensures Value() == New(max) && Contiguous(Value())
    {
      maxInFlight := Max(max, 1);
      inFlight, nextFrameId, dropped, sent := [], 1, 0, 0;
    }

    method OnCaptured() returns (id: nat)
      requires Contiguous(Value())
      modifies this
      ensures Contiguous(Value())
      ensures (Value(), Some(id)) == Step(old(Value()), Capture)
    {
      StepContiguous(Value(), Capture);
      if |inFlight| >= maxInFlight {
        inFlight := inFlight[1..];
        dropped := dropped + 1;
      }
      id := nextFrameId;
      nextFrameId := nextFrameId + 1;
      inFlight := inFlight + [id];
      sent := sent + 1;
    }

    /** The popping loop retires exactly the frames up to `frameId`. */
    method OnAck(frameId: nat)
      requires Contiguous(Value())
      modifies this
      ensures Contiguous(Value())
      ensures Value() == Acked(old(Value()), frameId)
    {
      StepContiguous(Value(), Ack(frameId));
      ghost var all, first := inFlight, nextFrameId - |inFlight|;
      ghost var k := 0;
      while inFlight != [] && inFlight[0] <= frameId
        invariant 0 <= k <= |all| && inFlight == all[k..]
        invariant k > 0 ==> first + k - 1 <= frameId
        invariant nextFrameId == old(nextFrameId) && dropped == old(dropped) && sent == old(sent)
        decreases |inFlight|
      {
        inFlight := inFlight[1..];
        k := k + 1;
      }
      assert k < |all| ==> all[k] == first + k > frameId;
      NewerIsSuffix(all, first, frameId);
    }

    method Restart()
      requires Contiguous(Value())
      modifies this
      ensures Contiguous(Value()) && Value() == Restarted(old(Value()))
    {
      inFlight := [];
    }
  }
}
