/** Which local geometry changes are the user's, and what they mean on the guest
    (crates/oxclient/src/geometry.rs). */
module GeometryIntent {
  import opened Prelude
  import opened Runs

  /** In the unit of the clock; 750 milliseconds. */
  const SETTLE: nat := 750

  const I32_MIN := -0x8000_0000
  const I32_MAX := 0x7FFF_FFFF

  datatype Point = Point(x: int, y: int)

  predicate InI32(p: Point) {
    I32_MIN <= p.x <= I32_MAX && I32_MIN <= p.y <= I32_MAX
  }

  function Clamp(v: int): int {
    if v < I32_MIN then I32_MIN else if v > I32_MAX then I32_MAX else v
  }

  /** Component-wise `saturating_add` and `saturating_sub`. */
  function Plus(a: Point, b: Point): Point {
    Point(Clamp(a.x + b.x), Clamp(a.y + b.y))
  }

  function Minus(a: Point, b: Point): Point {
    Point(Clamp(a.x - b.x), Clamp(a.y - b.y))
  }

  datatype WindowSync = WindowSync(
    settlingUntil: nat, guestAnchor: Point, localAnchor: Option<Point>, localSize: Option<(nat, nat)>)

  type Sync = map<nat, WindowSync>

  /** What happens to the tracker. A size report carries what the model says of the window: open and
      resizable. */
  datatype Event =
    | Created(now: nat, id: nat, at: Point)
    | GuestMoved(now: nat, id: nat, at: Point)
    | Forget(id: nat)
    | Moved(now: nat, id: nat, at: Point)
    | Resized(now: nat, id: nat, resizable: bool, width: nat, height: nat)

  /** What is sent to the guest. */
  datatype Request = Silent | MoveTo(at: Point) | ResizeTo(width: nat, height: nat)

  function Armed(now: nat, at: Point): WindowSync {
    WindowSync(now + SETTLE, at, None, None)
  }

  function MovedWindow(s: WindowSync, now: nat, at: Point): (WindowSync, Request) {
    if now < s.settlingUntil then (s, Silent)
    else if s.localAnchor.None? then (s.(localAnchor := Some(at)), Silent)
    else
      var d := Minus(at, s.localAnchor.value);
      if d == Point(0, 0) then (s.(localAnchor := Some(at)), Silent)
      else
        var target := Plus(s.guestAnchor, d);
        (s.(localAnchor := Some(at), guestAnchor := target), MoveTo(target))
  }

  function ResizedWindow(s: WindowSync, now: nat, width: nat, height: nat): (WindowSync, Request) {
    if now < s.settlingUntil then (s, Silent)
    else
      var next := s.(localSize := Some((width, height)));
      if s.localSize.None? || s.localSize.value == (width, height) then (next, Silent)
      else (next, ResizeTo(width, height))
  }

  function Step(g: Sync, e: Event): (Sync, Request) {
    match e
    case Created(now, id, at) => (g[id := Armed(now, at)], Silent)
    case GuestMoved(now, id, at) => if id in g then (g[id := Armed(now, at)], Silent) else (g, Silent)
    case Forget(id) => (g - {id}, Silent)
    case Moved(now, id, at) =>
      if id !in g then (g, Silent)
      else var (s, r) := MovedWindow(g[id], now, at); (g[id := s], r)
    case Resized(now, id, resizable, width, height) =>
      if !resizable || width == 0 || height == 0 || id !in g then (g, Silent)
      else var (s, r) := ResizedWindow(g[id], now, width, height); (g[id := s], r)
  }

  predicate IsReport(e: Event) {
    e.Moved? || e.Resized?
  }

  predicate Arms(e: Event, id: nat) {
    !IsReport(e) && e.id == id
  }

  // ---------------------------------------------------------------- reports made while settling

  /** The report comes from a window the tracker is still settling. */
  predicate WhileSettling(g: Sync, e: Event) {
    IsReport(e) && e.id in g && e.now < g[e.id].settlingUntil
  }

  lemma {:induction false} SettlingReportIgnored(g: Sync, e: Event)
    requires WhileSettling(g, e)
    ensures Step(g, e) == (g, Silent)
  {
    assert g[e.id := g[e.id]] == g;
  }

  /** The run without the reports made while settling. */
  ghost function Deleted(g: Sync, es: seq<Event>): seq<Event>
    decreases |es|
  {
    if es == [] then []
    else if WhileSettling(g, es[0]) then Deleted(g, es[1..])
    else [es[0]] + Deleted(Step(g, es[0]).0, es[1..])
  }

  predicate Sent(r: Request) {
    r != Silent
  }

  /** Deleting every report made while settling changes nothing that is sent, and nothing after. */
  lemma {:induction false} SettlingReportsDoNotMatter(g: Sync, es: seq<Event>)
    ensures End(Step, g, Deleted(g, es)) == End(Step, g, es)
    ensures Keep(Sent, Outs(Step, g, Deleted(g, es))) == Keep(Sent, Outs(Step, g, es))
    decreases |es|
  {
    if es != [] {
      var e, rest := es[0], es[1..];
      var (g1, r) := Step(g, e);
      assert es == [e] + rest;
      RunCons(Step, g, e, rest);
      KeepCons(Sent, r, Outs(Step, g1, rest));
      SettlingReportsDoNotMatter(g1, rest);
      if WhileSettling(g, e) {
        SettlingReportIgnored(g, e);
      } else {
        RunCons(Step, g, e, Deleted(g1, rest));
        KeepCons(Sent, r, Outs(Step, g1, Deleted(g1, rest)));
      }
    }
  }

  // ---------------------------------------------------------------- host coordinates do not matter

  function Shift(p: Point, c: Point): Point {
    Point(p.x + c.x, p.y + c.y)
  }

  /** The same report from a host whose screen origin is elsewhere. */
  function ShiftReport(e: Event, id: nat, c: Point): Event {
    if e.Moved? && e.id == id then e.(at := Shift(e.at, c)) else e
  }

  function ShiftRun(es: seq<Event>, id: nat, c: Point): seq<Event> {
    seq(|es|, i requires 0 <= i < |es| => ShiftReport(es[i], id, c))
  }

  ghost predicate Shifted(s: WindowSync, t: WindowSync, c: Point) {
    && s.settlingUntil == t.settlingUntil && s.guestAnchor == t.guestAnchor && s.localSize == t.localSize
    && match s.localAnchor
       case None => t.localAnchor.None?
       case Some(p) => t.localAnchor == Some(Shift(p, c))
  }

  ghost predicate ShiftedSync(g: Sync, h: Sync, id: nat, c: Point) {
    && g.Keys == h.Keys
    && (forall k :: k in g && k != id ==> h[k] == g[k])
    && (id in g ==> Shifted(g[id], h[id], c))
  }

  lemma {:induction false} MinusShift(a: Point, b: Point, c: Point)
    ensures Minus(Shift(a, c), Shift(b, c)) == Minus(a, b)
  {
  }

  lemma {:induction false} StepShifted(g: Sync, h: Sync, id: nat, c: Point, e: Event)
    requires ShiftedSync(g, h, id, c) && !Arms(e, id)
    ensures Step(h, ShiftReport(e, id, c)).1 == Step(g, e).1
    ensures ShiftedSync(Step(g, e).0, Step(h, ShiftReport(e, id, c)).0, id, c)
  {
    if e.Moved? && e.id == id && id in g && g[id].localAnchor.Some? {
      MinusShift(e.at, g[id].localAnchor.value, c);
    }
  }

  /** Between two arming events of a window, adding one constant to all its reported host positions
      changes nothing that is sent, saturation included; only displacements are ever used. */
  lemma {:induction false} HostTranslationInvariant(g: Sync, h: Sync, id: nat, c: Point, es: seq<Event>)
    requires ShiftedSync(g, h, id, c)
    requires forall i :: 0 <= i < |es| ==> !Arms(es[i], id)
    ensures Outs(Step, h, ShiftRun(es, id, c)) == Outs(Step, g, es)
    decreases |es|
  {
    if es != [] {
      var ss := ShiftRun(es, id, c);
      StepShifted(g, h, id, c, es[0]);
      assert ss[1..] == ShiftRun(es[1..], id, c);
      HostTranslationInvariant(Step(g, es[0]).0, Step(h, ss[0]).0, id, c, es[1..]);
    }
  }

  /** In particular from the moment a window is armed, whatever it then reports. */
  lemma {:induction false} ArmedTranslationInvariant(
    g: Sync, id: nat, now: nat, at: Point, c: Point, es: seq<Event>)
    requires id in g && g[id] == Armed(now, at)
    requires forall i :: 0 <= i < |es| ==> !Arms(es[i], id)
    ensures Outs(Step, g, ShiftRun(es, id, c)) == Outs(Step, g, es)
  {
    HostTranslationInvariant(g, g, id, c, es);
  }

  // ---------------------------------------------------------------- what the reports of a window amount to

  /** First and latest position of a window reported after settling. */
  datatype Track = NoReport | Reports(first: Point, latest: Point)

  function Follow(t: Track, e: Event, id: nat, deadline: nat): Track {
    if !e.Moved? || e.id != id || e.now < deadline then t
    else if t.NoReport? then Reports(e.at, e.at)
    else t.(latest := e.at)
  }

  /** The position reports of window `id` that count, those from `deadline` on. */
  function TrackOf(es: seq<Event>, id: nat, deadline: nat): Track {
    if es == [] then NoReport else Follow(TrackOf(es[..|es| - 1], id, deadline), es[|es| - 1], id, deadline)
  }

  /** A size report that counts. */
  predicate Sizes(e: Event, id: nat, deadline: nat) {
    e.Resized? && e.id == id && e.resizable && e.width > 0 && e.height > 0 && e.now >= deadline
  }

  /** The latest size of window `id` reported after settling. */
  function SizeOf(es: seq<Event>, id: nat, deadline: nat): Option<(nat, nat)> {
    if es == [] then None
    else if Sizes(es[|es| - 1], id, deadline) then Some((es[|es| - 1].width, es[|es| - 1].height))
    else SizeOf(es[..|es| - 1], id, deadline)
  }

  ghost function After(g: Sync, es: seq<Event>): Sync {
    End(Step, g, es)
  }

  /** The tracker remembers just this of a window since it was armed. */
  ghost predicate Remembers(s: WindowSync, deadline: nat, t: Track, size: Option<(nat, nat)>) {
    && s.settlingUntil == deadline && s.localSize == size
    && s.localAnchor == (if t.NoReport? then None else Some(t.latest))
  }

  /** No event touches a window other than its own. */
  lemma {:induction false} OthersUntouched(g: Sync, e: Event, id: nat)
    requires id != e.id
    ensures id in g <==> id in Step(g, e).0
    ensures id in g ==> Step(g, e).0[id] == g[id]
  {
  }

  /** Only windows that were created and not forgotten answer at all. */
  lemma {:induction false} UnknownSilent(g: Sync, e: Event)
    requires e.id !in g && !e.Created?
    ensures Step(g, e) == (g, Silent)
  {
    assert g - {e.id} == g;
  }

  /** Creating a window arms it, and so does a move by the guest if the window is known; nothing else does. */
  lemma {:induction false} ArmingExact(g: Sync, e: Event)
    ensures Arms(e, e.id) ==> Step(g, e).1 == Silent
    ensures e.Created? || (e.GuestMoved? && e.id in g) ==>
              e.id in Step(g, e).0 && Step(g, e).0[e.id] == WindowSync(e.now + 750, e.at, None, None)
    ensures e.Forget? ==> e.id !in Step(g, e).0
  {
  }

  lemma {:induction false} StepRemembers(
    g: Sync, id: nat, deadline: nat, t: Track, size: Option<(nat, nat)>, e: Event)
    requires id in g && Remembers(g[id], deadline, t, size) && !Arms(e, id)
    ensures id in Step(g, e).0
    ensures Remembers(Step(g, e).0[id], deadline, Follow(t, e, id, deadline),
                      if Sizes(e, id, deadline) then Some((e.width, e.height)) else size)
    ensures e.Moved? && e.id == id ==>
              (Step(g, e).1.MoveTo? <==> e.now >= deadline && t.Reports? && e.at != t.latest)
              && (Step(g, e).1.MoveTo? || Step(g, e).1 == Silent)
    ensures e.Resized? && e.id == id ==>
              Step(g, e).1 == if Sizes(e, id, deadline) && size.Some? && size.value != (e.width, e.height)
                              then ResizeTo(e.width, e.height) else Silent
  {
    if e.id != id {
      OthersUntouched(g, e, id);
    }
  }

  lemma {:induction false} RunRemembers(g: Sync, id: nat, now: nat, at: Point, es: seq<Event>)
    requires id in g && g[id] == Armed(now, at)
    requires forall k :: 0 <= k < |es| ==> !Arms(es[k], id)
    ensures id in After(g, es)
    ensures Remembers(After(g, es)[id], now + 750, TrackOf(es, id, now + 750), SizeOf(es, id, now + 750))
    decreases |es|
  {
    if es != [] {
      var init, e := es[..|es| - 1], es[|es| - 1];
      assert es == init + [e];
      RunRemembers(g, id, now, at, init);
      RunSnoc(Step, g, init, e);
      StepRemembers(After(g, init), id, now + 750, TrackOf(init, id, now + 750), SizeOf(init, id, now + 750), e);
    }
  }

  lemma {:induction false} OutAt(g: Sync, es: seq<Event>, i: nat)
    requires i < |es|
    ensures Outs(Step, g, es)[i] == Step(After(g, es[..i]), es[i]).1
  {
    RunSplit(Step, g, es[..i], es[i..]);
    assert es == es[..i] + es[i..];
  }

  /** Main result on intent. From the moment a window is armed until it is armed again or forgotten, its
      reports are answered like this, saturation or not: a position by a move exactly when it comes 750
      milliseconds or more after arming, is not the first to do so, and differs from the one before it; a
      size, of a window that may be resized, by that very size exactly when the same holds of it. */
  lemma {:induction false} ReportsAnswered(g: Sync, id: nat, now: nat, at: Point, es: seq<Event>, i: nat)
    requires id in g && g[id] == Armed(now, at)
    requires forall k :: 0 <= k < |es| ==> !Arms(es[k], id)
    requires i < |es| && es[i].id == id
    ensures var e, t, size := es[i], TrackOf(es[..i], id, now + 750), SizeOf(es[..i], id, now + 750);
            var answer := Outs(Step, g, es)[i];
            && (e.Moved? ==> (answer.MoveTo? <==> e.now >= now + 750 && t.Reports? && e.at != t.latest))
            && (e.Moved? ==> answer.MoveTo? || answer == Silent)
            && (e.Resized? ==>
                  answer == if Sizes(e, id, now + 750) && size.Some? && size.value != (e.width, e.height)
                            then ResizeTo(e.width, e.height) else Silent)
  {
    var pre := es[..i];
    RunRemembers(g, id, now, at, pre);
    assert !Arms(es[i], id);
    StepRemembers(After(g, pre), id, now + 750, TrackOf(pre, id, now + 750), SizeOf(pre, id, now + 750), es[i]);
    OutAt(g, es, i);
  }

  // ---------------------------------------------------------------- where the guest is told to go

  /** Neither the step from the latest report nor the way from the first takes the guest position out of
      range. */
  predicate InRange(at: Point, t: Track, e: Event, id: nat, deadline: nat) {
    e.Moved? && e.id == id && e.now >= deadline && t.Reports? ==>
      && InI32(Point(e.at.x - t.latest.x, e.at.y - t.latest.y))
      && InI32(Point(at.x + e.at.x - t.first.x, at.y + e.at.y - t.first.y))
  }

  /** No report of window `id` saturates anywhere in this run. */
  ghost predicate Unsaturated(at: Point, es: seq<Event>, id: nat, deadline: nat) {
    forall i :: 0 <= i < |es| ==> InRange(at, TrackOf(es[..i], id, deadline), es[i], id, deadline)
  }

  function Displacement(t: Track): Point {
    if t.NoReport? then Point(0, 0) else Point(t.latest.x - t.first.x, t.latest.y - t.first.y)
  }

  lemma {:induction false} MoveAnchored(
    g: Sync, id: nat, at: Point, deadline: nat, t: Track, size: Option<(nat, nat)>, e: Event)
    requires id in g && Remembers(g[id], deadline, t, size) && g[id].guestAnchor == Shift(at, Displacement(t))
    requires !Arms(e, id) && InRange(at, t, e, id, deadline)
    ensures id in Step(g, e).0
    ensures Step(g, e).0[id].guestAnchor == Shift(at, Displacement(Follow(t, e, id, deadline)))
    ensures e.Moved? && e.id == id && Step(g, e).1.MoveTo? ==>
              t.Reports? && Step(g, e).1.at == Point(at.x + e.at.x - t.first.x, at.y + e.at.y - t.first.y)
  {
    if e.id != id {
      OthersUntouched(g, e, id);
    }
  }

  lemma {:induction false} UnsaturatedPrefix(at: Point, es: seq<Event>, id: nat, deadline: nat, i: nat)
    requires i <= |es| && Unsaturated(at, es, id, deadline)
    ensures Unsaturated(at, es[..i], id, deadline)
  {
    forall k | 0 <= k < i
      ensures InRange(at, TrackOf(es[..i][..k], id, deadline), es[..i][k], id, deadline)
    {
      assert es[..i][..k] == es[..k] && es[..i][k] == es[k];
    }
  }

  /** Over any run between two arming events, short of saturation, the guest anchor is the position the
      guest armed it with plus the total displacement since the first report after settling. */
  lemma {:induction false} AnchorIsDisplacement(g: Sync, id: nat, now: nat, at: Point, es: seq<Event>)
    requires id in g && g[id] == Armed(now, at) && Unsaturated(at, es, id, now + 750)
    requires forall i :: 0 <= i < |es| ==> !Arms(es[i], id)
    ensures id in After(g, es)
    ensures After(g, es)[id].guestAnchor == Shift(at, Displacement(TrackOf(es, id, now + 750)))
    decreases |es|
  {
    if es != [] {
      var n := |es| - 1;
      var init, e := es[..n], es[n];
      assert es == init + [e];
      UnsaturatedPrefix(at, es, id, now + 750, n);
      AnchorIsDisplacement(g, id, now, at, init);
      RunRemembers(g, id, now, at, init);
      RunSnoc(Step, g, init, e);
      assert InRange(at, TrackOf(es[..n], id, now + 750), es[n], id, now + 750);
      MoveAnchored(After(g, init), id, at, now + 750, TrackOf(init, id, now + 750), SizeOf(init, id, now + 750), e);
    }
  }

  /** And a move that is sent asks for the guest's own position displaced by how far the window has been
      dragged since the first report -- never for a host position. */
  lemma {:induction false} SentMoveIsDisplacement(g: Sync, id: nat, now: nat, at: Point, es: seq<Event>, i: nat)
    requires id in g && g[id] == Armed(now, at) && Unsaturated(at, es, id, now + 750)
    requires forall k :: 0 <= k < |es| ==> !Arms(es[k], id)
    requires i < |es| && es[i].Moved? && es[i].id == id
    ensures var e, t := es[i], TrackOf(es[..i], id, now + 750);
            Outs(Step, g, es)[i] ==
            if e.now >= now + 750 && t.Reports? && e.at != t.latest
            then MoveTo(Point(at.x + e.at.x - t.first.x, at.y + e.at.y - t.first.y)) else Silent
  {
    var pre := es[..i];
    UnsaturatedPrefix(at, es, id, now + 750, i);
    AnchorIsDisplacement(g, id, now, at, pre);
    RunRemembers(g, id, now, at, pre);
    ReportsAnswered(g, id, now, at, es, i);
    OutAt(g, es, i);
    assert InRange(at, TrackOf(es[..i], id, now + 750), es[i], id, now + 750);
    MoveAnchored(After(g, pre), id, at, now + 750, TrackOf(pre, id, now + 750), SizeOf(pre, id, now + 750), es[i]);
  }

  // ---------------------------------------------------------------- the object

  class GeometrySync {
    var windows: Sync

    constructor ()
      ensures windows == map[]
    {
      windows := map[];
    }

    method OnCreated(now: nat, id: nat, at: Point)
      modifies this
      ensures (windows, Silent) == Step(old(windows), Created(now, id, at))
    {
      windows := windows[id := WindowSync(now + SETTLE, at, None, None)];
    }

    method OnGuestMoved(now: nat, id: nat, at: Point)
      modifies this
      ensures (windows, Silent) == Step(old(windows), GuestMoved(now, id, at))
    {
      if id !in windows {
        return;
      }
      windows := windows[id := windows[id].(settlingUntil := now + SETTLE, guestAnchor := at,
                                            localAnchor := None, localSize := None)];
    }

    method OnForget(id: nat)
      modifies this
      ensures (windows, Silent) == Step(old(windows), Forget(id))
    {
      windows := windows - {id};
    }

    method OnMoved(now: nat, id: nat, at: Point) returns (target: Option<Point>)
      modifies this
      ensures (windows, if target.Some? then MoveTo(target.value) else Silent) == Step(old(windows), Moved(now, id, at))
    {
      if id !in windows {
        return None;
      }
      ghost var before := windows;
      var state := windows[id];
      if now < state.settlingUntil {
        assert windows[id := state] == windows;
        return None;
      }
      var previous := state.localAnchor;
      state := state.(localAnchor := Some(at));
      windows := windows[id := state];
      if previous.None? {
        return None;
      }
      var dx, dy := Clamp(at.x - previous.value.x), Clamp(at.y - previous.value.y);
      if dx == 0 && dy == 0 {
        return None;
      }
      target := Some(Point(Clamp(state.guestAnchor.x + dx), Clamp(state.guestAnchor.y + dy)));
      windows := windows[id := state.(guestAnchor := target.value)];
      assert windows == before[id := state.(guestAnchor := target.value)];
    }

    method OnResized(now: nat, id: nat, resizable: bool, width: nat, height: nat) returns (size: Option<(nat, nat)>)
      modifies this
      ensures (windows, if size.Some? then ResizeTo(size.value.0, size.value.1) else Silent) ==
              Step(old(windows), Resized(now, id, resizable, width, height))
    {
      if !resizable || width == 0 || height == 0 || id !in windows {
        return None;
      }
      var state := windows[id];
      if now < state.settlingUntil {
        assert windows[id := state] == windows;
        return None;
      }
      var previous := state.localSize;
      windows := windows[id := state.(localSize := Some((width, height)))];
      size := if previous.None? || previous.value == (width, height) then None else Some((width, height));
    }
  }
}
