/** The client's view of the guest's windows (crates/oxclient/src/model.rs). */
module ClientModel {
  import opened Prelude
  import opened Runs
  import opened WindowMessages

  datatype RemoteWindow = RemoteWindow(
    id: nat, channel: u16, appId: string, title: string, geometry: Geometry, dpi: u16, ownerId: nat,
    minimized: bool, maximized: bool, resizable: bool, hasFrame: bool, topmost: bool,
    icon: Option<seq<byte>>)

  datatype Change =
    | Created(id: nat) | Destroyed(id: nat) | Moved(id: nat) | Retitled(id: nat)
    | StateChanged(id: nat) | IconChanged(id: nat) | Restacked | VisibilityChanged(visible: bool) | Passed

  /** `stack` is bottom to top. */
  datatype Model = Model(windows: map<nat, RemoteWindow>, stack: seq<nat>, cursorVisible: bool)

  const EMPTY: Model := Model(map[], [], true)

  function FromOpened(e: Event): RemoteWindow
    requires e.WindowOpened?
  {
    RemoteWindow(e.id, e.channel, e.appId, e.title, e.geometry, e.dpi, e.ownerId,
                 HasMinimized(e.flags), HasMaximized(e.flags), HasResizable(e.flags),
                 HasFrame(e.flags), HasTopmost(e.flags), None)
  }

  // ---------------------------------------------------------------- the stack

  function Without(s: seq<nat>, x: nat): seq<nat> {
    if s == [] then [] else (if s[0] == x then [] else [s[0]]) + Without(s[1..], x)
  }

  /** Position of `x`, or the length. */
  function IndexOf(s: seq<nat>, x: nat): (i: nat)
    ensures i <= |s|
    ensures i < |s| ==> s[i] == x
    ensures x in s <==> i < |s|
    ensures forall j :: 0 <= j < i ==> s[j] != x
  {
    if s == [] || s[0] == x then 0 else 1 + IndexOf(s[1..], x)
  }

  function InsertAt(s: seq<nat>, i: nat, x: nat): (r: seq<nat>)
    requires i <= |s|
  {
    s[..i] + [x] + s[i..]
  }

  /** Take `w` out and put it back directly above `above` (0 is the bottom). An unknown reference
      leaves the stack alone. A window restacked against itself changes places with its upper neighbour,
      if it has one. */
  function Restack(s: seq<nat>, w: nat, above: nat): seq<nat> {
    if above == 0 then Reinsert(s, w, 0)
    else if above !in s then s
    else if above == w then Reinsert(s, w, IndexOf(s, w) + 1)
    else Reinsert(s, w, IndexOf(Without(s, w), above) + 1)
  }

  /** Take `w` out and put it back at `target`, or on top. */
  function Reinsert(s: seq<nat>, w: nat, target: nat): seq<nat> {
    InsertAt(Without(s, w), Min(target, |Without(s, w)|), w)
  }

  ghost predicate Distinct(s: seq<nat>) {
    forall i, j :: 0 <= i < j < |s| ==> s[i] != s[j]
  }

  // ---------------------------------------------------------------- one event

  function Show(w: RemoteWindow): (bool, bool) {
    (w.minimized, w.maximized)
  }

  /** One event; updates and closes of unknown windows, repeated opens and updates that change
      nothing produce no instruction. */
  function Apply(m: Model, e: Event): (Model, seq<Change>) {
    match e
    case WindowOpened(id, _, _, _, _, _, _, _, _) =>
      if id in m.windows then (m, [])
      else (m.(windows := m.windows[id := FromOpened(e)], stack := m.stack + [id]), [Created(id)])
    case WindowClosed(id) =>
      if id !in m.windows then (m, [])
      else (m.(windows := m.windows - {id}, stack := Without(m.stack, id)), [Destroyed(id)])
    case WindowGeometry(id, g) =>
      if id !in m.windows || m.windows[id].geometry == g then (m, [])
      else (m.(windows := m.windows[id := m.windows[id].(geometry := g)]), [Moved(id)])
    case WindowTitle(id, title) =>
      if id !in m.windows || m.windows[id].title == title then (m, [])
      else (m.(windows := m.windows[id := m.windows[id].(title := title)]), [Retitled(id)])
    case WindowState(id, state, _) =>
      if id !in m.windows || Show(m.windows[id]) == (state == MINIMIZED, state == MAXIMIZED) then (m, [])
      else (m.(windows := m.windows[id := m.windows[id].(minimized := state == MINIMIZED,
                                                         maximized := state == MAXIMIZED)]),
            [StateChanged(id)])
    case WindowIcon(id, icon) =>
      if id !in m.windows then (m, [])
      else (m.(windows := m.windows[id := m.windows[id].(icon := Some(icon))]), [IconChanged(id)])
    case WindowZOrder(id, above) =>
      var stack := Restack(m.stack, id, above);
      if id !in m.windows || (stack == m.stack && (above != id || above == 0)) then (m, [])
      else (m.(stack := stack), [Restacked])
    case CursorVisibility(visible) =>
      (m.(cursorVisible := visible), [VisibilityChanged(visible)])
    case PassThrough => (m, [Passed])
  }

  // ---------------------------------------------------------------- stack lemmas

  lemma {:induction false} WithoutMembers(s: seq<nat>, x: nat)
    ensures forall y :: y in Without(s, x) <==> y in s && y != x
  {
    if s != [] {
      WithoutMembers(s[1..], x);
      assert forall y :: y in s <==> y == s[0] || y in s[1..];
    }
  }

  lemma {:induction false} WithoutAbsent(s: seq<nat>, x: nat)
    requires x !in s
    ensures Without(s, x) == s
  {
    if s != [] {
      WithoutAbsent(s[1..], x);
    }
  }

  lemma {:induction false} WithoutDistinct(s: seq<nat>, x: nat)
    requires Distinct(s)
    ensures Distinct(Without(s, x))
  {
    if s != [] {
      WithoutDistinct(s[1..], x);
      WithoutMembers(s[1..], x);
      var t := Without(s, x);
      if s[0] != x {
        forall i, j | 0 <= i < j < |t| ensures t[i] != t[j] {
          if i == 0 {
            assert t[j] in Without(s[1..], x);
          }
        }
      }
    }
  }

  lemma {:induction false} WithoutSplit(a: seq<nat>, b: seq<nat>, x: nat)
    ensures Without(a + b, x) == Without(a, x) + Without(b, x)
  {
    if a == [] {
      assert a + b == b;
    } else {
      assert (a + b)[1..] == a[1..] + b;
      WithoutSplit(a[1..], b, x);
    }
  }

  /** Removing by value is removing at its one position. */
  lemma {:induction false} WithoutAt(s: seq<nat>, i: nat)
    requires Distinct(s) && i < |s|
    ensures Without(s, s[i]) == s[..i] + s[i + 1..]
  {
    var t := s[1..];
    if i == 0 {
      WithoutAbsent(t, s[0]);
    } else {
      assert s[0] != s[i];
      WithoutAt(t, i - 1);
      assert t[i - 1] == s[i];
      assert [s[0]] + t[..i - 1] == s[..i];
      assert t[i..] == s[i + 1..];
    }
  }

  lemma {:induction false} InsertMembers(s: seq<nat>, i: nat, x: nat)
    requires i <= |s|
    ensures forall y :: y in InsertAt(s, i, x) <==> y in s || y == x
  {
    assert s == s[..i] + s[i..];
  }

  lemma {:induction false} InsertDistinct(s: seq<nat>, i: nat, x: nat)
    requires Distinct(s) && x !in s && i <= |s|
    ensures Distinct(InsertAt(s, i, x))
  {
    var t := InsertAt(s, i, x);
    forall j, k | 0 <= j < k < |t|
      ensures t[j] != t[k]
    {
      assert t[j] == if j < i then s[j] else if j == i then x else s[j - 1];
      assert t[k] == if k < i then s[k] else if k == i then x else s[k - 1];
    }
  }

  lemma {:induction false} InsertWithout(s: seq<nat>, i: nat, x: nat)
    requires x !in s && i <= |s|
    ensures Without(InsertAt(s, i, x), x) == s
  {
    var t := InsertAt(s, i, x);
    if i == 0 {
      assert t[0] == x && t[1..] == s;
      WithoutAbsent(s, x);
    } else {
      assert t[0] == s[0] && t[1..] == InsertAt(s[1..], i - 1, x);
      InsertWithout(s[1..], i - 1, x);
    }
  }

  lemma {:induction false} InsertKeeps(s: seq<nat>, i: nat, x: nat)
    requires Distinct(s) && x !in s && i <= |s|
    ensures Distinct(InsertAt(s, i, x))
    ensures forall y :: y in InsertAt(s, i, x) <==> y in s || y == x
    ensures Without(InsertAt(s, i, x), x) == s
  {
    InsertMembers(s, i, x);
    InsertDistinct(s, i, x);
    InsertWithout(s, i, x);
  }

  /** Restacking keeps the stack an ordering of the same windows and the others in order. */
  lemma {:induction false} RestackKeeps(s: seq<nat>, w: nat, above: nat)
    requires Distinct(s) && w in s
    ensures Distinct(Restack(s, w, above))
    ensures forall y :: y in Restack(s, w, above) <==> y in s
    ensures Without(Restack(s, w, above), w) == Without(s, w)
  {
    var rest := Without(s, w);
    WithoutMembers(s, w);
    WithoutDistinct(s, w);
    if above == 0 {
      InsertKeeps(rest, 0, w);
    } else if above == w {
      InsertKeeps(rest, Min(IndexOf(s, w) + 1, |rest|), w);
    } else if above in s {
      InsertKeeps(rest, Min(IndexOf(rest, above) + 1, |rest|), w);
    }
  }

  /** ... and puts the window where it was asked for. */
  lemma {:induction false} RestackPlaces(s: seq<nat>, w: nat, above: nat)
    requires Distinct(s) && w in s && above != w
    requires above == 0 || above in s
    ensures var t := Restack(s, w, above);
            if above == 0 then |t| > 0 && t[0] == w
            else IndexOf(t, above) + 1 < |t| && t[IndexOf(t, above) + 1] == w
  {
    WithoutMembers(s, w);
    if above != 0 {
      var rest := Without(s, w);
      var i := IndexOf(rest, above);
      var t := Restack(s, w, above);
      WithoutDistinct(s, w);
      RestackKeeps(s, w, above);
      assert t[i] == above;
      var j := IndexOf(t, above);
      assert j == i;
    }
  }

  // ---------------------------------------------------------------- over every event sequence

  /** The stack is a duplicate-free ordering of exactly the open windows. */
  ghost predicate WellStacked(m: Model) {
    && Distinct(m.stack)
    && (forall id :: id in m.stack <==> id in m.windows)
    && (forall id :: id in m.windows ==> m.windows[id].id == id)
  }

  lemma {:induction false} AppendDistinct(s: seq<nat>, x: nat)
    requires Distinct(s) && x !in s
    ensures Distinct(s + [x])
  {
  }

  lemma {:induction false} OpenWellStacked(m: Model, e: Event)
    requires WellStacked(m) && e.WindowOpened?
    ensures WellStacked(Apply(m, e).0)
  {
    if e.id !in m.windows {
      AppendDistinct(m.stack, e.id);
    }
  }

  lemma {:induction false} CloseWellStacked(m: Model, id: nat)
    requires WellStacked(m)
    ensures WellStacked(Apply(m, WindowClosed(id)).0)
  {
    WithoutMembers(m.stack, id);
    WithoutDistinct(m.stack, id);
  }

  lemma {:induction false} RestackWellStacked(m: Model, id: nat, above: nat)
    requires WellStacked(m)
    ensures WellStacked(Apply(m, WindowZOrder(id, above)).0)
  {
    if id in m.windows {
      RestackKeeps(m.stack, id, above);
    }
  }

  lemma {:induction false} OtherWellStacked(m: Model, e: Event)
    requires WellStacked(m) && !e.WindowOpened? && !e.WindowClosed? && !e.WindowZOrder?
    ensures WellStacked(Apply(m, e).0)
  {
  }

  lemma {:induction false} ApplyWellStacked(m: Model, e: Event)
    requires WellStacked(m)
    ensures WellStacked(Apply(m, e).0)
  {
    if e.WindowOpened? {
      OpenWellStacked(m, e);
    } else if e.WindowClosed? {
      CloseWellStacked(m, e.id);
    } else if e.WindowZOrder? {
      RestackWellStacked(m, e.id, e.above);
    } else {
      OtherWellStacked(m, e);
    }
  }

  /** For every event sequence at all, unknown windows, repeats and self-references included. */
  lemma {:induction false} EveryRunWellStacked(m: Model, es: seq<Event>)
    requires WellStacked(m)
    ensures WellStacked(End(Apply, m, es))
    decreases |es|
  {
    if es != [] {
      ApplyWellStacked(m, es[0]);
      EveryRunWellStacked(Apply(m, es[0]).0, es[1..]);
    }
  }

  /** An event that produces no instruction for the backend has changed nothing. */
  lemma {:induction false} QuietEventsChangeNothing(m: Model, e: Event)
    ensures Apply(m, e).1 == [] ==> Apply(m, e).0 == m
  {
  }

  // ---------------------------------------------------------------- the object

  // ---------------------------------------------------------------- what the backend is told

  /** A display backend at work: it looks nothing up but what an instruction names. */
  function Execute(shown: Model, m: Model, c: Change): Model {
    match c
    case Created(id) =>
      if id !in m.windows then shown
      else shown.(windows := shown.windows[id := m.windows[id]], stack := shown.stack + [id])
    case Destroyed(id) => shown.(windows := shown.windows - {id}, stack := Without(shown.stack, id))
    case Restacked => shown.(stack := m.stack)
    case VisibilityChanged(visible) => shown.(cursorVisible := visible)
    case Passed => shown
    case _ =>
      if c.id !in m.windows || c.id !in shown.windows then shown
      else shown.(windows := shown.windows[c.id := Refresh(shown.windows[c.id], m.windows[c.id], c)])
  }

  /** Copy what the instruction says has changed of a window. */
  function Refresh(shown: RemoteWindow, w: RemoteWindow, c: Change): RemoteWindow {
    match c
    case Moved(_) => shown.(geometry := w.geometry)
    case Retitled(_) => shown.(title := w.title)
    case StateChanged(_) => shown.(minimized := w.minimized, maximized := w.maximized)
    case IconChanged(_) => shown.(icon := w.icon)
    case _ => shown
  }

  function ExecuteAll(shown: Model, m: Model, cs: seq<Change>): Model
    decreases |cs|
  {
    if cs == [] then shown else ExecuteAll(Execute(shown, m, cs[0]), m, cs[1..])
  }

  /** A backend that executes the instructions in order stays consistent with the model, without ever
      looking at the event. */
  lemma {:induction false} BackendFollows(m: Model, e: Event)
    ensures var (m', cs) := Apply(m, e); ExecuteAll(m, m', cs) == m'
  {
    var (m', cs) := Apply(m, e);
    if cs != [] {
      assert |cs| == 1 && cs[1..] == [];
      assert Execute(m, m', cs[0]) == m';
    }
  }

  function Displayed(shown: Model, m: Model, es: seq<Event>): Model
    decreases |es|
  {
    if es == [] then shown
    else var (m', cs) := Apply(m, es[0]); Displayed(ExecuteAll(shown, m', cs), m', es[1..])
  }

  lemma {:induction false} BackendConsistent(m: Model, es: seq<Event>)
    ensures Displayed(m, m, es) == End(Apply, m, es)
    decreases |es|
  {
    if es != [] {
      BackendFollows(m, es[0]);
      BackendConsistent(Apply(m, es[0]).0, es[1..]);
    }
  }

  /** An instruction is given exactly for a change; only a new icon, the cursor, what passes through and a
      restack of a window against itself are always reported. */
  lemma {:induction false} InstructedExact(m: Model, e: Event)
    requires !e.WindowIcon? && !e.CursorVisibility? && !e.PassThrough?
    requires e.WindowZOrder? ==> e.above != e.id || e.above == 0
    ensures Apply(m, e).1 == [] <==> Apply(m, e).0 == m
  {
    match e
    case WindowOpened(id, _, _, _, _, _, _, _, _) =>
    case WindowClosed(id) =>
      assert id in m.windows ==> id !in (m.windows - {id});
    case WindowGeometry(id, _) =>
      assert id in m.windows ==> Apply(m, e).0.windows[id].geometry == e.geometry;
    case WindowTitle(id, _) =>
      assert id in m.windows ==> Apply(m, e).0.windows[id].title == e.title;
    case WindowState(id, _, _) =>
      assert id in m.windows ==> Show(Apply(m, e).0.windows[id]) == (e.state == MINIMIZED, e.state == MAXIMIZED);
    case WindowZOrder(_, _) =>
  }

  /** An event for a known window leaves it with the value the event carries, and nothing else of it or of
      any other window touched. */
  lemma {:induction false} EventTakesEffect(m: Model, e: Event)
    requires e.WindowGeometry? || e.WindowTitle? || e.WindowState? || e.WindowIcon?
    requires e.id in m.windows
    ensures var m', w := Apply(m, e).0, m.windows[e.id];
            && m'.stack == m.stack && m'.cursorVisible == m.cursorVisible && m'.windows.Keys == m.windows.Keys
            && (forall id :: id in m.windows && id != e.id ==> m'.windows[id] == m.windows[id])
            && (e.WindowGeometry? ==> m'.windows[e.id] == w.(geometry := e.geometry))
            && (e.WindowTitle? ==> m'.windows[e.id] == w.(title := e.title))
            && (e.WindowState? ==>
                  m'.windows[e.id] == w.(minimized := e.state == MINIMIZED, maximized := e.state == MAXIMIZED))
            && (e.WindowIcon? ==> m'.windows[e.id] == w.(icon := Some(e.icon)))
  {
  }

  /** The other events, by what they leave behind. */
  lemma {:induction false} EventOutcome(m: Model, e: Event)
    ensures var m' := Apply(m, e).0;
            && (e.WindowOpened? && e.id !in m.windows ==>
                  m' == m.(windows := m.windows[e.id := FromOpened(e)], stack := m.stack + [e.id]))
            && (e.WindowOpened? && e.id in m.windows ==> m' == m)
            && (e.WindowClosed? ==> e.id !in m'.windows && m'.windows == m.windows - {e.id})
            && (e.CursorVisibility? ==>
                  m' == m.(cursorVisible := e.visible) && Apply(m, e).1 == [VisibilityChanged(e.visible)])
            && (e.PassThrough? ==> m' == m && Apply(m, e).1 == [Passed])
  {
    if e.WindowClosed? && e.id !in m.windows {
      assert m.windows - {e.id} == m.windows;
    }
  }

  method Position(s: seq<nat>, x: nat) returns (i: nat)
    ensures i == IndexOf(s, x)
  {
    i := 0;
    while i < |s| && s[i] != x
      invariant i <= |s| && forall j :: 0 <= j < i ==> s[j] != x
    {
      i := i + 1;
    }
  }

  method Retain(s: seq<nat>, x: nat) returns (r: seq<nat>)
    ensures r == Without(s, x)
  {
    r := [];
    for i := 0 to |s|
      invariant r == Without(s[..i], x)
    {
      assert s[..i + 1] == s[..i] + [s[i]];
      WithoutSplit(s[..i], [s[i]], x);
      assert [s[i]][1..] == [];
      if s[i] != x {
        r := r + [s[i]];
      }
    }
    assert s[..|s|] == s;
  }

  lemma {:induction false} IndexUnique(s: seq<nat>, i: nat)
    requires Distinct(s) && i < |s|
    ensures IndexOf(s, s[i]) == i
  {
  }

  /** The source's index arithmetic: remove at `current`, insert at `target`. */
  function Target(s: seq<nat>, current: nat, above: nat): nat {
    if above == 0 then 0
    else
      var i := IndexOf(s, above);
      if i > current then i else i + 1
  }

  lemma {:induction false} IndexAfterRemoval(s: seq<nat>, current: nat, above: nat)
    requires Distinct(s) && current < |s| && above in s && above != s[current]
    ensures var rest := s[..current] + s[current + 1..];
            var i := IndexOf(s, above);
            IndexOf(rest, above) == if i > current then i - 1 else i
  {
    var rest := s[..current] + s[current + 1..];
    var i := IndexOf(s, above);
    var k := if i > current then i - 1 else i;
    assert rest[k] == above;
    WithoutAt(s, current);
    WithoutDistinct(s, s[current]);
    IndexUnique(rest, k);
  }

  /** Remove at `current`, insert at `target`. */
  function MoveTo(s: seq<nat>, current: nat, target: nat): seq<nat>
    requires current < |s|
  {
    var rest := s[..current] + s[current + 1..];
    InsertAt(rest, Min(target, |rest|), s[current])
  }

  /** Against another window: the index in the full stack and in the rest differ by the one removed. */
  lemma {:induction false} AboveIsMove(s: seq<nat>, w: nat, above: nat)
    requires Distinct(s) && w in s && above in s && above != w && above != 0
    ensures Restack(s, w, above) == MoveTo(s, IndexOf(s, w), Target(s, IndexOf(s, w), above))
  {
    MoveIsReinsert(s, w, Target(s, IndexOf(s, w), above));
    TargetAfterRemoval(s, w, above);
  }

  lemma {:induction false} MoveIsReinsert(s: seq<nat>, w: nat, target: nat)
    requires Distinct(s) && w in s
    ensures MoveTo(s, IndexOf(s, w), target) == Reinsert(s, w, target)
  {
    WithoutAt(s, IndexOf(s, w));
  }

  lemma {:induction false} TargetAfterRemoval(s: seq<nat>, w: nat, above: nat)
    requires Distinct(s) && w in s && above in s && above != w && above != 0
    ensures IndexOf(Without(s, w), above) + 1 == Target(s, IndexOf(s, w), above)
  {
    var current := IndexOf(s, w);
    WithoutAt(s, current);
    IndexAfterRemoval(s, current, above);
  }

  lemma {:induction false} RestackIsMove(s: seq<nat>, w: nat, above: nat)
    requires Distinct(s) && w in s && (above == 0 || above in s)
    ensures Restack(s, w, above) == MoveTo(s, IndexOf(s, w), Target(s, IndexOf(s, w), above))
  {
    if above != 0 && above != w {
      AboveIsMove(s, w, above);
    } else {
      MoveIsReinsert(s, w, Target(s, IndexOf(s, w), above));
    }
  }

  /** Only a move to another place changes the stack. */
  lemma {:induction false} MoveMatters(s: seq<nat>, current: nat, target: nat)
    requires Distinct(s) && current < |s| && target < |s|
    ensures MoveTo(s, current, target) == s <==> target == current
  {
    var t := MoveTo(s, current, target);
    assert t[target] == s[current];
    if target == current {
      assert t == s;
    }
  }

  /** The early exit is exact: except against itself, a window is left alone just when it already
      sits where it is asked to. */
  lemma {:induction false} TargetExact(s: seq<nat>, w: nat, above: nat)
    requires Distinct(s) && w in s && (above == 0 || above in s)
    ensures var target := Target(s, IndexOf(s, w), above);
            if above == w && above != 0 then target == IndexOf(s, w) + 1
            else target == IndexOf(s, w) <==> Restack(s, w, above) == s
  {
    RestackIsMove(s, w, above);
    if above != w || above == 0 {
      MoveMatters(s, IndexOf(s, w), Target(s, IndexOf(s, w), above));
    }
  }

  /** Against itself: the topmost window stays, any other changes places with its upper neighbour, and
      either way the event is reported as a restack. */
  lemma {:induction false} SelfRestackExact(m: Model, w: nat)
    requires WellStacked(m) && w in m.stack && w != 0
    ensures var s, i := m.stack, IndexOf(m.stack, w);
            && (Restack(s, w, w) == s <==> s[|s| - 1] == w)
            && (i + 1 < |s| ==> Restack(s, w, w) == s[i := s[i + 1]][i + 1 := w])
            && Apply(m, WindowZOrder(w, w)) == (m.(stack := Restack(s, w, w)), [Restacked])
  {
    var s, i := m.stack, IndexOf(m.stack, w);
    RestackIsMove(s, w, w);
    if i + 1 == |s| {
      assert MoveTo(s, i, i + 1) == s;
    } else {
      SwapUp(s, i);
      assert s[i] != s[i + 1] && s[|s| - 1] != w;
    }
    ZOrderOutcome(m, w, w);
  }

  lemma {:induction false} SwapUp(s: seq<nat>, i: nat)
    requires i + 1 < |s|
    ensures MoveTo(s, i, i + 1) == s[i := s[i + 1]][i + 1 := s[i]]
  {
  }

  /** The source's index arithmetic computes the restack, and its early exit is taken just when there
      is nothing to do. */
  lemma {:induction false} ZOrderApplied(m: Model, id: nat, above: nat)
    requires WellStacked(m) && id in m.stack && (above == 0 || above in m.stack)
    ensures var current := IndexOf(m.stack, id);
            var target := Target(m.stack, current, above);
            var (m', changes) := Apply(m, WindowZOrder(id, above));
            if target == current then m' == m && changes == []
            else m' == m.(stack := MoveTo(m.stack, current, target)) && changes == [Restacked]
  {
    RestackIsMove(m.stack, id, above);
    TargetExact(m.stack, id, above);
    ZOrderOutcome(m, id, above);
  }

  lemma {:induction false} ZOrderUnknown(m: Model, id: nat, above: nat)
    requires WellStacked(m) && above != 0 && above !in m.stack
    ensures Apply(m, WindowZOrder(id, above)) == (m, [])
  {
  }

  lemma {:induction false} ZOrderOutcome(m: Model, id: nat, above: nat)
    requires id in m.windows
    ensures var stack := Restack(m.stack, id, above);
            Apply(m, WindowZOrder(id, above)) ==
            if stack == m.stack && (above != id || above == 0) then (m, [])
            else (m.(stack := stack), [Restacked])
  {
  }

  class WindowModel {
    var windows: map<nat, RemoteWindow>
    var stack: seq<nat>
    var cursorVisible: bool

    ghost function Value(): Model
      reads this
    {
      Model(windows, stack, cursorVisible)
    }

    constructor ()
      ensures Value() == EMPTY && WellStacked(Value())
    {
      windows := map[];
      stack := [];
      cursorVisible := true;
    }

    method OnZOrder(id: nat, above: nat) returns (changes: seq<Change>)
      requires WellStacked(Value())
      modifies this
      ensures (Value(), changes) == Apply(old(Value()), WindowZOrder(id, above))
    {
      if id !in windows {
        return [];
      }
      var current := Position(stack, id);
      var target := 0;
      if above != 0 {
        var i := Position(stack, above);
        if i == |stack| {
          ZOrderUnknown(Value(), id, above);
          return [];
        }
        target := if i > current then i else i + 1;
      }
      assert target == Target(stack, current, above);
      ZOrderApplied(Value(), id, above);
      if target == current {
        return [];
      }
      stack := MoveTo(stack, current, target);
      changes := [Restacked];
    }

    method OnWindow(e: Event) returns (changes: seq<Change>)
      requires e.WindowGeometry? || e.WindowTitle? || e.WindowState? || e.WindowIcon?
      modifies this
      ensures (Value(), changes) == Apply(old(Value()), e)
    {
      if e.id !in windows {
        return [];
      }
      var w := windows[e.id];
      match e {
        case WindowGeometry(id, g) =>
          if w.geometry == g {
            return [];
          }
          windows := windows[id := w.(geometry := g)];
          changes := [Moved(id)];
        case WindowTitle(id, title) =>
          if w.title == title {
            return [];
          }
          windows := windows[id := w.(title := title)];
          changes := [Retitled(id)];
        case WindowState(id, state, _) =>
          var minimized, maximized := state == MINIMIZED, state == MAXIMIZED;
          if (w.minimized, w.maximized) == (minimized, maximized) {
            return [];
          }
          windows := windows[id := w.(minimized := minimized, maximized := maximized)];
          changes := [StateChanged(id)];
        case WindowIcon(id, icon) =>
          windows := windows[id := w.(icon := Some(icon))];
          changes := [IconChanged(id)];
      }
    }

    /** Fold one event in; the stack stays an ordering of exactly the open windows. */
    method ApplyEvent(e: Event) returns (changes: seq<Change>)
      requires WellStacked(Value())
      modifies this
      ensures (Value(), changes) == Apply(old(Value()), e)
      ensures WellStacked(Value())
    {
      ApplyWellStacked(Value(), e);
      match e {
        case WindowOpened(id, _, _, _, _, _, _, _, _) =>
          if id in windows {
            return [];
          }
          windows := windows[id := FromOpened(e)];
          stack := stack + [id];
          changes := [Created(id)];
        case WindowClosed(id) =>
          if id !in windows {
            return [];
          }
          windows := windows - {id};
          stack := Retain(stack, id);
          changes := [Destroyed(id)];
        case WindowZOrder(id, above) =>
          changes := OnZOrder(id, above);
        case CursorVisibility(visible) =>
          cursorVisible := visible;
          changes := [VisibilityChanged(visible)];
        case PassThrough =>
          changes := [Passed];
        case _ =>
          changes := OnWindow(e);
      }
    }
  }
}
