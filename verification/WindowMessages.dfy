/** Window messages as values, and the two encodings of a window's show state. */
module WindowMessages {
  import opened Prelude

  datatype Geometry = Geometry(x: i32, y: i32, width: u16, height: u16)

  const NORMAL := 0
  const MINIMIZED := 1
  const MAXIMIZED := 2

  /** Events of the client's stream. `PassThrough` stands for frames, cursor bitmaps, cursor
      positions, agent errors and the session close, none of which touch the model. */
  datatype Event =
    | WindowOpened(id: nat, channel: u16, pid: u32, appId: string, title: string, geometry: Geometry,
                   dpi: u16, flags: nat, ownerId: nat)
    | WindowClosed(id: nat)
    | WindowGeometry(id: nat, geometry: Geometry)
    | WindowTitle(id: nat, title: string)
    | WindowState(id: nat, state: nat, flags: nat)
    | WindowZOrder(id: nat, above: nat)
    | WindowIcon(id: nat, icon: seq<byte>)
    | CursorVisibility(visible: bool)
    | PassThrough

  /** `window_flag` masks: RESIZABLE 1, HAS_FRAME 2, TOPMOST 4, MINIMIZED 8, MAXIMIZED 16. */
  function Flags(resizable: bool, hasFrame: bool, topmost: bool, minimized: bool, maximized: bool): nat {
    (if resizable then 1 else 0) + (if hasFrame then 2 else 0) + (if topmost then 4 else 0) +
    (if minimized then 8 else 0) + (if maximized then 16 else 0)
  }

  predicate HasResizable(flags: nat) { flags % 2 == 1 }
  predicate HasFrame(flags: nat) { flags / 2 % 2 == 1 }
  predicate HasTopmost(flags: nat) { flags / 4 % 2 == 1 }
  predicate HasMinimized(flags: nat) { flags / 8 % 2 == 1 }
  predicate HasMaximized(flags: nat) { flags / 16 % 2 == 1 }

  lemma {:induction false} FlagsDecode(r: bool, f: bool, t: bool, n: bool, x: bool)
    ensures var m := Flags(r, f, t, n, x);
            && HasResizable(m) == r && HasFrame(m) == f && HasTopmost(m) == t
            && HasMinimized(m) == n && HasMaximized(m) == x
  {
  }
}
