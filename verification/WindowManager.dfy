/** The window manager's fields and in-place updates, each method tied to the state machine on values. */
module WindowManager {
  import opened Common
  import opened WindowModel

  class Manager {
    const windows: array<Option<Window>>
    const windowStates: array<WindowState>
    const savedPositions: array<Rect>
    const zOrder: array<nat>
    var windowCount: nat
    var focusedWindow: Option<nat>
    var draggingWindow: Option<nat>
    var dragOffsetX: int
    var dragOffsetY: int
    var resizingWindow: Option<nat>
    var resizeEdge: nat
    var resizeStartMx: int
    var resizeStartMy: int
    var resizeStartW: nat
    var resizeStartH: nat
    var lastClosedWindow: Option<nat>
    var clockWasClicked: bool
    var screenWidth: nat
    var screenHeight: nat

    ghost predicate Arrays()
      reads `windowCount
    {
      && windows.Length == windowStates.Length == savedPositions.Length == zOrder.Length == MAX_WINDOWS
      && windowCount <= MAX_WINDOWS
      && windows as object != windowStates && windows as object != savedPositions && windows as object != zOrder
      && windowStates as object != savedPositions && windowStates as object != zOrder && savedPositions as object != zOrder
    }

    ghost function State(): Desk
      requires windowCount <= zOrder.Length
      reads this, windows, windowStates, savedPositions, zOrder
    {
      Desk(windows[..], windowStates[..], savedPositions[..], zOrder[..windowCount],
           focusedWindow, draggingWindow, dragOffsetX, dragOffsetY,
           resizingWindow, resizeEdge, resizeStartMx, resizeStartMy, resizeStartW, resizeStartH,
           lastClosedWindow, clockWasClicked, screenWidth, screenHeight)
    }

    ghost predicate Valid()
      reads this, windows, windowStates, savedPositions, zOrder
    {
      Arrays() && Consistent(State()) && InRange(State())
    }

    constructor ()
      ensures Valid() && State() == NEW_DESK
      ensures fresh(windows) && fresh(windowStates) && fresh(savedPositions) && fresh(zOrder)
    {
      windows := new Option<Window>[MAX_WINDOWS](_ => None);
      windowStates := new WindowState[MAX_WINDOWS](_ => Normal);
      savedPositions := new Rect[MAX_WINDOWS](_ => Rect(0, 0, 0, 0));
      zOrder := new nat[MAX_WINDOWS](_ => 0);
      windowCount := 0;
      focusedWindow, draggingWindow, resizingWindow, lastClosedWindow := None, None, None, None;
      dragOffsetX, dragOffsetY, resizeStartMx, resizeStartMy := 0, 0, 0, 0;
      resizeEdge, resizeStartW, resizeStartH := 0, 0, 0;
      clockWasClicked, screenWidth, screenHeight := false, 1280, 800;
      new;
      NewConsistent();
      assert State().slots == NEW_DESK.slots && State().states == NEW_DESK.states && State().saved == NEW_DESK.saved;
    }

    /** `add_window`. */
    method AddWindow(window: Window) returns (r: Option<nat>)
      requires Valid()
      modifies this, windows, windowStates, zOrder
      ensures Valid() && (State(), r) == WindowModel.AddWindow(old(State()), window)
    {
      hide Consistent;
      AddKeeps(State(), window);
      if windowCount >= MAX_WINDOWS { return None; }
      for i := 0 to MAX_WINDOWS
        invariant State() == old(State())
        invariant FreeSlot(State().slots, 0) == FreeSlot(State().slots, i)
      {
        if windows[i].None? {
          windows[i] := Some(window);
          windowStates[i] := Normal;
          zOrder[windowCount] := i;
          windowCount := windowCount + 1;
          focusedWindow := Some(i);
          assert windows[..] == old(windows[..])[i := Some(window)];
          assert windowStates[..] == old(windowStates[..])[i := Normal];
          assert zOrder[..windowCount] == old(zOrder[..windowCount]) + [i];
          r := Some(i);
          ConsistentInRange(State());
          return;
        }
      }
      return None;
    }

    /** The search loop of `remove_window` and `bring_to_front`. */
    method FindInOrder(id: nat) returns (r: Option<nat>)
      requires Arrays()
      ensures r.Some? ==> r.value < windowCount && zOrder[r.value] == id
      ensures r.None? ==> id !in zOrder[..windowCount]
    {
      for i := 0 to windowCount
        invariant id !in zOrder[..i]
      {
        if zOrder[i] == id { return Some(i); }
      }
      return None;
    }

    /** The shifting loop of `remove_window` and `bring_to_front`. */
    method CloseGap(idx: nat)
      requires Arrays() && idx < windowCount
      modifies zOrder
      ensures zOrder[..windowCount - 1] == old(zOrder[..windowCount])[..idx] + old(zOrder[..windowCount])[idx + 1..]
    {
      for i := idx to windowCount - 1
        invariant forall k | 0 <= k < idx || i <= k < zOrder.Length :: zOrder[k] == old(zOrder[k])
        invariant forall k | idx <= k < i :: zOrder[k] == old(zOrder[k + 1])
      {
        zOrder[i] := zOrder[i + 1];
      }
    }

    /** Together: the order without the id at `pos`. */
    method TakeOut(pos: nat, id: nat)
      requires Arrays() && NoDuplicates(zOrder[..windowCount]) && pos < windowCount && zOrder[pos] == id
      modifies zOrder
      ensures zOrder[..windowCount - 1] == Without(old(zOrder[..windowCount]), id)
    {
      WithoutAt(zOrder[..windowCount], pos);
      CloseGap(pos);
    }

    /** `remove_window`. */
    method RemoveWindow(id: nat)
      requires Valid()
      modifies `windowCount, `focusedWindow, `draggingWindow, windows, zOrder
      ensures Valid() && State() == WindowModel.RemoveWindow(old(State()), id)
    {
      ghost var d := State();
      RemoveKeeps(d, id);
      ConsistentInRange(WindowModel.RemoveWindow(d, id));
      if id >= MAX_WINDOWS || windows[id].None? { return; }
      LiveInOrder(d, id);
      hide Consistent, InRange, NoDuplicates, Without;
      windows[id] := None;
      assert State() == d.(slots := d.slots[id := None]);
      Unstack(id);
      Forget(id);
    }

    /** The middle of `remove_window`: the id leaves the stacking order. */
    method Unstack(id: nat)
      requires Arrays() && NoDuplicates(zOrder[..windowCount]) && id in zOrder[..windowCount]
      modifies `windowCount, zOrder
      ensures Arrays() && State() == old(State()).(z := Without(old(State()).z, id))
    {
      hide NoDuplicates, Without;
      var found := FindInOrder(id);
      if found.Some? {
        TakeOut(found.value, id);
        windowCount := windowCount - 1;
      }
    }

    /** The end of `remove_window`: the removed window is neither focused nor dragged. */
    method Forget(id: nat)
      requires Arrays()
      modifies `focusedWindow, `draggingWindow
      ensures var d := old(State()); State() == d.(
        focus := if d.focus == Some(id) then (if d.z != [] then Some(d.z[|d.z| - 1]) else None) else d.focus,
        drag := if d.drag == Some(id) then None else d.drag)
    {
      if focusedWindow == Some(id) {
        focusedWindow := if windowCount > 0 then Some(zOrder[windowCount - 1]) else None;
      }
      if draggingWindow == Some(id) { draggingWindow := None; }
    }

    /** `bring_to_front`. A window that is on top already is not focused. */
    method BringToFront(id: nat)
      requires Valid()
      modifies `focusedWindow, zOrder
      ensures Valid() && State() == WindowModel.BringToFront(old(State()), id)
    {
      ghost var d := State();
      FrontKeeps(d, id);
      hide Consistent, InRange, NoDuplicates, Without;
      if id >= MAX_WINDOWS || windows[id].None? { return; }
      LiveInOrder(d, id);
      var pos := FindInOrder(id);
      if pos.Some? {
        if pos.value == windowCount - 1 { return; }
        TopDiffers(d, pos.value);
        TakeOut(pos.value, id);
        zOrder[windowCount - 1] := id;
        focusedWindow := Some(id);
        assert zOrder[..windowCount] == zOrder[..windowCount - 1] + [id];
        ConsistentInRange(State());
      }
    }

    /** `minimize_window`: the focus goes to the next visible window below. */
    method MinimizeWindow(id: nat)
      requires Valid()
      modifies `focusedWindow, windowStates
      ensures Valid() && State() == WindowModel.MinimizeWindow(old(State()), id)
    {
      ghost var d := State();
      MinimizeKeeps(d, id);
      hide Consistent;
      if id >= MAX_WINDOWS || windows[id].None? { return; }
      windowStates[id] := Minimized;
      if focusedWindow == Some(id) {
        focusedWindow := NextVisibleBelow(id);
      }
    }

    /** The loop of `minimize_window`. */
    method NextVisibleBelow(id: nat) returns (r: Option<nat>)
      requires Arrays() && InRange(State())
      ensures r == NextVisible(State(), id, windowCount)
    {
      var i: nat := windowCount;
      while i > 0
        invariant i <= windowCount
        invariant NextVisible(State(), id, windowCount) == NextVisible(State(), id, i)
      {
        i := i - 1;
        var other := zOrder[i];
        assert State().z[i] == other;
        if other != id && windowStates[other] != Minimized { return Some(other); }
      }
      return None;
    }

    /** `maximize_window`, which also undoes itself and snapping. */
    method MaximizeWindow(id: nat)
      requires Valid()
      modifies windows, windowStates, savedPositions
      ensures Valid() && State() == WindowModel.MaximizeWindow(old(State()), id)
    {
      ghost var d := State();
      MaximizeKeeps(d, id);
      hide Consistent;
      if id >= MAX_WINDOWS || windows[id].None? { return; }
      var w := windows[id].value;
      if windowStates[id] == Maximized || windowStates[id] == SnappedLeft || windowStates[id] == SnappedRight {
        windows[id] := Some(w.(rect := savedPositions[id]));
        windowStates[id] := Normal;
      } else {
        savedPositions[id] := w.rect;
        windows[id] := Some(w.(rect := Rect(0, TASKBAR_HEIGHT, screenWidth, SatSub(screenHeight, TASKBAR_HEIGHT))));
        windowStates[id] := Maximized;
      }
    }

    /** `restore_window`. */
    method RestoreWindow(id: nat)
      requires Valid()
      modifies `focusedWindow, windows, windowStates, savedPositions, zOrder
      ensures Valid() && State() == WindowModel.RestoreWindow(old(State()), id)
    {
      ghost var d := State();
      RestoreKeeps(d, id);
      if id >= MAX_WINDOWS { return; }
      match windowStates[id]
      case Minimized =>
        SameShape(d, d.(states := d.states[id := Normal]));
        windowStates[id] := Normal;
        assert State() == d.(states := d.states[id := Normal]);
        BringToFront(id);
      case Normal =>
      case _ => MaximizeWindow(id);
    }

    /** `snap_left` and `snap_right`. */
    method Snap(id: nat, left: bool)
      requires Valid()
      modifies windows, windowStates, savedPositions
      ensures Valid() && State() == WindowModel.Snap(old(State()), id, left)
    {
      ghost var d := State();
      SnapKeeps(d, id, left);
      hide Consistent;
      if id >= MAX_WINDOWS || windows[id].None? { return; }
      var w := windows[id].value;
      savedPositions[id] := w.rect;
      var x := if left then 0 else screenWidth / 2;
      windows[id] := Some(w.(rect := Rect(x, TASKBAR_HEIGHT, screenWidth / 2, SatSub(screenHeight, TASKBAR_HEIGHT))));
      windowStates[id] := if left then SnappedLeft else SnappedRight;
    }

    // ----- the mouse -----

    /** The search loop of `handle_click`, from the top of the stack down. */
    method FindHit(mx: nat, my: nat) returns (r: Option<(nat, Part)>)
      requires Arrays() && InRange(State())
      ensures r == Hit(State(), mx, my, windowCount)
    {
      var i: nat := windowCount;
      while i > 0
        invariant i <= windowCount
        invariant Hit(State(), mx, my, windowCount) == Hit(State(), mx, my, i)
      {
        i := i - 1;
        var id := zOrder[i];
        assert State().z[i] == id;
        if windowStates[id] == Minimized { continue; }
        if windows[id].Some? {
          var w := windows[id].value;
          if !w.visible { continue; }
          var part := PartAt(w, windowStates[id], mx, my);
          if part.Some? { return Some((id, part.value)); }
        }
      }
      return None;
    }

    /** `handle_click`. */
    method HandleClick(mx: nat, my: nat) returns (r: bool)
      requires Valid()
      modifies this, windows, windowStates, savedPositions, zOrder
      ensures Valid() && (State(), r) == Click(old(State()), mx, my)
    {
      if my < TASKBAR_HEIGHT {
        r := HandleTaskbarClick(mx);
        return;
      }
      var hit := FindHit(mx, my);
      if hit.None? { return false; }
      HitLive(State(), mx, my, windowCount);
      var (id, part) := hit.value;
      if part.MinimizeButton? {
        MinimizeWindow(id);
      } else {
        ApplyPart(id, part, mx, my);
      }
      return true;
    }

    /** The end of `handle_click`: what the part under the mouse does. */
    method ApplyPart(id: nat, part: Part, mx: nat, my: nat)
      requires Valid() && Live(State(), id) && !part.MinimizeButton?
      modifies this, windows, windowStates, savedPositions, zOrder
      ensures Valid() && State() == Apply(old(State()), id, part, mx, my)
    {
      match part
      case CloseButton =>
        SameShape(State(), State().(closed := Some(id)));
        lastClosedWindow := Some(id);
        RemoveWindow(id);
      case MaximizeButton => MaximizeWindow(id);
      case Edge(e) => StartResize(id, e, mx, my);
      case Title => StartDrag(id, mx, my);
      case Body => BringToFront(id);
    }

    /** A press on a resize edge. */
    method StartResize(id: nat, e: nat, mx: nat, my: nat)
      requires Valid() && Live(State(), id)
      modifies `focusedWindow, zOrder
      modifies `resizingWindow, `resizeEdge, `resizeStartMx, `resizeStartMy, `resizeStartW, `resizeStartH
      ensures Valid() && State() == Apply(old(State()), id, Edge(e), mx, my)
    {
      ghost var d := State();
      ApplyKeeps(d, id, Edge(e), mx, my);
      ConsistentInRange(Apply(d, id, Edge(e), mx, my));
      FrontShape(d, id);
      hide Consistent, InRange, WindowModel.BringToFront;
      BringToFront(id);
      SetResize(id, e);
      SetResizeStart(mx, my, windows[id].value.rect);
    }

    method SetResize(id: nat, e: nat)
      requires Arrays()
      modifies `resizingWindow, `resizeEdge
      ensures State() == old(State()).(resize := Some(id), edge := e)
    {
      resizingWindow, resizeEdge := Some(id), e;
    }

    method SetResizeStart(mx: nat, my: nat, r: Rect)
      requires Arrays()
      modifies `resizeStartMx, `resizeStartMy, `resizeStartW, `resizeStartH
      ensures State() == old(State()).(startX := mx, startY := my, startW := r.w, startH := r.h)
    {
      resizeStartMx, resizeStartMy, resizeStartW, resizeStartH := mx, my, r.w, r.h;
    }

    /** A press on the title bar: a snapped window takes its saved size again first. */
    method StartDrag(id: nat, mx: nat, my: nat)
      requires Valid() && Live(State(), id)
      modifies `focusedWindow, `draggingWindow, `dragOffsetX, `dragOffsetY
      modifies windows, windowStates, savedPositions, zOrder
      ensures Valid() && State() == Apply(old(State()), id, Title, mx, my)
    {
      hide Consistent, InRange, WindowModel.BringToFront, Dragged, Apply;
      TitleKeeps(State(), id, mx, my);
      var offX, offY := mx - windows[id].value.rect.x, my - windows[id].value.rect.y;
      BringToFront(id);
      BeginDrag(id, offX, offY);
    }

    method BeginDrag(id: nat, x: int, y: int)
      requires Valid() && id < MAX_WINDOWS
      modifies `focusedWindow, `draggingWindow, `dragOffsetX, `dragOffsetY
      modifies windows, windowStates, savedPositions, zOrder
      ensures Arrays() && State() == Dragged(old(State()), id, x, y)
    {
      hide Consistent, InRange, Unsnapped;
      if windowStates[id] != Maximized {
        Unsnap(id);
        SetDrag(id, x, y);
      }
    }

    method Unsnap(id: nat)
      requires Valid() && id < MAX_WINDOWS
      modifies `focusedWindow, windows, windowStates, savedPositions, zOrder
      ensures Valid() && State() == Unsnapped(old(State()), id)
    {
      hide Consistent, InRange, WindowModel.RestoreWindow;
      if windowStates[id] == SnappedLeft || windowStates[id] == SnappedRight {
        RestoreWindow(id);
      }
    }

    method SetDrag(id: nat, x: int, y: int)
      requires Arrays()
      modifies `draggingWindow, `dragOffsetX, `dragOffsetY
      ensures State() == old(State()).(drag := Some(id), dragX := x, dragY := y)
    {
      draggingWindow, dragOffsetX, dragOffsetY := Some(id), x, y;
    }

    /** `handle_taskbar_click`. */
    method HandleTaskbarClick(mx: nat) returns (r: bool)
      requires Valid()
      modifies this, windows, windowStates, savedPositions, zOrder
      ensures Valid() && (State(), r) == TaskbarClick(old(State()), mx)
    {
      ghost var d := State();
      TaskbarKeeps(d, mx);
      var pill := SatSub(screenWidth, CLOCK_PILL_W) / 2;
      if pill <= mx < pill + CLOCK_PILL_W {
        clockWasClicked := true;
        return true;
      }
      for i := 0 to windowCount
        invariant State() == d && Valid()
        invariant TaskbarItem(|d.z|, mx, 0) == TaskbarItem(|d.z|, mx, i)
      {
        var id := zOrder[i];
        assert d.z[i] == id;
        var x := TASKBAR_ITEMS_X + i * (TASKBAR_ITEM_WIDTH + TASKBAR_ITEM_SPACING);
        if x <= mx < x + TASKBAR_ITEM_WIDTH {
          if windowStates[id] == Minimized {
            RestoreWindow(id);
          } else if focusedWindow == Some(id) {
            MinimizeWindow(id);
          } else {
            BringToFront(id);
          }
          return true;
        }
      }
      return false;
    }

    /** `handle_drag`: resizing goes before moving. */
    method HandleDrag(mx: nat, my: nat)
      requires Valid()
      modifies windows
      ensures Valid() && State() == Drag(old(State()), mx, my)
    {
      ghost var d := State();
      DragKeeps(d, mx, my);
      hide Consistent;
      if resizingWindow.Some? {
        var id := resizingWindow.value;
        var dx, dy := mx - resizeStartMx, my - resizeStartMy;
        if windows[id].Some? {
          var w := windows[id].value;
          var r := w.rect;
          if resizeEdge == 1 || resizeEdge == 3 { r := r.(w := Max(resizeStartW + dx, MIN_WIN_W)); }
          if resizeEdge == 2 || resizeEdge == 3 { r := r.(h := Max(resizeStartH + dy, MIN_WIN_H)); }
          windows[id] := Some(w.(rect := r));
          assert windows[..] == d.slots[id := Some(w.(rect := r))];
        }
        return;
      }
      if draggingWindow.Some? {
        var id := draggingWindow.value;
        if windows[id].Some? {
          var w := windows[id].value;
          var r := w.rect.(x := Max(mx - dragOffsetX, 0), y := Max(my - dragOffsetY, TASKBAR_HEIGHT));
          windows[id] := Some(w.(rect := r));
          assert windows[..] == d.slots[id := Some(w.(rect := r))];
        }
      }
    }

    /** `release_drag`: a window let go at the left or right edge snaps to that half. */
    method ReleaseDrag()
      requires Valid()
      modifies this, windows, windowStates, savedPositions
      ensures Valid() && State() == Release(old(State()))
    {
      ReleaseKeeps(State());
      if resizingWindow.Some? { resizingWindow := None; return; }
      if draggingWindow.Some? {
        var id := draggingWindow.value;
        if windowStates[id] == Normal && windows[id].Some? {
          var r := windows[id].value.rect;
          if r.x <= SNAP_EDGE {
            Snap(id, true);
          } else if r.x + r.w + SNAP_EDGE >= screenWidth {
            Snap(id, false);
          }
        }
        draggingWindow := None;
      }
    }
  }

  lemma TitleKeeps(d: Desk, id: nat, mx: nat, my: nat)
    requires Consistent(d) && Live(d, id)
    ensures Sized(d) && Sized(BringToFront(d, id)) && id < MAX_WINDOWS
    ensures var r, at := Apply(d, id, Title, mx, my), d.slots[id].value.rect;
      Consistent(r) && InRange(r) && r == Dragged(BringToFront(d, id), id, mx - at.x, my - at.y)
  {
    hide BringToFront, Dragged;
    FrontShape(d, id);
    ApplyKeeps(d, id, Title, mx, my);
    ConsistentInRange(Apply(d, id, Title, mx, my));
  }

  lemma LiveInOrder(d: Desk, id: nat)
    requires Consistent(d) && Live(d, id)
    ensures id in d.z && NoDuplicates(d.z)
  {
  }

  lemma TopDiffers(d: Desk, pos: nat)
    requires NoDuplicates(d.z) && pos + 1 < |d.z|
    ensures d.z[|d.z| - 1] != d.z[pos]
  {
  }
}
