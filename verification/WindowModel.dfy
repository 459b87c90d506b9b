/** The window manager as a state machine on values: slots, stacking order, focus, drag and resize. */
module WindowModel {
  import opened Common

  const MAX_WINDOWS: nat := 16
  const TASKBAR_HEIGHT: nat := 48
  const TITLEBAR_H: nat := 34
  const RESIZE_ZONE: nat := 8
  const MIN_WIN_W: nat := 200
  const MIN_WIN_H: nat := 100
  const SNAP_EDGE: nat := 20
  const BTN_SIZE: nat := 14
  const CLOCK_PILL_W: nat := 114
  const TASKBAR_ITEMS_X: nat := 158
  const TASKBAR_ITEM_WIDTH: nat := 150
  const TASKBAR_ITEM_SPACING: nat := 5

  datatype Rect = Rect(x: nat, y: nat, w: nat, h: nat)

  datatype Window = Window(rect: Rect, visible: bool)

  datatype WindowState = Normal | Minimized | Maximized | SnappedLeft | SnappedRight

  /** `z` lists the windows from the bottom of the stack to the top. */
  datatype Desk = Desk(
    slots: seq<Option<Window>>, states: seq<WindowState>, saved: seq<Rect>, z: seq<nat>,
    focus: Option<nat>, drag: Option<nat>, dragX: int, dragY: int,
    resize: Option<nat>, edge: nat, startX: int, startY: int, startW: nat, startH: nat,
    closed: Option<nat>, clockClicked: bool, screenW: nat, screenH: nat)

  predicate Sized(d: Desk) {
    |d.slots| == |d.states| == |d.saved| == MAX_WINDOWS
  }

  predicate Live(d: Desk, id: nat) {
    id < |d.slots| && d.slots[id].Some?
  }

  predicate NoDuplicates(z: seq<nat>) {
    forall i, j | 0 <= i < j < |z| :: z[i] != z[j]
  }

  /** The stacking order lists exactly the occupied slots, each once, and the ids kept for focus and
      dragging are occupied. */
  ghost predicate Consistent(d: Desk) {
    && Sized(d) && NoDuplicates(d.z)
    && (forall id: nat :: id in d.z <==> Live(d, id))
    && (d.focus.Some? ==> Live(d, d.focus.value))
    && (d.drag.Some? ==> Live(d, d.drag.value))
    && (d.resize.Some? ==> d.resize.value < MAX_WINDOWS)
  }

  function SatSub(a: nat, b: nat): nat {
    if a >= b then a - b else 0
  }

  // ----- the stacking order -----

  function Without(z: seq<nat>, id: nat): (r: seq<nat>)
    ensures forall x :: x in r <==> x in z && x != id
  {
    if z == [] then []
    else if z[|z| - 1] == id then Without(z[..|z| - 1], id)
    else Without(z[..|z| - 1], id) + [z[|z| - 1]]
  }

  lemma {:induction false} WithoutNoDuplicates(z: seq<nat>, id: nat)
    requires NoDuplicates(z)
    ensures NoDuplicates(Without(z, id)) && |Without(z, id)| <= |z|
    ensures id !in z ==> Without(z, id) == z
    decreases |z|
  {
    if z != [] {
      var n := |z| - 1;
      WithoutNoDuplicates(z[..n], id);
      assert z[n] !in z[..n];
      assert z == z[..n] + [z[n]];
    }
  }

  /** In a duplicate-free order, removing an id closes the gap it leaves. */
  lemma {:induction false} WithoutAt(z: seq<nat>, k: nat)
    requires NoDuplicates(z) && k < |z|
    ensures Without(z, z[k]) == z[..k] + z[k + 1..]
    decreases |z|
  {
    var n := |z| - 1;
    assert z[n] !in z[..n];
    if k == n {
      WithoutNoDuplicates(z[..n], z[k]);
      assert z[..k] + z[k + 1..] == z[..n];
    } else {
      WithoutAt(z[..n], k);
      assert z[..n][..k] + z[..n][k + 1..] + [z[n]] == z[..k] + z[k + 1..];
    }
  }

  // ----- operations -----

  function FreeSlot(slots: seq<Option<Window>>, i: nat): (r: nat)
    requires i <= |slots|
    ensures i <= r <= |slots| && (r < |slots| ==> slots[r].None?) && forall k | i <= k < r :: slots[k].Some?
    decreases |slots| - i
  {
    if i == |slots| || slots[i].None? then i else FreeSlot(slots, i + 1)
  }

  function AddWindow(d: Desk, w: Window): (r: (Desk, Option<nat>))
    requires Sized(d)
  {
    var i := FreeSlot(d.slots, 0);
    if |d.z| >= MAX_WINDOWS || i == MAX_WINDOWS then (d, None)
    else
      (d.(slots := d.slots[i := Some(w)], states := d.states[i := Normal], z := d.z + [i], focus := Some(i)), Some(i))
  }

  function RemoveWindow(d: Desk, id: nat): (r: Desk) {
    if !Live(d, id) then d
    else
      var z := Without(d.z, id);
      d.(slots := d.slots[id := None], z := z,
         focus := if d.focus == Some(id) then (if z != [] then Some(z[|z| - 1]) else None) else d.focus,
         drag := if d.drag == Some(id) then None else d.drag)
  }

  /** Topmost window other than `id` that is not minimised, among the first `n`. */
  function NextVisible(d: Desk, id: nat, n: nat): (r: Option<nat>)
    requires Sized(d) && n <= |d.z| && forall k | 0 <= k < |d.z| :: d.z[k] < MAX_WINDOWS
    ensures r.Some? ==> r.value in d.z && r.value != id && d.states[r.value] != Minimized
    ensures r.None? ==> forall k | 0 <= k < n :: d.z[k] == id || d.states[d.z[k]] == Minimized
  {
    if n == 0 then None
    else if d.z[n - 1] != id && d.states[d.z[n - 1]] != Minimized then Some(d.z[n - 1])
    else NextVisible(d, id, n - 1)
  }

  predicate InRange(d: Desk) {
    Sized(d) && forall k | 0 <= k < |d.z| :: d.z[k] < MAX_WINDOWS
  }

  function MinimizeWindow(d: Desk, id: nat): (r: Desk)
    requires InRange(d)
  {
    if !Live(d, id) then d
    else
      var d1 := d.(states := d.states[id := Minimized]);
      if d.focus == Some(id) then d1.(focus := NextVisible(d1, id, |d1.z|)) else d1
  }

  /** Set the geometry and state of a window. */
  function Place(d: Desk, id: nat, r: Rect, s: WindowState): Desk
    requires Sized(d) && Live(d, id)
  {
    d.(slots := d.slots[id := Some(d.slots[id].value.(rect := r))], states := d.states[id := s])
  }

  function Save(d: Desk, id: nat): Desk
    requires Sized(d) && Live(d, id)
  {
    d.(saved := d.saved[id := d.slots[id].value.rect])
  }

  function MaximizeWindow(d: Desk, id: nat): (r: Desk)
    requires Sized(d)
  {
    if !Live(d, id) then d
    else
      match d.states[id]
      case Normal => Place(Save(d, id), id, Rect(0, TASKBAR_HEIGHT, d.screenW, SatSub(d.screenH, TASKBAR_HEIGHT)), Maximized)
      case Minimized => Place(Save(d, id), id, Rect(0, TASKBAR_HEIGHT, d.screenW, SatSub(d.screenH, TASKBAR_HEIGHT)), Maximized)
      case _ => Place(d, id, d.saved[id], Normal)
  }

  function BringToFront(d: Desk, id: nat): (r: Desk) {
    if !Live(d, id) || id !in d.z || d.z[|d.z| - 1] == id then d
    else d.(z := Without(d.z, id) + [id], focus := Some(id))
  }

  function RestoreWindow(d: Desk, id: nat): (r: Desk)
    requires Sized(d)
  {
    if id >= MAX_WINDOWS then d
    else
      match d.states[id]
      case Minimized => BringToFront(d.(states := d.states[id := Normal]), id)
      case Normal => d
      case _ => MaximizeWindow(d, id)
  }

  /** The left or right half of the screen below the taskbar. */
  function Half(d: Desk, left: bool): Rect {
    Rect(if left then 0 else d.screenW / 2, TASKBAR_HEIGHT, d.screenW / 2, SatSub(d.screenH, TASKBAR_HEIGHT))
  }

  function Snap(d: Desk, id: nat, left: bool): (r: Desk)
    requires Sized(d)
  {
    if !Live(d, id) then d
    else Place(Save(d, id), id, Half(d, left), if left then SnappedLeft else SnappedRight)
  }

  // ----- the mouse -----

  datatype Part = CloseButton | MaximizeButton | MinimizeButton | Edge(e: nat) | Title | Body

  predicate InBox(x: nat, y: nat, bx: nat, top: nat, w: nat, h: nat) {
    bx <= x < bx + w && top <= y < top + h
  }

  /** `detect_resize_edge`. */
  function ResizeEdge(r: Rect, mx: nat, my: nat): (e: nat)
    ensures e <= 3
  {
    var right := r.x + SatSub(r.w, RESIZE_ZONE) <= mx < r.x + r.w + RESIZE_ZONE;
    var bottom := r.y + SatSub(r.h, RESIZE_ZONE) <= my < r.y + r.h + RESIZE_ZONE;
    if mx < r.x || my < r.y + TITLEBAR_H then 0
    else if right && bottom then 3 else if right then 1 else if bottom then 2 else 0
  }

  /** The part of a window under the mouse, in the order the code asks. */
  function PartAt(w: Window, s: WindowState, mx: nat, my: nat): (p: Option<Part>) {
    var r := w.rect;
    var top := r.y + (TITLEBAR_H - BTN_SIZE) / 2;
    if InBox(mx, my, r.x + 10, top, BTN_SIZE, BTN_SIZE) then Some(CloseButton)
    else if InBox(mx, my, r.x + 46, top, BTN_SIZE, BTN_SIZE) then Some(MaximizeButton)
    else if InBox(mx, my, r.x + 28, top, BTN_SIZE, BTN_SIZE) then Some(MinimizeButton)
    else if s == Normal && ResizeEdge(r, mx, my) > 0 then Some(Edge(ResizeEdge(r, mx, my)))
    else if InBox(mx, my, r.x, r.y, r.w, 30) then Some(Title)
    else if InBox(mx, my, r.x, r.y, r.w, r.h) then Some(Body)
    else None
  }

  function WindowPart(d: Desk, id: nat, mx: nat, my: nat): Option<Part>
    requires Sized(d) && id < MAX_WINDOWS
  {
    if d.states[id] == Minimized || d.slots[id].None? || !d.slots[id].value.visible then None
    else PartAt(d.slots[id].value, d.states[id], mx, my)
  }

  /** The topmost window under the mouse, among the first `n` of the stack. */
  function Hit(d: Desk, mx: nat, my: nat, n: nat): (r: Option<(nat, Part)>)
    requires Sized(d) && n <= |d.z| && forall k | 0 <= k < |d.z| :: d.z[k] < MAX_WINDOWS
  {
    if n == 0 then None
    else
      match WindowPart(d, d.z[n - 1], mx, my)
      case Some(p) => Some((d.z[n - 1], p))
      case None => Hit(d, mx, my, n - 1)
  }

  /** A hit is the topmost window that the mouse touches, and there is one whenever some window is
      touched. */
  lemma {:induction false} HitIsTopmost(d: Desk, mx: nat, my: nat, n: nat)
    requires InRange(d) && n <= |d.z|
    ensures match Hit(d, mx, my, n)
      case Some((id, p)) =>
        exists k | 0 <= k < n :: d.z[k] == id && WindowPart(d, id, mx, my) == Some(p)
          && forall j | k < j < n :: WindowPart(d, d.z[j], mx, my).None?
      case None => forall k | 0 <= k < n :: WindowPart(d, d.z[k], mx, my).None?
  {
    if n > 0 && WindowPart(d, d.z[n - 1], mx, my).None? {
      HitIsTopmost(d, mx, my, n - 1);
    }
  }

  function Unsnapped(d: Desk, id: nat): (r: Desk)
    requires Sized(d) && id < MAX_WINDOWS
  {
    if d.states[id] == SnappedLeft || d.states[id] == SnappedRight then RestoreWindow(d, id) else d
  }

  /** A window picked up by its title bar; a maximised one stays put. */
  function Dragged(d: Desk, id: nat, x: int, y: int): (r: Desk)
    requires Sized(d) && id < MAX_WINDOWS
  {
    if d.states[id] == Maximized then d else Unsnapped(d, id).(drag := Some(id), dragX := x, dragY := y)
  }

  function Apply(d: Desk, id: nat, p: Part, mx: nat, my: nat): (r: Desk)
    requires Sized(d) && Live(d, id) && !p.MinimizeButton?
  {
    match p
    case CloseButton => RemoveWindow(d.(closed := Some(id)), id)
    case MaximizeButton => MaximizeWindow(d, id)
    case Edge(e) =>
      var d1 := BringToFront(d, id);
      d1.(resize := Some(id), edge := e, startX := mx, startY := my,
          startW := d1.slots[id].value.rect.w, startH := d1.slots[id].value.rect.h)
    case Title =>
      Dragged(BringToFront(d, id), id, mx - d.slots[id].value.rect.x, my - d.slots[id].value.rect.y)
    case _ => BringToFront(d, id)
  }

  /** The taskbar item under `mx`, from item `i` on. */
  function TaskbarItem(n: nat, mx: nat, i: nat): (r: nat)
    requires i <= n
    ensures i <= r <= n
    decreases n - i
  {
    if i == n then i
    else
      var x := TASKBAR_ITEMS_X + i * (TASKBAR_ITEM_WIDTH + TASKBAR_ITEM_SPACING);
      if x <= mx < x + TASKBAR_ITEM_WIDTH then i else TaskbarItem(n, mx, i + 1)
  }

  function TaskbarClick(d: Desk, mx: nat): (r: (Desk, bool))
    requires InRange(d)
  {
    var pill := SatSub(d.screenW, CLOCK_PILL_W) / 2;
    if pill <= mx < pill + CLOCK_PILL_W then (d.(clockClicked := true), true)
    else
      var i := TaskbarItem(|d.z|, mx, 0);
      if i == |d.z| then (d, false)
      else
        var id := d.z[i];
        (if d.states[id] == Minimized then RestoreWindow(d, id)
         else if d.focus == Some(id) then MinimizeWindow(d, id)
         else BringToFront(d, id),
         true)
  }

  function Click(d: Desk, mx: nat, my: nat): (r: (Desk, bool))
    requires InRange(d)
  {
    if my < TASKBAR_HEIGHT then TaskbarClick(d, mx)
    else
      match Hit(d, mx, my, |d.z|)
      case None => (d, false)
      case Some((id, p)) =>
        HitLive(d, mx, my, |d.z|);
        (if p.MinimizeButton? then MinimizeWindow(d, id) else Apply(d, id, p, mx, my), true)
  }

  lemma {:induction false} HitLive(d: Desk, mx: nat, my: nat, n: nat)
    requires InRange(d) && n <= |d.z|
    ensures Hit(d, mx, my, n).Some? ==> Live(d, Hit(d, mx, my, n).value.0) && Hit(d, mx, my, n).value.0 in d.z
  {
    if n > 0 { HitLive(d, mx, my, n - 1); }
  }

  function Drag(d: Desk, mx: nat, my: nat): (r: Desk)
    requires Sized(d) && (d.resize.Some? ==> d.resize.value < MAX_WINDOWS) && (d.drag.Some? ==> d.drag.value < MAX_WINDOWS)
  {
    if d.resize.Some? then
      var id := d.resize.value;
      if d.slots[id].None? then d
      else
        var w := d.slots[id].value;
        var wide := if d.edge == 1 || d.edge == 3 then Max(d.startW + mx - d.startX, MIN_WIN_W) else w.rect.w;
        var high := if d.edge == 2 || d.edge == 3 then Max(d.startH + my - d.startY, MIN_WIN_H) else w.rect.h;
        d.(slots := d.slots[id := Some(w.(rect := w.rect.(w := wide, h := high)))])
    else if d.drag.Some? && d.slots[d.drag.value].Some? then
      var id := d.drag.value;
      var w := d.slots[id].value;
      d.(slots := d.slots[id := Some(w.(rect := w.rect.(x := Max(mx - d.dragX, 0), y := Max(my - d.dragY, TASKBAR_HEIGHT))))])
    else d
  }

  function Release(d: Desk): (r: Desk)
    requires Sized(d) && (d.drag.Some? ==> d.drag.value < MAX_WINDOWS)
  {
    if d.resize.Some? then d.(resize := None)
    else if d.drag.None? then d
    else
      var id := d.drag.value;
      var d1 :=
        if d.states[id] != Normal || d.slots[id].None? then d
        else
          var r := d.slots[id].value.rect;
          if r.x <= SNAP_EDGE then Snap(d, id, true)
          else if r.x + r.w + SNAP_EDGE >= d.screenW then Snap(d, id, false)
          else d;
      d1.(drag := None)
  }

  // ----- every operation keeps the desk consistent -----

  lemma AddKeeps(d: Desk, w: Window)
    requires Consistent(d)
    ensures Consistent(AddWindow(d, w).0)
    ensures AddWindow(d, w).1.Some? ==> AddWindow(d, w).1.value !in d.z
  {
    var (r, id) := AddWindow(d, w);
    if id.Some? {
      assert id.value !in d.z;
      forall x: nat ensures x in r.z <==> Live(r, x) {
        assert x in d.z <==> Live(d, x);
      }
    }
  }

  lemma RemoveKeeps(d: Desk, id: nat)
    requires Consistent(d)
    ensures Consistent(RemoveWindow(d, id))
  {
    if Live(d, id) {
      WithoutNoDuplicates(d.z, id);
      var r := RemoveWindow(d, id);
      forall x: nat ensures x in r.z <==> Live(r, x) {
        assert x in d.z <==> Live(d, x);
      }
    }
  }

  lemma ConsistentInRange(d: Desk)
    requires Consistent(d)
    ensures InRange(d)
  {
    forall k | 0 <= k < |d.z| ensures d.z[k] < MAX_WINDOWS {
      assert d.z[k] in d.z;
    }
  }

  /** Same slots occupied, same order and ids. */
  lemma SameShape(d: Desk, r: Desk)
    requires Consistent(d) && Sized(r) && r.z == d.z && r.focus == d.focus && r.drag == d.drag
    requires r.resize.Some? ==> r.resize.value < MAX_WINDOWS
    requires forall k | 0 <= k < MAX_WINDOWS :: d.slots[k].Some? == r.slots[k].Some?
    ensures Consistent(r)
  {
    forall x: nat ensures x in r.z <==> Live(r, x) {
      assert x in d.z <==> Live(d, x);
    }
  }

  lemma MinimizeKeeps(d: Desk, id: nat)
    requires Consistent(d)
    ensures InRange(d) && Consistent(MinimizeWindow(d, id))
  {
    ConsistentInRange(d);
    if Live(d, id) {
      var d1 := d.(states := d.states[id := Minimized]);
      SameShape(d, d1);
      if d.focus == Some(id) {
        var f := NextVisible(d1, id, |d1.z|);
        if f.Some? { assert f.value in d1.z; }
      }
    }
  }

  lemma PlaceKeeps(d: Desk, id: nat, r: Rect, s: WindowState)
    requires Consistent(d) && Live(d, id)
    ensures Consistent(Place(d, id, r, s))
  {
    SameShape(d, Place(d, id, r, s));
  }

  lemma SaveKeeps(d: Desk, id: nat)
    requires Consistent(d) && Live(d, id)
    ensures Consistent(Save(d, id))
  {
    SameShape(d, Save(d, id));
  }

  lemma MaximizeKeeps(d: Desk, id: nat)
    requires Consistent(d)
    ensures Consistent(MaximizeWindow(d, id))
  {
    hide Consistent, Place, Save;
    ConsistentSized(d);
    if Live(d, id) {
      SaveKeeps(d, id);
      SaveShape(d, id);
      PlaceKeeps(Save(d, id), id, Rect(0, TASKBAR_HEIGHT, d.screenW, SatSub(d.screenH, TASKBAR_HEIGHT)), Maximized);
      PlaceKeeps(d, id, d.saved[id], Normal);
    }
  }

  lemma ConsistentSized(d: Desk)
    requires Consistent(d)
    ensures Sized(d)
  {
  }

  lemma SaveShape(d: Desk, id: nat)
    requires Sized(d) && Live(d, id)
    ensures Sized(Save(d, id)) && Live(Save(d, id), id)
  {
  }

  lemma SnapKeeps(d: Desk, id: nat, left: bool)
    requires Consistent(d)
    ensures Consistent(Snap(d, id, left))
  {
    if Live(d, id) { SameShape(d, Snap(d, id, left)); }
  }

  lemma FrontKeeps(d: Desk, id: nat)
    requires Consistent(d)
    ensures Consistent(BringToFront(d, id))
  {
    var r := BringToFront(d, id);
    if r != d {
      WithoutNoDuplicates(d.z, id);
      forall x: nat ensures x in r.z <==> Live(r, x) {
        assert x in d.z <==> Live(d, x);
      }
    }
  }

  lemma RestoreKeeps(d: Desk, id: nat)
    requires Consistent(d)
    ensures Consistent(RestoreWindow(d, id))
  {
    if id < MAX_WINDOWS && d.states[id] == Minimized {
      var d1 := d.(states := d.states[id := Normal]);
      SameShape(d, d1);
      FrontKeeps(d1, id);
    } else {
      MaximizeKeeps(d, id);
    }
  }

  lemma FrontShape(d: Desk, id: nat)
    requires Sized(d)
    ensures Sized(BringToFront(d, id)) && BringToFront(d, id).slots == d.slots
  {
  }

  lemma RestoreLive(d: Desk, id: nat)
    requires Sized(d) && Live(d, id)
    ensures Live(RestoreWindow(d, id), id)
  {
  }

  lemma ApplyKeeps(d: Desk, id: nat, p: Part, mx: nat, my: nat)
    requires Consistent(d) && Live(d, id) && !p.MinimizeButton?
    ensures Consistent(Apply(d, id, p, mx, my))
  {
    hide RemoveWindow, MaximizeWindow;
    FrontKeeps(d, id);
    FrontShape(d, id);
    var d1 := BringToFront(d, id);
    hide BringToFront;
    match p
    case CloseButton => RemoveKeeps(d.(closed := Some(id)), id);
    case MaximizeButton => MaximizeKeeps(d, id);
    case Edge(e) => SameShape(d1, Apply(d, id, p, mx, my));
    case Title =>
      RestoreKeeps(d1, id);
      RestoreLive(d1, id);
      hide RestoreWindow;
    case Body =>
  }

  lemma ClickKeeps(d: Desk, mx: nat, my: nat)
    requires Consistent(d)
    ensures InRange(d) && Consistent(Click(d, mx, my).0)
  {
    hide Consistent, Apply, MinimizeWindow, RestoreWindow, BringToFront;
    ConsistentInRange(d);
    if my < TASKBAR_HEIGHT {
      TaskbarKeeps(d, mx);
    } else {
      HitLive(d, mx, my, |d.z|);
      var hit := Hit(d, mx, my, |d.z|);
      if hit.Some? {
        MinimizeKeeps(d, hit.value.0);
        if !hit.value.1.MinimizeButton? { ApplyKeeps(d, hit.value.0, hit.value.1, mx, my); }
      }
    }
  }

  lemma TaskbarKeeps(d: Desk, mx: nat)
    requires Consistent(d) && InRange(d)
    ensures Consistent(TaskbarClick(d, mx).0)
  {
    hide MinimizeWindow, RestoreWindow, BringToFront;
    SameShape(d, d.(clockClicked := true));
    var i := TaskbarItem(|d.z|, mx, 0);
    if i < |d.z| {
      RestoreKeeps(d, d.z[i]);
      MinimizeKeeps(d, d.z[i]);
      FrontKeeps(d, d.z[i]);
    }
  }

  lemma DragKeeps(d: Desk, mx: nat, my: nat)
    requires Consistent(d)
    ensures Consistent(Drag(d, mx, my))
  {
    SameShape(d, Drag(d, mx, my));
  }

  lemma ReleaseKeeps(d: Desk)
    requires Consistent(d)
    ensures Consistent(Release(d))
  {
    if d.drag.Some? {
      SnapKeeps(d, d.drag.value, true);
      SnapKeeps(d, d.drag.value, false);
    }
  }

  // ----- runs -----

  datatype Event =
    | Add(w: Window) | Remove(id: nat) | Minimize(id: nat) | Maximize(id: nat) | Restore(id: nat)
    | SnapTo(id: nat, left: bool) | Front(id: nat) | SetFocus(f: Option<nat>) | Edit(id: nat, w: Window)
    | ClickAt(x: nat, y: nat) | DragTo(x: nat, y: nat) | ReleaseButton

  const NEW_DESK := Desk(
    seq(MAX_WINDOWS, _ => None), seq(MAX_WINDOWS, _ => Normal), seq(MAX_WINDOWS, _ => Rect(0, 0, 0, 0)), [],
    None, None, 0, 0, None, 0, 0, 0, 0, 0, None, false, 1280, 800)

  /** Callers of `set_focused` pass the id of a window that exists. */
  predicate Allowed(d: Desk, e: Event) {
    e.SetFocus? && e.f.Some? ==> Live(d, e.f.value)
  }

  /** All ids are indices of the arrays. */
  predicate Ready(d: Desk) {
    && InRange(d) && (d.resize.Some? ==> d.resize.value < MAX_WINDOWS)
    && (d.drag.Some? ==> d.drag.value < MAX_WINDOWS) && (d.focus.Some? ==> d.focus.value < MAX_WINDOWS)
  }

  function Step(d: Desk, e: Event): (r: Desk)
    requires Ready(d)
  {
    match e
    case Add(w) => AddWindow(d, w).0
    case Remove(id) => RemoveWindow(d, id)
    case Minimize(id) => MinimizeWindow(d, id)
    case Maximize(id) => MaximizeWindow(d, id)
    case Restore(id) => RestoreWindow(d, id)
    case SnapTo(id, left) => Snap(d, id, left)
    case Front(id) => BringToFront(d, id)
    case SetFocus(f) => d.(focus := f)
    case Edit(id, w) => if Live(d, id) then d.(slots := d.slots[id := Some(w)]) else d
    case ClickAt(x, y) => Click(d, x, y).0
    case DragTo(x, y) => Drag(d, x, y)
    case ReleaseButton => Release(d)
  }

  lemma StepKeeps(d: Desk, e: Event)
    requires Consistent(d) && Allowed(d, e)
    ensures Ready(d) && Consistent(Step(d, e))
  {
    ConsistentInRange(d);
    match e
    case Add(w) => AddKeeps(d, w);
    case Remove(id) => RemoveKeeps(d, id);
    case Minimize(id) => MinimizeKeeps(d, id);
    case Maximize(id) => MaximizeKeeps(d, id);
    case Restore(id) => RestoreKeeps(d, id);
    case SnapTo(id, left) => SnapKeeps(d, id, left);
    case Front(id) => FrontKeeps(d, id);
    case SetFocus(f) =>
    case Edit(id, w) => if Live(d, id) { SameShape(d, Step(d, e)); }
    case ClickAt(x, y) => ClickKeeps(d, x, y);
    case DragTo(x, y) => DragKeeps(d, x, y);
    case ReleaseButton => ReleaseKeeps(d);
  }

  function Run(d: Desk, es: seq<Event>): (r: Desk)
    decreases |es|
  {
    if es == [] || !Ready(d) then d else Run(Step(d, es[0]), es[1..])
  }

  predicate AllowedRun(d: Desk, es: seq<Event>)
    decreases |es|
  {
    es != [] ==> Allowed(d, es[0]) && (Ready(d) ==> AllowedRun(Step(d, es[0]), es[1..]))
  }

  /** Over every run from a consistent desk, and so from a new one, the desk stays consistent and no
      event finds an id out of range. */
  lemma {:induction false} RunConsistent(d: Desk, es: seq<Event>)
    requires Consistent(d) && AllowedRun(d, es)
    ensures Ready(d) && Consistent(Run(d, es))
    decreases |es|
  {
    hide Step, Allowed;
    ConsistentInRange(d);
    if es != [] {
      StepKeeps(d, es[0]);
      RunConsistent(Step(d, es[0]), es[1..]);
    }
  }

  lemma NewConsistent()
    ensures Consistent(NEW_DESK)
  {
  }

  // ----- what happens to the other windows -----

  ghost predicate Precedes(z: seq<nat>, a: nat, b: nat) {
    exists i, j | 0 <= i < j < |z| :: z[i] == a && z[j] == b
  }

  lemma {:induction false} WithoutOrder(z: seq<nat>, id: nat, a: nat, b: nat)
    requires a != id && b != id
    ensures Precedes(Without(z, id), a, b) <==> Precedes(z, a, b)
    decreases |z|
  {
    if z != [] {
      var n := |z| - 1;
      WithoutOrder(z[..n], id, a, b);
      LastPrecedes(z, a, b);
      if z[n] != id {
        var r := Without(z, id);
        assert r[..|r| - 1] == Without(z[..n], id);
        LastPrecedes(r, a, b);
      }
    }
  }

  lemma LastPrecedes(z: seq<nat>, a: nat, b: nat)
    requires z != []
    ensures var n := |z| - 1; Precedes(z, a, b) <==> Precedes(z[..n], a, b) || (a in z[..n] && z[n] == b)
  {
    var n := |z| - 1;
    if Precedes(z, a, b) {
      var i, j :| 0 <= i < j < |z| && z[i] == a && z[j] == b;
      assert z[..n][i] == a;
      if j < n { assert z[..n][j] == b; }
    }
    if Precedes(z[..n], a, b) {
      var i, j :| 0 <= i < j < n && z[..n][i] == a && z[..n][j] == b;
      assert z[i] == a && z[j] == b;
    }
    if a in z[..n] && z[n] == b {
      var i :| 0 <= i < n && z[i] == a;
      assert z[n] == b;
    }
  }

  /** Removing a window, or bringing one to the front, keeps the order of all the others. */
  lemma OthersKeepOrder(d: Desk, id: nat, a: nat, b: nat)
    requires Consistent(d) && a != id && b != id
    ensures Precedes(RemoveWindow(d, id).z, a, b) <==> Precedes(d.z, a, b)
    ensures Precedes(BringToFront(d, id).z, a, b) <==> Precedes(d.z, a, b)
  {
    WithoutOrder(d.z, id, a, b);
    var z := Without(d.z, id) + [id];
    assert z[..|z| - 1] == Without(d.z, id);
    LastPrecedes(z, a, b);
  }

  // ----- geometry -----

  /** Maximising twice gives a normal window its geometry and state back; so does restoring a snapped one. */
  lemma MaximizeTwice(d: Desk, id: nat)
    requires Sized(d) && Live(d, id)
    ensures d.states[id] == Normal ==>
      var r := MaximizeWindow(MaximizeWindow(d, id), id); r.slots == d.slots && r.states == d.states
    ensures forall left :: RestoreWindow(Snap(d, id, left), id).slots == d.slots
  {
    var w := d.slots[id].value;
    assert w.(rect := w.rect) == w;
    if d.states[id] == Normal {
      var r := MaximizeWindow(MaximizeWindow(d, id), id);
      assert r.slots == d.slots && r.states == d.states;
    }
    forall left ensures RestoreWindow(Snap(d, id, left), id).slots == d.slots {
      assert RestoreWindow(Snap(d, id, left), id).slots == d.slots;
    }
  }

  /** Snapping a snapped window overwrites the saved geometry: restoring gives the original back exactly
      when the window already filled the first half. */
  lemma SnapTwice(d: Desk, id: nat, first: bool, second: bool)
    requires Sized(d) && Live(d, id)
    ensures RestoreWindow(Snap(Snap(d, id, first), id, second), id).slots == d.slots
            <==> d.slots[id].value.rect == Half(d, first)
  {
    var snapped := Snap(d, id, first);
    MaximizeTwice(snapped, id);
    assert snapped.slots[id].value.rect == Half(d, first);
    if d.slots[id].value.rect == Half(d, first) {
      assert snapped.slots[id] == d.slots[id];
      assert snapped.slots == d.slots;
    }
  }

  /** Minimising forgets whether a window was maximised: restoring it leaves it normal. */
  lemma MinimizeRestore(d: Desk, id: nat)
    requires InRange(d) && Live(d, id)
    ensures var r := RestoreWindow(MinimizeWindow(d, id), id);
      r.states == d.states[id := Normal] && r.slots == d.slots
  {
  }

  // ----- resizing -----

  /** Removal leaves the id of a window being resized: it stays live exactly when another window is
      removed. */
  lemma RemoveAndResize(d: Desk, id: nat)
    requires Consistent(d) && Live(d, id) && d.resize.Some? && Live(d, d.resize.value)
    ensures Live(RemoveWindow(d, id), RemoveWindow(d, id).resize.value) <==> d.resize != Some(id)
  {
  }

  // ----- a press and the movement after it -----

  /** A normal window picked up by its title bar follows the mouse, but never leaves the screen to the
      left or goes under the taskbar; its size stays. */
  lemma TitleDragMoves(d: Desk, id: nat, mx: nat, my: nat, nx: nat, ny: nat)
    requires Consistent(d) && Live(d, id) && d.states[id] == Normal && d.resize.None?
    ensures var r, was := Drag(Apply(d, id, Title, mx, my), nx, ny), d.slots[id].value.rect;
      && Live(r, id) && r.drag == Some(id)
      && r.slots[id].value.rect == Rect(Max(was.x + nx - mx, 0), Max(was.y + ny - my, 48), was.w, was.h)
      && forall k | 0 <= k < MAX_WINDOWS && k != id :: r.slots[k] == d.slots[k]
  {
    FrontShape(d, id);
    hide Consistent, BringToFront;
  }

  /** A window taken by an edge grows with the mouse on that edge's sides only, down to the least size. */
  lemma EdgeDragResizes(d: Desk, id: nat, e: nat, mx: nat, my: nat, nx: nat, ny: nat)
    requires Consistent(d) && Live(d, id)
    ensures var r, was := Drag(Apply(d, id, Edge(e), mx, my), nx, ny), d.slots[id].value.rect;
      && Live(r, id) && r.resize == Some(id)
      && r.slots[id].value.rect ==
           Rect(was.x, was.y, if e == 1 || e == 3 then Max(was.w + nx - mx, 200) else was.w,
                if e == 2 || e == 3 then Max(was.h + ny - my, 100) else was.h)
      && forall k | 0 <= k < MAX_WINDOWS && k != id :: r.slots[k] == d.slots[k]
  {
    FrontShape(d, id);
    hide Consistent, BringToFront;
  }

  lemma {:induction false} NextVisibleIsTopmost(d: Desk, id: nat, n: nat)
    requires InRange(d) && n <= |d.z|
    ensures match NextVisible(d, id, n)
      case Some(f) =>
        exists k | 0 <= k < n :: d.z[k] == f && f != id && d.states[f] != Minimized
          && forall j | k < j < n :: d.z[j] == id || d.states[d.z[j]] == Minimized
      case None => forall k | 0 <= k < n :: d.z[k] == id || d.states[d.z[k]] == Minimized
  {
    if n > 0 && (d.z[n - 1] == id || d.states[d.z[n - 1]] == Minimized) { NextVisibleIsTopmost(d, id, n - 1); }
  }

  /** Minimising the focused window gives the focus to the topmost other window that is not minimised,
      and to none exactly when there is none. */
  lemma MinimizeMovesFocus(d: Desk, id: nat)
    requires Consistent(d) && Live(d, id) && d.focus == Some(id)
    ensures InRange(d)
    ensures match MinimizeWindow(d, id).focus
      case Some(f) =>
        exists k | 0 <= k < |d.z| :: d.z[k] == f && f != id && d.states[f] != Minimized
          && forall j | k < j < |d.z| :: d.z[j] == id || d.states[d.z[j]] == Minimized
      case None => forall k | 0 <= k < |d.z| :: d.z[k] == id || d.states[d.z[k]] == Minimized
  {
    ConsistentInRange(d);
    NextVisibleIsTopmost(d.(states := d.states[id := Minimized]), id, |d.z|);
  }

  /** Raising and restoring focus a window unless it is on top already; then the focus stays where it was. */
  lemma RaiseFocuses(d: Desk, id: nat)
    requires Consistent(d) && Live(d, id)
    ensures var top := d.z[|d.z| - 1];
      && (BringToFront(d, id).focus == Some(id) <==> d.focus == Some(id) || top != id)
      && (RestoreWindow(d, id).focus == Some(id) <==> d.focus == Some(id) || (d.states[id] == Minimized && top != id))
      && (d.states[id] == Minimized && top == id ==> RestoreWindow(d, id).focus == d.focus)
  {
    assert id in d.z;
  }

  /** So minimising and restoring the focused window gives its focus back exactly when another window
      is above it. */
  lemma MinimizeRestoreFocus(d: Desk, id: nat)
    requires Consistent(d) && Live(d, id) && d.focus == Some(id)
    ensures InRange(d)
    ensures RestoreWindow(MinimizeWindow(d, id), id).focus == Some(id) <==> d.z[|d.z| - 1] != id
  {
    ConsistentInRange(d);
    var m := MinimizeWindow(d, id);
    MinimizeMovesFocus(d, id);
    MinimizeKeeps(d, id);
    RaiseFocuses(m, id);
  }

  /** A dragged window let go near the left edge, or else near the right one, fills that half of the
      screen, and restoring it brings its dragged place back. */
  lemma ReleaseSnaps(d: Desk)
    requires Consistent(d) && d.resize.None? && d.drag.Some? && d.states[d.drag.value] == Normal
    ensures var id, r := d.drag.value, Release(d);
      var at := d.slots[id].value.rect;
      && r.drag.None? && Live(r, id)
      && RestoreWindow(r, id).slots == d.slots
      && (at.x <= 20 ==> r.slots[id].value.rect.x == 0 && r.states[id] == SnappedLeft)
      && (at.x > 20 && at.x + at.w + 20 >= d.screenW ==>
            r.slots[id].value.rect.x == d.screenW / 2 && r.states[id] == SnappedRight)
      && (at.x > 20 && at.x + at.w + 20 < d.screenW ==> r == d.(drag := None))
  {
    var id := d.drag.value;
    MaximizeTwice(d, id);
    MaximizeTwice(d.(drag := None), id);
    assert forall left :: Snap(d, id, left).(drag := None) == Snap(d.(drag := None), id, left);
  }
}
