/** What the mouse does to the desk, from the coordinates of the windows alone, and what each operation leaves
    to see: the stack, the focus and the rectangles. */
module WindowClicks {
  import opened Common
  import opened WindowModel

  // ----- places on a window -----

  /** The button whose left edge is `off` pixels into the window. */
  predicate OnButton(r: Rect, off: nat, mx: nat, my: nat) {
    r.x + off <= mx < r.x + off + 14 && r.y + 10 <= my < r.y + 24
  }

  /** Below the title bar, at most eight pixels from the right border on either side. */
  predicate NearRight(r: Rect, mx: nat, my: nat) {
    r.x <= mx && r.y + 34 <= my && r.x + r.w <= mx + 8 && mx < r.x + r.w + 8
  }

  predicate NearBottom(r: Rect, mx: nat, my: nat) {
    r.x <= mx && r.y + 34 <= my && r.y + r.h <= my + 8 && my < r.y + r.h + 8
  }

  predicate InTopRows(r: Rect, mx: nat, my: nat) {
    r.x <= mx < r.x + r.w && r.y <= my < r.y + 30
  }

  predicate Inside(r: Rect, mx: nat, my: nat) {
    r.x <= mx < r.x + r.w && r.y <= my < r.y + r.h
  }

  /** The mouse is on the window in slot `id`, or on its border if it can be resized. */
  predicate Touched(d: Desk, id: nat, mx: nat, my: nat)
    requires Sized(d) && id < 16
  {
    d.slots[id].Some? && d.slots[id].value.visible && d.states[id] != Minimized &&
    var r := d.slots[id].value.rect;
    || OnButton(r, 10, mx, my) || OnButton(r, 28, mx, my) || OnButton(r, 46, mx, my)
    || (d.states[id] == Normal && (NearRight(r, mx, my) || NearBottom(r, mx, my)))
    || InTopRows(r, mx, my) || Inside(r, mx, my)
  }

  /** The window at `k` in the stack is the topmost one the mouse touches. */
  ghost predicate Topmost(d: Desk, mx: nat, my: nat, k: nat)
    requires InRange(d)
  {
    k < |d.z| && Touched(d, d.z[k], mx, my) && forall j | k < j < |d.z| :: !Touched(d, d.z[j], mx, my)
  }

  // ----- clicks -----

  lemma PartIs(d: Desk, id: nat, mx: nat, my: nat)
    requires Sized(d) && id < 16
    ensures WindowPart(d, id, mx, my).Some? <==> Touched(d, id, mx, my)
    ensures Touched(d, id, mx, my) ==>
      var r, p := d.slots[id].value.rect, WindowPart(d, id, mx, my);
      p == if OnButton(r, 10, mx, my) then Some(CloseButton)
           else if OnButton(r, 28, mx, my) then Some(MinimizeButton)
           else if OnButton(r, 46, mx, my) then Some(MaximizeButton)
           else if d.states[id] == Normal && NearRight(r, mx, my) && NearBottom(r, mx, my) then Some(Edge(3))
           else if d.states[id] == Normal && NearRight(r, mx, my) then Some(Edge(1))
           else if d.states[id] == Normal && NearBottom(r, mx, my) then Some(Edge(2))
           else if InTopRows(r, mx, my) then Some(Title)
           else Some(Body)
  {
  }

  lemma {:induction false} HitTopmost(d: Desk, mx: nat, my: nat, k: nat, n: nat)
    requires InRange(d) && Topmost(d, mx, my, k) && k < n <= |d.z|
    ensures Hit(d, mx, my, n).Some? && Hit(d, mx, my, n).value.0 == d.z[k]
    ensures WindowPart(d, d.z[k], mx, my) == Some(Hit(d, mx, my, n).value.1)
    decreases n
  {
    hide WindowPart, Touched;
    PartIs(d, d.z[n - 1], mx, my);
    if n - 1 > k { HitTopmost(d, mx, my, k, n - 1); }
  }

  lemma {:induction false} HitNone(d: Desk, mx: nat, my: nat, n: nat)
    requires InRange(d) && n <= |d.z| && forall k | 0 <= k < n :: !Touched(d, d.z[k], mx, my)
    ensures Hit(d, mx, my, n).None?
    decreases n
  {
    hide WindowPart, Touched;
    if n > 0 {
      PartIs(d, d.z[n - 1], mx, my);
      HitNone(d, mx, my, n - 1);
    }
  }

  /** A click on a button of the topmost window touched closes, minimises or maximises it. */
  lemma ButtonClick(d: Desk, mx: nat, my: nat, k: nat)
    requires InRange(d) && my >= 48 && Topmost(d, mx, my, k)
    ensures Live(d, d.z[k])
    ensures var id := d.z[k]; var r := d.slots[id].value.rect;
      && (OnButton(r, 10, mx, my) ==> Click(d, mx, my) == (RemoveWindow(d.(closed := Some(id)), id), true))
      && (OnButton(r, 28, mx, my) ==> Click(d, mx, my) == (MinimizeWindow(d, id), true))
      && (OnButton(r, 46, mx, my) ==> Click(d, mx, my) == (MaximizeWindow(d, id), true))
  {
    hide Hit, WindowPart, RemoveWindow, MinimizeWindow, MaximizeWindow;
    HitTopmost(d, mx, my, k, |d.z|);
    PartIs(d, d.z[k], mx, my);
  }

  predicate OnAnyButton(r: Rect, mx: nat, my: nat) {
    OnButton(r, 10, mx, my) || OnButton(r, 28, mx, my) || OnButton(r, 46, mx, my)
  }

  /** Elsewhere it raises the window; on a border of a normal window it also starts resizing it by that
      border, from its size and the mouse position of that moment. */
  lemma BorderClick(d: Desk, mx: nat, my: nat, k: nat)
    requires InRange(d) && my >= 48 && Topmost(d, mx, my, k) && d.states[d.z[k]] == Normal
    requires var r := d.slots[d.z[k]].value.rect;
      !OnAnyButton(r, mx, my) && (NearRight(r, mx, my) || NearBottom(r, mx, my))
    ensures var id := d.z[k]; var r := d.slots[id].value.rect;
      Click(d, mx, my) ==
        (BringToFront(d, id).(
           resize := Some(id), edge := (if NearRight(r, mx, my) then 1 else 0) + (if NearBottom(r, mx, my) then 2 else 0),
           startX := mx, startY := my, startW := r.w, startH := r.h),
         true)
  {
    hide Hit, WindowPart;
    HitTopmost(d, mx, my, k, |d.z|);
    PartIs(d, d.z[k], mx, my);
  }

  /** In the top rows it starts a drag, except of a maximised window, after giving a snapped one its size
      back. */
  lemma TitleClick(d: Desk, mx: nat, my: nat, k: nat)
    requires InRange(d) && my >= 48 && Topmost(d, mx, my, k)
    requires var r := d.slots[d.z[k]].value.rect;
      !OnAnyButton(r, mx, my) && InTopRows(r, mx, my)
    ensures var id := d.z[k]; var r := d.slots[id].value.rect; var up := BringToFront(d, id);
      Click(d, mx, my) ==
        (if d.states[id] == Maximized then up
         else if d.states[id] == SnappedLeft || d.states[id] == SnappedRight
         then RestoreWindow(up, id).(drag := Some(id), dragX := mx - r.x, dragY := my - r.y)
         else up.(drag := Some(id), dragX := mx - r.x, dragY := my - r.y),
         true)
  {
    hide Hit, WindowPart, RestoreWindow;
    HitTopmost(d, mx, my, k, |d.z|);
    PartIs(d, d.z[k], mx, my);
  }

  /** And anywhere else inside it does nothing more. */
  lemma BodyClick(d: Desk, mx: nat, my: nat, k: nat)
    requires InRange(d) && my >= 48 && Topmost(d, mx, my, k)
    requires var r := d.slots[d.z[k]].value.rect;
      && !OnAnyButton(r, mx, my) && !InTopRows(r, mx, my)
      && !(d.states[d.z[k]] == Normal && (NearRight(r, mx, my) || NearBottom(r, mx, my)))
    ensures Click(d, mx, my) == (BringToFront(d, d.z[k]), true)
  {
    hide Hit, WindowPart;
    HitTopmost(d, mx, my, k, |d.z|);
    PartIs(d, d.z[k], mx, my);
  }

  /** A click below the taskbar that touches no window changes nothing and answers false. */
  lemma MissedClick(d: Desk, mx: nat, my: nat)
    requires InRange(d) && my >= 48 && forall k | 0 <= k < |d.z| :: !Touched(d, d.z[k], mx, my)
    ensures Click(d, mx, my) == (d, false)
  {
    hide Touched;
    HitNone(d, mx, my, |d.z|);
  }

  // ----- the taskbar -----

  predicate OnClock(d: Desk, mx: nat) {
    var left := if d.screenW < 114 then 0 else (d.screenW - 114) / 2;
    left <= mx < left + 114
  }

  predicate OnItem(i: nat, mx: nat) {
    158 + 155 * i <= mx < 308 + 155 * i
  }

  lemma {:induction false} ItemIs(n: nat, mx: nat, i: nat, from: nat)
    requires from <= i < n && OnItem(i, mx)
    ensures TaskbarItem(n, mx, from) == i
    decreases i - from
  {
    if from < i { ItemIs(n, mx, i, from + 1); }
  }

  lemma {:induction false} NoItem(n: nat, mx: nat, from: nat)
    requires from <= n && forall i | from <= i < n :: !OnItem(i, mx)
    ensures TaskbarItem(n, mx, from) == n
    decreases n - from
  {
    if from < n {
      assert !OnItem(from, mx);
      NoItem(n, mx, from + 1);
    }
  }

  /** A click in the taskbar is for the clock, or for the window whose item is there, counted from the bottom of
      the stack: a minimised one is restored, the focused one minimised, any other raised. Elsewhere it does
      nothing. */
  lemma TaskbarReaches(d: Desk, mx: nat, my: nat)
    requires InRange(d) && my < 48
    ensures OnClock(d, mx) ==> Click(d, mx, my) == (d.(clockClicked := true), true)
    ensures forall i | 0 <= i < |d.z| && OnItem(i, mx) && !OnClock(d, mx) ::
      Click(d, mx, my) ==
        (if d.states[d.z[i]] == Minimized then RestoreWindow(d, d.z[i])
         else if d.focus == Some(d.z[i]) then MinimizeWindow(d, d.z[i])
         else BringToFront(d, d.z[i]), true)
    ensures !OnClock(d, mx) && (forall i | 0 <= i < |d.z| :: !OnItem(i, mx)) ==> Click(d, mx, my) == (d, false)
  {
    hide RestoreWindow, MinimizeWindow, BringToFront;
    forall i | 0 <= i < |d.z| && OnItem(i, mx) ensures TaskbarItem(|d.z|, mx, 0) == i {
      ItemIs(|d.z|, mx, i, 0);
    }
    if forall i | 0 <= i < |d.z| :: !OnItem(i, mx) { NoItem(|d.z|, mx, 0); }
  }

  // ----- what is to be seen afterwards -----

  /** All windows but `id` are where and how they were. */
  ghost predicate OthersSame(d: Desk, r: Desk, id: nat) {
    Sized(d) && Sized(r) && forall k | 0 <= k < 16 && k != id :: r.slots[k] == d.slots[k] && r.states[k] == d.states[k]
  }

  function Slots(n: nat): (s: set<nat>)
    ensures |s| == n && forall k: nat :: k in s <==> k < n
  {
    if n == 0 then {} else Slots(n - 1) + {n - 1}
  }

  lemma {:induction false} Distinct(z: seq<nat>, s: set<nat>)
    requires NoDuplicates(z) && forall k | 0 <= k < |z| :: z[k] in s
    ensures |z| <= |s|
    decreases |z|
  {
    if z != [] {
      var n := |z| - 1;
      Distinct(z[..n], s - {z[n]});
    }
  }

  /** A new window takes the first free slot, in its normal state, on top of the stack and focused; none is
      added exactly when all sixteen slots are taken. */
  lemma AddedOnTop(d: Desk, w: Window)
    requires Consistent(d)
    ensures var (r, id) := AddWindow(d, w);
      if forall k | 0 <= k < 16 :: d.slots[k].Some? then id.None? && r == d
      else
        && id.Some? && id.value < 16 && d.slots[id.value].None? && (forall k | 0 <= k < id.value :: d.slots[k].Some?)
        && OthersSame(d, r, id.value) && r.slots[id.value] == Some(w) && r.states[id.value] == Normal
        && r.z == d.z + [id.value] && r.focus == Some(id.value)
  {
    hide Consistent;
    ConsistentSized(d);
    if k :| 0 <= k < 16 && d.slots[k].None? { FreeMeansRoom(d, k); }
  }

  lemma FreeMeansRoom(d: Desk, k: nat)
    requires Consistent(d) && k < 16 && d.slots[k].None?
    ensures |d.z| < 16
  {
    hide Slots, NoDuplicates;
    forall j | 0 <= j < |d.z| ensures d.z[j] in Slots(16) - {k} {
      assert Live(d, d.z[j]);
    }
    Distinct(d.z, Slots(16) - {k});
  }

  /** A removed window is gone and leaves the rest as it was; if it was focused, the focus goes to the window now
      on top. */
  lemma RemovedIsGone(d: Desk, id: nat)
    requires Consistent(d) && Live(d, id)
    ensures var r := RemoveWindow(d, id);
      && !Live(r, id) && OthersSame(d, r, id) && id !in r.z && (forall x | x in d.z && x != id :: x in r.z)
      && (d.focus != Some(id) ==> r.focus == d.focus)
      && (d.focus == Some(id) ==> r.focus == if r.z == [] then None else Some(r.z[|r.z| - 1]))
      && (d.drag != Some(id) ==> r.drag == d.drag) && (d.drag == Some(id) ==> r.drag == None)
  {
  }

  /** A window brought to the front is on top, and nothing else about any window changes. */
  lemma RaisedIsOnTop(d: Desk, id: nat)
    requires Consistent(d) && Live(d, id)
    ensures var r := BringToFront(d, id);
      && r.z != [] && r.z[|r.z| - 1] == id && r.slots == d.slots && r.states == d.states
      && forall x :: x in r.z <==> x in d.z
  {
    assert id in d.z;
  }

  /** A minimised window keeps its place and its geometry. */
  lemma MinimizedStays(d: Desk, id: nat)
    requires InRange(d) && Live(d, id)
    ensures var r := MinimizeWindow(d, id);
      && r.states[id] == Minimized && r.slots == d.slots && r.z == d.z && OthersSame(d, r, id)
      && (d.focus != Some(id) ==> r.focus == d.focus) && r.focus != Some(id)
  {
  }

  /** A maximised window covers exactly the screen below the taskbar. */
  lemma MaximizedFills(d: Desk, id: nat, x: nat, y: nat)
    requires Sized(d) && Live(d, id) && (d.states[id] == Normal || d.states[id] == Minimized)
    ensures var r := MaximizeWindow(d, id);
      && Live(r, id) && r.states[id] == Maximized && OthersSame(d, r, id) && r.z == d.z && r.focus == d.focus
      && (Inside(r.slots[id].value.rect, x, y) <==> x < d.screenW && 48 <= y < d.screenH)
  {
  }

  /** A snapped window covers exactly its half of the screen below the taskbar. */
  lemma SnappedFills(d: Desk, id: nat, left: bool, x: nat, y: nat)
    requires Sized(d) && Live(d, id)
    ensures var r := Snap(d, id, left);
      && Live(r, id) && r.states[id] == (if left then SnappedLeft else SnappedRight)
      && OthersSame(d, r, id) && r.z == d.z && r.focus == d.focus
      && (Inside(r.slots[id].value.rect, x, y) <==>
            48 <= y < d.screenH && if left then x < d.screenW / 2 else d.screenW / 2 <= x < d.screenW / 2 * 2)
  {
  }
}
