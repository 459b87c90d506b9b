/** Line and circle drawing into the back buffer. */
module Raster {
  import opened Common

  function Abs(a: int): nat {
    if a >= 0 then a else -a
  }

  // ----- lines -----

  /** The error term after `i` moves along x and `j` along y. */
  function Err(dx: nat, dy: nat, i: nat, j: nat): int {
    dx - dy + dx * j - dy * i
  }

  predicate MovesX(dx: nat, dy: nat, i: nat, j: nat) {
    2 * Err(dx, dy, i, j) + dy > 0
  }

  predicate MovesY(dx: nat, dy: nat, i: nat, j: nat) {
    2 * Err(dx, dy, i, j) < dx
  }

  /** Within half a pixel of the ideal line, along the minor axis. */
  predicate Near(dx: nat, dy: nat, i: nat, j: nat) {
    Abs(2 * (dx * j - dy * i)) <= Max(dx, dy)
  }

  /** The pen after `k` moves: one along the longer axis each time. */
  predicate OnTrack(dx: nat, dy: nat, i: nat, j: nat, k: nat) {
    && k <= Max(dx, dy) && (if dx >= dy then i else j) == k
    && Near(dx, dy, i, j) && (dx == dy ==> i == j)
  }

  lemma TrackStep(dx: nat, dy: nat, i: nat, j: nat, k: nat)
    requires OnTrack(dx, dy, i, j, k) && k < Max(dx, dy)
    ensures OnTrack(dx, dy, if MovesX(dx, dy, i, j) then i + 1 else i, if MovesY(dx, dy, i, j) then j + 1 else j, k + 1)
  {
    assert dx * (j + 1) == dx * j + dx && dy * (i + 1) == dy * i + dy;
    if dx == dy { assert dx * j == dy * i; }
  }

  lemma Mul(a: nat, b: int, c: int)
    requires b <= c
    ensures a * b <= a * c
  {
  }

  /** Half a pixel leaves no room past the far end of the minor axis `b`, and none short of it at the end. */
  lemma MinorEnd(a: nat, b: nat, i: nat, j: nat)
    requires a > b && i <= a && Abs(2 * (a * j - b * i)) <= a
    ensures j <= b && (i == a ==> j == b)
  {
    Mul(b, i, a);
    assert b * a == a * b && a * (b + 1) == a * b + a && a * (b - 1) == a * b - a;
    if j > b {
      Mul(a, b + 1, j);
      assert false;
    }
    if i == a && j < b {
      Mul(a, j, b - 1);
      assert false;
    }
  }

  /** The pen stays in the box of the two endpoints, and is at the far corner exactly after the last move. */
  lemma TrackEnd(dx: nat, dy: nat, i: nat, j: nat, k: nat)
    requires OnTrack(dx, dy, i, j, k)
    ensures i <= dx && j <= dy && k <= Max(dx, dy) && (i == dx && j == dy <==> k == Max(dx, dy))
  {
    if dx > dy {
      MinorEnd(dx, dy, i, j);
    } else if dy > dx {
      assert Abs(2 * (dy * i - dx * j)) == Abs(2 * (dx * j - dy * i));
      MinorEnd(dy, dx, j, i);
    }
  }

  // ----- circles -----

  /** The decision value the code keeps: the circle function at the midpoint below the next column. */
  function Decision(x: int, y: int, r: int): int {
    (x + 1) * (x + 1) + y * y - y - r * r
  }

  /** `y` is `sqrt(r^2 - x^2)` rounded to an integer. */
  predicate Rounded(x: int, y: int, r: int) {
    Abs(x * x + y * y - r * r) <= y
  }

  lemma CircleStep(x: nat, y: int, r: int)
    requires x <= y && Rounded(x, y, r)
    ensures Decision(x, y, r) < 0 ==>
      Decision(x + 1, y, r) == Decision(x, y, r) + 2 * x + 3 && (x + 1 <= y ==> Rounded(x + 1, y, r))
    ensures Decision(x, y, r) >= 0 ==>
      Decision(x + 1, y - 1, r) == Decision(x, y, r) + 2 * (x - y) + 5 && (x + 1 <= y - 1 ==> Rounded(x + 1, y - 1, r))
  {
    assert (x + 1) * (x + 1) == x * x + 2 * x + 1;
    assert (x + 2) * (x + 2) == x * x + 4 * x + 4;
    assert (y - 1) * (y - 1) == y * y - 2 * y + 1;
  }

  lemma GapOne(y: nat, e: nat)
    requires e >= 1 && (2 * y + e) * (e - 1) <= 0
    ensures e == 1
  {
    if e > 1 {
      Mul(2 * y + e, 1, e - 1);
      assert false;
    }
  }

  lemma SquareOfSum(y: int, e: int)
    ensures (y + e) * (y + e) == y * y + 2 * (y * e) + e * e
    ensures (2 * y + e) * (e - 1) == 2 * (y * e) + e * e - 2 * y - e
  {
  }

  /** Rounding leaves one choice, or two at an exact tie. */
  lemma RoundedUnique(x: int, y: int, z: int, r: int)
    requires Rounded(x, y, r) && Rounded(x, z, r) && y < z
    ensures z == y + 1 && r * r - x * x == y * y + y
  {
    OneApart(r * r - x * x, y, z);
  }

  lemma OneApart(s: int, y: int, z: int)
    requires 0 <= y < z && y * y - y <= s <= y * y + y && z * z - z <= s
    ensures z == y + 1 && s == y * y + y
  {
    SquareOfSum(y, z - y);
    assert y + (z - y) == z;
    GapOne(y, z - y);
  }

  // ----- the buffer -----

  class Surface {
    const width: nat
    const height: nat
    const buffer: array<nat>

    constructor (w: nat, h: nat)
      ensures Valid() && width == w && height == h && fresh(buffer)
    {
      width, height := w, h;
      buffer := new nat[w * h](_ => 0);
    }

    ghost predicate Valid() {
      buffer.Length == width * height
    }

    predicate OnScreen(x: int, y: int) {
      0 <= x < width && 0 <= y < height
    }

    /** `pixel_offset`. */
    function Offset(x: int, y: int): (o: nat)
      requires Valid() && OnScreen(x, y)
      ensures o < buffer.Length
    {
      Mul(width, y, height - 1);
      assert width * (height - 1) == width * height - width;
      assert width * y == y * width;
      y * width + x
    }

    lemma OffsetInjective(x: int, y: int, u: int, v: int)
      requires Valid() && OnScreen(x, y) && OnScreen(u, v) && (x, y) != (u, v)
      ensures Offset(x, y) != Offset(u, v)
    {
      if y < v {
        Mul(width, y + 1, v);
        assert width * (y + 1) == y * width + width && width * v == v * width;
      } else if v < y {
        Mul(width, v + 1, y);
        assert width * (v + 1) == v * width + width && width * y == y * width;
      }
    }

    function Pixel(x: int, y: int): nat
      requires Valid() && OnScreen(x, y)
      reads buffer
    {
      buffer[Offset(x, y)]
    }

    /** `put_pixel_safe`: nothing happens off the screen. */
    method PutPixelSafe(x: int, y: int, color: nat)
      requires Valid()
      modifies buffer
      ensures forall u, v | OnScreen(u, v) :: Pixel(u, v) == if u == x && v == y then color else old(Pixel(u, v))
    {
      if OnScreen(x, y) {
        buffer[Offset(x, y)] := color;
        forall u, v | OnScreen(u, v) ensures Pixel(u, v) == if u == x && v == y then color else old(Pixel(u, v)) {
          if (u, v) != (x, y) { OffsetInjective(x, y, u, v); }
        }
      }
    }

    /** The points of `pts` that are on the screen have the colour; every other pixel is as in `before`. */
    ghost predicate Painted(pts: set<(int, int)>, color: nat, before: seq<nat>)
      requires Valid() && |before| == buffer.Length
      reads buffer
    {
      forall u, v | OnScreen(u, v) :: Pixel(u, v) == if (u, v) in pts then color else before[Offset(u, v)]
    }

    lemma NothingPainted(color: nat)
      requires Valid()
      ensures Painted(Elements([]), color, buffer[..])
    {
    }

    /** One more point, clipped. */
    method PaintPoint(x: int, y: int, color: nat, ghost pts: seq<(int, int)>, ghost before: seq<nat>)
      requires Valid() && |before| == buffer.Length && Painted(Elements(pts), color, before)
      modifies buffer
      ensures Painted(Elements(pts + [(x, y)]), color, before)
    {
      PutPixelSafe(x, y, color);
    }

    /** `draw_line`: exactly one point for every step along the longer axis, from one endpoint to the
        other, each within half a pixel of the ideal line; those on the screen are coloured and nothing
        else is. */
    method DrawLine(x0: int, y0: int, x1: int, y1: int, color: nat) returns (ghost pts: seq<(int, int)>)
      requires Valid()
      modifies buffer
      ensures |pts| == Max(Abs(x1 - x0), Abs(y1 - y0)) + 1 && pts[0] == (x0, y0) && pts[|pts| - 1] == (x1, y1)
      ensures forall k | 0 <= k < |pts| :: LinePoint(x0, y0, x1, y1, pts[k], k)
      ensures Painted(Elements(pts), color, old(buffer[..]))
    {
      hide Valid, Painted, OnTrack, LinePoint, Err, Near, Elements, Signed, MovesX, MovesY, Max, Abs;
      var dx: int, dy: int := Abs(x1 - x0), Abs(y1 - y0);
      var sx := if x0 < x1 then 1 else -1;
      var sy := if y0 < y1 then 1 else -1;
      var err: int := dx - dy;
      var x, y := x0, y0;
      ghost var i: nat, j: nat := 0, 0;
      pts := [];
      NothingPainted(color);
      TrackStart(dx, dy);
      SignedNone(sx);
      SignedNone(sy);
      while true
        invariant x == x0 + Signed(sx, i) && y == y0 + Signed(sy, j) && err == Err(dx, dy, i, j)
        invariant OnTrack(dx, dy, i, j, |pts|)
        invariant forall k | 0 <= k < |pts| :: LinePoint(x0, y0, x1, y1, pts[k], k)
        invariant if pts == [] then x == x0 && y == y0 else pts[0] == (x0, y0)
        invariant Painted(Elements(pts), color, old(buffer[..]))
        decreases Max(dx, dy) - |pts|
      {
        PaintPoint(x, y, color, pts, old(buffer[..]));
        TrackPoint(x0, y0, x1, y1, i, j, |pts|);
        pts := pts + [(x, y)];
        if x == x1 && y == y1 { break; }
        TrackStep(dx, dy, i, j, |pts| - 1);
        x, y, err, i, j := MovePen(dx, dy, sx, sy, x, y, err, i, j);
      }
    }

    /** The four points at distances `a` and `b` from the centre. */
    method PaintFour(cx: int, cy: int, a: nat, b: nat, color: nat)
      requires Valid()
      modifies buffer
      ensures forall u, v | OnScreen(u, v) ::
        Pixel(u, v) == if Abs(u - cx) == a && Abs(v - cy) == b then color else old(Pixel(u, v))
    {
      PutPixelSafe(cx + a, cy + b, color);
      PutPixelSafe(cx - a, cy + b, color);
      PutPixelSafe(cx + a, cy - b, color);
      PutPixelSafe(cx - a, cy - b, color);
    }

    /** The points on the screen at the distances of some octant point, in either order, have the colour;
        every other pixel is as in `before`. */
    ghost predicate Ringed(cx: int, cy: int, pts: seq<(int, int)>, color: nat, before: seq<nat>)
      requires Valid() && |before| == buffer.Length
      reads buffer
    {
      forall u, v | OnScreen(u, v) ::
        Pixel(u, v) == if OnRing(pts, Abs(u - cx), Abs(v - cy)) then color else before[Offset(u, v)]
    }

    method PaintEight(cx: int, cy: int, x: nat, y: nat, color: nat, ghost pts: seq<(int, int)>, ghost before: seq<nat>)
      requires Valid() && |before| == buffer.Length && Ringed(cx, cy, pts, color, before)
      modifies buffer
      ensures Ringed(cx, cy, pts + [(x, y)], color, before)
    {
      hide Abs;
      PaintFour(cx, cy, x, y, color);
      PaintFour(cx, cy, y, x, color);
      forall u, v | OnScreen(u, v)
        ensures Pixel(u, v) == if OnRing(pts + [(x, y)], Abs(u - cx), Abs(v - cy)) then color else before[Offset(u, v)]
      {
        RingMore(pts, (x, y), Abs(u - cx), Abs(v - cy));
      }
    }

    /** `draw_circle`: one octant point for every column from the centre to the diagonal, each the rounded
        height of the circle there and mirrored eight ways; beyond the last column no rounded height is
        left in the octant, apart from exact ties. */
    method DrawCircle(cx: int, cy: int, r: int, color: nat) returns (ghost pts: seq<(int, int)>)
      requires Valid()
      modifies buffer
      ensures forall k | 0 <= k < |pts| :: pts[k].0 == k <= pts[k].1 && Rounded(k, pts[k].1, r)
      ensures r >= 0 ==> forall x, y | |pts| <= x <= y && Rounded(x, y, r) :: x * x + y * y - r * r == y
      ensures r < 0 ==> pts == []
      ensures Ringed(cx, cy, pts, color, old(buffer[..]))
    {
      var x: int, y: int, d: int := 0, r, 1 - r;
      pts := [];
      assert Ringed(cx, cy, pts, color, buffer[..]);
      CircleStart(r);
      hide Ringed, Rounded, Decision, OnRing, Valid;
      while x <= y
        invariant 0 <= x == |pts| && d == Decision(x, y, r)
        invariant r >= 0 && x <= y ==> Rounded(x, y, r)
        invariant r < 0 ==> y < 0 && x == 0
        invariant forall k | 0 <= k < |pts| :: pts[k].0 == k <= pts[k].1 && Rounded(k, pts[k].1, r)
        invariant r >= 0 && x > y ==> BeyondDiagonal(x, r)
        invariant Ringed(cx, cy, pts, color, old(buffer[..]))
        decreases y - x
      {
        PaintEight(cx, cy, x, y, color, pts, old(buffer[..]));
        pts := pts + [(x, y)];
        CircleStep(x, y, r);
        CircleEnd(x, y, r);
        if d < 0 {
          d := d + 2 * x + 3;
        } else {
          d := d + 2 * (x - y) + 5;
          y := y - 1;
        }
        x := x + 1;
      }
      if r >= 0 {
        forall a, b | |pts| <= a <= b && Rounded(a, b, r) ensures a * a + b * b - r * r == b {
          OnlyTies(|pts|, r, a, b);
        }
      }
    }
  }

  // ----- the octant is complete -----

  lemma CircleStart(r: int)
    ensures Decision(0, r, r) == 1 - r && (r >= 0 ==> Rounded(0, r, r))
  {
  }

  /** At column `x` the circle has come down to the diagonal. */
  predicate BeyondDiagonal(x: int, r: int) {
    2 * (x * x) - x >= r * r
  }

  lemma CircleEnd(x: nat, y: int, r: int)
    requires x <= y && Rounded(x, y, r)
    ensures Decision(x, y, r) < 0 && x + 1 > y ==> BeyondDiagonal(x + 1, r)
    ensures Decision(x, y, r) >= 0 && x + 1 > y - 1 ==> BeyondDiagonal(x + 1, r)
  {
    assert (x + 1) * (x + 1) == x * x + 2 * x + 1;
    if y == x + 1 { assert y * y == x * x + 2 * x + 1; }
  }

  lemma OnlyTies(m: nat, r: int, x: int, y: int)
    requires BeyondDiagonal(m, r) && m <= x <= y && Rounded(x, y, r)
    ensures x * x + y * y - r * r == y
  {
    Mul(m, m, x);
    Mul(x, m, x);
    assert m * x == x * m;
    Mul(y, m - 1, y - 1);
    Mul(if m > 0 then m - 1 else 0, m, y);
    assert y * (y - 1) == y * y - y && y * (m - 1) == (m - 1) * y && m * (m - 1) == m * m - m && (m - 1) * m == m * (m - 1);
  }

  predicate OnRing(pts: seq<(int, int)>, a: int, b: int) {
    (a, b) in pts || (b, a) in pts
  }

  lemma RingMore(pts: seq<(int, int)>, p: (int, int), a: int, b: int)
    ensures OnRing(pts + [p], a, b) <==> OnRing(pts, a, b) || p == (a, b) || p == (b, a)
  {
  }

  /** One round of the loop: where the pen moves to. */
  method MovePen(dx: nat, dy: nat, sx: int, sy: int, x: int, y: int, err: int, ghost i: nat, ghost j: nat)
    returns (x1: int, y1: int, err1: int, ghost i1: nat, ghost j1: nat)
    requires err == Err(dx, dy, i, j) && (sx == 1 || sx == -1) && (sy == 1 || sy == -1)
    ensures i1 == (if MovesX(dx, dy, i, j) then i + 1 else i) && j1 == (if MovesY(dx, dy, i, j) then j + 1 else j)
    ensures x1 - x == Signed(sx, i1) - Signed(sx, i) && y1 - y == Signed(sy, j1) - Signed(sy, j) && err1 == Err(dx, dy, i1, j1)
  {
    x1, y1, err1, i1, j1 := x, y, err, i, j;
    ErrStep(dx, dy, i, j);
    var e2 := 2 * err;
    if e2 + dy > 0 { err1, x1, i1 := err1 - dy, x1 + sx, i1 + 1; }
    if e2 < dx { err1, y1, j1 := err1 + dx, y1 + sy, j1 + 1; }
  }

  function Signed(s: int, i: nat): int {
    if s == 1 then i else 0 - i
  }

  lemma SignedNone(s: int)
    ensures Signed(s, 0) == 0
  {
  }

  lemma TrackStart(dx: nat, dy: nat)
    ensures OnTrack(dx, dy, 0, 0, 0) && Err(dx, dy, 0, 0) == dx - dy
  {
  }

  lemma ErrStep(dx: nat, dy: nat, i: nat, j: nat)
    ensures Err(dx, dy, i + 1, j) == Err(dx, dy, i, j) - dy && Err(dx, dy, i, j + 1) == Err(dx, dy, i, j) + dx
    ensures Err(dx, dy, i + 1, j + 1) == Err(dx, dy, i, j) - dy + dx
  {
    assert dx * (j + 1) == dx * j + dx && dy * (i + 1) == dy * i + dy;
  }

  lemma TrackPoint(x0: int, y0: int, x1: int, y1: int, i: nat, j: nat, k: nat)
    requires OnTrack(Abs(x1 - x0), Abs(y1 - y0), i, j, k)
    ensures LinePoint(x0, y0, x1, y1, (x0 + Signed(if x0 < x1 then 1 else -1, i), y0 + Signed(if y0 < y1 then 1 else -1, j)), k)
    ensures x0 + Signed(if x0 < x1 then 1 else -1, i) == x1 && y0 + Signed(if y0 < y1 then 1 else -1, j) == y1
            <==> k == Max(Abs(x1 - x0), Abs(y1 - y0))
    ensures k <= Max(Abs(x1 - x0), Abs(y1 - y0))
  {
    TrackEnd(Abs(x1 - x0), Abs(y1 - y0), i, j, k);
  }

  ghost function Elements(pts: seq<(int, int)>): set<(int, int)> {
    set p | p in pts
  }

  /** Point `k` of a line: `k` steps along the longer axis towards the second endpoint, in the box of the
      two, and half a pixel at most from the ideal line. */
  ghost predicate LinePoint(x0: int, y0: int, x1: int, y1: int, p: (int, int), k: nat) {
    var i, j := Abs(p.0 - x0), Abs(p.1 - y0);
    var dx, dy := Abs(x1 - x0), Abs(y1 - y0);
    && (x0 <= p.0 <= x1 || x1 <= p.0 <= x0) && (y0 <= p.1 <= y1 || y1 <= p.1 <= y0)
    && (if dx >= dy then i else j) == k && Near(dx, dy, i, j)
  }
}
