/** insidePolygon: a cheap bounding-box filter over the lasso the user drew, then the even-odd
    crossing test over the polygon passed in. The box is computed with `else if` updates, so a
    vertex that raises the maximum is never tested against the minimum. */
module Lasso {
  import opened Vectors

  datatype Box = Box(minX: real, maxX: real, minY: real, maxY: real)

  /** The box before any vertex: minimum at the canvas extent, maximum at 0. */
  function StartBox(w: real, h: real): Box {
    Box(w, 0.0, h, 0.0)
  }

  /** One vertex of the box loop, with the `else if` that skips the minimum test. */
  function UpdateBox(b: Box, v: Vec): Box {
    var b1 := if v.x > b.maxX then b.(maxX := v.x) else if v.x < b.minX then b.(minX := v.x) else b;
    if v.y > b1.maxY then b1.(maxY := v.y) else if v.y < b1.minY then b1.(minY := v.y) else b1
  }

  /** The box after the loop over `vs`, in order. */
  function BoxOf(vs: seq<Vec>, w: real, h: real): Box {
    if vs == [] then StartBox(w, h) else UpdateBox(BoxOf(vs[..|vs| - 1], w, h), vs[|vs| - 1])
  }

  /** The reference box: both tests on every vertex. */
  function HullUpdate(b: Box, v: Vec): Box {
    Box(if v.x < b.minX then v.x else b.minX, if v.x > b.maxX then v.x else b.maxX,
        if v.y < b.minY then v.y else b.minY, if v.y > b.maxY then v.y else b.maxY)
  }

  function HullOf(vs: seq<Vec>, w: real, h: real): Box {
    if vs == [] then StartBox(w, h) else HullUpdate(HullOf(vs[..|vs| - 1], w, h), vs[|vs| - 1])
  }

  /** Strictly inside the box. */
  predicate InBox(p: Vec, b: Box) {
    b.minY < p.y < b.maxY && b.minX < p.x < b.maxX
  }

  /** The edge from `a` to `b` crosses the horizontal line at height `y` (one end strictly
      below, the other on or above). */
  predicate Straddles(a: Vec, b: Vec, y: real) {
    (a.y < y && b.y >= y) || (b.y < y && a.y >= y)
  }

  /** Where that edge meets the line. */
  function CrossX(a: Vec, b: Vec, y: real): (x: real)
    requires Straddles(a, b, y)
  {
    a.x + (y - a.y) / (b.y - a.y) * (b.x - a.x)
  }

  /** The edge from `a` to `b` flips the parity at `here`: it crosses `here`'s row strictly to
      the left of `here`. */
  predicate Toggles(a: Vec, b: Vec, here: Vec) {
    Straddles(a, b, here.y) && CrossX(a, b, here.y) < here.x
  }

  /** The vertex before `i`, cyclically: `endVertex` of the loop, which starts at the last one. */
  function Prev(polygon: seq<Vec>, i: nat): Vec
    requires i < |polygon|
  {
    if i == 0 then polygon[|polygon| - 1] else polygon[i - 1]
  }

  /** For every edge, in loop order, whether it flips the parity. */
  function Flips(polygon: seq<Vec>, here: Vec): (r: seq<bool>)
    ensures |r| == |polygon|
  {
    seq(|polygon|, i requires 0 <= i < |polygon| => Toggles(polygon[i], Prev(polygon, i), here))
  }

  /** Exclusive or of a sequence of flags. */
  function Parity(bs: seq<bool>): bool {
    if bs == [] then false else Parity(bs[..|bs| - 1]) != bs[|bs| - 1]
  }

  /** oddNodes after the crossing loop. */
  function Odd(polygon: seq<Vec>, here: Vec): bool {
    Parity(Flips(polygon, here))
  }

  /** The result of insidePolygon: the box comes from the lasso `lasso` and the canvas extent,
      the crossing test from `polygon`. */
  predicate Inside(here: Vec, polygon: seq<Vec>, lasso: seq<Vec>, w: real, h: real) {
    InBox(here, BoxOf(lasso, w, h)) && Odd(polygon, here)
  }

  // ---------------------------------------------------------------------------------------
  // The box filter

  /** The reference box does span every vertex (and the starting extents). */
  lemma {:induction false} HullSpans(vs: seq<Vec>, w: real, h: real)
    ensures var b := HullOf(vs, w, h);
      && b.minX <= w && b.minY <= h && b.maxX >= 0.0 && b.maxY >= 0.0
      && forall i :: 0 <= i < |vs| ==> b.minX <= vs[i].x <= b.maxX && b.minY <= vs[i].y <= b.maxY
  {
    if vs != [] {
      HullSpans(vs[..|vs| - 1], w, h);
    }
  }

  /** The quirky box keeps the reference maxima and never goes below the reference minima: it
      lies within the true bounding box, so it never lets through a point the true box rejects. */
  lemma {:induction false} BoxWithinHull(vs: seq<Vec>, w: real, h: real)
    ensures var (b, r) := (BoxOf(vs, w, h), HullOf(vs, w, h));
      && b.maxX == r.maxX && b.maxY == r.maxY && r.minX <= b.minX && r.minY <= b.minY
  {
    if vs != [] {
      BoxWithinHull(vs[..|vs| - 1], w, h);
    }
  }

  lemma BoxFilterSound(p: Vec, vs: seq<Vec>, w: real, h: real)
    ensures InBox(p, BoxOf(vs, w, h)) ==> InBox(p, HullOf(vs, w, h))
  {
    BoxWithinHull(vs, w, h);
  }

  /** An empty lasso leaves the starting box, which holds no point when the canvas extents are
      non-negative: nothing is selected. */
  lemma EmptyLassoSelectsNothing(p: Vec, polygon: seq<Vec>, w: real, h: real)
    requires w >= 0.0 && h >= 0.0
    ensures !Inside(p, polygon, [], w, h)
  {
  }

  const Lasso4: seq<Vec> := [Vec(1.0, 1.0), Vec(5.0, 1.0), Vec(5.0, 5.0), Vec(2.0, 5.0)]

  lemma Lasso4Boxes()
    ensures BoxOf(Lasso4, 100.0, 100.0) == Box(2.0, 5.0, 1.0, 5.0)
    ensures HullOf(Lasso4, 100.0, 100.0) == Box(1.0, 5.0, 1.0, 5.0)
  {
    var l := Lasso4;
    assert l[..3][..2] == l[..2] && l[..2][..1] == l[..1] && l[..1][..0] == [];
    assert BoxOf(l[..1], 100.0, 100.0) == Box(100.0, 1.0, 100.0, 1.0);
    assert BoxOf(l[..2], 100.0, 100.0) == Box(100.0, 5.0, 1.0, 1.0);
    assert BoxOf(l[..3], 100.0, 100.0) == Box(5.0, 5.0, 1.0, 5.0);
    assert HullOf(l[..1], 100.0, 100.0) == Box(1.0, 1.0, 1.0, 1.0);
    assert HullOf(l[..2], 100.0, 100.0) == Box(1.0, 5.0, 1.0, 1.0);
    assert HullOf(l[..3], 100.0, 100.0) == Box(1.0, 5.0, 1.0, 5.0);
  }

  /** A vertical edge flips the parity exactly for the points of the rows it straddles that
      lie to its right. */
  lemma ToggleVertical(a: Vec, b: Vec, here: Vec)
    requires a.x == b.x && Straddles(a, b, here.y)
    ensures Toggles(a, b, here) <==> a.x < here.x
  {
  }

  /** A horizontal edge never flips the parity. */
  lemma ToggleLevel(a: Vec, b: Vec, here: Vec)
    requires a.y == b.y
    ensures !Toggles(a, b, here)
  {
  }

  /** The closing edge, from (1,1) back to (2,5), meets row 2 at x = 1.25, left of 1.5. */
  lemma Lasso4Closing(a: Vec, b: Vec, here: Vec)
    requires a == Vec(1.0, 1.0) && b == Vec(2.0, 5.0) && here == Vec(1.5, 2.0)
    ensures Toggles(a, b, here)
  {
    assert CrossX(a, b, here.y) == 1.25;
  }

  /** The parity of a four-vertex polygon, edge by edge. */
  lemma OddOf4(p: seq<Vec>, here: Vec)
    requires |p| == 4
    ensures Odd(p, here) == (((Toggles(p[0], p[3], here) != Toggles(p[1], p[0], here))
                              != Toggles(p[2], p[1], here)) != Toggles(p[3], p[2], here))
  {
    var f := Flips(p, here);
    var a, b, c, d := f[0], f[1], f[2], f[3];
    assert [a][..0] == [];
    assert Parity([a]) == a;
    assert [a, b][..1] == [a];
    assert Parity([a, b]) == (a != b);
    assert [a, b, c][..2] == [a, b];
    assert Parity([a, b, c]) == ((a != b) != c);
    assert f[..3] == [a, b, c];
  }

  /** The `else if` costs real selections: on a 100 x 100 canvas the lasso (1,1), (5,1), (5,5),
      (2,5) gives minimum x 2, because (1,1) raised the maximum instead; the point (1.5, 2) is
      inside the drawn polygon and inside the true bounding box, but the filter rejects it. */
  lemma ElseIfMissesInterior(lasso: seq<Vec>, here: Vec)
    requires lasso == Lasso4 && here == Vec(1.5, 2.0)
    ensures Odd(lasso, here)
    ensures InBox(here, HullOf(lasso, 100.0, 100.0))
    ensures !Inside(here, lasso, lasso, 100.0, 100.0)
  {
    Lasso4Boxes();
    Lasso4Closing(lasso[0], lasso[3], here);
    ToggleLevel(lasso[1], lasso[0], here);
    ToggleVertical(lasso[2], lasso[1], here);
    ToggleLevel(lasso[3], lasso[2], here);
    OddOf4(lasso, here);
  }

  /** `Lasso4` drawn from its second vertex. */
  const Lasso4Rotated: seq<Vec> := [Vec(5.0, 1.0), Vec(5.0, 5.0), Vec(2.0, 5.0), Vec(1.0, 1.0)]

  lemma RotatedBox()
    ensures BoxOf(Lasso4Rotated, 100.0, 100.0) == Box(1.0, 5.0, 1.0, 5.0)
  {
    var l := Lasso4Rotated;
    assert l[..3][..2] == l[..2] && l[..2][..1] == l[..1] && l[..1][..0] == [];
    assert BoxOf(l[..1], 100.0, 100.0) == Box(100.0, 5.0, 100.0, 1.0);
    assert BoxOf(l[..2], 100.0, 100.0) == Box(5.0, 5.0, 100.0, 5.0);
    assert BoxOf(l[..3], 100.0, 100.0) == Box(2.0, 5.0, 5.0, 5.0);
  }

  lemma RotatedOdd(l: seq<Vec>, here: Vec)
    requires l == Lasso4Rotated && here == Vec(1.5, 2.0)
    ensures Odd(l, here)
  {
    ToggleLevel(l[0], l[3], here);
    ToggleVertical(l[1], l[0], here);
    ToggleLevel(l[2], l[1], here);
    Lasso4Closing(l[3], l[2], here);
    OddOf4(l, here);
  }

  /** Because of the `else if`, the answer of insidePolygon depends on the start vertex: drawn
      from (5,1), the same lasso gets the true box, and (1.5, 2), which the lasso drawn from
      (1,1) rejects, is inside. */
  lemma RotationChangesBox(lasso: seq<Vec>, here: Vec)
    requires lasso == Lasso4Rotated && here == Vec(1.5, 2.0)
    ensures lasso == Lasso4[1..] + [Lasso4[0]]
    ensures BoxOf(lasso, 100.0, 100.0) == Box(1.0, 5.0, 1.0, 5.0)
    ensures Inside(here, lasso, lasso, 100.0, 100.0)
    ensures !Inside(here, Lasso4, Lasso4, 100.0, 100.0)
  {
    RotatedBox();
    RotatedOdd(lasso, here);
    ElseIfMissesInterior(Lasso4, here);
    assert Lasso4[1..] + [Lasso4[0]] == Lasso4Rotated;
  }

  // ---------------------------------------------------------------------------------------
  // The crossing test

  lemma MulNonNeg(x: real, y: real)
    requires x >= 0.0 && y >= 0.0
    ensures x * y >= 0.0
  {
  }

  lemma MulPos(x: real, y: real)
    requires x > 0.0 && y > 0.0
    ensures x * y > 0.0
  {
  }

  /** A quotient of a numerator by a denominator of the same sign, no larger in size, lies
      in [0, 1]. */
  lemma UnitFraction(n: real, d: real)
    requires (0.0 <= n <= d && d > 0.0) || (d <= n <= 0.0 && d < 0.0)
    ensures 0.0 <= n / d <= 1.0
  {
    var q := n / d;
    assert q * d == n;
    assert (q - 1.0) * d == n - d;
    if d > 0.0 {
      if q < 0.0 {
        MulPos(-q, d);
        assert false;
      }
      if q > 1.0 {
        MulPos(q - 1.0, d);
        assert false;
      }
    } else {
      assert (-q) * (-d) == q * d;
      assert (q - 1.0) * (-d) == -((q - 1.0) * d);
      if q < 0.0 {
        MulPos(-q, -d);
        assert false;
      }
      if q > 1.0 {
        MulPos(q - 1.0, -d);
        assert false;
      }
    }
  }

  /** A fraction `t` in [0, 1] of an interval stays within it. */
  lemma ScaledWithin(t: real, a: real, b: real)
    requires 0.0 <= t <= 1.0
    ensures (a <= a + t * (b - a) <= b) || (b <= a + t * (b - a) <= a)
  {
    if a <= b {
      MulNonNeg(t, b - a);
      MulNonNeg(1.0 - t, b - a);
      assert (1.0 - t) * (b - a) == (b - a) - t * (b - a);
    } else {
      MulNonNeg(t, a - b);
      MulNonNeg(1.0 - t, a - b);
      assert t * (b - a) == -(t * (a - b));
      assert (1.0 - t) * (a - b) == (a - b) - t * (a - b);
    }
  }

  /** The crossing point of a straddling edge lies between its ends. */
  lemma CrossBetween(a: Vec, b: Vec, y: real)
    requires Straddles(a, b, y)
    ensures var x := CrossX(a, b, y);
      (a.x <= x <= b.x) || (b.x <= x <= a.x)
  {
    UnitFraction(y - a.y, b.y - a.y);
    ScaledWithin((y - a.y) / (b.y - a.y), a.x, b.x);
  }

  lemma {:induction false} ParityAppend(a: seq<bool>, b: seq<bool>)
    ensures Parity(a + b) == (Parity(a) != Parity(b))
  {
    if b != [] {
      var b0 := b[..|b| - 1];
      ParityAppend(a, b0);
      assert (a + b)[..|a + b| - 1] == a + b0;
    } else {
      assert a + b == a;
    }
  }

  /** Starting the lasso at its second vertex instead of its first closes the same edges, so
      the crossing parity does not depend on where the user started drawing. The box filter
      does: see `RotationChangesBox`. */
  lemma RotationKeepsParity(polygon: seq<Vec>, here: Vec)
    requires |polygon| >= 1
    ensures Odd(polygon[1..] + [polygon[0]], here) == Odd(polygon, here)
  {
    var n := |polygon|;
    var q := polygon[1..] + [polygon[0]];
    var f := Flips(polygon, here);
    var g := Flips(q, here);
    assert g == f[1..] + [f[0]] by {
      forall i | 0 <= i < n ensures g[i] == (f[1..] + [f[0]])[i] {
        if i < n - 1 {
          assert q[i] == polygon[i + 1];
          assert Prev(q, i) == polygon[i];
        } else {
          assert q[i] == polygon[0];
          assert Prev(q, i) == polygon[n - 1];
        }
      }
    }
    ParityAppend(f[1..], [f[0]]);
    ParityAppend([f[0]], f[1..]);
    assert [f[0]] + f[1..] == f;
    assert Parity([f[0]]) == f[0] by {
      assert [f[0]][..0] == [];
    }
  }

  const Square: seq<Vec> := [Vec(0.0, 0.0), Vec(10.0, 0.0), Vec(10.0, 10.0), Vec(0.0, 10.0)]

  lemma SquareBox()
    ensures BoxOf(Square, 100.0, 100.0) == Box(0.0, 10.0, 0.0, 10.0)
  {
    var sq := Square;
    assert sq[..3][..2] == sq[..2] && sq[..2][..1] == sq[..1] && sq[..1][..0] == [];
    assert BoxOf(sq[..1], 100.0, 100.0) == Box(0.0, 0.0, 0.0, 0.0);
    assert BoxOf(sq[..2], 100.0, 100.0) == Box(0.0, 10.0, 0.0, 0.0);
    assert BoxOf(sq[..3], 100.0, 100.0) == Box(0.0, 10.0, 0.0, 10.0);
  }

  /** On the square's middle row, exactly the points with 0 < x <= 10 pass the crossing test:
      the left side flips every point right of x = 0, the right side every point right of 10. */
  lemma SquareRow(sq: seq<Vec>, p: Vec)
    requires |sq| == 4 && p.y == 5.0
    requires sq[0] == Vec(0.0, 0.0) && sq[1] == Vec(10.0, 0.0) && sq[2] == Vec(10.0, 10.0) && sq[3] == Vec(0.0, 10.0)
    ensures Odd(sq, p) <==> 0.0 < p.x <= 10.0
  {
    ToggleVertical(sq[0], sq[3], p);
    ToggleVertical(sq[2], sq[1], p);
    ToggleLevel(sq[1], sq[0], p);
    ToggleLevel(sq[3], sq[2], p);
    OddOf4(sq, p);
  }

  /** The square (0,0), (10,0), (10,10), (0,10) drawn on a 100 x 100 canvas: its centre is
      selected, a point on the same row to its right is outside the polygon. */
  lemma SquareExample(sq: seq<Vec>, centre: Vec, right: Vec)
    requires sq == Square && centre == Vec(5.0, 5.0) && right == Vec(15.0, 5.0)
    ensures Inside(centre, sq, sq, 100.0, 100.0)
    ensures !Odd(sq, right)
  {
    SquareBox();
    SquareRow(sq, centre);
    SquareRow(sq, right);
  }
}
