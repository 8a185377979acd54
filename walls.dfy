/** Ball.checkWalls as a function of one ball's position and velocity: a coordinate outside
    [0, bound] is put back one pixel inside the wall it crossed, and that velocity component is
    reversed and damped to 90%. The two axes are handled independently. */
module Walls {
  import opened Vectors

  /** `eps` of checkWalls: how far inside the wall a ball is put back. */
  const Eps: real := 1.0
  /** The factor by which a velocity component is kept when it bounces. */
  const Restitution: real := 0.9

  /** One axis: position `p`, velocity `v`, the canvas extent `bound`. */
  function Bounce(p: real, v: real, bound: real): (real, real) {
    if p < 0.0 || p > bound then
      (if p < 0.0 then Eps else bound - Eps, -Restitution * v)
    else (p, v)
  }

  /** Both axes, x against the width and y against the height. */
  function Collide(pos: Vec, vel: Vec, w: real, h: real): (Vec, Vec) {
    var (px, vx) := Bounce(pos.x, vel.x, w);
    var (py, vy) := Bounce(pos.y, vel.y, h);
    (Vec(px, py), Vec(vx, vy))
  }

  predicate InCanvas(p: Vec, w: real, h: real) {
    0.0 <= p.x <= w && 0.0 <= p.y <= h
  }

  /** A ball inside the canvas (the edges included) is left exactly as it is. */
  lemma InsideUntouched(pos: Vec, vel: Vec, w: real, h: real)
    requires InCanvas(pos, w, h)
    ensures Collide(pos, vel, w, h) == (pos, vel)
  {
  }

  /** A ball past the left (or top) wall lands at `Eps`, one past the right (or bottom) wall at
      one `Eps` short of it; either way the crossing component turns around at 90% of its size,
      and the other component is untouched when its coordinate was in range. */
  lemma OutsideReflects(pos: Vec, vel: Vec, w: real, h: real)
    requires pos.x < 0.0 || pos.x > w
    requires 0.0 <= pos.y <= h
    ensures var (p, v) := Collide(pos, vel, w, h);
      && p.x == (if pos.x < 0.0 then Eps else w - Eps) && v.x == -Restitution * vel.x
      && p.y == pos.y && v.y == vel.y
  {
  }

  /** The same for the top and bottom walls: the crossing y component turns around at 90% of
      its size, and x is untouched when it was in range. */
  lemma OutsideReflectsY(pos: Vec, vel: Vec, w: real, h: real)
    requires pos.y < 0.0 || pos.y > h
    requires 0.0 <= pos.x <= w
    ensures var (p, v) := Collide(pos, vel, w, h);
      && p.y == (if pos.y < 0.0 then Eps else h - Eps) && v.y == -Restitution * vel.y
      && p.x == pos.x && v.x == vel.x
  {
  }

  /** On a canvas at least one pixel wide and high, every ball ends inside it. */
  lemma CollideLandsInside(pos: Vec, vel: Vec, w: real, h: real)
    requires w >= Eps && h >= Eps
    ensures InCanvas(Collide(pos, vel, w, h).0, w, h)
  {
  }

  /** A second check changes nothing once the first has put the ball inside. */
  lemma CollideIdempotent(pos: Vec, vel: Vec, w: real, h: real)
    requires w >= Eps && h >= Eps
    ensures var (p, v) := Collide(pos, vel, w, h); Collide(p, v, w, h) == (p, v)
  {
    CollideLandsInside(pos, vel, w, h);
  }

  /** A bounce never speeds a ball up. */
  lemma CollideNeverSpeedsUp(pos: Vec, vel: Vec, w: real, h: real)
    ensures SqNorm(Collide(pos, vel, w, h).1) <= SqNorm(vel)
  {
    var v := Collide(pos, vel, w, h).1;
    assert v.x * v.x <= vel.x * vel.x;
    assert v.y * v.y <= vel.y * vel.y;
  }

  /** A component carrying the ball out through a wall is turned back in: it is no longer
      negative after the lower wall, and no longer positive after the upper one. */
  lemma BounceTurnsInwards(p: real, v: real, bound: real)
    requires p < 0.0 || p > bound
    ensures p < 0.0 && v <= 0.0 ==> Bounce(p, v, bound).1 >= 0.0
    ensures p > bound && v >= 0.0 ==> Bounce(p, v, bound).1 <= 0.0
  {
  }
}
