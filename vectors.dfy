/** Processing's PVector, as exact real-valued 2D vectors. */
module Vectors {

  datatype Vec = Vec(x: real, y: real)

  const Zero: Vec := Vec(0.0, 0.0)

  /** PVector.add(a, b) */
  function Add(a: Vec, b: Vec): Vec {
    Vec(a.x + b.x, a.y + b.y)
  }

  /** PVector.sub(a, b) */
  function Sub(a: Vec, b: Vec): Vec {
    Vec(a.x - b.x, a.y - b.y)
  }

  /** PVector.mult(a, k) */
  function Scale(a: Vec, k: real): Vec {
    Vec(a.x * k, a.y * k)
  }

  /** PVector.div(a, k) */
  function Div(a: Vec, k: real): Vec
    requires k != 0.0
  {
    Vec(a.x / k, a.y / k)
  }

  /** Square of PVector.mag(); the model avoids square roots by comparing squares. */
  function SqNorm(a: Vec): real {
    a.x * a.x + a.y * a.y
  }

  /** `PVector.dist(p, c) <= r`: for a non-negative radius this is |p - c|^2 <= r^2,
      and no point is within a negative radius. */
  predicate WithinRadius(p: Vec, c: Vec, r: real) {
    0.0 <= r && SqNorm(Sub(p, c)) <= r * r
  }

  /** Translating two points by the same displacement keeps their offset. */
  lemma TranslationKeepsOffset(d: Vec, p: Vec, q: Vec)
    ensures Sub(Add(d, p), Add(d, q)) == Sub(p, q)
  {
  }
}
