/**
  Vectors over the reals and their rotation by a quaternion, which glm computes as
  v + 2 * (w * (u x v) + u x (u x v)) whether or not the quaternion has unit length.
 */
module Rotations {
  import opened Quaternions

  datatype Vec = Vec(x: real, y: real, z: real)

  const ZERO: Vec := Vec(0.0, 0.0, 0.0)

  function Add(a: Vec, b: Vec): Vec {
    Vec(a.x + b.x, a.y + b.y, a.z + b.z)
  }

  function Sub(a: Vec, b: Vec): Vec {
    Vec(a.x - b.x, a.y - b.y, a.z - b.z)
  }

  function Scale(k: real, a: Vec): Vec {
    Vec(k * a.x, k * a.y, k * a.z)
  }

  function Dot(a: Vec, b: Vec): real {
    a.x * b.x + a.y * b.y + a.z * b.z
  }

  // The components of the cross product.

  function CrossX(a: Vec, b: Vec): real {
    a.y * b.z - b.y * a.z
  }

  function CrossY(a: Vec, b: Vec): real {
    a.z * b.x - b.z * a.x
  }

  function CrossZ(a: Vec, b: Vec): real {
    a.x * b.y - b.x * a.y
  }

  function Cross(a: Vec, b: Vec): Vec {
    Vec(CrossX(a, b), CrossY(a, b), CrossZ(a, b))
  }

  /** c is u x v, a component an equation, which is the form the solver multiplies out. */
  predicate CrossEquations(u: Vec, v: Vec, c: Vec) {
    c.x == u.y * v.z - v.y * u.z && c.y == u.z * v.x - v.z * u.x && c.z == u.x * v.y - v.x * u.y
  }

  function VectorPart(q: Quat): Vec {
    Vec(q.x, q.y, q.z)
  }

  function Pure(v: Vec): Quat {
    Quat(0.0, v.x, v.y, v.z)
  }

  /** glm's formula, from a vector and its crosses f and g with the axis. */
  function Turned(w: real, a: Vec, f: Vec, g: Vec): Vec {
    Add(a, Scale(2.0, Add(Scale(w, f), g)))
  }

  lemma TurnedParts(w: real, a: Vec, f: Vec, g: Vec)
    ensures var r := Turned(w, a, f, g);
            && r.x == a.x + 2.0 * (w * f.x + g.x)
            && r.y == a.y + 2.0 * (w * f.y + g.y)
            && r.z == a.z + 2.0 * (w * f.z + g.z)
  {
  }

  function Rotate(q: Quat, v: Vec): Vec {
    var uv := Cross(VectorPart(q), v);
    Turned(q.w, v, uv, Cross(VectorPart(q), uv))
  }

  // ---- rotations by unit quaternions ----

  function Sandwich(q: Quat, v: Quat): Quat {
    Mul(Mul(q, v), Conjugate(q))
  }

  /** c is u x v, s is u . v and k is u . u. */
  predicate CrossAndDots(u: Vec, v: Vec, c: Vec, s: real, k: real) {
    && c == Cross(u, v)
    && s == u.x * v.x + u.y * v.y + u.z * v.z
    && k == u.x * u.x + u.y * u.y + u.z * u.z
  }

  /** u x (u x v) is (u . v) * u - (u . u) * v. */
  lemma CrossTwiceX(u: Vec, v: Vec, c: Vec, s: real, k: real)
    requires CrossAndDots(u, v, c, s, k)
    ensures CrossX(u, c) == s * u.x - k * v.x
  {
    TwiceByX(u, v, c, s, k);
  }

  lemma TwiceByX(u: Vec, v: Vec, c: Vec, s: real, k: real)
    requires CrossEquations(u, v, c)
    requires s == u.x * v.x + u.y * v.y + u.z * v.z && k == u.x * u.x + u.y * u.y + u.z * u.z
    ensures CrossX(u, c) == s * u.x - k * v.x
  {
    assert u.y * c.z - c.y * u.z == s * u.x - k * v.x;
  }

  lemma CrossTwiceY(u: Vec, v: Vec, c: Vec, s: real, k: real)
    requires CrossAndDots(u, v, c, s, k)
    ensures CrossY(u, c) == s * u.y - k * v.y
  {
    TwiceByY(u, v, c, s, k);
  }

  lemma TwiceByY(u: Vec, v: Vec, c: Vec, s: real, k: real)
    requires CrossEquations(u, v, c)
    requires s == u.x * v.x + u.y * v.y + u.z * v.z && k == u.x * u.x + u.y * u.y + u.z * u.z
    ensures CrossY(u, c) == s * u.y - k * v.y
  {
    assert u.z * c.x - c.z * u.x == s * u.y - k * v.y;
  }

  lemma CrossTwiceZ(u: Vec, v: Vec, c: Vec, s: real, k: real)
    requires CrossAndDots(u, v, c, s, k)
    ensures CrossZ(u, c) == s * u.z - k * v.z
  {
    TwiceByZ(u, v, c, s, k);
  }

  lemma TwiceByZ(u: Vec, v: Vec, c: Vec, s: real, k: real)
    requires CrossEquations(u, v, c)
    requires s == u.x * v.x + u.y * v.y + u.z * v.z && k == u.x * u.x + u.y * u.y + u.z * u.z
    ensures CrossZ(u, c) == s * u.z - k * v.z
  {
    assert u.x * c.y - c.x * u.y == s * u.z - k * v.z;
  }

  lemma CrossTwice(u: Vec, v: Vec, c: Vec, s: real, k: real)
    requires CrossAndDots(u, v, c, s, k)
    ensures Cross(u, c) == Sub(Scale(s, u), Scale(k, v))
  {
    CrossTwiceX(u, v, c, s, k);
    CrossTwiceY(u, v, c, s, k);
    CrossTwiceZ(u, v, c, s, k);
  }

  /** The product of q and Pure(v), by the parts of q. */
  lemma PureProduct(q: Quat, u: Vec, v: Vec, p: Quat, m: Quat, c: Vec, s: real)
    requires u.x == q.x && u.y == q.y && u.z == q.z && p.w == 0.0 && p.x == v.x && p.y == v.y && p.z == v.z
    requires m.w == q.w * p.w - q.x * p.x - q.y * p.y - q.z * p.z
    requires m.x == q.w * p.x + q.x * p.w + q.y * p.z - q.z * p.y
    requires m.y == q.w * p.y + q.y * p.w + q.z * p.x - q.x * p.z
    requires m.z == q.w * p.z + q.z * p.w + q.x * p.y - q.y * p.x
    requires c == Cross(u, v) && s == u.x * v.x + u.y * v.y + u.z * v.z
    ensures m.w == -s && m.x == q.w * v.x + c.x && m.y == q.w * v.y + c.y && m.z == q.w * v.z + c.z
  {
  }

  /** m is the product of a quaternion with parts w and u and Pure(v), by its parts, and d the conjugate of it. */
  predicate Halfway(w: real, u: Vec, v: Vec, m: Quat, d: Quat, c: Vec, s: real) {
    && d == Quat(w, -u.x, -u.y, -u.z)
    && m == Quat(-s, w * v.x + c.x, w * v.y + c.y, w * v.z + c.z)
  }

  predicate HalfwayEquations(w: real, u: Vec, v: Vec, m: Quat, d: Quat, c: Vec, s: real) {
    && d.w == w && d.x == -u.x && d.y == -u.y && d.z == -u.z
    && m.w == -s && m.x == w * v.x + c.x && m.y == w * v.y + c.y && m.z == w * v.z + c.z
  }

  lemma SandwichX(w: real, u: Vec, v: Vec, m: Quat, d: Quat, c: Vec, s: real)
    requires Halfway(w, u, v, m, d, c, s) && c == Cross(u, v)
    ensures MulX(m, d) == s * u.x + w * w * v.x + 2.0 * (w * c.x) + CrossX(u, c)
  {
    SandwichByX(w, u, v, m, d, c, s);
  }

  lemma SandwichByX(w: real, u: Vec, v: Vec, m: Quat, d: Quat, c: Vec, s: real)
    requires HalfwayEquations(w, u, v, m, d, c, s) && c.x == u.y * v.z - v.y * u.z
    ensures MulX(m, d) == s * u.x + w * w * v.x + 2.0 * (w * c.x) + CrossX(u, c)
  {
    assert m.w * d.x + m.x * d.w + m.y * d.z - m.z * d.y ==
           s * u.x + w * w * v.x + 2.0 * (w * c.x) + (u.y * c.z - c.y * u.z);
  }

  lemma SandwichY(w: real, u: Vec, v: Vec, m: Quat, d: Quat, c: Vec, s: real)
    requires Halfway(w, u, v, m, d, c, s) && c == Cross(u, v)
    ensures MulY(m, d) == s * u.y + w * w * v.y + 2.0 * (w * c.y) + CrossY(u, c)
  {
    SandwichByY(w, u, v, m, d, c, s);
  }

  lemma SandwichByY(w: real, u: Vec, v: Vec, m: Quat, d: Quat, c: Vec, s: real)
    requires HalfwayEquations(w, u, v, m, d, c, s) && c.y == u.z * v.x - v.z * u.x
    ensures MulY(m, d) == s * u.y + w * w * v.y + 2.0 * (w * c.y) + CrossY(u, c)
  {
    assert m.w * d.y + m.y * d.w + m.z * d.x - m.x * d.z ==
           s * u.y + w * w * v.y + 2.0 * (w * c.y) + (u.z * c.x - c.z * u.x);
  }

  lemma SandwichZ(w: real, u: Vec, v: Vec, m: Quat, d: Quat, c: Vec, s: real)
    requires Halfway(w, u, v, m, d, c, s) && c == Cross(u, v)
    ensures MulZ(m, d) == s * u.z + w * w * v.z + 2.0 * (w * c.z) + CrossZ(u, c)
  {
    SandwichByZ(w, u, v, m, d, c, s);
  }

  lemma SandwichByZ(w: real, u: Vec, v: Vec, m: Quat, d: Quat, c: Vec, s: real)
    requires HalfwayEquations(w, u, v, m, d, c, s) && c.z == u.x * v.y - v.x * u.y
    ensures MulZ(m, d) == s * u.z + w * w * v.z + 2.0 * (w * c.z) + CrossZ(u, c)
  {
    assert m.w * d.z + m.z * d.w + m.x * d.y - m.y * d.x ==
           s * u.z + w * w * v.z + 2.0 * (w * c.z) + (u.x * c.y - c.x * u.y);
  }

  lemma SandwichW(w: real, u: Vec, v: Vec, m: Quat, d: Quat, c: Vec, s: real)
    requires Halfway(w, u, v, m, d, c, s) && c == Cross(u, v) && s == u.x * v.x + u.y * v.y + u.z * v.z
    ensures MulW(m, d) == 0.0
  {
    SandwichByW(w, u, v, m, d, c, s);
  }

  lemma SandwichByW(w: real, u: Vec, v: Vec, m: Quat, d: Quat, c: Vec, s: real)
    requires HalfwayEquations(w, u, v, m, d, c, s) && CrossEquations(u, v, c)
    requires s == u.x * v.x + u.y * v.y + u.z * v.z
    ensures MulW(m, d) == 0.0
  {
    assert m.w * d.w - m.x * d.x - m.y * d.y - m.z * d.z == 0.0;
  }

  /** One component of glm's formula, when n is the norm: with k = n - w * w, s * a - k * v stands for u x (u x v). */
  lemma FormulasAgree(w: real, k: real, n: real, s: real, a: real, v: real, c: real, e: real, m: real)
    requires k == n - w * w && e == s * a - k * v && m == s * a + w * w * v + 2.0 * (w * c) + e
    ensures m == v + 2.0 * (w * c + e) + (n - 1.0) * v
  {
    assert k * v == n * v - w * w * v;
  }

  lemma RotateX(w: real, u: Vec, v: Vec, m: Quat, d: Quat, c: Vec, s: real, k: real, n: real)
    requires Halfway(w, u, v, m, d, c, s) && CrossAndDots(u, v, c, s, k) && k == n - w * w
    ensures MulX(m, d) == v.x + 2.0 * (w * c.x + CrossX(u, c)) + (n - 1.0) * v.x
  {
    SandwichX(w, u, v, m, d, c, s);
    CrossTwiceX(u, v, c, s, k);
    FormulasAgree(w, k, n, s, u.x, v.x, c.x, CrossX(u, c), MulX(m, d));
  }

  lemma RotateY(w: real, u: Vec, v: Vec, m: Quat, d: Quat, c: Vec, s: real, k: real, n: real)
    requires Halfway(w, u, v, m, d, c, s) && CrossAndDots(u, v, c, s, k) && k == n - w * w
    ensures MulY(m, d) == v.y + 2.0 * (w * c.y + CrossY(u, c)) + (n - 1.0) * v.y
  {
    SandwichY(w, u, v, m, d, c, s);
    CrossTwiceY(u, v, c, s, k);
    FormulasAgree(w, k, n, s, u.y, v.y, c.y, CrossY(u, c), MulY(m, d));
  }

  lemma RotateZ(w: real, u: Vec, v: Vec, m: Quat, d: Quat, c: Vec, s: real, k: real, n: real)
    requires Halfway(w, u, v, m, d, c, s) && CrossAndDots(u, v, c, s, k) && k == n - w * w
    ensures MulZ(m, d) == v.z + 2.0 * (w * c.z + CrossZ(u, c)) + (n - 1.0) * v.z
  {
    SandwichZ(w, u, v, m, d, c, s);
    CrossTwiceZ(u, v, c, s, k);
    FormulasAgree(w, k, n, s, u.z, v.z, c.z, CrossZ(u, c), MulZ(m, d));
  }

  lemma ProductHalfway(q: Quat, u: Vec, v: Vec, c: Vec, s: real)
    requires u == VectorPart(q) && c == Cross(u, v) && s == u.x * v.x + u.y * v.y + u.z * v.z
    ensures Halfway(q.w, u, v, Mul(q, Pure(v)), Conjugate(q), c, s)
  {
    PureProduct(q, u, v, Pure(v), Mul(q, Pure(v)), c, s);
  }

  lemma NormParts(q: Quat, u: Vec, k: real, n: real)
    requires u.x == q.x && u.y == q.y && u.z == q.z && k == u.x * u.x + u.y * u.y + u.z * u.z && n == Norm(q)
    ensures k == n - q.w * q.w
  {
    assert u.x * u.x + u.y * u.y + u.z * u.z == q.x * q.x + q.y * q.y + q.z * q.z;
  }

  lemma RotateNamed(w: real, u: Vec, v: Vec, m: Quat, d: Quat, c: Vec, s: real, k: real, n: real)
    requires Halfway(w, u, v, m, d, c, s) && CrossAndDots(u, v, c, s, k) && k == n - w * w
    ensures MulW(m, d) == 0.0
    ensures MulX(m, d) == v.x + 2.0 * (w * c.x + CrossX(u, c)) + (n - 1.0) * v.x
    ensures MulY(m, d) == v.y + 2.0 * (w * c.y + CrossY(u, c)) + (n - 1.0) * v.y
    ensures MulZ(m, d) == v.z + 2.0 * (w * c.z + CrossZ(u, c)) + (n - 1.0) * v.z
  {
    SandwichW(w, u, v, m, d, c, s);
    RotateX(w, u, v, m, d, c, s, k, n);
    RotateY(w, u, v, m, d, c, s, k, n);
    RotateZ(w, u, v, m, d, c, s, k, n);
  }

  lemma TurnedAndMore(w: real, v: Vec, c: Vec, d: Vec, n: real, r: Quat)
    requires r.w == 0.0
    requires r.x == v.x + 2.0 * (w * c.x + d.x) + (n - 1.0) * v.x
    requires r.y == v.y + 2.0 * (w * c.y + d.y) + (n - 1.0) * v.y
    requires r.z == v.z + 2.0 * (w * c.z + d.z) + (n - 1.0) * v.z
    ensures r == Pure(Add(Turned(w, v, c, d), Scale(n - 1.0, v)))
  {
    TurnedParts(w, v, c, d);
  }

  lemma HalfwayTurned(w: real, u: Vec, v: Vec, m: Quat, d: Quat, c: Vec, s: real, k: real, n: real)
    requires Halfway(w, u, v, m, d, c, s) && CrossAndDots(u, v, c, s, k) && k == n - w * w
    ensures Mul(m, d) == Pure(Add(Turned(w, v, c, Cross(u, c)), Scale(n - 1.0, v)))
  {
    RotateNamed(w, u, v, m, d, c, s, k, n);
    TurnedAndMore(w, v, c, Cross(u, c), n, Mul(m, d));
  }

  /** Against the conjugation, glm's formula leaves out v times what the norm has more than one. */
  lemma GlmAndSandwich(q: Quat, v: Vec, n: real)
    requires n == Norm(q)
    ensures Sandwich(q, Pure(v)) == Pure(Add(Rotate(q, v), Scale(n - 1.0, v)))
  {
    var u := VectorPart(q);
    var c, s, k := Cross(u, v), Dot(u, v), Dot(u, u);
    ProductHalfway(q, u, v, c, s);
    NormParts(q, u, k, n);
    HalfwayTurned(q.w, u, v, Mul(q, Pure(v)), Conjugate(q), c, s, k, n);
  }

  lemma AddNothing(a: Vec, k: real, v: Vec)
    requires k == 0.0
    ensures Add(a, Scale(k, v)) == a
  {
  }

  /** By a unit quaternion, glm's formula is the conjugation. */
  lemma RotateIsSandwich(q: Quat, v: Vec)
    requires Norm(q) == 1.0
    ensures Pure(Rotate(q, v)) == Sandwich(q, Pure(v))
  {
    GlmAndSandwich(q, v, 1.0);
    AddNothing(Rotate(q, v), 1.0 - 1.0, v);
  }

  /** Rotating by a product is rotating twice. */
  lemma RotateByProduct(p: Quat, q: Quat, v: Vec)
    requires Norm(p) == Norm(q) == 1.0
    ensures Norm(Mul(p, q)) == 1.0 && Rotate(Mul(p, q), v) == Rotate(p, Rotate(q, v))
  {
    NormOfProduct(p, q);
    RotateIsSandwich(q, v);
    RotateIsSandwich(p, Rotate(q, v));
    RotateIsSandwich(Mul(p, q), v);
    SandwichOfProduct(p, q, Pure(v));
  }

  lemma SandwichOfProduct(p: Quat, q: Quat, v: Quat)
    ensures Mul(Mul(Mul(p, q), v), Conjugate(Mul(p, q))) ==
            Mul(Mul(p, Mul(Mul(q, v), Conjugate(q))), Conjugate(p))
  {
    ConjugateOfProduct(p, q);
    Associative(p, q, v);
    Associative(Mul(p, Mul(q, v)), Conjugate(q), Conjugate(p));
    Associative(p, Mul(q, v), Conjugate(q));
  }

  lemma CrossLinearNamed(u: Vec, a: Vec, b: Vec, s: Vec)
    requires s.x == a.x + b.x && s.y == a.y + b.y && s.z == a.z + b.z
    ensures CrossX(u, s) == CrossX(u, a) + CrossX(u, b)
    ensures CrossY(u, s) == CrossY(u, a) + CrossY(u, b)
    ensures CrossZ(u, s) == CrossZ(u, a) + CrossZ(u, b)
  {
    assert u.y * s.z - s.y * u.z == u.y * a.z - a.y * u.z + (u.y * b.z - b.y * u.z);
    assert u.z * s.x - s.z * u.x == u.z * a.x - a.z * u.x + (u.z * b.x - b.z * u.x);
    assert u.x * s.y - s.x * u.y == u.x * a.y - a.x * u.y + (u.x * b.y - b.x * u.y);
  }

  lemma CrossLinear(u: Vec, a: Vec, b: Vec)
    ensures Cross(u, Add(a, b)) == Add(Cross(u, a), Cross(u, b))
  {
    CrossLinearNamed(u, a, b, Add(a, b));
  }

  /** Crossing with u three times is crossing once, up to a factor. */
  lemma TripleCross(u: Vec, v: Vec, c: Vec, k: real)
    requires c == Cross(u, v) && k == Dot(u, u)
    ensures Cross(u, Cross(u, c)) == Scale(-k, c)
  {
    PerpendicularParts(u, v, c);
    TwiceAcross(u, c, Cross(u, c), Dot(u, c), k);
  }

  lemma TwiceAcross(u: Vec, c: Vec, d: Vec, s: real, k: real)
    requires d == Cross(u, c) && s == Dot(u, c) && k == Dot(u, u) && s == 0.0
    ensures Cross(u, d) == Scale(-k, c)
  {
    CrossTwice(u, c, d, s, k);
    OnlyScaled(s, u, k, c);
  }

  lemma OnlyScaled(s: real, u: Vec, k: real, c: Vec)
    requires s == 0.0
    ensures Sub(Scale(s, u), Scale(k, c)) == Scale(-k, c)
  {
  }

  lemma PerpendicularParts(u: Vec, v: Vec, c: Vec)
    requires c == Cross(u, v)
    ensures u.x * c.x + u.y * c.y + u.z * c.z == 0.0
  {
  }

  // ---- there and back, by a quaternion of any norm but zero ----

  /** One component of u x (x * p + y * q + z * r), from the products with p, q and r. */
  lemma CrossOfSumNamed(u: Vec, p: Vec, q: Vec, r: Vec, x: real, y: real, z: real, a: Vec)
    requires a.x == x * p.x + y * q.x + z * r.x && a.y == x * p.y + y * q.y + z * r.y && a.z == x * p.z + y * q.z + z * r.z
    ensures CrossX(u, a) == x * CrossX(u, p) + y * CrossX(u, q) + z * CrossX(u, r)
    ensures CrossY(u, a) == x * CrossY(u, p) + y * CrossY(u, q) + z * CrossY(u, r)
    ensures CrossZ(u, a) == x * CrossZ(u, p) + y * CrossZ(u, q) + z * CrossZ(u, r)
  {
    assert u.y * a.z - a.y * u.z ==
           x * (u.y * p.z - p.y * u.z) + y * (u.y * q.z - q.y * u.z) + z * (u.y * r.z - r.y * u.z);
    assert u.z * a.x - a.z * u.x ==
           x * (u.z * p.x - p.z * u.x) + y * (u.z * q.x - q.z * u.x) + z * (u.z * r.x - r.z * u.x);
    assert u.x * a.y - a.x * u.y ==
           x * (u.x * p.y - p.x * u.y) + y * (u.x * q.y - q.x * u.y) + z * (u.x * r.y - r.x * u.y);
  }

  /** x * p + y * q + z * r. */
  function Sum(x: real, p: Vec, y: real, q: Vec, z: real, r: Vec): Vec {
    Vec(x * p.x + y * q.x + z * r.x, x * p.y + y * q.y + z * r.y, x * p.z + y * q.z + z * r.z)
  }

  lemma CrossOfSum(u: Vec, x: real, p: Vec, y: real, q: Vec, z: real, r: Vec)
    ensures Cross(u, Sum(x, p, y, q, z, r)) == Sum(x, Cross(u, p), y, Cross(u, q), z, Cross(u, r))
  {
    CrossOfSumNamed(u, p, q, r, x, y, z, Sum(x, p, y, q, z, r));
  }

  lemma Congruent(a: real, b: real, x: real)
    requires a == b
    ensures a * x == b * x
  {
  }

  lemma ScaledParts(a: real, u: Vec, s: Vec, v: Vec)
    requires s.x == a * u.x && s.y == a * u.y && s.z == a * u.z
    ensures s.y * v.z - v.y * s.z == a * (u.y * v.z - v.y * u.z)
    ensures s.z * v.x - v.z * s.x == a * (u.z * v.x - v.z * u.x)
    ensures s.x * v.y - v.x * s.y == a * (u.x * v.y - v.x * u.y)
  {
  }

  lemma CrossOfScaled(a: real, u: Vec, s: Vec, v: Vec)
    requires s == Scale(a, u)
    ensures Cross(s, v) == Scale(a, Cross(u, v))
  {
    ScaledParts(a, u, s, v);
  }

  lemma CrossWithScaled(a: real, u: Vec, s: Vec, v: Vec)
    requires s == Scale(a, u)
    ensures Cross(v, s) == Scale(a, Cross(v, u))
  {
    ScaledBehind(a, u, s, v);
  }

  lemma ScaledBehind(a: real, u: Vec, s: Vec, v: Vec)
    requires s.x == a * u.x && s.y == a * u.y && s.z == a * u.z
    ensures v.y * s.z - s.y * v.z == a * (v.y * u.z - u.y * v.z)
    ensures v.z * s.x - s.z * v.x == a * (v.z * u.x - u.z * v.x)
    ensures v.x * s.y - s.x * v.y == a * (v.x * u.y - u.x * v.y)
  {
  }

  /** i is the scalar part of the inverse; y and z are the factors of u x v and u x (u x v) in the rotation by it. */
  predicate InverseFactors(k: real, w: real, i: real, y: real, z: real) {
    i == k * w && y == -2.0 * (k * k * w) && z == 2.0 * (k * k)
  }

  lemma InversePart(k: real, w: real, i: real, y: real, z: real, v: real, c: real, d: real, e: real, g: real,
                    f: real)
    requires InverseFactors(k, w, i, y, z) && e == -k * c && g == -k * d && f == -k * g
    ensures v + 2.0 * (i * e + f) == 1.0 * v + y * c + z * d
  {
    Congruent(i, k * w, e);
    Congruent(y, -2.0 * (k * k * w), c);
    Congruent(z, 2.0 * (k * k), d);
    assert k * w * e == -(k * k * w) * c && f == k * k * d;
  }

  lemma InverseComponents(k: real, w: real, i: real, y: real, z: real, v: Vec, c: Vec, d: Vec, e: Vec, g: Vec, f: Vec)
    requires InverseFactors(k, w, i, y, z) && e == Scale(-k, c) && g == Scale(-k, d) && f == Scale(-k, g)
    ensures v.x + 2.0 * (i * e.x + f.x) == 1.0 * v.x + y * c.x + z * d.x
    ensures v.y + 2.0 * (i * e.y + f.y) == 1.0 * v.y + y * c.y + z * d.y
    ensures v.z + 2.0 * (i * e.z + f.z) == 1.0 * v.z + y * c.z + z * d.z
  {
    InversePart(k, w, i, y, z, v.x, c.x, d.x, e.x, g.x, f.x);
    InversePart(k, w, i, y, z, v.y, c.y, d.y, e.y, g.y, f.y);
    InversePart(k, w, i, y, z, v.z, c.z, d.z, e.z, g.z, f.z);
  }

  lemma TurnedByInverse(k: real, w: real, i: real, y: real, z: real, v: Vec, c: Vec, d: Vec, e: Vec, g: Vec, f: Vec)
    requires InverseFactors(k, w, i, y, z) && e == Scale(-k, c) && g == Scale(-k, d) && f == Scale(-k, g)
    ensures Turned(i, v, e, f) == Sum(1.0, v, y, c, z, d)
  {
    InverseComponents(k, w, i, y, z, v, c, d, e, g, f);
    TurnedParts(i, v, e, f);
    SumParts(1.0, v, y, c, z, d);
  }

  lemma InverseParts(q: Quat, k: real, i: Quat)
    requires i == Times(k, Conjugate(q))
    ensures i.w == k * q.w && VectorPart(i) == Scale(-k, VectorPart(q))
  {
  }

  /** Rotating by the inverse, whose vector part is a multiple of u, in terms of u. */
  lemma RotateByInverse(q: Quat, k: real, i: Quat, v: Vec, y: real, z: real)
    requires i == Times(k, Conjugate(q)) && y == -2.0 * (k * k * q.w) && z == 2.0 * (k * k)
    ensures var c := Cross(VectorPart(q), v);
            Rotate(i, v) == Sum(1.0, v, y, c, z, Cross(VectorPart(q), c))
  {
    var u, s := VectorPart(q), VectorPart(i);
    var c, e := Cross(u, v), Cross(s, v);
    InverseParts(q, k, i);
    CrossOfScaled(-k, u, s, v);
    CrossOfScaled(-k, u, s, e);
    CrossWithScaled(-k, c, e, u);
    TurnedByInverse(k, q.w, i.w, y, z, v, c, Cross(u, c), e, Cross(u, e), Cross(s, e));
  }

  lemma BackParts(w: real, k: real, m: real, v: real, c: real, d: real)
    requires k * (w * w + m) == 1.0
    ensures v - 2.0 * (k * k * w) * c + 2.0 * (k * k) * d +
            2.0 * (w * (c - 2.0 * (k * k * w) * d - 2.0 * (k * k) * (m * c)) +
                   (d + 2.0 * (k * k * w) * (m * c) - 2.0 * (k * k) * (m * d))) ==
            v + 2.0 * w * (1.0 - k * k) * c + 2.0 * (1.0 - k) * (1.0 - k) * d
  {
    assert k * k * w * w + k * k * m == k;
  }

  lemma BackNamed(w: real, k: real, n: real, m: real, y: real, z: real, v: real, c: real, d: real, e: real, h: real,
                  a: real, f: real, g: real, y1: real, z1: real)
    requires BackFactors(w, k, n, m, y, z, y1, z1) && e == -m * c && h == -m * d
    requires a == v + y * c + z * d && f == c + y * d + z * e && g == d + y * e + z * h
    ensures a + 2.0 * (w * f + g) == v + y1 * c + z1 * d
  {
    BackParts(w, k, m, v, c, d);
  }

  lemma SumParts(x: real, v: Vec, y: real, c: Vec, z: real, d: Vec)
    ensures var a := Sum(x, v, y, c, z, d);
            && a.x == x * v.x + y * c.x + z * d.x
            && a.y == x * v.y + y * c.y + z * d.y
            && a.z == x * v.z + y * c.z + z * d.z
  {
  }

  /** y and z as for the inverse, y1 and z1 the factors that are left of u x v and u x (u x v) after turning back. */
  predicate BackFactors(w: real, k: real, n: real, m: real, y: real, z: real, y1: real, z1: real) {
    && n == w * w + m && k * n == 1.0
    && y == -2.0 * (k * k * w) && z == 2.0 * (k * k)
    && y1 == 2.0 * w * (1.0 - k * k) && z1 == 2.0 * (1.0 - k) * (1.0 - k)
  }

  /** a is what the inverse made of v, f is u x a and g is u x f. */
  predicate BackVectors(m: real, y: real, z: real, v: Vec, c: Vec, d: Vec, e: Vec, h: Vec, a: Vec, f: Vec, g: Vec) {
    && e == Scale(-m, c) && h == Scale(-m, d)
    && a == Sum(1.0, v, y, c, z, d) && f == Sum(1.0, c, y, d, z, e) && g == Sum(1.0, d, y, e, z, h)
  }

  lemma BackX(w: real, k: real, n: real, m: real, y: real, z: real, v: Vec, c: Vec, d: Vec, e: Vec, h: Vec,
              a: Vec, f: Vec, g: Vec, y1: real, z1: real)
    requires BackFactors(w, k, n, m, y, z, y1, z1) && BackVectors(m, y, z, v, c, d, e, h, a, f, g)
    ensures Turned(w, a, f, g).x == Sum(1.0, v, y1, c, z1, d).x
  {
    BackNamed(w, k, n, m, y, z, v.x, c.x, d.x, e.x, h.x, a.x, f.x, g.x, y1, z1);
    TurnedParts(w, a, f, g);
    SumParts(1.0, v, y1, c, z1, d);
  }

  lemma BackY(w: real, k: real, n: real, m: real, y: real, z: real, v: Vec, c: Vec, d: Vec, e: Vec, h: Vec,
              a: Vec, f: Vec, g: Vec, y1: real, z1: real)
    requires BackFactors(w, k, n, m, y, z, y1, z1) && BackVectors(m, y, z, v, c, d, e, h, a, f, g)
    ensures Turned(w, a, f, g).y == Sum(1.0, v, y1, c, z1, d).y
  {
    BackNamed(w, k, n, m, y, z, v.y, c.y, d.y, e.y, h.y, a.y, f.y, g.y, y1, z1);
    TurnedParts(w, a, f, g);
    SumParts(1.0, v, y1, c, z1, d);
  }

  lemma BackZ(w: real, k: real, n: real, m: real, y: real, z: real, v: Vec, c: Vec, d: Vec, e: Vec, h: Vec,
              a: Vec, f: Vec, g: Vec, y1: real, z1: real)
    requires BackFactors(w, k, n, m, y, z, y1, z1) && BackVectors(m, y, z, v, c, d, e, h, a, f, g)
    ensures Turned(w, a, f, g).z == Sum(1.0, v, y1, c, z1, d).z
  {
    BackNamed(w, k, n, m, y, z, v.z, c.z, d.z, e.z, h.z, a.z, f.z, g.z, y1, z1);
    TurnedParts(w, a, f, g);
    SumParts(1.0, v, y1, c, z1, d);
  }

  /** u x (x * v + y * c + z * d), and u x that, when c = u x v and d = u x c. */
  lemma CrossesOfSum(u: Vec, v: Vec, c: Vec, d: Vec, m: real, y: real, z: real, a: Vec)
    requires c == Cross(u, v) && d == Cross(u, c) && m == Dot(u, u) && a == Sum(1.0, v, y, c, z, d)
    ensures Cross(u, a) == Sum(1.0, c, y, d, z, Scale(-m, c))
    ensures Cross(u, Cross(u, a)) == Sum(1.0, d, y, Scale(-m, c), z, Scale(-m, d))
  {
    var e := Cross(u, d);
    CrossOfSum(u, 1.0, v, y, c, z, d);
    CrossOfSum(u, 1.0, c, y, d, z, e);
    TripleCross(u, v, c, m);
    TripleCross(u, c, d, m);
  }

  /** Rotating by the inverse and back leaves v, and what the norm adds across u. */
  lemma ThereAndBack(q: Quat, n: real, k: real, v: Vec, c: Vec, d: Vec, y: real, z: real)
    requires n == Norm(q) && k * n == 1.0 && c == Cross(VectorPart(q), v) && d == Cross(VectorPart(q), c)
    requires y == 2.0 * q.w * (1.0 - k * k) && z == 2.0 * (1.0 - k) * (1.0 - k)
    ensures Rotate(q, Rotate(Times(k, Conjugate(q)), v)) == Sum(1.0, v, y, c, z, d)
  {
    var u, w := VectorPart(q), q.w;
    var m, y0, z0 := Dot(u, u), -2.0 * (k * k * w), 2.0 * (k * k);
    var a := Rotate(Times(k, Conjugate(q)), v);
    RotateByInverse(q, k, Times(k, Conjugate(q)), v, y0, z0);
    NormParts(q, u, m, n);
    ThereAndBackNamed(w, k, n, v, u, c, d, m, y0, z0, a, y, z);
  }

  lemma ThereAndBackNamed(w: real, k: real, n: real, v: Vec, u: Vec, c: Vec, d: Vec, m: real, y0: real, z0: real,
                          a: Vec, y: real, z: real)
    requires BackFactors(w, k, n, m, y0, z0, y, z) && m == Dot(u, u)
    requires c == Cross(u, v) && d == Cross(u, c) && a == Sum(1.0, v, y0, c, z0, d)
    ensures Turned(w, a, Cross(u, a), Cross(u, Cross(u, a))) == Sum(1.0, v, y, c, z, d)
  {
    CrossesOfSum(u, v, c, d, m, y0, z0, a);
    BackAll(w, k, n, m, y0, z0, v, c, d, Scale(-m, c), Scale(-m, d), a, Cross(u, a), Cross(u, Cross(u, a)), y, z);
  }

  lemma BackAll(w: real, k: real, n: real, m: real, y: real, z: real, v: Vec, c: Vec, d: Vec, e: Vec, h: Vec,
                a: Vec, f: Vec, g: Vec, y1: real, z1: real)
    requires BackFactors(w, k, n, m, y, z, y1, z1) && BackVectors(m, y, z, v, c, d, e, h, a, f, g)
    ensures Turned(w, a, f, g) == Sum(1.0, v, y1, c, z1, d)
  {
    BackX(w, k, n, m, y, z, v, c, d, e, h, a, f, g, y1, z1);
    BackY(w, k, n, m, y, z, v, c, d, e, h, a, f, g, y1, z1);
    BackZ(w, k, n, m, y, z, v, c, d, e, h, a, f, g, y1, z1);
  }

  /** The square e of u x c, when c is perpendicular to u. */
  lemma SquareOfCross(u: Vec, c: Vec, d: Vec, m: real, n: real, e: real, s: real)
    requires d == Cross(u, c)
    requires m == u.x * u.x + u.y * u.y + u.z * u.z && n == c.x * c.x + c.y * c.y + c.z * c.z
    requires e == d.x * d.x + d.y * d.y + d.z * d.z && s == u.x * c.x + u.y * c.y + u.z * c.z
    ensures e == m * n - s * s
  {
  }

  lemma ProductPositive(x: real, y: real, p: real)
    requires x > 0.0 && y > 0.0 && p == x * y
    ensures p > 0.0
  {
  }

  lemma Square(x: real, p: real)
    requires p == x * x
    ensures p >= 0.0 && (p == 0.0 ==> x == 0.0)
  {
    if x > 0.0 {
      ProductPositive(x, x, p);
    } else if x < 0.0 {
      ProductPositive(-x, -x, p);
    }
  }

  lemma SquarePositive(a: Vec, n: real)
    requires n == a.x * a.x + a.y * a.y + a.z * a.z && a != ZERO
    ensures n > 0.0
  {
    assert a == Vec(a.x, a.y, a.z);
    var x, y, z := a.x * a.x, a.y * a.y, a.z * a.z;
    Square(a.x, x);
    Square(a.y, y);
    Square(a.z, z);
  }

  lemma CrossWithZero(u: Vec, v: Vec)
    requires u == ZERO
    ensures Cross(u, v) == ZERO
  {
  }

  lemma CrossOfZero(u: Vec, c: Vec)
    requires c == ZERO
    ensures Cross(u, c) == ZERO
  {
  }

  /** For c = u x v other than zero, d = u x c is not zero either. */
  lemma SecondCrossPositive(u: Vec, v: Vec, c: Vec, d: Vec, m: real, n: real, e: real, s: real)
    requires c == Cross(u, v) && d == Cross(u, c)
    requires m == u.x * u.x + u.y * u.y + u.z * u.z && n == c.x * c.x + c.y * c.y + c.z * c.z
    requires e == d.x * d.x + d.y * d.y + d.z * d.z && s == u.x * c.x + u.y * c.y + u.z * c.z
    requires c != ZERO && u != ZERO
    ensures e > 0.0
  {
    PerpendicularParts(u, v, c);
    SquareOfCross(u, c, d, m, n, e, s);
    SquarePositive(u, m);
    SquarePositive(c, n);
    PositiveDifference(m, n, e, s);
  }

  lemma PositiveDifference(m: real, n: real, e: real, s: real)
    requires m > 0.0 && n > 0.0 && s == 0.0 && e == m * n - s * s
    ensures e > 0.0
  {
    ProductPositive(m, n, m * n);
  }

  /** If y * c + z * d vanishes for c = u x v other than zero and d = u x c, then z vanishes: c and d are independent. */
  lemma Independent(u: Vec, v: Vec, c: Vec, d: Vec, y: real, z: real, e: real, s: real, o: real)
    requires c == Cross(u, v) && d == Cross(u, c)
    requires e == d.x * d.x + d.y * d.y + d.z * d.z && s == u.x * c.x + u.y * c.y + u.z * c.z
    requires o == c.x * d.x + c.y * d.y + c.z * d.z
    requires c != ZERO && u != ZERO
    requires y * c.x + z * d.x == 0.0 && y * c.y + z * d.y == 0.0 && y * c.z + z * d.z == 0.0
    ensures z == 0.0
  {
    SecondCrossPositive(u, v, c, d, u.x * u.x + u.y * u.y + u.z * u.z, c.x * c.x + c.y * c.y + c.z * c.z, e, s);
    PerpendicularToOther(u, c, d);
    Projected(c, d, y, z, o, e);
  }

  lemma PerpendicularToOther(u: Vec, c: Vec, d: Vec)
    requires d == Cross(u, c)
    ensures c.x * d.x + c.y * d.y + c.z * d.z == 0.0
  {
  }

  lemma Projected(c: Vec, d: Vec, y: real, z: real, o: real, n: real)
    requires y * c.x + z * d.x == 0.0 && y * c.y + z * d.y == 0.0 && y * c.z + z * d.z == 0.0
    requires o == c.x * d.x + c.y * d.y + c.z * d.z && o == 0.0
    requires n == d.x * d.x + d.y * d.y + d.z * d.z && n > 0.0
    ensures z == 0.0
  {
    assert (y * c.x + z * d.x) * d.x + (y * c.y + z * d.y) * d.y + (y * c.z + z * d.z) * d.z == y * o + z * n;
    if z != 0.0 {
      NonzeroProduct(z, n);
    }
  }

  lemma NonzeroProduct(z: real, n: real)
    requires z != 0.0 && n > 0.0
    ensures z * n != 0.0
  {
  }

  lemma IndependentNamed(u: Vec, v: Vec, c: Vec, d: Vec, y: real, z: real)
    requires c == Cross(u, v) && d == Cross(u, c)
    requires c != ZERO && u != ZERO && Sum(1.0, v, y, c, z, d) == v
    ensures z == 0.0
  {
    NothingAdded(v, c, d, y, z);
    Independent(u, v, c, d, y, z, Dot(d, d), Dot(u, c), Dot(c, d));
  }

  lemma NothingAdded(v: Vec, c: Vec, d: Vec, y: real, z: real)
    requires Sum(1.0, v, y, c, z, d) == v
    ensures y * c.x + z * d.x == 0.0 && y * c.y + z * d.y == 0.0 && y * c.z + z * d.z == 0.0
  {
    var s := Sum(1.0, v, y, c, z, d);
    assert s.x == v.x && s.y == v.y && s.z == v.z;
  }

  /**
    Rotating by the inverse and back gives v again exactly when the quaternion has unit norm or its axis is along v;
    for a quaternion of another norm glm's formula and its inverse do not cancel.
   */
  lemma ThereAndBackExactly(q: Quat, v: Vec)
    requires Norm(q) != 0.0
    ensures Rotate(q, Rotate(Inverse(q), v)) == v <==> Norm(q) == 1.0 || Cross(VectorPart(q), v) == ZERO
  {
    var n, u := Norm(q), VectorPart(q);
    var k := 1.0 / n;
    var c := Cross(u, v);
    var y, z := 2.0 * q.w * (1.0 - k * k), 2.0 * (1.0 - k) * (1.0 - k);
    Reciprocal(n, k);
    ThereAndBack(q, n, k, v, c, Cross(u, c), y, z);
    SumIsFirst(n, k, q.w, u, v, c, Cross(u, c), y, z);
  }

  lemma Reciprocal(n: real, k: real)
    requires n != 0.0 && k == 1.0 / n
    ensures k * n == 1.0
  {
  }

  lemma SumIsFirst(n: real, k: real, w: real, u: Vec, v: Vec, c: Vec, d: Vec, y: real, z: real)
    requires n != 0.0 && k == 1.0 / n && c == Cross(u, v) && d == Cross(u, c)
    requires y == 2.0 * w * (1.0 - k * k) && z == 2.0 * (1.0 - k) * (1.0 - k)
    ensures Sum(1.0, v, y, c, z, d) == v <==> n == 1.0 || c == ZERO
  {
    if n == 1.0 {
      SumWithout(v, c, d, y, z);
    } else if c == ZERO {
      CrossOfZero(u, c);
      SumWithZeros(v, c, d, y, z);
    } else if Sum(1.0, v, y, c, z, d) == v {
      if u == ZERO {
        CrossWithZero(u, v);
      } else {
        IndependentNamed(u, v, c, d, y, z);
        RootOfSquare(1.0 - k);
      }
      assert false;
    }
  }

  lemma SumWithout(v: Vec, c: Vec, d: Vec, y: real, z: real)
    requires y == z == 0.0
    ensures Sum(1.0, v, y, c, z, d) == v
  {
  }

  lemma SumWithZeros(v: Vec, c: Vec, d: Vec, y: real, z: real)
    requires c == d == ZERO
    ensures Sum(1.0, v, y, c, z, d) == v
  {
  }

  lemma RootOfSquare(x: real)
    requires 2.0 * x * x == 0.0
    ensures x == 0.0
  {
    var p := x * x;
    assert 2.0 * x * x == 2.0 * p;
    Square(x, p);
  }

  // ---- what a rotation by a product leaves over ----

  lemma PureSame(a: Vec, b: Vec)
    requires Pure(a) == Pure(b)
    ensures a == b
  {
    assert a == Vec(Pure(a).x, Pure(a).y, Pure(a).z);
    assert b == Vec(Pure(b).x, Pure(b).y, Pure(b).z);
  }

  /** For a unit q, rotating by p * q differs from rotating twice by what the norm of p adds to v and to its turn by q. */
  lemma ProductAndTwice(p: Quat, q: Quat, v: Vec, n: real)
    requires Norm(q) == 1.0 && n == Norm(p)
    ensures Add(Rotate(Mul(p, q), v), Scale(n - 1.0, v)) ==
            Add(Rotate(p, Rotate(q, v)), Scale(n - 1.0, Rotate(q, v)))
  {
    NormOfProduct(p, q);
    GlmAndSandwich(Mul(p, q), v, n);
    SandwichOfProduct(p, q, Pure(v));
    RotateIsSandwich(q, v);
    GlmAndSandwich(p, Rotate(q, v), n);
    PureSame(Add(Rotate(Mul(p, q), v), Scale(n - 1.0, v)),
             Add(Rotate(p, Rotate(q, v)), Scale(n - 1.0, Rotate(q, v))));
  }

  lemma SandwichTimes(p: Quat, n: real, v: Quat)
    ensures Sandwich(p, Times(n, v)) == Times(n, Sandwich(p, v))
  {
    TimesOut(n, p, v);
    TimesOut(n, Mul(p, v), Conjugate(p));
  }

  lemma PureOfScale(n: real, v: Vec)
    ensures Pure(Scale(n, v)) == Times(n, Pure(v))
  {
  }

  lemma ScaleOneMore(n: real, v: Vec)
    ensures Add(v, Scale(n - 1.0, v)) == Scale(n, v)
  {
    assert v.x + (n - 1.0) * v.x == n * v.x && v.y + (n - 1.0) * v.y == n * v.y && v.z + (n - 1.0) * v.z == n * v.z;
    assert Add(v, Scale(n - 1.0, v)) == Vec(n * v.x, n * v.y, n * v.z);
  }

  /** For a unit p, and a q that turns about v, rotating by p * q gives the turn by p only up to the norm of q. */
  lemma ProductAboutAxis(p: Quat, q: Quat, v: Vec, n: real)
    requires Norm(p) == 1.0 && n == Norm(q) && Rotate(q, v) == v
    ensures Add(Rotate(Mul(p, q), v), Scale(n - 1.0, v)) == Scale(n, Rotate(p, v))
  {
    NormOfProduct(p, q);
    GlmAndSandwich(Mul(p, q), v, n);
    SandwichOfProduct(p, q, Pure(v));
    GlmAndSandwich(q, v, n);
    ScaleOneMore(n, v);
    PureOfScale(n, v);
    SandwichTimes(p, n, Pure(v));
    RotateIsSandwich(p, v);
    PureOfScale(n, Rotate(p, v));
    PureSame(Add(Rotate(Mul(p, q), v), Scale(n - 1.0, v)), Scale(n, Rotate(p, v)));
  }

  lemma ProductIsZero(a: real, b: real, p: real)
    requires p == a * b && p == 0.0 && a != 0.0
    ensures b == 0.0
  {
  }

  /** Adding the same multiple of two vectors to one vector tells them apart, unless the multiple is none. */
  lemma SameMultiple(k: real, v: Vec, w: Vec)
    requires k != 0.0 && Scale(k, v) == Scale(k, w)
    ensures v == w
  {
    assert k * v.x == k * w.x && k * v.y == k * w.y && k * v.z == k * w.z;
    ProductIsZero(k, v.x - w.x, k * (v.x - w.x));
    ProductIsZero(k, v.y - w.y, k * (v.y - w.y));
    ProductIsZero(k, v.z - w.z, k * (v.z - w.z));
    assert v == Vec(v.x, v.y, v.z) && w == Vec(w.x, w.y, w.z);
  }

  /** A quaternion other than zero leaves exactly the vectors along its axis where they are. */
  lemma TurnsExactly(q: Quat, v: Vec)
    ensures Rotate(q, v) == v <==> Cross(VectorPart(q), v) == ZERO
  {
    var u := VectorPart(q);
    var c := Cross(u, v);
    if c == ZERO {
      KeptOnAxis(q, u, v, c);
    } else if Rotate(q, v) == v {
      if u == ZERO {
        CrossWithZero(u, v);
      } else {
        TurnedIsSum(q.w, v, c, Cross(u, c));
        IndependentNamed(u, v, c, Cross(u, c), 2.0 * q.w, 2.0);
      }
      assert false;
    }
  }

  lemma KeptOnAxis(q: Quat, u: Vec, v: Vec, c: Vec)
    requires u == VectorPart(q) && c == Cross(u, v) && c == ZERO
    ensures Rotate(q, v) == v
  {
    CrossOfZero(u, c);
    TurnedIsSum(q.w, v, c, Cross(u, c));
    SumWithZeros(v, c, Cross(u, c), 2.0 * q.w, 2.0);
  }

  lemma TurnedIsSum(w: real, v: Vec, c: Vec, d: Vec)
    ensures Turned(w, v, c, d) == Sum(1.0, v, 2.0 * w, c, 2.0, d)
  {
    TurnedParts(w, v, c, d);
    SumParts(1.0, v, 2.0 * w, c, 2.0, d);
    assert 2.0 * (w * c.x) == 2.0 * w * c.x && 2.0 * (w * c.y) == 2.0 * w * c.y && 2.0 * (w * c.z) == 2.0 * w * c.z;
    var r, s := Turned(w, v, c, d), Sum(1.0, v, 2.0 * w, c, 2.0, d);
    assert r == Vec(r.x, r.y, r.z) && s == Vec(s.x, s.y, s.z);
  }

  /** Some unit quaternion moves a vector other than zero: a half turn about an axis. */
  lemma HalfTurnMoves(v: Vec) returns (p: Quat)
    requires v != ZERO
    ensures Norm(p) == 1.0 && Rotate(p, v) != v
  {
    assert v == Vec(v.x, v.y, v.z);
    p := if v.y != 0.0 || v.z != 0.0 then Quat(0.0, 1.0, 0.0, 0.0) else Quat(0.0, 0.0, 1.0, 0.0);
    var c := Cross(VectorPart(p), v);
    assert c != ZERO by {
      assert if v.y != 0.0 || v.z != 0.0 then c.y == -v.z && c.z == v.y else c.z == -v.x;
    }
    TurnsExactly(p, v);
  }

  lemma NormOfInverse(q: Quat)
    requires Norm(q) != 0.0
    ensures Norm(Inverse(q)) * Norm(q) == 1.0
  {
    InverseCancels(q, ONE);
    NormOfProduct(Inverse(q), q);
    OneIsNeutral(q);
  }

  lemma OneIsNeutral(q: Quat)
    ensures Mul(q, ONE) == q == Mul(ONE, q) && Norm(ONE) == 1.0
  {
  }
}
