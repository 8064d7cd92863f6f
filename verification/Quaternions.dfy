/**
  The quaternion operations of glm over the reals: the Hamilton product, the conjugate, the inverse.
 */
module Quaternions {
  datatype Quat = Quat(w: real, x: real, y: real, z: real)

  // The components of the Hamilton product.

  function MulW(p: Quat, q: Quat): real {
    p.w * q.w - p.x * q.x - p.y * q.y - p.z * q.z
  }

  function MulX(p: Quat, q: Quat): real {
    p.w * q.x + p.x * q.w + p.y * q.z - p.z * q.y
  }

  function MulY(p: Quat, q: Quat): real {
    p.w * q.y + p.y * q.w + p.z * q.x - p.x * q.z
  }

  function MulZ(p: Quat, q: Quat): real {
    p.w * q.z + p.z * q.w + p.x * q.y - p.y * q.x
  }

  function Mul(p: Quat, q: Quat): Quat {
    Quat(MulW(p, q), MulX(p, q), MulY(p, q), MulZ(p, q))
  }

  function Norm(q: Quat): real {
    q.w * q.w + q.x * q.x + q.y * q.y + q.z * q.z
  }

  function Conjugate(q: Quat): Quat {
    Quat(q.w, -q.x, -q.y, -q.z)
  }

  function Times(k: real, q: Quat): Quat {
    Quat(k * q.w, k * q.x, k * q.y, k * q.z)
  }

  function Inverse(q: Quat): Quat
    requires Norm(q) != 0.0
  {
    Times(1.0 / Norm(q), Conjugate(q))
  }

  const ONE: Quat := Quat(1.0, 0.0, 0.0, 0.0)

  // ---- the algebra ----

  // The solver multiplies out one component at a time, and only when it is given the factors' components as equations.

  lemma AssociativeW(p: Quat, q: Quat, r: Quat, m: Quat, n: Quat)
    requires m.w == p.w * q.w - p.x * q.x - p.y * q.y - p.z * q.z
    requires m.x == p.w * q.x + p.x * q.w + p.y * q.z - p.z * q.y
    requires m.y == p.w * q.y + p.y * q.w + p.z * q.x - p.x * q.z
    requires m.z == p.w * q.z + p.z * q.w + p.x * q.y - p.y * q.x
    requires n.w == q.w * r.w - q.x * r.x - q.y * r.y - q.z * r.z
    requires n.x == q.w * r.x + q.x * r.w + q.y * r.z - q.z * r.y
    requires n.y == q.w * r.y + q.y * r.w + q.z * r.x - q.x * r.z
    requires n.z == q.w * r.z + q.z * r.w + q.x * r.y - q.y * r.x
    ensures MulW(m, r) == MulW(p, n)
  {
    assert m.w * r.w - m.x * r.x - m.y * r.y - m.z * r.z ==
           p.w * n.w - p.x * n.x - p.y * n.y - p.z * n.z;
  }

  lemma AssociativeX(p: Quat, q: Quat, r: Quat, m: Quat, n: Quat)
    requires m.w == p.w * q.w - p.x * q.x - p.y * q.y - p.z * q.z
    requires m.x == p.w * q.x + p.x * q.w + p.y * q.z - p.z * q.y
    requires m.y == p.w * q.y + p.y * q.w + p.z * q.x - p.x * q.z
    requires m.z == p.w * q.z + p.z * q.w + p.x * q.y - p.y * q.x
    requires n.w == q.w * r.w - q.x * r.x - q.y * r.y - q.z * r.z
    requires n.x == q.w * r.x + q.x * r.w + q.y * r.z - q.z * r.y
    requires n.y == q.w * r.y + q.y * r.w + q.z * r.x - q.x * r.z
    requires n.z == q.w * r.z + q.z * r.w + q.x * r.y - q.y * r.x
    ensures MulX(m, r) == MulX(p, n)
  {
    assert m.w * r.x + m.x * r.w + m.y * r.z - m.z * r.y ==
           p.w * n.x + p.x * n.w + p.y * n.z - p.z * n.y;
  }

  lemma AssociativeY(p: Quat, q: Quat, r: Quat, m: Quat, n: Quat)
    requires m.w == p.w * q.w - p.x * q.x - p.y * q.y - p.z * q.z
    requires m.x == p.w * q.x + p.x * q.w + p.y * q.z - p.z * q.y
    requires m.y == p.w * q.y + p.y * q.w + p.z * q.x - p.x * q.z
    requires m.z == p.w * q.z + p.z * q.w + p.x * q.y - p.y * q.x
    requires n.w == q.w * r.w - q.x * r.x - q.y * r.y - q.z * r.z
    requires n.x == q.w * r.x + q.x * r.w + q.y * r.z - q.z * r.y
    requires n.y == q.w * r.y + q.y * r.w + q.z * r.x - q.x * r.z
    requires n.z == q.w * r.z + q.z * r.w + q.x * r.y - q.y * r.x
    ensures MulY(m, r) == MulY(p, n)
  {
    assert m.w * r.y + m.y * r.w + m.z * r.x - m.x * r.z ==
           p.w * n.y + p.y * n.w + p.z * n.x - p.x * n.z;
  }

  lemma AssociativeZ(p: Quat, q: Quat, r: Quat, m: Quat, n: Quat)
    requires m.w == p.w * q.w - p.x * q.x - p.y * q.y - p.z * q.z
    requires m.x == p.w * q.x + p.x * q.w + p.y * q.z - p.z * q.y
    requires m.y == p.w * q.y + p.y * q.w + p.z * q.x - p.x * q.z
    requires m.z == p.w * q.z + p.z * q.w + p.x * q.y - p.y * q.x
    requires n.w == q.w * r.w - q.x * r.x - q.y * r.y - q.z * r.z
    requires n.x == q.w * r.x + q.x * r.w + q.y * r.z - q.z * r.y
    requires n.y == q.w * r.y + q.y * r.w + q.z * r.x - q.x * r.z
    requires n.z == q.w * r.z + q.z * r.w + q.x * r.y - q.y * r.x
    ensures MulZ(m, r) == MulZ(p, n)
  {
    assert m.w * r.z + m.z * r.w + m.x * r.y - m.y * r.x ==
           p.w * n.z + p.z * n.w + p.x * n.y - p.y * n.x;
  }

  lemma AssociativeNamed(p: Quat, q: Quat, r: Quat, m: Quat, n: Quat)
    requires m.w == MulW(p, q) && m.x == MulX(p, q) && m.y == MulY(p, q) && m.z == MulZ(p, q)
    requires n.w == MulW(q, r) && n.x == MulX(q, r) && n.y == MulY(q, r) && n.z == MulZ(q, r)
    ensures Mul(m, r) == Mul(p, n)
  {
    AssociativeW(p, q, r, m, n);
    AssociativeX(p, q, r, m, n);
    AssociativeY(p, q, r, m, n);
    AssociativeZ(p, q, r, m, n);
  }

  lemma Associative(p: Quat, q: Quat, r: Quat)
    ensures Mul(Mul(p, q), r) == Mul(p, Mul(q, r))
  {
    AssociativeNamed(p, q, r, Mul(p, q), Mul(q, r));
  }

  lemma ConjugateNamed(p: Quat, q: Quat, a: Quat, b: Quat)
    requires a.w == p.w && a.x == -p.x && a.y == -p.y && a.z == -p.z
    requires b.w == q.w && b.x == -q.x && b.y == -q.y && b.z == -q.z
    ensures Conjugate(Mul(p, q)) == Mul(b, a)
  {
    assert p.w * q.w - p.x * q.x - p.y * q.y - p.z * q.z == b.w * a.w - b.x * a.x - b.y * a.y - b.z * a.z;
    assert -(p.w * q.x + p.x * q.w + p.y * q.z - p.z * q.y) == b.w * a.x + b.x * a.w + b.y * a.z - b.z * a.y;
    assert -(p.w * q.y + p.y * q.w + p.z * q.x - p.x * q.z) == b.w * a.y + b.y * a.w + b.z * a.x - b.x * a.z;
    assert -(p.w * q.z + p.z * q.w + p.x * q.y - p.y * q.x) == b.w * a.z + b.z * a.w + b.x * a.y - b.y * a.x;
  }

  lemma ConjugateOfProduct(p: Quat, q: Quat)
    ensures Conjugate(Mul(p, q)) == Mul(Conjugate(q), Conjugate(p))
  {
    ConjugateNamed(p, q, Conjugate(p), Conjugate(q));
  }

  lemma ScalarParts(k: real, s: Quat, q: Quat)
    requires s.w == k && s.x == s.y == s.z == 0.0
    ensures Mul(s, q) == Times(k, q) == Mul(q, s)
  {
    assert s.w * q.w - s.x * q.x - s.y * q.y - s.z * q.z == k * q.w == q.w * s.w - q.x * s.x - q.y * s.y - q.z * s.z;
    assert s.w * q.x + s.x * q.w + s.y * q.z - s.z * q.y == k * q.x == q.w * s.x + q.x * s.w + q.y * s.z - q.z * s.y;
    assert s.w * q.y + s.y * q.w + s.z * q.x - s.x * q.z == k * q.y == q.w * s.y + q.y * s.w + q.z * s.x - q.x * s.z;
    assert s.w * q.z + s.z * q.w + s.x * q.y - s.y * q.x == k * q.z == q.w * s.z + q.z * s.w + q.x * s.y - q.y * s.x;
  }

  /** A real factor moves through products. */
  lemma TimesOut(k: real, p: Quat, q: Quat)
    ensures Mul(Times(k, p), q) == Times(k, Mul(p, q)) == Mul(p, Times(k, q))
  {
    var s := Quat(k, 0.0, 0.0, 0.0);
    ScalarParts(k, s, p);
    ScalarParts(k, s, q);
    ScalarParts(k, s, Mul(p, q));
    Associative(s, p, q);
    Associative(p, s, q);
  }

  lemma CancelNamed(q: Quat, d: Quat, n: real)
    requires d.w == q.w && d.x == -q.x && d.y == -q.y && d.z == -q.z
    requires n == q.w * q.w + q.x * q.x + q.y * q.y + q.z * q.z
    ensures Mul(q, d) == Quat(n, 0.0, 0.0, 0.0) == Mul(d, q)
  {
    assert q.w * d.w - q.x * d.x - q.y * d.y - q.z * d.z == n == d.w * q.w - d.x * q.x - d.y * q.y - d.z * q.z;
    assert q.w * d.x + q.x * d.w + q.y * d.z - q.z * d.y == 0.0 == d.w * q.x + d.x * q.w + d.y * q.z - d.z * q.y;
    assert q.w * d.y + q.y * d.w + q.z * d.x - q.x * d.z == 0.0 == d.w * q.y + d.y * q.w + d.z * q.x - d.x * q.z;
    assert q.w * d.z + q.z * d.w + q.x * d.y - q.y * d.x == 0.0 == d.w * q.z + d.z * q.w + d.x * q.y - d.y * q.x;
  }

  lemma ConjugateCancels(q: Quat)
    ensures Mul(q, Conjugate(q)) == Times(Norm(q), ONE) == Mul(Conjugate(q), q)
  {
    CancelNamed(q, Conjugate(q), Norm(q));
  }

  /** The inverse undoes a product on the left, for every quaternion but zero. */
  lemma InverseCancels(q: Quat, p: Quat)
    requires Norm(q) != 0.0
    ensures Mul(q, Mul(Inverse(q), p)) == p
    ensures Mul(Inverse(q), Mul(q, p)) == p
  {
    var k := 1.0 / Norm(q);
    assert k * Norm(q) == 1.0;
    ConjugateCancels(q);
    TimesOut(k, q, Conjugate(q));
    TimesOut(k, Conjugate(q), q);
    TimesTwice(k, Norm(q), ONE);
    assert Mul(q, Inverse(q)) == ONE == Mul(Inverse(q), q);
    Associative(q, Inverse(q), p);
    Associative(Inverse(q), q, p);
  }

  lemma TimesTwice(k: real, n: real, q: Quat)
    ensures Times(k, Times(n, q)) == Times(k * n, q)
  {
  }

  /** The norm is multiplicative. */
  lemma NormOfProduct(p: Quat, q: Quat)
    ensures Norm(Mul(p, q)) == Norm(p) * Norm(q)
  {
    ConjugateOfProduct(p, q);
    Associative(p, q, Mul(Conjugate(q), Conjugate(p)));
    Associative(q, Conjugate(q), Conjugate(p));
    ConjugateCancels(q);
    ConjugateCancels(p);
    ConjugateCancels(Mul(p, q));
    TimesOut(Norm(q), ONE, Conjugate(p));
    TimesOut(Norm(q), p, Conjugate(p));
    TimesTwice(Norm(q), Norm(p), ONE);
  }

  lemma InverseIsTimes(q: Quat) returns (k: real)
    requires Norm(q) != 0.0
    ensures Inverse(q) == Times(k, Conjugate(q))
  {
    k := 1.0 / Norm(q);
  }

  lemma InverseIsUnit(q: Quat)
    requires Norm(q) == 1.0
    ensures Inverse(q) == Conjugate(q) && Norm(Inverse(q)) == 1.0
  {
  }
}
