/**
  Locating one space in another (Space.cpp) and the velocities that go with it (SpaceVelocity.h), over the reals:
  every number is finite.
 */
module SpacePose {
  import opened Quaternions
  import opened Rotations

  datatype Pose = Pose(orientation: Quat, position: Vec)

  datatype Velocity = Velocity(linearValid: bool, angularValid: bool, linear: Vec, angular: Vec)

  const NO_VELOCITY: Velocity := Velocity(false, false, ZERO, ZERO)

  const AT_REST: Velocity := Velocity(true, true, ZERO, ZERO)

  datatype Located = Located(pose: Pose, active: bool, velocity: Velocity)

  datatype Location = Location(valid: bool, pose: Pose, velocity: Velocity)

  // ---- poses ----

  /** The offset step of GetWorldPose, on poses. */
  function Compose(base: Pose, offset: Pose): Pose {
    Pose(Mul(base.orientation, offset.orientation), Add(base.position, Rotate(base.orientation, offset.position)))
  }

  function RelativePose(target: Pose, base: Pose): Pose
    requires Norm(base.orientation) != 0.0
  {
    var inverse := Inverse(base.orientation);
    Pose(Mul(inverse, target.orientation), Rotate(inverse, Sub(target.position, base.position)))
  }

  lemma AddSub(a: Vec, b: Vec)
    ensures Add(b, Sub(a, b)) == a && Sub(Add(b, a), b) == a
  {
  }

  lemma AddCancels(a: Vec, b: Vec, c: Vec)
    requires Add(a, b) == Add(a, c)
    ensures b == c
  {
    assert b == Vec(b.x, b.y, b.z) && c == Vec(c.x, c.y, c.z);
  }

  /**
    Composing the base with the relative pose gives the located pose back exactly when the base orientation has unit
    norm, or the axis of its rotation passes through both positions.
   */
  lemma ComposeUndoesRelative(target: Pose, base: Pose)
    requires Norm(base.orientation) != 0.0
    ensures Compose(base, RelativePose(target, base)) == target <==>
              Norm(base.orientation) == 1.0 ||
              Cross(VectorPart(base.orientation), Sub(target.position, base.position)) == ZERO
  {
    var q, v := base.orientation, Sub(target.position, base.position);
    InverseCancels(q, target.orientation);
    ThereAndBackExactly(q, v);
    AddSub(target.position, base.position);
    if Compose(base, RelativePose(target, base)) == target {
      AddCancels(base.position, Rotate(q, Rotate(Inverse(q), v)), v);
    }
  }

  lemma UnitThereAndBack(q: Quat, v: Vec)
    requires Norm(q) == 1.0
    ensures Rotate(q, Rotate(Inverse(q), v)) == v && Rotate(Inverse(q), Rotate(q, v)) == v
  {
    InverseIsUnit(q);
    RotateByProduct(q, Inverse(q), v);
    RotateByProduct(Inverse(q), q, v);
    InverseCancels(q, ONE);
    OneIsNeutral(q);
    OneIsNeutral(Inverse(q));
    RotateByOne(v);
  }

  lemma RotateByOne(v: Vec)
    ensures Rotate(ONE, v) == v
  {
    RotateAboutNothing(ONE, VectorPart(ONE), v);
  }

  lemma RotateAboutNothing(q: Quat, u: Vec, v: Vec)
    requires u == VectorPart(q) && u == ZERO
    ensures Rotate(q, v) == v
  {
    CrossWithZero(u, v);
    KeptOnAxis(q, u, v, Cross(u, v));
  }

  /** The relative pose of what was composed on a unit base is the offset. */
  lemma RelativeUndoesCompose(offset: Pose, base: Pose)
    requires Norm(base.orientation) == 1.0
    ensures RelativePose(Compose(base, offset), base) == offset
  {
    InverseCancels(base.orientation, offset.orientation);
    UnitThereAndBack(base.orientation, offset.position);
    AddSub(Rotate(base.orientation, offset.position), base.position);
  }

  lemma RotateAdd(q: Quat, a: Vec, b: Vec)
    ensures Rotate(q, Add(a, b)) == Add(Rotate(q, a), Rotate(q, b))
  {
    var u := VectorPart(q);
    CrossLinear(u, a, b);
    CrossLinear(u, Cross(u, a), Cross(u, b));
    ScaleAdds(q.w, Cross(u, a), Cross(u, b));
  }

  lemma ScaleAdds(k: real, a: Vec, b: Vec)
    ensures Scale(k, Add(a, b)) == Add(Scale(k, a), Scale(k, b))
  {
    var s := Add(a, b);
    assert k * s.x == k * a.x + k * b.x && k * s.y == k * a.y + k * b.y && k * s.z == k * a.z + k * b.z;
  }

  lemma ChainedDifferences(a: Vec, b: Vec, c: Vec)
    ensures Sub(a, c) == Add(Sub(b, c), Sub(a, b))
  {
  }

  // ---- locating by way of another space ----

  /** a in c is b in c, then a in b. */
  predicate ByWayOf(a: Pose, b: Pose, c: Pose)
    requires Norm(b.orientation) != 0.0 && Norm(c.orientation) != 0.0
  {
    RelativePose(a, c) == Compose(RelativePose(b, c), RelativePose(a, b))
  }

  /** The orientations always agree; the positions when the offset comes out the same both ways. */
  lemma ByWayOfPosition(a: Pose, b: Pose, c: Pose, bi: Quat, ci: Quat, v: Vec)
    requires Norm(b.orientation) != 0.0 && Norm(c.orientation) != 0.0
    requires bi == Inverse(b.orientation) && ci == Inverse(c.orientation) && v == Sub(a.position, b.position)
    ensures ByWayOf(a, b, c) <==> Rotate(Mul(ci, b.orientation), Rotate(bi, v)) == Rotate(ci, v)
  {
    Associative(ci, b.orientation, Mul(bi, a.orientation));
    InverseCancels(b.orientation, a.orientation);
    ChainedDifferences(a.position, b.position, c.position);
    RotateAdd(ci, Sub(b.position, c.position), v);
    if ByWayOf(a, b, c) {
      AddCancels(Rotate(ci, Sub(b.position, c.position)), Rotate(ci, v), Rotate(Mul(ci, b.orientation), Rotate(bi, v)));
    }
  }

  lemma AddCancelsLeft(a: Vec, b: Vec, c: Vec)
    requires Add(a, c) == Add(b, c)
    ensures a == b
  {
    assert a == Vec(a.x, a.y, a.z) && b == Vec(b.x, b.y, b.z);
  }

  /** There and back by a unit quaternion moves nothing along its axis, and only that. */
  lemma BackMovesExactly(q: Quat, v: Vec)
    requires Norm(q) == 1.0
    ensures Rotate(Inverse(q), v) == v <==> Cross(VectorPart(q), v) == ZERO
  {
    UnitThereAndBack(q, v);
    TurnsExactly(q, v);
  }

  /** The offset by way of a unit b, at an inverse p of norm n. */
  lemma OffsetsAgreeExactly(p: Quat, q: Quat, v: Vec, n: real)
    requires n == Norm(p) && Norm(q) == 1.0
    ensures Rotate(Mul(p, q), Rotate(Inverse(q), v)) == Rotate(p, v) <==> n == 1.0 || Cross(VectorPart(q), v) == ZERO
  {
    var w := Rotate(Inverse(q), v);
    UnitThereAndBack(q, v);
    BackMovesExactly(q, v);
    ProductAndTwice(p, q, w, n);
    OffsetsByMultiple(Rotate(Mul(p, q), w), Rotate(p, v), w, v, n);
  }

  lemma OffsetsByMultiple(r: Vec, s: Vec, w: Vec, v: Vec, n: real)
    requires Add(r, Scale(n - 1.0, w)) == Add(s, Scale(n - 1.0, v))
    ensures r == s <==> n == 1.0 || w == v
  {
    if n == 1.0 {
      AddNothing(r, n - 1.0, w);
      AddNothing(s, n - 1.0, v);
    } else if w == v {
      AddCancelsLeft(r, s, Scale(n - 1.0, v));
    } else if r == s {
      AddCancels(r, Scale(n - 1.0, w), Scale(n - 1.0, v));
      SameMultiple(n - 1.0, w, v);
    }
  }

  /**
    Locating is transitive, a in c is b in c, then a in b, by way of a b of unit orientation, exactly when the
    orientation of c has unit norm too or the axis of b passes through both positions.
   */
  lemma LocatingIsTransitive(a: Pose, b: Pose, c: Pose)
    requires Norm(b.orientation) == 1.0 && Norm(c.orientation) != 0.0
    ensures ByWayOf(a, b, c) <==>
              Norm(c.orientation) == 1.0 ||
              Cross(VectorPart(b.orientation), Sub(a.position, b.position)) == ZERO
  {
    var bi, ci, v := Inverse(b.orientation), Inverse(c.orientation), Sub(a.position, b.position);
    ByWayOfPosition(a, b, c, bi, ci, v);
    OffsetsAgreeExactly(ci, b.orientation, v, Norm(ci));
    NormOfInverse(c.orientation);
    ReciprocalOfOne(Norm(ci), Norm(c.orientation));
  }

  lemma ReciprocalOfOne(n: real, m: real)
    requires n * m == 1.0
    ensures n == 1.0 <==> m == 1.0
  {
  }

  ghost predicate AlwaysByWayOf(a: Pose, b: Pose)
    requires Norm(b.orientation) != 0.0
  {
    forall c: Pose :: Norm(c.orientation) == 1.0 ==> ByWayOf(a, b, c)
  }

  /**
    A pose passes IsValidPose with an orientation within one percent of unit norm. By way of such a b, an a is located
    right in every c of unit orientation exactly when b has unit norm after all, or a is where b is.
   */
  lemma ByWayOfExactly(a: Pose, b: Pose)
    requires Norm(b.orientation) != 0.0
    ensures AlwaysByWayOf(a, b) <==> Norm(b.orientation) == 1.0 || a.position == b.position
  {
    if Norm(b.orientation) == 1.0 {
      forall c: Pose | Norm(c.orientation) == 1.0
        ensures ByWayOf(a, b, c)
      {
        LocatingIsTransitive(a, b, c);
      }
    } else if a.position == b.position {
      forall c: Pose | Norm(c.orientation) == 1.0
        ensures ByWayOf(a, b, c)
      {
        ByWayOfSamePlace(a, b, c);
      }
    } else {
      var c := NotByWayOf(a, b);
    }
  }

  lemma ByWayOfSamePlace(a: Pose, b: Pose, c: Pose)
    requires Norm(b.orientation) != 0.0 && Norm(c.orientation) != 0.0 && a.position == b.position
    ensures ByWayOf(a, b, c)
  {
    SubSelf(b.position);
    RotateZero(Inverse(b.orientation));
    RotateZero(Mul(Inverse(c.orientation), b.orientation));
    RotateZero(Inverse(c.orientation));
    ByWayOfPosition(a, b, c, Inverse(b.orientation), Inverse(c.orientation), ZERO);
  }

  lemma NotByWayOf(a: Pose, b: Pose) returns (c: Pose)
    requires Norm(b.orientation) != 0.0 && Norm(b.orientation) != 1.0 && a.position != b.position
    ensures Norm(c.orientation) == 1.0 && !ByWayOf(a, b, c)
  {
    var v := Sub(a.position, b.position);
    if Cross(VectorPart(b.orientation), v) != ZERO {
      c := OffAxis(a, b, v, Inverse(b.orientation));
    } else {
      DifferentPlaces(a.position, b.position);
      c := OnAxis(a, b, v, Inverse(b.orientation));
    }
  }

  lemma OffAxis(a: Pose, b: Pose, v: Vec, bi: Quat) returns (c: Pose)
    requires Norm(b.orientation) != 0.0 && v == Sub(a.position, b.position) && bi == Inverse(b.orientation)
    ensures Norm(c.orientation) == 1.0
    ensures ByWayOf(a, b, c) <==> Norm(b.orientation) == 1.0 || Cross(VectorPart(b.orientation), v) == ZERO
  {
    var ci;
    c, ci := UnturnedPose(b.orientation, v, Rotate(bi, v));
    Unturned(a, b, c, bi, ci, v);
  }

  lemma OnAxis(a: Pose, b: Pose, v: Vec, bi: Quat) returns (c: Pose)
    requires Norm(b.orientation) != 0.0 && v == Sub(a.position, b.position) && bi == Inverse(b.orientation) && v != ZERO
    ensures Norm(c.orientation) == 1.0
    ensures Cross(VectorPart(b.orientation), v) == ZERO ==> (ByWayOf(a, b, c) <==> Norm(b.orientation) == 1.0)
  {
    var p;
    c, p := TurnedPose(v);
    if Cross(VectorPart(b.orientation), v) == ZERO {
      InverseKeepsAxis(b.orientation, v);
      InTurnedPose(a, b, c, bi, p, v);
    }
  }

  lemma TurnedPose(v: Vec) returns (c: Pose, p: Quat)
    requires v != ZERO
    ensures Norm(p) == Norm(c.orientation) == 1.0 && p == Inverse(c.orientation) && Rotate(p, v) != v
  {
    p := HalfTurnMoves(v);
    c := Pose(Conjugate(p), ZERO);
    InverseOfConjugate(p);
  }

  lemma DifferentPlaces(a: Vec, b: Vec)
    requires a != b
    ensures Sub(a, b) != ZERO
  {
    assert a == Vec(a.x, a.y, a.z) && b == Vec(b.x, b.y, b.z);
  }

  lemma InverseOfConjugate(p: Quat)
    requires Norm(p) == 1.0
    ensures Norm(Conjugate(p)) == 1.0 && Inverse(Conjugate(p)) == p
  {
    InverseIsUnit(p);
    InverseIsUnit(Conjugate(p));
  }

  lemma UnturnedPose(q: Quat, v: Vec, w: Vec) returns (c: Pose, ci: Quat)
    ensures Norm(c.orientation) == 1.0 && ci == Inverse(c.orientation)
    ensures Rotate(Mul(ci, q), w) == Rotate(q, w) && Rotate(ci, v) == v
  {
    c, ci := UnitPose();
    NoTurn(q, ci, v, w);
  }

  lemma UnitPose() returns (c: Pose, ci: Quat)
    ensures Norm(c.orientation) == 1.0 && ci == Inverse(c.orientation) && ci == ONE
  {
    c, ci := Pose(ONE, ZERO), ONE;
    InverseIsUnit(ONE);
  }

  lemma NoTurn(q: Quat, ci: Quat, v: Vec, w: Vec)
    requires ci == ONE
    ensures Rotate(Mul(ci, q), w) == Rotate(q, w) && Rotate(ci, v) == v
  {
    OneIsNeutral(q);
    RotateByOne(v);
  }

  /** In an unturned pose a is located right exactly when b has unit norm or its axis lies along the offset. */
  lemma Unturned(a: Pose, b: Pose, c: Pose, bi: Quat, ci: Quat, v: Vec)
    requires Norm(b.orientation) != 0.0 && Norm(c.orientation) == 1.0
    requires bi == Inverse(b.orientation) && ci == Inverse(c.orientation) && v == Sub(a.position, b.position)
    requires Rotate(Mul(ci, b.orientation), Rotate(bi, v)) == Rotate(b.orientation, Rotate(bi, v)) && Rotate(ci, v) == v
    ensures ByWayOf(a, b, c) <==> Norm(b.orientation) == 1.0 || Cross(VectorPart(b.orientation), v) == ZERO
  {
    ByWayOfPosition(a, b, c, bi, ci, v);
    ThereAndBackExactly(b.orientation, v);
  }

  lemma MultipleKeepsAxis(q: Quat, v: Vec, k: real, bi: Quat)
    requires bi == Times(k, Conjugate(q)) && Cross(VectorPart(q), v) == ZERO
    ensures Rotate(q, v) == v && Rotate(bi, v) == v
  {
    var u, s := VectorPart(q), VectorPart(bi);
    MultipleParts(q, k, bi, u, s);
    CrossWithMultiple(u, v, k, s);
    KeptOnAxis(q, u, v, Cross(u, v));
    KeptOnAxis(bi, s, v, Cross(s, v));
  }

  lemma InverseKeepsAxis(q: Quat, v: Vec)
    requires Norm(q) != 0.0 && Cross(VectorPart(q), v) == ZERO
    ensures Rotate(q, v) == v && Rotate(Inverse(q), v) == v
  {
    var k := InverseIsTimes(q);
    MultipleKeepsAxis(q, v, k, Inverse(q));
  }

  lemma MultipleParts(q: Quat, k: real, bi: Quat, u: Vec, s: Vec)
    requires bi == Times(k, Conjugate(q)) && u == VectorPart(q) && s == VectorPart(bi)
    ensures s.x == k * -u.x && s.y == k * -u.y && s.z == k * -u.z
  {
  }

  lemma CrossWithMultiple(u: Vec, v: Vec, k: real, s: Vec)
    requires Cross(u, v) == ZERO && s.x == k * -u.x && s.y == k * -u.y && s.z == k * -u.z
    ensures Cross(s, v) == ZERO
  {
    var c := Cross(u, v);
    assert s.y * v.z - v.y * s.z == -k * c.x && s.z * v.x - v.z * s.x == -k * c.y && s.x * v.y - v.x * s.y == -k * c.z;
  }

  /** On the axis of q, the norm of q shows wherever p moves the offset. */
  lemma NormShows(p: Quat, q: Quat, v: Vec, n: real)
    requires Norm(p) == 1.0 && n == Norm(q) && n != 1.0 && Rotate(q, v) == v && Rotate(p, v) != v
    ensures Rotate(Mul(p, q), v) != Rotate(p, v)
  {
    var r := Rotate(p, v);
    ProductAboutAxis(p, q, v, n);
    ScaleOneMore(n, r);
    if Rotate(Mul(p, q), v) == r {
      AddCancels(r, Scale(n - 1.0, v), Scale(n - 1.0, r));
      SameMultiple(n - 1.0, v, r);
    }
  }

  /** So in a pose turned by p a is located right exactly when b has unit norm. */
  lemma InTurnedPose(a: Pose, b: Pose, c: Pose, bi: Quat, p: Quat, v: Vec)
    requires Norm(b.orientation) != 0.0 && Norm(c.orientation) == 1.0
    requires bi == Inverse(b.orientation) && p == Inverse(c.orientation) && v == Sub(a.position, b.position)
    requires Rotate(b.orientation, v) == v && Rotate(bi, v) == v && Norm(p) == 1.0 && Rotate(p, v) != v
    ensures ByWayOf(a, b, c) <==> Norm(b.orientation) == 1.0
  {
    if Norm(b.orientation) == 1.0 {
      LocatingIsTransitive(a, b, c);
    } else {
      ByWayOfPosition(a, b, c, bi, p, v);
      NormShows(p, b.orientation, v, Norm(b.orientation));
    }
  }

  lemma ComposeAssociative(a: Pose, b: Pose, c: Pose)
    requires Norm(a.orientation) == Norm(b.orientation) == 1.0
    ensures Compose(Compose(a, b), c) == Compose(a, Compose(b, c))
  {
    Associative(a.orientation, b.orientation, c.orientation);
    RotateByProduct(a.orientation, b.orientation, c.position);
    RotateAdd(a.orientation, b.position, Rotate(b.orientation, c.position));
    AddAssociative(a.position, Rotate(a.orientation, b.position),
                   Rotate(a.orientation, Rotate(b.orientation, c.position)));
  }

  lemma AddAssociative(a: Vec, b: Vec, c: Vec)
    ensures Add(Add(a, b), c) == Add(a, Add(b, c))
  {
  }

  /** Two spaces offset from one body lie the same way to each other wherever the body is. */
  lemma BodyDropsOut(body: Pose, first: Pose, second: Pose)
    requires Norm(body.orientation) == Norm(second.orientation) == 1.0
    ensures Norm(Compose(body, second).orientation) == 1.0
    ensures RelativePose(Compose(body, first), Compose(body, second)) == RelativePose(first, second)
  {
    NormOfProduct(body.orientation, second.orientation);
    var relative := RelativePose(first, second);
    ComposeUndoesRelative(first, second);
    ComposeAssociative(body, second, relative);
    RelativeUndoesCompose(relative, Compose(body, second));
  }

  // ---- velocities ----

  function AtOffset(velocity: Velocity, worldOffset: Vec): Velocity {
    var hasOffset := worldOffset != ZERO;
    var linearValid := velocity.linearValid && (!hasOffset || velocity.angularValid);
    Velocity(linearValid, velocity.angularValid,
             if !linearValid then ZERO
             else if hasOffset then Add(velocity.linear, Cross(velocity.angular, worldOffset))
             else velocity.linear,
             if velocity.angularValid then velocity.angular else ZERO)
  }

  /** The positive root of the norm, as normalizing takes it. */
  predicate RootOf(root: real, q: Quat) {
    root > 0.0 && root * root == Norm(q)
  }

  function Normalized(q: Quat, root: real): (unit: Quat)
    requires RootOf(root, q)
    ensures Norm(unit) == 1.0 && Times(root, unit) == q
  {
    NormOfTimes(1.0 / root, q, Times(1.0 / root, q), Norm(q));
    RootCancels(root, 1.0 / root, Norm(q));
    TimesBack(root, q);
    Times(1.0 / root, q)
  }

  lemma TimesBack(root: real, q: Quat)
    requires root > 0.0
    ensures Times(root, Times(1.0 / root, q)) == q
  {
    var k := 1.0 / root;
    Cancels(root, k, q.w);
    Cancels(root, k, q.x);
    Cancels(root, k, q.y);
    Cancels(root, k, q.z);
    assert q == Quat(q.w, q.x, q.y, q.z);
  }

  lemma Cancels(root: real, k: real, x: real)
    requires root > 0.0 && k == 1.0 / root
    ensures root * (k * x) == x
  {
    assert root * k == 1.0;
    assert root * (k * x) == (root * k) * x;
  }

  lemma NormOfTimes(k: real, q: Quat, s: Quat, n: real)
    requires s.w == k * q.w && s.x == k * q.x && s.y == k * q.y && s.z == k * q.z
    requires n == q.w * q.w + q.x * q.x + q.y * q.y + q.z * q.z
    ensures Norm(s) == k * k * n
  {
    assert s.w * s.w + s.x * s.x + s.y * s.y + s.z * s.z == k * k * n;
  }

  lemma RootCancels(root: real, k: real, n: real)
    requires root > 0.0 && k == 1.0 / root && n == root * root
    ensures k * k * n == 1.0
  {
    assert k * root == 1.0;
    assert k * k * (root * root) == (k * root) * (k * root);
  }

  /** The velocity relative to a base, in the coordinates that inverse turns the world's into. */
  function RelativeBy(velocity: Velocity, base: Velocity, inverse: Quat, worldOffset: Vec): Velocity {
    var hasOffset := worldOffset != ZERO;
    var angularValid := velocity.angularValid && base.angularValid;
    var linearValid := velocity.linearValid && base.linearValid && (!hasOffset || base.angularValid);
    var linear := Sub(velocity.linear, base.linear);
    Velocity(linearValid, angularValid,
             if !linearValid then ZERO
             else Rotate(inverse, if hasOffset then Sub(linear, Cross(base.angular, worldOffset)) else linear),
             if angularValid then Rotate(inverse, Sub(velocity.angular, base.angular)) else ZERO)
  }

  function Relative(velocity: Velocity, base: Velocity, orientation: Quat, root: real, worldOffset: Vec): Velocity
    requires Norm(orientation) > 0.0 ==> RootOf(root, orientation)
  {
    if Norm(orientation) <= 0.0 then NO_VELOCITY
    else RelativeBy(velocity, base, Inverse(Normalized(orientation, root)), worldOffset)
  }

  lemma RotateZero(q: Quat)
    ensures Rotate(q, ZERO) == ZERO
  {
    CrossOfZero(VectorPart(q), ZERO);
  }

  lemma SubSelf(a: Vec)
    ensures Sub(a, a) == ZERO
  {
  }

  lemma SubAsAdd(first: Vec, second: Vec)
    ensures Add(second, Sub(first, second)) == first
  {
  }

  /** The linear velocity left after taking the base's and its transport term off: none. */
  lemma TransportCancels(v: Vec, w: Vec, first: Vec, second: Vec)
    ensures Sub(Sub(Add(v, Cross(w, first)), Add(v, Cross(w, second))), Cross(w, Sub(first, second))) == ZERO
  {
    CrossLinear(w, second, Sub(first, second));
    SubAsAdd(first, second);
    var a, b, c := Cross(w, first), Cross(w, second), Cross(w, Sub(first, second));
    assert a == Add(b, c);
    assert Sub(Sub(Add(v, Add(b, c)), Add(v, b)), c) == ZERO;
  }

  /** With a valid angular velocity, an offset of zero is no special case. */
  lemma AtOffsetLinear(velocity: Velocity, offset: Vec)
    requires velocity.linearValid && velocity.angularValid
    ensures AtOffset(velocity, offset) ==
            Velocity(true, true, Add(velocity.linear, Cross(velocity.angular, offset)), velocity.angular)
  {
    if offset == ZERO {
      CrossOfZero(velocity.angular, offset);
    }
  }

  /** What is left of the relative velocity of two points of one body before it is turned: nothing. */
  lemma NothingLeft(body: Velocity, first: Vec, second: Vec)
    requires body.linearValid && (body.angularValid || (first == ZERO && second == ZERO))
    ensures var a, b := AtOffset(body, first), AtOffset(body, second);
            var linear := Sub(a.linear, b.linear);
            (if Sub(first, second) != ZERO then Sub(linear, Cross(b.angular, Sub(first, second))) else linear) == ZERO
  {
    if body.angularValid {
      AtOffsetLinear(body, first);
      AtOffsetLinear(body, second);
      TransportCancels(body.linear, body.angular, first, second);
      if Sub(first, second) == ZERO {
        SubAsAdd(first, second);
        AddZero(second);
        SubSelf(Add(body.linear, Cross(body.angular, first)));
      }
    } else {
      SubSelf(ZERO);
      SubSelf(body.linear);
    }
  }

  /**
    Two points of one rigid body, at any two offsets: their relative velocity is zero, its angular part is valid
    exactly when the body's is, and its linear part exactly when the body's is and either the angular part is or both
    points are the body's own.
   */
  lemma RigidBodyAtRest(body: Velocity, first: Vec, second: Vec, inverse: Quat)
    ensures RelativeBy(AtOffset(body, first), AtOffset(body, second), inverse, Sub(first, second)) ==
            Velocity(body.linearValid && (body.angularValid || (first == ZERO && second == ZERO)), body.angularValid,
                     ZERO, ZERO)
  {
    RotateZero(inverse);
    SubSelf(body.angular);
    if first == ZERO && second == ZERO {
      SubSelf(ZERO);
    }
    if !body.angularValid && Sub(first, second) == ZERO {
      SubAsAdd(first, second);
      AddZero(second);
    }
    if body.linearValid && (body.angularValid || (first == ZERO && second == ZERO)) {
      NothingLeft(body, first, second);
    }
  }

  lemma AddZero(a: Vec)
    ensures Add(a, ZERO) == a
  {
  }

  lemma RestAtOffset(offset: Vec)
    ensures AtOffset(AT_REST, offset) == AT_REST && Sub(offset, ZERO) == offset
  {
    CrossWithZero(ZERO, offset);
    AddZero(ZERO);
  }

  lemma RestRelativeToRest(inverse: Quat, offset: Vec)
    ensures RelativeBy(AT_REST, AT_REST, inverse, offset) == AT_REST
  {
    RestAtOffset(offset);
    RestAtOffset(ZERO);
    RigidBodyAtRest(AT_REST, offset, ZERO, inverse);
  }

  // ---- locating ----

  datatype ReferenceType = View | Local | LocalFloor | Stage

  /** What a space is fixed to: a reference origin, or the pose source of an action. */
  datatype Anchor = Reference(reference: ReferenceType) | Action(action: nat)

  datatype Space = Space(session: nat, anchor: Anchor, offset: Pose)

  /** Where each anchor is when asked, how it moves, and the root of each orientation's norm. */
  datatype World = World(body: Anchor -> Located, root: Quat -> real)

  ghost predicate RootsTaken(world: World) {
    forall q: Quat :: Norm(q) > 0.0 ==> RootOf(world.root(q), q)
  }

  function WorldPose(space: Space, world: World): Located {
    var body := world.body(space.anchor);
    Located(Compose(body.pose, space.offset), body.active,
            AtOffset(body.velocity, Rotate(body.pose.orientation, space.offset.position)))
  }

  function RelativeVelocity(target: Located, base: Located, world: World): Velocity
    requires RootsTaken(world)
  {
    if target.active && base.active
    then Relative(target.velocity, base.velocity, base.pose.orientation, world.root(base.pose.orientation),
                  Sub(target.pose.position, base.pose.position))
    else NO_VELOCITY
  }

  /** LocateRelativePose. */
  function Locate(target: Located, base: Located, world: World): Location
    requires Norm(base.pose.orientation) != 0.0
    requires RootsTaken(world)
  {
    Location(target.active && base.active, RelativePose(target.pose, base.pose), RelativeVelocity(target, base, world))
  }

  predicate SameReference(target: Space, base: Space) {
    target.anchor.Reference? && target.anchor == base.anchor
  }

  datatype LocateResult = Success(location: Location) | ValidationFailure | TimeInvalid | HandleInvalid

  lemma OffsetDifference(p: Vec, a: Vec, b: Vec)
    ensures Sub(Add(p, a), Add(p, b)) == Sub(a, b)
  {
  }

  /** With both velocities taken for zero, as LocateSpace does for one reference type, the result is valid and zero. */
  lemma ShortcutAtRest(target: Located, base: Located, world: World)
    requires RootsTaken(world) && Norm(base.pose.orientation) > 0.0 && target.active && base.active
    requires target.velocity == base.velocity == AT_REST
    ensures RelativeVelocity(target, base, world) == AT_REST
  {
    var orientation := base.pose.orientation;
    var inverse := Inverse(Normalized(orientation, world.root(orientation)));
    RestRelativeToRest(inverse, Sub(target.pose.position, base.pose.position));
  }

  /** Located values whose velocities come from one body at two offsets. */
  lemma OneBodyAtRest(body: Velocity, first: Vec, second: Vec, target: Located, base: Located, world: World)
    requires RootsTaken(world) && Norm(base.pose.orientation) > 0.0 && target.active && base.active
    requires target.velocity == AtOffset(body, first) && base.velocity == AtOffset(body, second)
    requires Sub(target.pose.position, base.pose.position) == Sub(first, second)
    ensures RelativeVelocity(target, base, world) == AT_REST <==> body.linearValid && body.angularValid
  {
    var orientation := base.pose.orientation;
    var inverse := Inverse(Normalized(orientation, world.root(orientation)));
    RigidBodyAtRest(body, first, second, inverse);
  }

  /** What GetWorldPose makes of a body and the offset of a space, as it enters the relative velocity. */
  predicate OffsetFrom(located: Located, body: Located, worldOffset: Vec) {
    && located.active == body.active
    && located.pose.position == Add(body.pose.position, worldOffset)
    && located.velocity == AtOffset(body.velocity, worldOffset)
  }

  lemma WorldPoseIsOffset(space: Space, world: World)
    ensures var body := world.body(space.anchor);
            OffsetFrom(WorldPose(space, world), body, Rotate(body.pose.orientation, space.offset.position))
  {
  }

  lemma OffsetsDiffer(target: Located, base: Located, body: Located, first: Vec, second: Vec)
    requires OffsetFrom(target, body, first) && OffsetFrom(base, body, second)
    ensures Sub(target.pose.position, base.pose.position) == Sub(first, second)
  {
    OffsetDifference(body.pose.position, first, second);
  }

  lemma OffsetsAtRest(body: Located, first: Vec, second: Vec, target: Located, base: Located, world: World)
    requires RootsTaken(world) && body.active && Norm(base.pose.orientation) > 0.0
    requires OffsetFrom(target, body, first) && OffsetFrom(base, body, second)
    ensures RelativeVelocity(target, base, world) == AT_REST <==> body.velocity.linearValid && body.velocity.angularValid
  {
    OffsetsDiffer(target, base, body, first, second);
    OneBodyAtRest(body.velocity, first, second, target, base, world);
  }

  lemma PlacedAtRest(target: Space, base: Space, world: World, t: Located, b: Located)
    requires RootsTaken(world) && target.anchor == base.anchor && world.body(base.anchor).active
    requires t == WorldPose(target, world) && b == WorldPose(base, world) && Norm(b.pose.orientation) > 0.0
    ensures var velocity := world.body(base.anchor).velocity;
            RelativeVelocity(t, b, world) == AT_REST <==> velocity.linearValid && velocity.angularValid
  {
    var body := world.body(base.anchor);
    WorldPoseIsOffset(target, world);
    WorldPoseIsOffset(base, world);
    OffsetsAtRest(body, Rotate(body.pose.orientation, target.offset.position),
                  Rotate(body.pose.orientation, base.offset.position), t, b, world);
  }

  /**
    Between two spaces with one active anchor, reference or action, the general computation finds what LocateSpace
    says for one reference type, valid and zero, exactly when both parts of the anchor's velocity are known.
   */
  lemma ShortcutAgrees(target: Space, base: Space, world: World)
    requires RootsTaken(world) && target.anchor == base.anchor && world.body(base.anchor).active
    requires Norm(WorldPose(base, world).pose.orientation) > 0.0
    ensures var velocity := world.body(base.anchor).velocity;
            RelativeVelocity(WorldPose(target, world), WorldPose(base, world), world) == AT_REST <==>
              velocity.linearValid && velocity.angularValid
  {
    PlacedAtRest(target, base, world, WorldPose(target, world), WorldPose(base, world));
  }

  lemma NormOfParts(q: Quat, n: real)
    requires n == q.w * q.w + q.x * q.x + q.y * q.y + q.z * q.z
    ensures n >= 0.0
  {
    var w, x, y, z := q.w * q.w, q.x * q.x, q.y * q.y, q.z * q.z;
    Square(q.w, w);
    Square(q.x, x);
    Square(q.y, y);
    Square(q.z, z);
  }

  /** A norm is never negative. */
  lemma NormNonNegative(q: Quat)
    ensures Norm(q) >= 0.0
  {
    NormOfParts(q, Norm(q));
  }

  // ---- what a located velocity is ----

  /** The base orientation with unit norm: it is that times a positive number. */
  ghost function UnitOf(q: Quat, world: World): (unit: Quat)
    requires RootsTaken(world) && Norm(q) != 0.0
    ensures Norm(unit) == 1.0 && world.root(q) > 0.0 && Times(world.root(q), unit) == q
  {
    NormNonNegative(q);
    Normalized(q, world.root(q))
  }

  /**
    rel is how a point moves for an observer: turned into the world by the observer's orientation q, with the
    observer's own motion put back and the sweep of the offset d between the two, it is the point's motion. The
    point is at r from a body that moves by target, the observer at s from one that moves by base. What enters has to
    be known, and a part that is not is zero.
   */
  ghost predicate MovesFor(rel: Velocity, q: Quat, target: Velocity, r: Vec, base: Velocity, s: Vec, d: Vec) {
    && (rel.angularValid <==> target.angularValid && base.angularValid)
    && (rel.linearValid <==>
          && target.linearValid && (r == ZERO || target.angularValid)
          && base.linearValid && ((s == ZERO && d == ZERO) || base.angularValid))
    && (rel.angularValid ==> Add(Rotate(q, rel.angular), base.angular) == target.angular)
    && (rel.linearValid ==>
          Add(Add(Rotate(q, rel.linear), Add(base.linear, Cross(base.angular, s))), Cross(base.angular, d)) ==
            Add(target.linear, Cross(target.angular, r)))
    && (!rel.angularValid ==> rel.angular == ZERO)
    && (!rel.linearValid ==> rel.linear == ZERO)
  }

  /** A velocity at an offset: v + w x r, where it is known. */
  predicate MovesAt(at: Velocity, velocity: Velocity, r: Vec) {
    && at.angularValid == velocity.angularValid
    && at.angular == (if velocity.angularValid then velocity.angular else ZERO)
    && (at.linearValid <==> velocity.linearValid && (r == ZERO || velocity.angularValid))
    && (at.linearValid ==> at.linear == Add(velocity.linear, Cross(velocity.angular, r)))
  }

  lemma AtOffsetMoves(velocity: Velocity, r: Vec)
    ensures MovesAt(AtOffset(velocity, r), velocity, r)
  {
    if r == ZERO {
      CrossOfZero(velocity.angular, r);
      AddZero(velocity.linear);
    }
  }

  lemma TurnsBack(q: Quat, v: Vec)
    requires Norm(q) == 1.0
    ensures Rotate(q, Rotate(Inverse(q), v)) == v
  {
    ThereAndBackExactly(q, v);
  }

  lemma PutBack(linear: Vec, base: Vec, sweep: Vec)
    ensures Add(Add(Sub(Sub(linear, base), sweep), base), sweep) == linear
    ensures Add(Sub(linear, base), base) == linear
  {
  }

  lemma RelativeByMoves(velocity: Velocity, base: Velocity, q: Quat, d: Vec)
    requires Norm(q) == 1.0
    ensures var rel := RelativeBy(velocity, base, Inverse(q), d);
            && (rel.angularValid ==> Add(Rotate(q, rel.angular), base.angular) == velocity.angular)
            && (rel.linearValid ==>
                  Add(Add(Rotate(q, rel.linear), base.linear), Cross(base.angular, d)) == velocity.linear)
  {
    var sweep := Cross(base.angular, d);
    TurnsBack(q, Sub(velocity.angular, base.angular));
    PutBack(velocity.angular, base.angular, sweep);
    PutBack(velocity.linear, base.linear, sweep);
    TurnsBack(q, Sub(velocity.linear, base.linear));
    TurnsBack(q, Sub(Sub(velocity.linear, base.linear), sweep));
    if d == ZERO {
      CrossOfZero(base.angular, d);
      AddZero(velocity.linear);
    }
  }

  lemma RelativeMovesFor(target: Velocity, r: Vec, base: Velocity, s: Vec, v: Velocity, b: Velocity, q: Quat, d: Vec)
    requires Norm(q) == 1.0 && MovesAt(v, target, r) && MovesAt(b, base, s)
    ensures MovesFor(RelativeBy(v, b, Inverse(q), d), q, target, r, base, s, d)
  {
    RelativeByMoves(v, b, q, d);
    if !base.angularValid && d == ZERO {
      CrossOfZero(base.angular, d);
      CrossOfZero(b.angular, d);
    }
  }

  /** How one space moves for another, from how the bodies they are fixed to move. */
  ghost predicate MovesInBase(rel: Velocity, target: Space, base: Space, world: World)
    requires RootsTaken(world) && Norm(WorldPose(base, world).pose.orientation) != 0.0
  {
    var thisBody, baseBody := world.body(target.anchor), world.body(base.anchor);
    var thisPose, basePose := WorldPose(target, world).pose, WorldPose(base, world).pose;
    MovesFor(rel, UnitOf(basePose.orientation, world),
             thisBody.velocity, Rotate(thisBody.pose.orientation, target.offset.position),
             baseBody.velocity, Rotate(baseBody.pose.orientation, base.offset.position),
             Sub(thisPose.position, basePose.position))
  }

  lemma RelativeVelocityMoves(target: Space, base: Space, world: World)
    requires RootsTaken(world) && Norm(WorldPose(base, world).pose.orientation) != 0.0
    requires world.body(target.anchor).active && world.body(base.anchor).active
    ensures MovesInBase(RelativeVelocity(WorldPose(target, world), WorldPose(base, world), world), target, base, world)
  {
    var thisBody, baseBody := world.body(target.anchor), world.body(base.anchor);
    var t, b := WorldPose(target, world), WorldPose(base, world);
    var r := Rotate(thisBody.pose.orientation, target.offset.position);
    var s := Rotate(baseBody.pose.orientation, base.offset.position);
    NormNonNegative(b.pose.orientation);
    AtOffsetMoves(thisBody.velocity, r);
    AtOffsetMoves(baseBody.velocity, s);
    RelativeMovesFor(thisBody.velocity, r, baseBody.velocity, s, t.velocity, b.velocity,
                     UnitOf(b.pose.orientation, world), Sub(t.pose.position, b.pose.position));
  }

  /**
    LocateSpace. On success, composing the base's pose with the location gives this space's pose back, for a base of
    unit orientation; two spaces of one reference type are at rest relative to each other, and any others move for
    each other as their bodies do.
   */
  method LocateSpace(target: Space, base: Space, world: World, time: int, hasLocation: bool) returns (r: LocateResult)
    requires RootsTaken(world) && Norm(WorldPose(base, world).pose.orientation) != 0.0
    ensures r == ValidationFailure <==> !hasLocation
    ensures r == TimeInvalid <==> hasLocation && time <= 0
    ensures r == HandleInvalid <==> hasLocation && time > 0 && base.session != target.session
    ensures r.Success? && Norm(WorldPose(base, world).pose.orientation) == 1.0 ==>
              Compose(WorldPose(base, world).pose, r.location.pose) == WorldPose(target, world).pose
    ensures r.Success? ==> (r.location.valid <==> world.body(target.anchor).active && world.body(base.anchor).active)
    ensures r.Success? && SameReference(target, base) && r.location.valid ==> r.location.velocity == AT_REST
    ensures r.Success? && !SameReference(target, base) && r.location.valid ==>
              MovesInBase(r.location.velocity, target, base, world)
    ensures r.Success? && !r.location.valid ==> r.location.velocity == NO_VELOCITY
    ensures r.Success? && !SameReference(target, base) ==>
              r.location == Locate(WorldPose(target, world), WorldPose(base, world), world)
  {
    if !hasLocation {
      return ValidationFailure;
    }
    if time <= 0 {
      return TimeInvalid;
    }
    if base.session != target.session {
      return HandleInvalid;
    }
    var thisPose, basePose := WorldPose(target, world), WorldPose(base, world);
    ComposeUndoesRelative(thisPose.pose, basePose.pose);
    if SameReference(target, base) {
      NormNonNegative(basePose.pose.orientation);
      thisPose, basePose := thisPose.(velocity := AT_REST), basePose.(velocity := AT_REST);
      if thisPose.active && basePose.active {
        ShortcutAtRest(thisPose, basePose, world);
      }
    } else if thisPose.active && basePose.active {
      RelativeVelocityMoves(target, base, world);
    }
    r := Success(Locate(thisPose, basePose, world));
  }
}
