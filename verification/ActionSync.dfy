/**
  Action state: OxrSyncActions folds the bindings of each action and subaction path into one aggregate
  (EntryPoint.cpp), and ApplySyncState stores it and notes what changed (ActionSet.cpp). Floats are reals.
 */
module ActionSync {
  import opened Protocol

  datatype Kind = BooleanInput | FloatInput | Vector2fInput | PoseInput | OtherKind

  /** A suggested binding with what its device says at this sync. */
  datatype Binding = Binding(
    path: nat,
    topLevelPath: nat,
    handInteraction: bool,        // of the profile /interaction_profiles/ext/hand_interaction_ext
    profile: nat,
    deviceActive: bool,
    handTracked: bool,
    controllerTracked: bool,
    boolComponent: bool,
    floatComponent: real,
    x: real,
    y: real)

  datatype Aggregate = Aggregate(
    isActive: bool,
    boolValue: bool,
    floatValue: real,
    x: real,
    y: real,
    poseActive: bool,
    poseSourcePath: nat,
    poseSourceProfile: Option<nat>,
    boundSources: seq<nat>,
    sourcePriority: int)

  const NULL_PATH: nat := 0

  const BLANK: Aggregate := Aggregate(false, false, 0.0, 0.0, 0.0, false, NULL_PATH, None, [], -1)

  function Priority(b: Binding): int {
    if b.handInteraction then 1 else 2
  }

  predicate Usable(b: Binding, streaming: bool) {
    b.topLevelPath != NULL_PATH &&
    if !streaming then b.deviceActive else if b.handInteraction then b.handTracked else b.controllerTracked
  }

  function Abs(r: real): real {
    if r < 0.0 then -r else r
  }

  /** One binding of the priority at hand, on top of those before it. */
  function Absorb(kind: Kind, a: Aggregate, b: Binding): Aggregate {
    var bound := a.(isActive := true, boundSources := a.boundSources + [b.path]);
    match kind
    case BooleanInput => bound.(boolValue := a.boolValue || b.boolComponent)
    case FloatInput => if Abs(b.floatComponent) > Abs(a.floatValue) then bound.(floatValue := b.floatComponent) else bound
    case Vector2fInput => if Abs(b.x) > Abs(a.x) || Abs(b.y) > Abs(a.y) then bound.(x := b.x, y := b.y) else bound
    case PoseInput =>
      if a.poseSourcePath == NULL_PATH
      then bound.(poseActive := true, poseSourcePath := b.path, poseSourceProfile := Some(b.profile))
      else bound.(poseActive := true)
    case OtherKind => bound
  }

  /** AccumulateBindingState: a binding of higher priority starts over. */
  function Accumulate(kind: Kind, a: Aggregate, b: Binding, streaming: bool): Aggregate {
    if !Usable(b, streaming) || a.sourcePriority > Priority(b) then a
    else if a.sourcePriority < Priority(b) then Absorb(kind, BLANK.(sourcePriority := Priority(b)), b)
    else Absorb(kind, a, b)
  }

  function Fold(kind: Kind, bindings: seq<Binding>, streaming: bool): Aggregate {
    if bindings == [] then BLANK
    else
      Accumulate(kind, Fold(kind, bindings[..|bindings| - 1], streaming), bindings[|bindings| - 1], streaming)
  }

  // ---- the plain reading ----

  /** The highest priority of any usable binding, or -1. */
  function Highest(bindings: seq<Binding>, streaming: bool): int {
    if bindings == [] then -1
    else
      var before, b := Highest(bindings[..|bindings| - 1], streaming), bindings[|bindings| - 1];
      if Usable(b, streaming) && Priority(b) > before then Priority(b) else before
  }

  function Selected(bindings: seq<Binding>, streaming: bool, priority: int): seq<Binding> {
    if bindings == [] then []
    else
      var before, b := Selected(bindings[..|bindings| - 1], streaming, priority), bindings[|bindings| - 1];
      if Usable(b, streaming) && Priority(b) == priority then before + [b] else before
  }

  /** The usable bindings of the highest priority, in order. */
  function Chosen(bindings: seq<Binding>, streaming: bool): seq<Binding> {
    Selected(bindings, streaming, Highest(bindings, streaming))
  }

  function Absorbed(kind: Kind, chosen: seq<Binding>, priority: int): Aggregate {
    if chosen == [] then BLANK.(sourcePriority := priority)
    else Absorb(kind, Absorbed(kind, chosen[..|chosen| - 1], priority), chosen[|chosen| - 1])
  }

  lemma {:induction false} HighestBounds(bindings: seq<Binding>, streaming: bool, priority: int)
    ensures Highest(bindings, streaming) in {-1, 1, 2}
    ensures priority > Highest(bindings, streaming) ==> Selected(bindings, streaming, priority) == []
    ensures Selected(bindings, streaming, Highest(bindings, streaming)) == [] <==> Highest(bindings, streaming) == -1
  {
    if bindings != [] {
      HighestBounds(bindings[..|bindings| - 1], streaming, priority);
      HighestBounds(bindings[..|bindings| - 1], streaming, Highest(bindings, streaming));
    }
  }

  lemma AbsorbedAppend(kind: Kind, chosen: seq<Binding>, b: Binding, priority: int)
    ensures Absorbed(kind, chosen + [b], priority) == Absorb(kind, Absorbed(kind, chosen, priority), b)
  {
    assert (chosen + [b])[..|chosen|] == chosen;
  }

  lemma {:induction false} AbsorbedPriority(kind: Kind, chosen: seq<Binding>, priority: int)
    ensures Absorbed(kind, chosen, priority).sourcePriority == priority
  {
    if chosen != [] {
      AbsorbedPriority(kind, chosen[..|chosen| - 1], priority);
    }
  }

  /**
    Folding the bindings one by one, starting over at each higher priority, is filtering to the usable bindings of the
    highest priority and then absorbing those.
   */
  lemma {:induction false} FoldFilters(kind: Kind, bindings: seq<Binding>, streaming: bool)
    ensures Fold(kind, bindings, streaming) ==
            Absorbed(kind, Chosen(bindings, streaming), Highest(bindings, streaming))
  {
    if bindings != [] {
      var front, b := bindings[..|bindings| - 1], bindings[|bindings| - 1];
      FoldFilters(kind, front, streaming);
      AbsorbedPriority(kind, Chosen(front, streaming), Highest(front, streaming));
      HighestBounds(front, streaming, Priority(b));
      AbsorbedAppend(kind, Chosen(front, streaming), b, Highest(front, streaming));
      AbsorbedAppend(kind, [], b, Priority(b));
      assert [] + [b] == [b];
    }
  }

  /** The binding has a path and its device or hand is there; without streaming the device says so itself. */
  predicate Present(b: Binding, streaming: bool, hand: bool) {
    && b.handInteraction == hand && b.topLevelPath != NULL_PATH
    && (if !streaming then b.deviceActive else if hand then b.handTracked else b.controllerTracked)
  }

  ghost predicate ControllerPresent(bindings: seq<Binding>, streaming: bool) {
    exists i :: 0 <= i < |bindings| && Present(bindings[i], streaming, false)
  }

  lemma {:induction false} HighestMeans(bindings: seq<Binding>, streaming: bool)
    ensures Highest(bindings, streaming) == 2 <==> ControllerPresent(bindings, streaming)
    ensures Highest(bindings, streaming) == -1 ==>
              forall i :: 0 <= i < |bindings| ==> !Present(bindings[i], streaming, true)
    ensures Highest(bindings, streaming) in {-1, 1, 2}
  {
    if bindings != [] {
      var front, b := bindings[..|bindings| - 1], bindings[|bindings| - 1];
      HighestMeans(front, streaming);
      if ControllerPresent(front, streaming) {
        var i :| 0 <= i < |front| && Present(front[i], streaming, false);
        assert Present(bindings[i], streaming, false);
      } else if Present(b, streaming, false) {
        assert Present(bindings[|bindings| - 1], streaming, false);
      }
    }
  }

  lemma {:induction false} SelectedMeans(bindings: seq<Binding>, streaming: bool, priority: int, b: Binding)
    requires priority == 1 || priority == 2
    ensures b in Selected(bindings, streaming, priority) <==>
              b in bindings && Present(b, streaming, priority == 1)
  {
    if bindings != [] {
      SelectedMeans(bindings[..|bindings| - 1], streaming, priority, b);
      assert bindings == bindings[..|bindings| - 1] + [bindings[|bindings| - 1]];
    }
  }

  /**
    Controllers outrank hands: with any controller's binding present, exactly those of the controllers that are
    present take part, and otherwise exactly those of the hands that are.
   */
  lemma ChosenExactly(bindings: seq<Binding>, streaming: bool, b: Binding)
    ensures b in Chosen(bindings, streaming) <==>
              b in bindings && Present(b, streaming, !ControllerPresent(bindings, streaming))
  {
    HighestMeans(bindings, streaming);
    var highest := Highest(bindings, streaming);
    if highest == -1 {
      HighestBounds(bindings, streaming, highest);
    } else {
      SelectedMeans(bindings, streaming, highest, b);
    }
  }

  function Paths(chosen: seq<Binding>): seq<nat> {
    if chosen == [] then [] else Paths(chosen[..|chosen| - 1]) + [chosen[|chosen| - 1].path]
  }

  predicate AnyTrue(chosen: seq<Binding>) {
    exists i :: 0 <= i < |chosen| && chosen[i].boolComponent
  }

  /** The greatest magnitude among the chosen, zero if there are none. */
  function Magnitude(chosen: seq<Binding>): real {
    if chosen == [] then 0.0
    else
      var before, m := Magnitude(chosen[..|chosen| - 1]), Abs(chosen[|chosen| - 1].floatComponent);
      if m > before then m else before
  }

  lemma {:induction false} MagnitudeBounds(chosen: seq<Binding>)
    ensures Magnitude(chosen) >= 0.0
    ensures forall i :: 0 <= i < |chosen| ==> Abs(chosen[i].floatComponent) <= Magnitude(chosen)
    ensures Magnitude(chosen) > 0.0 ==> exists i :: 0 <= i < |chosen| && Abs(chosen[i].floatComponent) == Magnitude(chosen)
  {
    if chosen != [] {
      MagnitudeBounds(chosen[..|chosen| - 1]);
    }
  }

  predicate OneOfVectors(chosen: seq<Binding>, x: real, y: real) {
    exists i :: 0 <= i < |chosen| && chosen[i].x == x && chosen[i].y == y
  }

  /** The pose comes from the first binding that has a path. */
  predicate PoseOfFirst(a: Aggregate, chosen: seq<Binding>) {
    && (a.poseActive <==> chosen != [])
    && (a.poseSourcePath == NULL_PATH ==> forall i :: 0 <= i < |chosen| ==> chosen[i].path == NULL_PATH)
    && (a.poseSourcePath != NULL_PATH ==>
          exists i :: 0 <= i < |chosen| && a.poseSourcePath == chosen[i].path &&
            a.poseSourceProfile == Some(chosen[i].profile) && forall j :: 0 <= j < i ==> chosen[j].path == NULL_PATH)
  }

  lemma VectorStep(front: seq<Binding>, b: Binding, x: real, y: real)
    requires OneOfVectors(front, x, y) || (b.x == x && b.y == y)
    ensures OneOfVectors(front + [b], x, y)
  {
    assert (front + [b])[|front|] == b;
    if OneOfVectors(front, x, y) {
      var i :| 0 <= i < |front| && front[i].x == x && front[i].y == y;
      assert (front + [b])[i] == front[i];
    }
  }

  lemma PoseStep(a: Aggregate, front: seq<Binding>, b: Binding)
    requires PoseOfFirst(a, front)
    ensures PoseOfFirst(Absorb(PoseInput, a, b), front + [b])
  {
    var all := front + [b];
    assert all[|front|] == b && forall i :: 0 <= i < |front| ==> all[i] == front[i];
    if a.poseSourcePath != NULL_PATH {
      var i :| 0 <= i < |front| && a.poseSourcePath == front[i].path && a.poseSourceProfile == Some(front[i].profile) &&
        forall j :: 0 <= j < i ==> front[j].path == NULL_PATH;
      assert all[i] == front[i];
    }
  }

  lemma {:induction false} AbsorbedShape(kind: Kind, chosen: seq<Binding>, priority: int)
    ensures var a := Absorbed(kind, chosen, priority);
            && (a.isActive <==> chosen != [])
            && a.boundSources == Paths(chosen)
            && (kind != BooleanInput ==> !a.boolValue)
            && (kind != FloatInput ==> a.floatValue == 0.0)
            && (kind != Vector2fInput ==> a.x == a.y == 0.0)
            && (kind != PoseInput ==> !a.poseActive && a.poseSourcePath == NULL_PATH && a.poseSourceProfile == None)
  {
    if chosen != [] {
      AbsorbedShape(kind, chosen[..|chosen| - 1], priority);
    }
  }

  lemma AnyTrueStep(front: seq<Binding>, b: Binding)
    ensures AnyTrue(front + [b]) <==> AnyTrue(front) || b.boolComponent
  {
    var all := front + [b];
    assert all[|front|] == b;
    if AnyTrue(front) {
      var i :| 0 <= i < |front| && front[i].boolComponent;
      assert all[i].boolComponent;
    }
  }

  lemma {:induction false} AbsorbedBoolean(chosen: seq<Binding>, priority: int)
    ensures Absorbed(BooleanInput, chosen, priority).boolValue <==> AnyTrue(chosen)
  {
    if chosen != [] {
      var front, b := chosen[..|chosen| - 1], chosen[|chosen| - 1];
      AbsorbedBoolean(front, priority);
      AnyTrueStep(front, b);
      assert chosen == front + [b];
    }
  }

  lemma {:induction false} AbsorbedFloat(chosen: seq<Binding>, priority: int)
    ensures var v := Absorbed(FloatInput, chosen, priority).floatValue;
            && Abs(v) == Magnitude(chosen)
            && (v != 0.0 ==> exists i :: 0 <= i < |chosen| && chosen[i].floatComponent == v)
  {
    if chosen != [] {
      var front, b := chosen[..|chosen| - 1], chosen[|chosen| - 1];
      AbsorbedFloat(front, priority);
      var v := Absorbed(FloatInput, front, priority).floatValue;
      if v != 0.0 {
        var i :| 0 <= i < |front| && front[i].floatComponent == v;
        assert chosen[i].floatComponent == v;
      }
      assert chosen[|chosen| - 1].floatComponent == b.floatComponent;
    }
  }

  lemma AbsorbedMeaning(kind: Kind, chosen: seq<Binding>, priority: int)
    ensures var a := Absorbed(kind, chosen, priority);
            && (a.isActive <==> chosen != [])
            && a.boundSources == Paths(chosen)
            && (a.boolValue <==> kind == BooleanInput && AnyTrue(chosen))
            && Abs(a.floatValue) == (if kind == FloatInput then Magnitude(chosen) else 0.0)
            && (a.floatValue != 0.0 ==> exists i :: 0 <= i < |chosen| && chosen[i].floatComponent == a.floatValue)
            && (kind != Vector2fInput ==> a.x == a.y == 0.0)
            && (kind != PoseInput ==> !a.poseActive && a.poseSourcePath == NULL_PATH && a.poseSourceProfile == None)
  {
    AbsorbedShape(kind, chosen, priority);
    AbsorbedBoolean(chosen, priority);
    AbsorbedFloat(chosen, priority);
  }

  lemma {:induction false} AbsorbedVector(chosen: seq<Binding>, priority: int)
    ensures var a := Absorbed(Vector2fInput, chosen, priority);
            a.x == a.y == 0.0 || OneOfVectors(chosen, a.x, a.y)
  {
    if chosen != [] {
      var front, b := chosen[..|chosen| - 1], chosen[|chosen| - 1];
      AbsorbedVector(front, priority);
      var whole := Absorbed(Vector2fInput, chosen, priority);
      assert chosen == front + [b];
      if whole.x != 0.0 || whole.y != 0.0 {
        VectorStep(front, b, whole.x, whole.y);
      }
    }
  }

  lemma {:induction false} AbsorbedPose(chosen: seq<Binding>, priority: int)
    ensures PoseOfFirst(Absorbed(PoseInput, chosen, priority), chosen)
  {
    if chosen != [] {
      var front, b := chosen[..|chosen| - 1], chosen[|chosen| - 1];
      AbsorbedPose(front, priority);
      PoseStep(Absorbed(PoseInput, front, priority), front, b);
      assert chosen == front + [b];
    }
  }

  /**
    Whatever the order and the priorities: the bound sources are exactly the usable bindings of highest priority; a
    boolean is their OR; a float is one of theirs of the greatest magnitude, sign kept; a vector is one of theirs; a
    pose is that of the first of them.
   */
  lemma AggregationMeaning(kind: Kind, bindings: seq<Binding>, streaming: bool)
    ensures var a, chosen := Fold(kind, bindings, streaming), Chosen(bindings, streaming);
            && a.boundSources == Paths(chosen)
            && (a.isActive <==> chosen != [])
            && (kind == BooleanInput ==> (a.boolValue <==> AnyTrue(chosen)))
            && (kind == FloatInput ==>
                  Abs(a.floatValue) == Magnitude(chosen) &&
                  (a.floatValue != 0.0 ==> exists i :: 0 <= i < |chosen| && chosen[i].floatComponent == a.floatValue))
            && (kind == Vector2fInput ==> a.x == a.y == 0.0 || OneOfVectors(chosen, a.x, a.y))
            && (kind == PoseInput ==> PoseOfFirst(a, chosen))
  {
    FoldFilters(kind, bindings, streaming);
    AbsorbedMeaning(kind, Chosen(bindings, streaming), Highest(bindings, streaming));
    AbsorbedVector(Chosen(bindings, streaming), Highest(bindings, streaming));
    AbsorbedPose(Chosen(bindings, streaming), Highest(bindings, streaming));
  }

  // ---- the order of the bindings ----

  lemma {:induction false} SelectedMultiset(bindings: seq<Binding>, streaming: bool, priority: int, b: Binding)
    ensures multiset(Selected(bindings, streaming, priority))[b] ==
            if Usable(b, streaming) && Priority(b) == priority then multiset(bindings)[b] else 0
  {
    if bindings != [] {
      var front, last := bindings[..|bindings| - 1], bindings[|bindings| - 1];
      SelectedMultiset(front, streaming, priority, b);
      assert bindings == front + [last];
    }
  }

  lemma {:induction false} HighestIsMax(bindings: seq<Binding>, streaming: bool)
    ensures forall b :: b in bindings && Usable(b, streaming) ==> Priority(b) <= Highest(bindings, streaming)
    ensures Highest(bindings, streaming) == -1 ||
            exists b :: b in bindings && Usable(b, streaming) && Priority(b) == Highest(bindings, streaming)
  {
    if bindings != [] {
      var front, last := bindings[..|bindings| - 1], bindings[|bindings| - 1];
      HighestIsMax(front, streaming);
      assert bindings == front + [last];
    }
  }

  lemma HighestSame(first: seq<Binding>, second: seq<Binding>, streaming: bool)
    requires multiset(first) == multiset(second)
    ensures Highest(first, streaming) == Highest(second, streaming)
  {
    HighestIsMax(first, streaming);
    HighestIsMax(second, streaming);
    assert forall b :: b in first <==> b in multiset(first);
    assert forall b :: b in second <==> b in multiset(second);
    HighestBounds(first, streaming, 0);
    HighestBounds(second, streaming, 0);
  }

  /** The same bindings are chosen in any order. */
  lemma ChosenSame(first: seq<Binding>, second: seq<Binding>, streaming: bool)
    requires multiset(first) == multiset(second)
    ensures multiset(Chosen(first, streaming)) == multiset(Chosen(second, streaming))
  {
    HighestSame(first, second, streaming);
    forall b: Binding
      ensures multiset(Chosen(first, streaming))[b] == multiset(Chosen(second, streaming))[b]
    {
      SelectedMultiset(first, streaming, Highest(first, streaming), b);
      SelectedMultiset(second, streaming, Highest(second, streaming), b);
    }
  }

  lemma SameMembers(first: seq<Binding>, second: seq<Binding>)
    requires multiset(first) == multiset(second)
    ensures forall b :: b in first ==> b in second
    ensures first == [] <==> second == []
  {
    forall b | b in first
      ensures b in second
    {
      assert b in multiset(first);
    }
    if first != [] {
      assert first[0] in multiset(first);
    }
    if second != [] {
      assert second[0] in multiset(second);
    }
  }

  lemma AnyTrueSame(first: seq<Binding>, second: seq<Binding>)
    requires forall b :: b in first ==> b in second
    ensures AnyTrue(first) ==> AnyTrue(second)
  {
    if AnyTrue(first) {
      var i :| 0 <= i < |first| && first[i].boolComponent;
      assert first[i] in second;
    }
  }

  lemma MagnitudeSame(first: seq<Binding>, second: seq<Binding>)
    requires forall b :: b in first ==> b in second
    ensures Magnitude(first) <= Magnitude(second)
  {
    MagnitudeBounds(first);
    MagnitudeBounds(second);
    if Magnitude(first) > 0.0 {
      var i :| 0 <= i < |first| && Abs(first[i].floatComponent) == Magnitude(first);
      assert first[i] in second;
    }
  }

  /** Booleans, activity and the magnitude of floats do not depend on the order of the bindings. */
  lemma OrderDoesNotMatter(kind: Kind, first: seq<Binding>, second: seq<Binding>, streaming: bool)
    requires multiset(first) == multiset(second)
    ensures var a, b := Fold(kind, first, streaming), Fold(kind, second, streaming);
            && a.isActive == b.isActive && a.sourcePriority == b.sourcePriority
            && (kind == BooleanInput ==> a.boolValue == b.boolValue)
            && (kind == FloatInput ==> Abs(a.floatValue) == Abs(b.floatValue))
  {
    var c, d := Chosen(first, streaming), Chosen(second, streaming);
    AggregationMeaning(kind, first, streaming);
    AggregationMeaning(kind, second, streaming);
    FoldFilters(kind, first, streaming);
    FoldFilters(kind, second, streaming);
    AbsorbedPriority(kind, c, Highest(first, streaming));
    AbsorbedPriority(kind, d, Highest(second, streaming));
    HighestSame(first, second, streaming);
    ChosenSame(first, second, streaming);
    SameMembers(c, d);
    SameMembers(d, c);
    AnyTrueSame(c, d);
    AnyTrueSame(d, c);
    MagnitudeSame(c, d);
    MagnitudeSame(d, c);
  }

  /** Two chosen bindings at the greatest magnitude with opposite signs. */
  predicate OpposedTie(chosen: seq<Binding>) {
    exists i, j :: 0 <= i < |chosen| && 0 <= j < |chosen| &&
      chosen[i].floatComponent > 0.0 && chosen[i].floatComponent == -chosen[j].floatComponent == Magnitude(chosen)
  }

  lemma {:induction false} FirstOfGreatestWins(front: seq<Binding>, n: Binding, priority: int)
    requires n.floatComponent != 0.0 && Abs(n.floatComponent) >= Magnitude(front)
    ensures Absorbed(FloatInput, [n] + front, priority).floatValue == n.floatComponent
  {
    if front == [] {
      assert [n] + front == [n] && [n][..0] == [];
    } else {
      var rest, b := front[..|front| - 1], front[|front| - 1];
      assert ([n] + front)[..|[n] + front| - 1] == [n] + rest;
      FirstOfGreatestWins(rest, n, priority);
    }
  }

  lemma {:induction false} SelectedConcat(a: seq<Binding>, b: seq<Binding>, streaming: bool, priority: int)
    ensures Selected(a + b, streaming, priority) == Selected(a, streaming, priority) + Selected(b, streaming, priority)
  {
    if b == [] {
      assert a + b == a;
    } else {
      var front, last := b[..|b| - 1], b[|b| - 1];
      SelectedConcat(a, front, streaming, priority);
      assert (a + b)[..|a + b| - 1] == a + front;
    }
  }

  lemma SelectedOne(b: Binding, streaming: bool, priority: int)
    ensures Selected([b], streaming, priority) == if Usable(b, streaming) && Priority(b) == priority then [b] else []
  {
    assert [b][..0] == [];
  }

  /** The order that puts one of the chosen first; `tail` are the chosen that follow. */
  lemma MovedToFront(bindings: seq<Binding>, k: nat, streaming: bool) returns (moved: seq<Binding>, tail: seq<Binding>)
    requires k < |bindings| && bindings[k] in Chosen(bindings, streaming)
    ensures multiset(moved) == multiset(bindings) && Highest(moved, streaming) == Highest(bindings, streaming)
    ensures Chosen(moved, streaming) == [bindings[k]] + tail
    ensures forall b :: b in tail ==> b in Chosen(bindings, streaming)
  {
    var n, rest, p := bindings[k], bindings[..k] + bindings[k + 1..], Highest(bindings, streaming);
    moved, tail := [n] + rest, Selected(rest, streaming, p);
    assert bindings == bindings[..k] + [n] + bindings[k + 1..];
    HighestSame(bindings, moved, streaming);
    ChosenSame(bindings, moved, streaming);
    SelectedMultiset(bindings, streaming, p, n);
    SelectedConcat([n], rest, streaming, p);
    SelectedOne(n, streaming, p);
    SameMembers(Chosen(moved, streaming), Chosen(bindings, streaming));
  }

  /** The order that puts it last. */
  lemma MovedToEnd(bindings: seq<Binding>, k: nat, streaming: bool) returns (moved: seq<Binding>, front: seq<Binding>)
    requires k < |bindings| && bindings[k] in Chosen(bindings, streaming)
    ensures multiset(moved) == multiset(bindings) && Highest(moved, streaming) == Highest(bindings, streaming)
    ensures Chosen(moved, streaming) == front + [bindings[k]]
    ensures forall b :: b in front ==> b in Chosen(bindings, streaming)
  {
    var n, rest, p := bindings[k], bindings[..k] + bindings[k + 1..], Highest(bindings, streaming);
    moved, front := rest + [n], Selected(rest, streaming, p);
    assert bindings == bindings[..k] + [n] + bindings[k + 1..];
    HighestSame(bindings, moved, streaming);
    ChosenSame(bindings, moved, streaming);
    SelectedMultiset(bindings, streaming, p, n);
    SelectedConcat(rest, [n], streaming, p);
    SelectedOne(n, streaming, p);
    SameMembers(Chosen(moved, streaming), Chosen(bindings, streaming));
  }

  /** The order that puts the greatest magnitude first gives its value. */
  lemma GreatestToFront(bindings: seq<Binding>, k: nat, streaming: bool) returns (moved: seq<Binding>)
    requires k < |bindings| && bindings[k] in Chosen(bindings, streaming)
    requires var f := bindings[k].floatComponent; f != 0.0 && Abs(f) == Magnitude(Chosen(bindings, streaming))
    ensures multiset(moved) == multiset(bindings)
    ensures Fold(FloatInput, moved, streaming).floatValue == bindings[k].floatComponent
  {
    var tail;
    moved, tail := MovedToFront(bindings, k, streaming);
    MagnitudeSame(tail, Chosen(bindings, streaming));
    FirstOfGreatestWins(tail, bindings[k], Highest(moved, streaming));
    FoldFilters(FloatInput, moved, streaming);
  }

  ghost predicate OrderFree(bindings: seq<Binding>, streaming: bool) {
    forall other: seq<Binding> :: multiset(other) == multiset(bindings) ==>
      Fold(FloatInput, other, streaming).floatValue == Fold(FloatInput, bindings, streaming).floatValue
  }

  lemma ChosenAreBindings(bindings: seq<Binding>, streaming: bool, b: Binding) returns (k: nat)
    requires b in Chosen(bindings, streaming)
    ensures k < |bindings| && bindings[k] == b
  {
    SelectedMultiset(bindings, streaming, Highest(bindings, streaming), b);
    assert multiset(Chosen(bindings, streaming))[b] > 0;
    assert b in bindings;
    k :| 0 <= k < |bindings| && bindings[k] == b;
  }

  lemma NoTieOneValue(chosen: seq<Binding>, i: nat, j: nat)
    requires i < |chosen| && j < |chosen| && !OpposedTie(chosen) && chosen[i].floatComponent != 0.0
    requires Abs(chosen[i].floatComponent) == Abs(chosen[j].floatComponent) == Magnitude(chosen)
    ensures chosen[i].floatComponent == chosen[j].floatComponent
  {
  }

  lemma SameFloat(bindings: seq<Binding>, other: seq<Binding>, streaming: bool)
    requires multiset(other) == multiset(bindings) && !OpposedTie(Chosen(bindings, streaming))
    ensures Fold(FloatInput, other, streaming).floatValue == Fold(FloatInput, bindings, streaming).floatValue
  {
    var c, d := Chosen(bindings, streaming), Chosen(other, streaming);
    OrderDoesNotMatter(FloatInput, bindings, other, streaming);
    AggregationMeaning(FloatInput, bindings, streaming);
    AggregationMeaning(FloatInput, other, streaming);
    ChosenSame(other, bindings, streaming);
    SameMembers(d, c);
    var v, w := Fold(FloatInput, bindings, streaming).floatValue, Fold(FloatInput, other, streaming).floatValue;
    if v != 0.0 {
      var i :| 0 <= i < |c| && c[i].floatComponent == v;
      var k :| 0 <= k < |d| && d[k].floatComponent == w;
      assert d[k] in c;
      var j :| 0 <= j < |c| && c[j] == d[k];
      NoTieOneValue(c, i, j);
    }
  }

  /** The sign of a float depends on the order exactly when the greatest magnitude is reached with both signs. */
  lemma FloatOrderFreeExactly(bindings: seq<Binding>, streaming: bool)
    ensures OrderFree(bindings, streaming) <==> !OpposedTie(Chosen(bindings, streaming))
  {
    var chosen := Chosen(bindings, streaming);
    if OpposedTie(chosen) {
      var i, j :| 0 <= i < |chosen| && 0 <= j < |chosen| && chosen[i].floatComponent > 0.0 &&
        chosen[i].floatComponent == -chosen[j].floatComponent == Magnitude(chosen);
      assert chosen[i] in chosen && chosen[j] in chosen;
      var k := ChosenAreBindings(bindings, streaming, chosen[i]);
      var l := ChosenAreBindings(bindings, streaming, chosen[j]);
      var up := GreatestToFront(bindings, k, streaming);
      var down := GreatestToFront(bindings, l, streaming);
      assert Fold(FloatInput, up, streaming).floatValue != Fold(FloatInput, down, streaming).floatValue;
    } else {
      forall other: seq<Binding> | multiset(other) == multiset(bindings)
        ensures Fold(FloatInput, other, streaming).floatValue == Fold(FloatInput, bindings, streaming).floatValue
      {
        SameFloat(bindings, other, streaming);
      }
    }
  }

  // ---- the order of the bindings and vectors ----

  /** No chosen binding is longer in either axis. */
  ghost predicate ReachesBoth(chosen: seq<Binding>, b: Binding) {
    forall d :: d in chosen ==> Abs(d.x) <= Abs(b.x) && Abs(d.y) <= Abs(b.y)
  }

  predicate SameVector(a: Binding, b: Binding) {
    a.x == b.x && a.y == b.y
  }

  /** Some chosen binding is the longest in both axes, and all that are have one value. */
  ghost predicate OneFarthest(chosen: seq<Binding>) {
    && (exists m :: m in chosen && ReachesBoth(chosen, m))
    && forall m, n :: m in chosen && n in chosen && ReachesBoth(chosen, m) && ReachesBoth(chosen, n) ==> SameVector(m, n)
  }

  ghost predicate VectorOrderFree(bindings: seq<Binding>, streaming: bool) {
    forall other: seq<Binding> :: multiset(other) == multiset(bindings) ==>
      var a, b := Fold(Vector2fInput, other, streaming), Fold(Vector2fInput, bindings, streaming);
      a.x == b.x && a.y == b.y
  }

  lemma {:induction false} FirstFarthestWins(tail: seq<Binding>, n: Binding, priority: int)
    requires ReachesBoth(tail, n) && (n.x != 0.0 || n.y != 0.0)
    ensures var a := Absorbed(Vector2fInput, [n] + tail, priority); a.x == n.x && a.y == n.y
  {
    if tail == [] {
      assert [n] + tail == [n] && [n][..0] == [];
    } else {
      var rest, b := tail[..|tail| - 1], tail[|tail| - 1];
      assert ([n] + tail)[..|[n] + tail| - 1] == [n] + rest;
      FirstFarthestWins(rest, n, priority);
    }
  }

  /** The last one, if it is the longest in an axis, leaves the greatest length in that axis. */
  lemma LastReaches(front: seq<Binding>, n: Binding, priority: int)
    ensures var a := Absorbed(Vector2fInput, front + [n], priority);
            && ((forall d :: d in front ==> Abs(d.x) <= Abs(n.x)) ==> Abs(a.x) == Abs(n.x))
            && ((forall d :: d in front ==> Abs(d.y) <= Abs(n.y)) ==> Abs(a.y) == Abs(n.y))
  {
    AbsorbedAppend(Vector2fInput, front, n, priority);
    AbsorbedVector(front, priority);
    var before := Absorbed(Vector2fInput, front, priority);
    if OneOfVectors(front, before.x, before.y) {
      var i :| 0 <= i < |front| && front[i].x == before.x && front[i].y == before.y;
      assert front[i] in front;
    }
  }

  /** Whatever came before it, a binding that reaches both greatest lengths of all settles the value. */
  lemma {:induction false} FarthestSettles(chosen: seq<Binding>, m: Binding, front: seq<Binding>, priority: int)
    requires OneFarthest(chosen) && m in chosen && ReachesBoth(chosen, m)
    requires forall b :: b in front ==> b in chosen
    ensures var a := Absorbed(Vector2fInput, front, priority);
            (exists n :: n in front && ReachesBoth(chosen, n)) ==> a.x == m.x && a.y == m.y
  {
    if front != [] {
      var rest, b := front[..|front| - 1], front[|front| - 1];
      FarthestSettles(chosen, m, rest, priority);
      AbsorbedVector(rest, priority);
      assert front == rest + [b];
      if ReachesBoth(chosen, b) {
        SettledBy(chosen, m, rest, b, Absorbed(Vector2fInput, rest, priority));
      }
    }
  }

  lemma SettledBy(chosen: seq<Binding>, m: Binding, front: seq<Binding>, b: Binding, a: Aggregate)
    requires OneFarthest(chosen) && m in chosen && ReachesBoth(chosen, m)
    requires b in chosen && ReachesBoth(chosen, b) && forall d :: d in front ==> d in chosen
    requires a.x == a.y == 0.0 || OneOfVectors(front, a.x, a.y)
    requires (exists n :: n in front && ReachesBoth(chosen, n)) ==> a.x == m.x && a.y == m.y
    ensures var next := Absorb(Vector2fInput, a, b); next.x == m.x && next.y == m.y
  {
    assert SameVector(m, b);
    if OneOfVectors(front, a.x, a.y) {
      var i :| 0 <= i < |front| && front[i].x == a.x && front[i].y == a.y;
      assert front[i] in front;
      if Abs(a.x) == Abs(b.x) && Abs(a.y) == Abs(b.y) {
        assert ReachesBoth(chosen, front[i]);
      }
    }
  }

  lemma SettledFold(bindings: seq<Binding>, other: seq<Binding>, m: Binding, streaming: bool)
    requires multiset(other) == multiset(bindings) && OneFarthest(Chosen(bindings, streaming))
    requires m in Chosen(bindings, streaming) && ReachesBoth(Chosen(bindings, streaming), m)
    ensures var a := Fold(Vector2fInput, other, streaming); a.x == m.x && a.y == m.y
  {
    ChosenSame(other, bindings, streaming);
    SameMembers(Chosen(other, streaming), Chosen(bindings, streaming));
    SameMembers(Chosen(bindings, streaming), Chosen(other, streaming));
    FarthestSettles(Chosen(bindings, streaming), m, Chosen(other, streaming), Highest(other, streaming));
    FoldFilters(Vector2fInput, other, streaming);
  }

  lemma {:induction false} LongestIn(chosen: seq<Binding>) returns (p: Binding, q: Binding)
    requires chosen != []
    ensures p in chosen && forall d :: d in chosen ==> Abs(d.x) <= Abs(p.x)
    ensures q in chosen && forall d :: d in chosen ==> Abs(d.y) <= Abs(q.y)
  {
    var front, b := chosen[..|chosen| - 1], chosen[|chosen| - 1];
    assert chosen == front + [b];
    p, q := b, b;
    if front != [] {
      p, q := LongestIn(front);
      p := if Abs(b.x) > Abs(p.x) then b else p;
      q := if Abs(b.y) > Abs(q.y) then b else q;
    }
  }

  /** Some order ends with the greatest |x| there is, and some with the greatest |y|. */
  lemma EndsWithLongest(bindings: seq<Binding>, n: Binding, streaming: bool) returns (moved: seq<Binding>)
    requires n in Chosen(bindings, streaming)
    ensures multiset(moved) == multiset(bindings)
    ensures var a, c := Fold(Vector2fInput, moved, streaming), Chosen(bindings, streaming);
            && ((forall d :: d in c ==> Abs(d.x) <= Abs(n.x)) ==> Abs(a.x) == Abs(n.x))
            && ((forall d :: d in c ==> Abs(d.y) <= Abs(n.y)) ==> Abs(a.y) == Abs(n.y))
  {
    var k := ChosenAreBindings(bindings, streaming, n);
    var front;
    moved, front := MovedToEnd(bindings, k, streaming);
    LastReaches(front, n, Highest(moved, streaming));
    FoldFilters(Vector2fInput, moved, streaming);
  }

  /** If no order makes a difference, some chosen binding is the longest in both axes. */
  lemma OrderFreeReaches(bindings: seq<Binding>, streaming: bool) returns (m: Binding)
    requires VectorOrderFree(bindings, streaming) && Chosen(bindings, streaming) != []
    ensures m in Chosen(bindings, streaming) && ReachesBoth(Chosen(bindings, streaming), m)
  {
    var c := Chosen(bindings, streaming);
    var p, q := LongestIn(c);
    var pLast := EndsWithLongest(bindings, p, streaming);
    var qLast := EndsWithLongest(bindings, q, streaming);
    var a := Fold(Vector2fInput, bindings, streaming);
    assert Abs(a.x) == Abs(p.x) && Abs(a.y) == Abs(q.y);
    AggregationMeaning(Vector2fInput, bindings, streaming);
    m := p;
    if OneOfVectors(c, a.x, a.y) {
      var i :| 0 <= i < |c| && c[i].x == a.x && c[i].y == a.y;
      m := c[i];
    }
  }

  /** The order that puts a binding first that reaches both greatest lengths gives its value. */
  lemma FarthestToFront(bindings: seq<Binding>, n: Binding, streaming: bool) returns (moved: seq<Binding>)
    requires n in Chosen(bindings, streaming) && ReachesBoth(Chosen(bindings, streaming), n)
    requires n.x != 0.0 || n.y != 0.0
    ensures multiset(moved) == multiset(bindings)
    ensures var a := Fold(Vector2fInput, moved, streaming); a.x == n.x && a.y == n.y
  {
    var k := ChosenAreBindings(bindings, streaming, n);
    var tail;
    moved, tail := MovedToFront(bindings, k, streaming);
    FirstFarthestWins(tail, n, Highest(moved, streaming));
    FoldFilters(Vector2fInput, moved, streaming);
  }

  lemma OrderFreeOneValue(bindings: seq<Binding>, streaming: bool, m: Binding, n: Binding)
    requires VectorOrderFree(bindings, streaming)
    requires m in Chosen(bindings, streaming) && ReachesBoth(Chosen(bindings, streaming), m)
    requires n in Chosen(bindings, streaming) && ReachesBoth(Chosen(bindings, streaming), n)
    ensures SameVector(m, n)
  {
    assert Abs(m.x) == Abs(n.x) && Abs(m.y) == Abs(n.y);
    if m.x != 0.0 || m.y != 0.0 {
      var mFirst := FarthestToFront(bindings, m, streaming);
      var nFirst := FarthestToFront(bindings, n, streaming);
      var a := Fold(Vector2fInput, bindings, streaming);
      assert a.x == m.x && a.x == n.x && a.y == m.y && a.y == n.y;
    }
  }

  /**
    A vector is the same for every order of the bindings if and only if nothing is chosen, or one of the chosen is the
    longest in both axes and all that are have the same value. Otherwise the order decides.
   */
  lemma VectorOrderFreeExactly(bindings: seq<Binding>, streaming: bool)
    ensures VectorOrderFree(bindings, streaming) <==>
              Chosen(bindings, streaming) == [] || OneFarthest(Chosen(bindings, streaming))
  {
    var c := Chosen(bindings, streaming);
    if c == [] {
      NothingChosen(bindings, streaming);
    } else if OneFarthest(c) {
      var m :| m in c && ReachesBoth(c, m);
      forall other: seq<Binding> | multiset(other) == multiset(bindings)
        ensures var a := Fold(Vector2fInput, other, streaming); a.x == m.x && a.y == m.y
      {
        SettledFold(bindings, other, m, streaming);
      }
      SettledFold(bindings, bindings, m, streaming);
    } else if VectorOrderFree(bindings, streaming) {
      var m := OrderFreeReaches(bindings, streaming);
      forall k, n | k in c && n in c && ReachesBoth(c, k) && ReachesBoth(c, n)
        ensures SameVector(k, n)
      {
        OrderFreeOneValue(bindings, streaming, k, n);
      }
      assert false;
    }
  }

  lemma NothingChosen(bindings: seq<Binding>, streaming: bool)
    requires Chosen(bindings, streaming) == []
    ensures VectorOrderFree(bindings, streaming)
  {
    AggregationMeaning(Vector2fInput, bindings, streaming);
    forall other: seq<Binding> | multiset(other) == multiset(bindings)
      ensures var a := Fold(Vector2fInput, other, streaming); a.x == a.y == 0.0
    {
      ChosenSame(other, bindings, streaming);
      SameMembers(Chosen(other, streaming), Chosen(bindings, streaming));
      AggregationMeaning(Vector2fInput, other, streaming);
    }
  }

  /** Of two vectors each longer in its own axis, the later one wins. */
  lemma VectorOrderMatters(right: Binding, up: Binding)
    requires Usable(right, false) && Usable(up, false) && Priority(right) == Priority(up)
    requires Abs(right.x) > Abs(up.x) && Abs(up.y) > Abs(right.y)
    ensures Fold(Vector2fInput, [right, up], false).x == up.x
    ensures Fold(Vector2fInput, [up, right], false).x == right.x != up.x
  {
    assert [right, up][..1] == [right] && [up, right][..1] == [up] && [right][..0] == [] && [up][..0] == [];
    assert Fold(Vector2fInput, [right], false) == Absorb(Vector2fInput, BLANK.(sourcePriority := Priority(right)), right);
    assert Fold(Vector2fInput, [up], false) == Absorb(Vector2fInput, BLANK.(sourcePriority := Priority(up)), up);
  }

  // ---- the aggregation loop ----

  /** A binding of an action for one of its subaction paths. */
  datatype Entry = Entry(action: nat, subaction: nat, binding: Binding)

  function BindingsOf(entries: seq<Entry>, key: (nat, nat)): seq<Binding> {
    if entries == [] then []
    else
      var before, e := BindingsOf(entries[..|entries| - 1], key), entries[|entries| - 1];
      if (e.action, e.subaction) == key then before + [e.binding] else before
  }

  ghost predicate Collected(m: map<(nat, nat), Aggregate>, entries: seq<Entry>, kinds: nat -> Kind, streaming: bool) {
    && (forall key :: key in m <==> BindingsOf(entries, key) != [])
    && (forall key :: key in m ==> m[key] == Fold(kinds(key.0), BindingsOf(entries, key), streaming))
  }

  function KeyOf(e: Entry): (nat, nat) {
    (e.action, e.subaction)
  }

  lemma BindingsAppend(entries: seq<Entry>, e: Entry, key: (nat, nat))
    ensures BindingsOf(entries + [e], key) ==
            if KeyOf(e) == key then BindingsOf(entries, key) + [e.binding] else BindingsOf(entries, key)
  {
    assert (entries + [e])[..|entries|] == entries;
  }

  lemma FoldAppend(kind: Kind, bindings: seq<Binding>, b: Binding, streaming: bool)
    ensures Fold(kind, bindings + [b], streaming) == Accumulate(kind, Fold(kind, bindings, streaming), b, streaming)
    ensures Fold(kind, [], streaming) == BLANK
  {
    assert (bindings + [b])[..|bindings|] == bindings;
  }

  lemma CollectOne(m: map<(nat, nat), Aggregate>, entries: seq<Entry>, e: Entry, kinds: nat -> Kind, streaming: bool)
    requires Collected(m, entries, kinds, streaming)
    ensures var before := if KeyOf(e) in m then m[KeyOf(e)] else BLANK;
            var next := m[KeyOf(e) := Accumulate(kinds(e.action), before, e.binding, streaming)];
            Collected(next, entries + [e], kinds, streaming)
  {
    var before := if KeyOf(e) in m then m[KeyOf(e)] else BLANK;
    var next := m[KeyOf(e) := Accumulate(kinds(e.action), before, e.binding, streaming)];
    FoldAppend(kinds(e.action), BindingsOf(entries, KeyOf(e)), e.binding, streaming);
    forall key: (nat, nat)
      ensures key in next <==> BindingsOf(entries + [e], key) != []
      ensures key in next ==> next[key] == Fold(kinds(key.0), BindingsOf(entries + [e], key), streaming)
    {
      BindingsAppend(entries, e, key);
    }
  }

  /** Every action and subaction path gets the fold of its own bindings, and none an entry without a binding. */
  method CollectAggregates(entries: seq<Entry>, kinds: nat -> Kind, streaming: bool)
    returns (m: map<(nat, nat), Aggregate>)
    ensures Collected(m, entries, kinds, streaming)
  {
    m := map[];
    for i := 0 to |entries|
      invariant Collected(m, entries[..i], kinds, streaming)
    {
      var e := entries[i];
      CollectOne(m, entries[..i], e, kinds, streaming);
      assert entries[..i + 1] == entries[..i] + [e];
      var aggregate := if KeyOf(e) in m then m[KeyOf(e)] else BLANK;
      aggregate := AccumulateBindingState(kinds(e.action), aggregate, e.binding, streaming);
      m := m[KeyOf(e) := aggregate];
    }
    assert entries[..|entries|] == entries;
  }

  /** The aggregate is changed field by field, as the source changes it through its reference. */
  method AccumulateBindingState(kind: Kind, before: Aggregate, b: Binding, streaming: bool) returns (a: Aggregate)
    ensures a == Accumulate(kind, before, b, streaming)
  {
    a := before;
    if b.topLevelPath == NULL_PATH {
      return;
    }
    var active := b.deviceActive;
    if streaming {
      active := if b.handInteraction then b.handTracked else b.controllerTracked;
    }
    if !active {
      return;
    }
    var priority := Priority(b);
    if a.sourcePriority > priority {
      return;
    }
    if a.sourcePriority < priority {
      a := BLANK.(sourcePriority := priority);
    }
    a := a.(isActive := true, boundSources := a.boundSources + [b.path]);
    match kind {
      case BooleanInput =>
        a := a.(boolValue := a.boolValue || b.boolComponent);
      case FloatInput =>
        if Abs(b.floatComponent) > Abs(a.floatValue) {
          a := a.(floatValue := b.floatComponent);
        }
      case Vector2fInput =>
        if Abs(b.x) > Abs(a.x) || Abs(b.y) > Abs(a.y) {
          a := a.(x := b.x, y := b.y);
        }
      case PoseInput =>
        a := a.(poseActive := true);
        if a.poseSourcePath == NULL_PATH {
          a := a.(poseSourcePath := b.path, poseSourceProfile := Some(b.profile));
        }
      case OtherKind =>
    }
  }
}
