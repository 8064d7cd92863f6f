/** The per-subaction record of an action and what one sync after another leaves in it (ActionSet.cpp). */
module ActionRecord {
  import opened Protocol
  import opened ActionSync

  datatype Record = Record(
    isActive: bool,
    boolValue: bool,
    boolChanged: bool,
    floatValue: real,
    floatChanged: bool,
    x: real,
    y: real,
    vectorChanged: bool,
    poseActive: bool,
    poseSourcePath: nat,
    poseSourceProfile: Option<nat>,
    lastChangeTime: int,
    boundSources: seq<nat>)

  const FRESH: Record := Record(false, false, false, 0.0, false, 0.0, 0.0, false, false, NULL_PATH, None, 0, [])

  /** Without an aggregate the record goes back to its defaults. */
  function Stored(r: Record, aggregate: Option<Aggregate>): Record {
    var a := if aggregate.Some? then aggregate.value else BLANK;
    r.(isActive := a.isActive, boolValue := a.boolValue, floatValue := a.floatValue, x := a.x, y := a.y,
       poseActive := a.poseActive, poseSourcePath := a.poseSourcePath, poseSourceProfile := a.poseSourceProfile,
       boundSources := a.boundSources)
  }

  /** Float and vector changes of a tenth of a thousandth or less go unflagged. */
  function Flagged(r: Record, s: Record): Record {
    s.(boolChanged := s.boolValue != r.boolValue,
       floatChanged := Abs(s.floatValue - r.floatValue) > 0.0001,
       vectorChanged := Abs(s.x - r.x) > 0.0001 || Abs(s.y - r.y) > 0.0001)
  }

  predicate PoseDiffers(r: Record, s: Record) {
    s.poseActive != r.poseActive || s.poseSourcePath != r.poseSourcePath || s.poseSourceProfile != r.poseSourceProfile
  }

  function Applied(r: Record, aggregate: Option<Aggregate>, time: int): Record {
    var s := Flagged(r, Stored(r, aggregate));
    if s.boolChanged || s.floatChanged || s.vectorChanged || PoseDiffers(r, s) then s.(lastChangeTime := time) else s
  }

  // ---- runs of one action ----

  /** One sync of an action: the bindings folded for it, if any were, and the time. */
  datatype Sync = Sync(bindings: Option<seq<Binding>>, streaming: bool, time: int)

  function AggregateOf(kind: Kind, sync: Sync): Option<Aggregate> {
    match sync.bindings
    case None => None
    case Some(bindings) => Some(Fold(kind, bindings, sync.streaming))
  }

  function After(kind: Kind, syncs: seq<Sync>): Record {
    if syncs == [] then FRESH
    else
      var last := syncs[|syncs| - 1];
      Applied(After(kind, syncs[..|syncs| - 1]), AggregateOf(kind, last), last.time)
  }

  /** What the action is after n syncs: nothing at first, then what the bindings of that sync say. */
  function ValueAt(kind: Kind, syncs: seq<Sync>, n: nat): Aggregate
    requires n <= |syncs|
  {
    if n == 0 || syncs[n - 1].bindings.None? then BLANK
    else Fold(kind, syncs[n - 1].bindings.value, syncs[n - 1].streaming)
  }

  /** The value of an action of the kind is another one. */
  predicate Differs(kind: Kind, a: Aggregate, b: Aggregate) {
    match kind
    case BooleanInput => a.boolValue != b.boolValue
    case FloatInput => a.floatValue != b.floatValue
    case Vector2fInput => a.x != b.x || a.y != b.y
    case PoseInput =>
      a.poseActive != b.poseActive || a.poseSourcePath != b.poseSourcePath || a.poseSourceProfile != b.poseSourceProfile
    case OtherKind => false
  }

  /** It differs, and for a float or a coordinate of a vector by more than the tolerance. */
  predicate Moves(kind: Kind, a: Aggregate, b: Aggregate) {
    match kind
    case FloatInput => Abs(b.floatValue - a.floatValue) > 0.0001
    case Vector2fInput => Abs(b.x - a.x) > 0.0001 || Abs(b.y - a.y) > 0.0001
    case _ => Differs(kind, a, b)
  }

  /** Sync number n, counted from 1, changed the value. */
  predicate ChangeAt(kind: Kind, syncs: seq<Sync>, n: nat)
    requires 1 <= n <= |syncs|
  {
    Differs(kind, ValueAt(kind, syncs, n - 1), ValueAt(kind, syncs, n))
  }

  predicate MoveAt(kind: Kind, syncs: seq<Sync>, n: nat)
    requires 1 <= n <= |syncs|
  {
    Moves(kind, ValueAt(kind, syncs, n - 1), ValueAt(kind, syncs, n))
  }

  function Changes(kind: Kind, syncs: seq<Sync>): seq<bool> {
    seq(|syncs|, i requires 0 <= i < |syncs| => ChangeAt(kind, syncs, i + 1))
  }

  function LargeMoves(kind: Kind, syncs: seq<Sync>): seq<bool> {
    seq(|syncs|, i requires 0 <= i < |syncs| => MoveAt(kind, syncs, i + 1))
  }

  function Times(syncs: seq<Sync>): seq<int> {
    seq(|syncs|, i requires 0 <= i < |syncs| => syncs[i].time)
  }

  predicate IsLatest(marks: seq<bool>, i: nat) {
    i < |marks| && marks[i] && forall k :: i < k < |marks| ==> !marks[k]
  }

  /** The time of the latest sync that is marked, or zero if none is. */
  predicate TimeOfLatest(marks: seq<bool>, times: seq<int>, time: int)
    requires |marks| == |times|
  {
    || (time == 0 && true !in marks)
    || exists i :: 0 <= i < |marks| && IsLatest(marks, i) && time == times[i]
  }

  lemma LatestStep(marks: seq<bool>, times: seq<int>, time: int, mark: bool, now: int)
    requires |marks| == |times| && TimeOfLatest(marks, times, time)
    ensures TimeOfLatest(marks + [mark], times + [now], if mark then now else time)
  {
    if mark {
      assert IsLatest(marks + [mark], |marks|);
    } else if true in marks {
      var i :| 0 <= i < |marks| && IsLatest(marks, i) && time == times[i];
      assert IsLatest(marks + [mark], i);
    }
  }

  /** The record holds the value, and the fields of the other kinds are at their defaults. */
  predicate Holds(r: Record, kind: Kind, a: Aggregate) {
    && r.isActive == a.isActive && r.boundSources == a.boundSources
    && r.boolValue == a.boolValue && r.floatValue == a.floatValue && r.x == a.x && r.y == a.y
    && r.poseActive == a.poseActive && r.poseSourcePath == a.poseSourcePath
    && r.poseSourceProfile == a.poseSourceProfile
    && OfKind(kind, a)
  }

  predicate OfKind(kind: Kind, a: Aggregate) {
    && (kind != BooleanInput ==> !a.boolValue)
    && (kind != FloatInput ==> a.floatValue == 0.0)
    && (kind != Vector2fInput ==> a.x == a.y == 0.0)
    && (kind != PoseInput ==> !a.poseActive && a.poseSourcePath == NULL_PATH && a.poseSourceProfile == None)
  }

  /** The changed flag of the kind; a pose has none. */
  function FlagOf(kind: Kind, r: Record): Option<bool> {
    match kind
    case BooleanInput => Some(r.boolChanged)
    case FloatInput => Some(r.floatChanged)
    case Vector2fInput => Some(r.vectorChanged)
    case _ => None
  }

  predicate FlagTells(kind: Kind, r: Record, mark: bool) {
    FlagOf(kind, r).Some? ==> FlagOf(kind, r).value == mark
  }

  lemma ValueIsOfKind(kind: Kind, syncs: seq<Sync>, n: nat)
    requires n <= |syncs|
    ensures OfKind(kind, ValueAt(kind, syncs, n))
  {
    if n > 0 && syncs[n - 1].bindings.Some? {
      var bindings, streaming := syncs[n - 1].bindings.value, syncs[n - 1].streaming;
      FoldFilters(kind, bindings, streaming);
      AbsorbedShape(kind, Chosen(bindings, streaming), Highest(bindings, streaming));
    }
  }

  lemma AppliedMoves(r: Record, kind: Kind, a: Aggregate, aggregate: Option<Aggregate>, b: Aggregate, time: int)
    requires Holds(r, kind, a) && OfKind(kind, b) && b == (if aggregate.Some? then aggregate.value else BLANK)
    ensures var s := Applied(r, aggregate, time);
            && Holds(s, kind, b) && FlagTells(kind, s, Moves(kind, a, b))
            && s.lastChangeTime == if Moves(kind, a, b) then time else r.lastChangeTime
  {
  }

  lemma MarksOfPrefix(kind: Kind, syncs: seq<Sync>, n: nat)
    requires n <= |syncs|
    ensures Changes(kind, syncs[..n]) == Changes(kind, syncs)[..n]
    ensures LargeMoves(kind, syncs[..n]) == LargeMoves(kind, syncs)[..n]
    ensures Times(syncs[..n]) == Times(syncs)[..n]
    ensures ValueAt(kind, syncs[..n], n) == ValueAt(kind, syncs, n)
  {
    forall k | 1 <= k <= n
      ensures ChangeAt(kind, syncs[..n], k) == ChangeAt(kind, syncs, k)
      ensures MoveAt(kind, syncs[..n], k) == MoveAt(kind, syncs, k)
    {
    }
  }

  lemma LatestMove(kind: Kind, syncs: seq<Sync>, time: int)
    requires syncs != []
    requires var k := |syncs| - 1; TimeOfLatest(LargeMoves(kind, syncs[..k]), Times(syncs[..k]), time)
    ensures TimeOfLatest(LargeMoves(kind, syncs), Times(syncs),
                         if MoveAt(kind, syncs, |syncs|) then syncs[|syncs| - 1].time else time)
  {
    var k := |syncs| - 1;
    MarksOfPrefix(kind, syncs, k);
    LatestStep(LargeMoves(kind, syncs[..k]), Times(syncs[..k]), time, MoveAt(kind, syncs, k + 1), syncs[k].time);
    assert LargeMoves(kind, syncs) == LargeMoves(kind, syncs[..k]) + [MoveAt(kind, syncs, k + 1)];
    assert Times(syncs) == Times(syncs[..k]) + [syncs[k].time];
  }

  predicate TellsMoves(kind: Kind, syncs: seq<Sync>, r: Record) {
    && Holds(r, kind, ValueAt(kind, syncs, |syncs|))
    && (syncs != [] ==> FlagTells(kind, r, MoveAt(kind, syncs, |syncs|)))
    && TimeOfLatest(LargeMoves(kind, syncs), Times(syncs), r.lastChangeTime)
  }

  lemma OneMoreSync(kind: Kind, syncs: seq<Sync>, r: Record)
    requires syncs != [] && TellsMoves(kind, syncs[..|syncs| - 1], r)
    ensures var last := syncs[|syncs| - 1]; TellsMoves(kind, syncs, Applied(r, AggregateOf(kind, last), last.time))
  {
    var k := |syncs| - 1;
    MarksOfPrefix(kind, syncs, k);
    ValueIsOfKind(kind, syncs, k + 1);
    AppliedMoves(r, kind, ValueAt(kind, syncs, k), AggregateOf(kind, syncs[k]), ValueAt(kind, syncs, k + 1),
                 syncs[k].time);
    LatestMove(kind, syncs, r.lastChangeTime);
  }

  /**
    Over any run of syncs of an action of any kind, through bindings coming and going and priorities changing: the
    record holds the value of the latest sync, the changed flag tells whether that sync moved it by more than the
    tolerance, and the last-change time is the time of the latest sync that did.
   */
  lemma {:induction false} History(kind: Kind, syncs: seq<Sync>)
    ensures TellsMoves(kind, syncs, After(kind, syncs))
  {
    if syncs != [] {
      var k := |syncs| - 1;
      History(kind, syncs[..k]);
      OneMoreSync(kind, syncs, After(kind, syncs[..k]));
    }
  }

  /** The record after the run tells the application of every change: by its flag of the latest, and by its time. */
  predicate TellsChanges(kind: Kind, syncs: seq<Sync>)
    requires syncs != []
  {
    var r := After(kind, syncs);
    && FlagTells(kind, r, ChangeAt(kind, syncs, |syncs|))
    && TimeOfLatest(Changes(kind, syncs), Times(syncs), r.lastChangeTime)
  }

  predicate AlwaysTellsChanges(kind: Kind, syncs: seq<Sync>) {
    forall n :: 1 <= n <= |syncs| ==> TellsChanges(kind, syncs[..n])
  }

  /** Sync number n moves a float, or each coordinate of a vector, by 0.0001 at most, and not by zero. */
  predicate SmallMoveAt(kind: Kind, syncs: seq<Sync>, n: nat)
    requires 1 <= n <= |syncs|
  {
    ChangeAt(kind, syncs, n) && !MoveAt(kind, syncs, n)
  }

  /** What such a move is, in numbers; booleans and poses have none. */
  lemma SmallMovesAre(kind: Kind, syncs: seq<Sync>, n: nat)
    requires 1 <= n <= |syncs|
    ensures var a, b := ValueAt(kind, syncs, n - 1), ValueAt(kind, syncs, n);
            SmallMoveAt(kind, syncs, n) <==>
              || (kind == FloatInput && 0.0 < Abs(b.floatValue - a.floatValue) <= 0.0001)
              || (kind == Vector2fInput && (a.x, a.y) != (b.x, b.y) &&
                  Abs(b.x - a.x) <= 0.0001 && Abs(b.y - a.y) <= 0.0001)
  {
  }

  /**
    At every sync the flag tells whether the stored value changed, and the last-change time is that of the latest
    change, if and only if no sync makes a small move.
   */
  lemma ChangesToldExactly(kind: Kind, syncs: seq<Sync>)
    ensures AlwaysTellsChanges(kind, syncs) <==> forall n :: 1 <= n <= |syncs| ==> !SmallMoveAt(kind, syncs, n)
  {
    if forall n :: 1 <= n <= |syncs| ==> !SmallMoveAt(kind, syncs, n) {
      forall n | 1 <= n <= |syncs|
        ensures TellsChanges(kind, syncs[..n])
      {
        NoSmallMoves(kind, syncs, n);
      }
    } else {
      var n :| 1 <= n <= |syncs| && SmallMoveAt(kind, syncs, n);
      SmallMoveUntold(kind, syncs, n);
    }
  }

  lemma NoSmallMoves(kind: Kind, syncs: seq<Sync>, n: nat)
    requires 1 <= n <= |syncs|
    requires forall k :: 1 <= k <= |syncs| ==> !SmallMoveAt(kind, syncs, k)
    ensures TellsChanges(kind, syncs[..n])
  {
    forall k | 1 <= k <= |syncs|
      ensures ChangeAt(kind, syncs, k) == MoveAt(kind, syncs, k)
    {
      assert !SmallMoveAt(kind, syncs, k);
    }
    assert Changes(kind, syncs) == LargeMoves(kind, syncs);
    MarksOfPrefix(kind, syncs, n);
    History(kind, syncs[..n]);
    assert Changes(kind, syncs[..n])[n - 1] == LargeMoves(kind, syncs[..n])[n - 1];
  }

  lemma SmallMoveUntold(kind: Kind, syncs: seq<Sync>, n: nat)
    requires 1 <= n <= |syncs| && SmallMoveAt(kind, syncs, n)
    ensures !TellsChanges(kind, syncs[..n])
  {
    MarksOfPrefix(kind, syncs, n);
    History(kind, syncs[..n]);
    assert Changes(kind, syncs[..n])[n - 1] == Changes(kind, syncs)[n - 1] &&
           LargeMoves(kind, syncs[..n])[n - 1] == LargeMoves(kind, syncs)[n - 1];
  }

  /** What a boolean action says after n syncs: the OR over the highest-priority usable bindings. */
  predicate TrueAt(syncs: seq<Sync>, n: nat)
    requires n <= |syncs|
  {
    n > 0 && syncs[n - 1].bindings.Some? && AnyTrue(Chosen(syncs[n - 1].bindings.value, syncs[n - 1].streaming))
  }

  lemma TrueIsValue(syncs: seq<Sync>, n: nat)
    requires n <= |syncs|
    ensures ValueAt(BooleanInput, syncs, n).boolValue == TrueAt(syncs, n)
  {
    if n > 0 && syncs[n - 1].bindings.Some? {
      AggregationMeaning(BooleanInput, syncs[n - 1].bindings.value, syncs[n - 1].streaming);
    }
  }

  /** So a boolean's value, its changed flag and its last-change time are right after every run. */
  lemma BooleanHistory(syncs: seq<Sync>)
    ensures var r := After(BooleanInput, syncs);
            && r.boolValue == TrueAt(syncs, |syncs|)
            && (syncs != [] ==> (r.boolChanged <==> TrueAt(syncs, |syncs|) != TrueAt(syncs, |syncs| - 1)))
            && TimeOfLatest(Changes(BooleanInput, syncs), Times(syncs), r.lastChangeTime)
  {
    History(BooleanInput, syncs);
    TrueIsValue(syncs, |syncs|);
    if syncs != [] {
      TrueIsValue(syncs, |syncs| - 1);
    }
    NoTolerance(syncs);
  }

  lemma NoTolerance(syncs: seq<Sync>)
    ensures Changes(BooleanInput, syncs) == LargeMoves(BooleanInput, syncs)
  {
  }

  // ---- drift ----

  /** A controller's binding with this value. */
  function Trigger(value: real): Binding {
    Binding(1, 1, false, 0, true, false, true, false, value, 0.0, 0.0)
  }

  function Height(k: nat, step: real): real {
    if k == 0 then 0.0 else Height(k - 1, step) + step
  }

  lemma {:induction false} HeightIs(k: nat, step: real)
    ensures Height(k, step) == k as real * step
  {
    if k > 0 {
      HeightIs(k - 1, step);
      assert k as real * step == (k - 1) as real * step + step;
    }
  }

  function Climbed(k: nat, step: real, time: int): Sync {
    Sync(Some([Trigger(Height(k, step))]), true, time)
  }

  /** n syncs that move a float by the same step each time. */
  function Climb(n: nat, step: real, time: int): seq<Sync> {
    seq(n, i requires 0 <= i => Climbed(i + 1, step, time))
  }

  lemma TriggerValue(syncs: seq<Sync>, k: nat, value: real, time: int)
    requires 1 <= k <= |syncs| && syncs[k - 1] == Sync(Some([Trigger(value)]), true, time)
    ensures ValueAt(FloatInput, syncs, k).floatValue == value
  {
    var t := Trigger(value);
    assert [t][..0] == [] && Fold(FloatInput, [], true) == BLANK;
    assert Fold(FloatInput, [t], true) == Accumulate(FloatInput, BLANK, t, true);
  }

  lemma ClimbValue(n: nat, step: real, time: int, k: nat)
    requires k <= n
    ensures ValueAt(FloatInput, Climb(n, step, time), k).floatValue == Height(k, step)
  {
    if k > 0 {
      assert Climb(n, step, time)[k - 1] == Climbed(k, step, time);
      TriggerValue(Climb(n, step, time), k, Height(k, step), time);
    }
  }

  lemma SmallStep(syncs: seq<Sync>, k: nat, from: real, to: real)
    requires 1 <= k <= |syncs| && 0.0 < to - from <= 0.0001
    requires ValueAt(FloatInput, syncs, k - 1).floatValue == from && ValueAt(FloatInput, syncs, k).floatValue == to
    ensures !MoveAt(FloatInput, syncs, k)
  {
  }

  lemma ClimbIsSmall(n: nat, step: real, time: int, k: nat)
    requires 1 <= k <= n && 0.0 < step <= 0.0001
    ensures !MoveAt(FloatInput, Climb(n, step, time), k)
  {
    ClimbValue(n, step, time, k - 1);
    ClimbValue(n, step, time, k);
    SmallStep(Climb(n, step, time), k, Height(k - 1, step), Height(k, step));
  }

  /** A float can go anywhere in steps of 0.0001 without ever being flagged as changed. */
  lemma DriftGoesUnseen(n: nat, step: real, time: int)
    requires 0.0 < step <= 0.0001
    ensures var r := After(FloatInput, Climb(n, step, time));
            r.floatValue == n as real * step && (n > 0 ==> !r.floatChanged) && r.lastChangeTime == 0
  {
    var syncs := Climb(n, step, time);
    History(FloatInput, syncs);
    ClimbValue(n, step, time, n);
    HeightIs(n, step);
    forall k | 1 <= k <= n
      ensures !MoveAt(FloatInput, syncs, k)
    {
      ClimbIsSmall(n, step, time, k);
    }
    assert forall i :: 0 <= i < n ==> !LargeMoves(FloatInput, syncs)[i];
  }

  // ---- the class ----

  function RecordOf(data: map<nat, Record>, path: nat): Record {
    if path in data then data[path] else FRESH
  }

  function Lookup(aggregates: map<(nat, nat), Aggregate>, action: nat, path: nat): Option<Aggregate> {
    if (action, path) in aggregates then Some(aggregates[(action, path)]) else None
  }

  predicate NoDuplicates(paths: seq<nat>) {
    forall i, j :: 0 <= i < j < |paths| ==> paths[i] != paths[j]
  }

  /** The fields taken over from the aggregate, or set back where there is none. */
  method Overwrite(before: Record, aggregate: Option<Aggregate>) returns (r: Record)
    ensures r == Stored(before, aggregate)
  {
    match aggregate {
      case Some(a) =>
        r := before.(isActive := a.isActive, boolValue := a.boolValue, floatValue := a.floatValue, x := a.x, y := a.y,
                     poseActive := a.poseActive, poseSourcePath := a.poseSourcePath,
                     poseSourceProfile := a.poseSourceProfile, boundSources := a.boundSources);
      case None =>
        r := before.(isActive := false, boolValue := false, floatValue := 0.0, x := 0.0, y := 0.0,
                     poseActive := false, poseSourcePath := NULL_PATH, poseSourceProfile := None, boundSources := []);
    }
  }

  method SetFlags(before: Record, stored: Record) returns (r: Record)
    ensures r == Flagged(before, stored)
  {
    r := stored.(boolChanged := stored.boolValue != before.boolValue);
    r := r.(floatChanged := Abs(stored.floatValue - before.floatValue) > 0.0001);
    r := r.(vectorChanged := Abs(stored.x - before.x) > 0.0001 || Abs(stored.y - before.y) > 0.0001);
  }

  method SyncedRecord(before: Record, aggregate: Option<Aggregate>, time: int) returns (r: Record)
    ensures r == Applied(before, aggregate, time)
  {
    r := Overwrite(before, aggregate);
    r := SetFlags(before, r);
    if r.boolChanged || r.floatChanged || r.vectorChanged || PoseDiffers(before, r) {
      r := r.(lastChangeTime := time);
    }
  }

  class ActionState {
    const handle: nat
    const subactionPaths: seq<nat>
    var data: map<nat, Record>

    constructor (handle: nat, subactionPaths: seq<nat>)
      ensures this.handle == handle && this.subactionPaths == subactionPaths && data == map[]
    {
      this.handle := handle;
      this.subactionPaths := subactionPaths;
      data := map[];
    }

    function ResolvedPaths(): seq<nat> {
      if subactionPaths == [] then [NULL_PATH] else subactionPaths
    }

    method ApplySyncState(path: nat, aggregate: Option<Aggregate>, time: int)
      modifies this
      ensures data == old(data)[path := Applied(RecordOf(old(data), path), aggregate, time)]
    {
      var r := SyncedRecord(RecordOf(data, path), aggregate, time);
      data := data[path := r];
    }

    /** The second loop of OxrSyncActions, for this action: each of its paths gets its own aggregate, once. */
    method Sync(aggregates: map<(nat, nat), Aggregate>, time: int)
      requires NoDuplicates(ResolvedPaths())
      modifies this
      ensures forall path :: path in ResolvedPaths() ==>
                path in data &&
                data[path] == Applied(RecordOf(old(data), path), Lookup(aggregates, handle, path), time)
      ensures forall path :: path !in ResolvedPaths() ==> RecordOf(data, path) == RecordOf(old(data), path)
    {
      var paths := ResolvedPaths();
      for i := 0 to |paths|
        invariant forall k :: 0 <= k < i ==> paths[k] in data
        invariant forall k :: 0 <= k < i ==>
                    data[paths[k]] == Applied(RecordOf(old(data), paths[k]), Lookup(aggregates, handle, paths[k]), time)
        invariant forall path :: path !in paths[..i] ==> RecordOf(data, path) == RecordOf(old(data), path)
      {
        ApplySyncState(paths[i], Lookup(aggregates, handle, paths[i]), time);
      }
      assert paths[..|paths|] == paths;
    }
  }
}
