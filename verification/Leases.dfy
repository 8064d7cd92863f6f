/**
  Ownership that must end before graphics objects go: the lease pool (SnapshotLeasePool.h) and the bounded drain
  (BoundedDrain.h). Each step is one critical section; a wait gives the mutex up, so stopping and the wait's success
  are separate steps.
 */
module Leases {
  import opened Protocol

  // ---- the lease pool ----

  /**
    live maps each lease granted and not ended to its slot. Copies of a lease share one lifetime; copies counts them
    where there was ever more than one.
   */
  datatype Pool = Pool(inUse: seq<bool>, stopping: bool, live: map<nat, nat>, granted: nat, copies: map<nat, nat>)

  datatype PoolStep =
    | Acquire(reusable: seq<bool>)
    | Copy(lease: nat)
    | Drop(lease: nat)
    | StopPool

  function NewPool(capacity: nat): Pool {
    Pool(seq(capacity, i => false), false, map[], 0, map[])
  }

  /** The first slot from index on that is free and reusable. */
  function FirstFree(inUse: seq<bool>, reusable: seq<bool>, index: nat): (slot: Option<nat>)
    requires |reusable| == |inUse| && index <= |inUse|
    ensures slot.Some? ==> index <= slot.value < |inUse| && !inUse[slot.value] && reusable[slot.value]
    ensures slot.Some? ==> forall j :: index <= j < slot.value ==> inUse[j] || !reusable[j]
    ensures slot == None ==> forall j :: index <= j < |inUse| ==> inUse[j] || !reusable[j]
    decreases |inUse| - index
  {
    if index == |inUse| then None
    else if inUse[index] || !reusable[index] then FirstFree(inUse, reusable, index + 1)
    else Some(index)
  }

  function Acquired(p: Pool, reusable: seq<bool>): Pool {
    if p.stopping || |reusable| != |p.inUse| then p
    else match FirstFree(p.inUse, reusable, 0)
      case None => p
      case Some(slot) =>
        p.(inUse := p.inUse[slot := true], live := p.live[p.granted := slot], granted := p.granted + 1)
  }

  function CopiesOf(p: Pool, lease: nat): nat {
    if lease in p.copies then p.copies[lease] else 1
  }

  function Copied(p: Pool, lease: nat): Pool {
    if lease !in p.live then p else p.(copies := p.copies[lease := CopiesOf(p, lease) + 1])
  }

  function Ended(p: Pool, lease: nat): Pool
    requires lease in p.live && p.live[lease] < |p.inUse|
  {
    p.(inUse := p.inUse[p.live[lease] := false], live := p.live - {lease})
  }

  /** The last copy to go frees the slot. */
  function Dropped(p: Pool, lease: nat): Pool {
    if lease !in p.live || p.live[lease] >= |p.inUse| then p
    else if CopiesOf(p, lease) > 1 then p.(copies := p.copies[lease := CopiesOf(p, lease) - 1])
    else Ended(p, lease)
  }

  function PoolNext(p: Pool, step: PoolStep): Pool {
    match step
    case Acquire(reusable) => Acquired(p, reusable)
    case Copy(lease) => Copied(p, lease)
    case Drop(lease) => Dropped(p, lease)
    case StopPool => p.(stopping := true)
  }

  function PoolRun(p: Pool, steps: seq<PoolStep>): Pool {
    if steps == [] then p else PoolNext(PoolRun(p, steps[..|steps| - 1]), steps[|steps| - 1])
  }

  ghost predicate Held(live: map<nat, nat>, slot: nat) {
    exists a :: a in live && live[a] == slot
  }

  ghost predicate Distinct(p: Pool) {
    forall a, b :: a in p.live && b in p.live && a != b ==> p.live[a] != p.live[b]
  }

  ghost predicate InUseExactly(p: Pool) {
    && (forall a :: a in p.live ==> p.live[a] < |p.inUse| && p.inUse[p.live[a]])
    && (forall slot :: 0 <= slot < |p.inUse| && p.inUse[slot] ==> Held(p.live, slot))
  }

  ghost predicate PoolInv(p: Pool) {
    && Distinct(p) && InUseExactly(p)
    && (forall a :: a in p.live ==> a < p.granted)
  }

  lemma StillHeld(live: map<nat, nat>, next: map<nat, nat>, slot: nat, changed: nat)
    requires Held(live, slot)
    requires forall a :: a in live && a != changed ==> a in next && next[a] == live[a]
    requires changed in live ==> live[changed] != slot
    ensures Held(next, slot)
  {
    var a :| a in live && live[a] == slot;
    assert next[a] == slot;
  }

  lemma AcquireKeepsInv(p: Pool, reusable: seq<bool>)
    requires PoolInv(p)
    ensures PoolInv(Acquired(p, reusable))
  {
    var next := Acquired(p, reusable);
    if next != p {
      forall s | 0 <= s < |next.inUse| && next.inUse[s]
        ensures Held(next.live, s)
      {
        if s == next.live[p.granted] {
        } else {
          StillHeld(p.live, next.live, s, p.granted);
        }
      }
    }
  }

  lemma EndKeepsInv(p: Pool, lease: nat)
    requires PoolInv(p) && lease in p.live
    ensures PoolInv(Ended(p, lease))
  {
    var next := Ended(p, lease);
    var slot := p.live[lease];
    assert forall a :: a in next.live ==> a in p.live && next.live[a] == p.live[a] && next.live[a] != slot;
    forall s | 0 <= s < |p.inUse| && s != slot && p.inUse[s]
      ensures Held(next.live, s)
    {
      StillHeld(p.live, next.live, s, lease);
    }
  }

  lemma DropKeepsInv(p: Pool, lease: nat)
    requires PoolInv(p)
    ensures PoolInv(Dropped(p, lease))
  {
    if lease in p.live && CopiesOf(p, lease) <= 1 {
      EndKeepsInv(p, lease);
    }
  }

  lemma {:induction false} PoolReachable(capacity: nat, steps: seq<PoolStep>)
    ensures PoolInv(PoolRun(NewPool(capacity), steps))
  {
    if steps != [] {
      var p := PoolRun(NewPool(capacity), steps[..|steps| - 1]);
      PoolReachable(capacity, steps[..|steps| - 1]);
      StepKeepsPool(p, steps[|steps| - 1]);
    }
  }

  /** In every interleaving no two live leases share a slot, and a slot is marked exactly while a lease holds it. */
  lemma LeasesExclusive(capacity: nat, steps: seq<PoolStep>, a: nat, b: nat, slot: nat)
    ensures var p := PoolRun(NewPool(capacity), steps);
            && (a in p.live && b in p.live && p.live[a] == p.live[b] ==> a == b)
            && (slot < |p.inUse| ==> (p.inUse[slot] <==> Held(p.live, slot)))
  {
    PoolReachable(capacity, steps);
  }

  function Copies(steps: seq<PoolStep>, lease: nat): nat {
    if steps == [] then 0
    else Copies(steps[..|steps| - 1], lease) + if steps[|steps| - 1] == Copy(lease) then 1 else 0
  }

  function Drops(steps: seq<PoolStep>, lease: nat): nat {
    if steps == [] then 0
    else Drops(steps[..|steps| - 1], lease) + if steps[|steps| - 1] == Drop(lease) then 1 else 0
  }

  /** At every point up to here there were no more drops than copies: somebody still has the lease. */
  predicate SomebodyHas(steps: seq<PoolStep>, lease: nat)
    decreases |steps|
  {
    Drops(steps, lease) <= Copies(steps, lease) && (steps == [] || SomebodyHas(steps[..|steps| - 1], lease))
  }

  lemma OneCopyMore(p: Pool, lease: nat, step: PoolStep)
    requires PoolInv(p) && lease in p.live
    requires step == Drop(lease) ==> CopiesOf(p, lease) > 1
    ensures var next := PoolNext(p, step);
            && lease in next.live && next.live[lease] == p.live[lease]
            && CopiesOf(next, lease) + (if step == Drop(lease) then 1 else 0) ==
               CopiesOf(p, lease) + (if step == Copy(lease) then 1 else 0)
  {
  }

  lemma StepKeepsPool(p: Pool, step: PoolStep)
    requires PoolInv(p)
    ensures PoolInv(PoolNext(p, step))
  {
    match step
    case Acquire(reusable) => AcquireKeepsInv(p, reusable);
    case Copy(lease) =>
    case Drop(lease) => DropKeepsInv(p, lease);
    case StopPool =>
  }

  lemma {:induction false} StillLive(p: Pool, steps: seq<PoolStep>, lease: nat)
    requires PoolInv(p) && lease in p.live && CopiesOf(p, lease) == 1 && SomebodyHas(steps, lease)
    ensures var q := PoolRun(p, steps);
            && PoolInv(q) && lease in q.live && q.live[lease] == p.live[lease]
            && CopiesOf(q, lease) == 1 + Copies(steps, lease) - Drops(steps, lease)
  {
    if steps != [] {
      var front := steps[..|steps| - 1];
      StillLive(p, front, lease);
      StepKeepsPool(PoolRun(p, front), steps[|steps| - 1]);
      OneCopyMore(PoolRun(p, front), lease, steps[|steps| - 1]);
    }
  }

  /**
    Copies share one lifetime. A lease keeps its slot, whatever else is granted, dropped or stopped, as long as one of
    its copies is left, and the drop of the last one frees the slot.
   */
  lemma LastCopyFrees(p: Pool, steps: seq<PoolStep>, lease: nat)
    requires PoolInv(p) && lease in p.live && CopiesOf(p, lease) == 1 && SomebodyHas(steps, lease)
    ensures var q := PoolRun(p, steps);
            var r, slot := PoolNext(q, Drop(lease)), p.live[lease];
            && lease in q.live && q.live[lease] == slot && slot < |q.inUse| && q.inUse[slot]
            && (lease in r.live <==> Drops(steps, lease) < Copies(steps, lease))
            && (lease !in r.live ==> slot < |r.inUse| && !r.inUse[slot] && !Held(r.live, slot))
  {
    StillLive(p, steps, lease);
    var q := PoolRun(p, steps);
    StepKeepsPool(q, Drop(lease));
  }

  /** What the wait of StopAndWaitForLeases waits for. */
  predicate NoneInUse(p: Pool) {
    forall slot :: 0 <= slot < |p.inUse| ==> !p.inUse[slot]
  }

  lemma NoneInUseNoneLive(p: Pool)
    requires InUseExactly(p)
    ensures NoneInUse(p) <==> p.live == map[]
  {
    forall a: nat
      ensures NoneInUse(p) ==> a !in p.live
    {
      if a in p.live {
        assert p.inUse[p.live[a]];
      }
    }
    assert NoneInUse(p) ==> p.live.Keys == {};
    if slot :| 0 <= slot < |p.inUse| && p.inUse[slot] {
      assert Held(p.live, slot);
    }
  }

  lemma {:induction false} StaysDrained(p: Pool, steps: seq<PoolStep>)
    requires p.stopping && p.live == map[]
    ensures var q := PoolRun(p, steps); q.stopping && q.live == map[] && q.granted == p.granted
  {
    if steps != [] {
      StaysDrained(p, steps[..|steps| - 1]);
    }
  }

  /** The pool refuses leases exactly once it has been told to stop. */
  lemma {:induction false} StoppingExactly(capacity: nat, steps: seq<PoolStep>)
    ensures PoolRun(NewPool(capacity), steps).stopping <==> StopPool in steps
  {
    if steps != [] {
      var front, last := steps[..|steps| - 1], steps[|steps| - 1];
      StoppingExactly(capacity, front);
      assert steps == front + [last];
    }
  }

  /** Once stopped and none in use, no lease is live, and none ever is again, whatever is called. */
  lemma StopEndsLeases(capacity: nat, before: seq<PoolStep>, after: seq<PoolStep>)
    requires StopPool in before && NoneInUse(PoolRun(NewPool(capacity), before))
    ensures var p := PoolRun(NewPool(capacity), before);
            p.live == map[] && PoolRun(p, after).live == map[] && PoolRun(p, after).granted == p.granted
  {
    var p := PoolRun(NewPool(capacity), before);
    StoppingExactly(capacity, before);
    PoolReachable(capacity, before);
    NoneInUseNoneLive(p);
    StaysDrained(p, after);
  }

  class LeasePool {
    var inUse: seq<bool>
    var stopping: bool
    ghost var live: map<nat, nat>
    ghost var copies: map<nat, nat>
    ghost var granted: nat

    ghost function View(): Pool
      reads this
    {
      Pool(inUse, stopping, live, granted, copies)
    }

    constructor (capacity: nat)
      ensures View() == NewPool(capacity)
    {
      inUse, stopping := seq(capacity, i => false), false;
      live, granted, copies := map[], 0, map[];
    }

    /** TryAcquire: the first free reusable slot, unless stopping. */
    method TryAcquire(reusable: seq<bool>) returns (index: Option<nat>)
      requires PoolInv(View()) && |reusable| == |inUse|
      modifies this
      ensures PoolInv(View()) && View() == PoolNext(old(View()), Acquire(reusable))
      ensures index == if old(stopping) then None else FirstFree(old(inUse), reusable, 0)
      ensures index.Some? ==> live == old(live)[old(granted) := index.value]
    {
      AcquireKeepsInv(View(), reusable);
      if stopping {
        return None;
      }
      for i := 0 to |inUse|
        invariant FirstFree(inUse, reusable, 0) == FirstFree(inUse, reusable, i)
        invariant View() == old(View())
      {
        if !inUse[i] && reusable[i] {
          inUse := inUse[i := true];
          live, granted := live[granted := i], granted + 1;
          return Some(i);
        }
      }
      index := None;
    }

    /** The lifetime of a lease ends: its last copy is gone. */
    method Release(index: nat, ghost lease: nat)
      requires PoolInv(View()) && lease in live && live[lease] == index && CopiesOf(View(), lease) == 1
      modifies this
      ensures PoolInv(View()) && View() == PoolNext(old(View()), Drop(lease))
      ensures !inUse[index] && !Held(live, index)
    {
      DropKeepsInv(View(), lease);
      inUse := inUse[index := false];
      live := live - {lease};
    }

    /** StopAndWaitForLeases when it is called, and when its wait looks again. */
    method StopAndTest() returns (drained: bool)
      requires PoolInv(View())
      modifies this`stopping
      ensures PoolInv(View()) && View() == PoolNext(old(View()), StopPool) && stopping
      ensures drained <==> live == map[]
    {
      stopping := true;
      drained := true;
      for i := 0 to |inUse|
        invariant drained <==> forall slot :: 0 <= slot < i ==> !inUse[slot]
      {
        drained := drained && !inUse[i];
      }
      NoneInUseNoneLive(View());
    }
  }

  // ---- the bounded drain ----

  /** holders counts the acquisitions not given back; overdrawn the releases that gave back someone else's. */
  datatype Drain = Drain(active: nat, stopping: bool, holders: nat, overdrawn: nat)

  datatype DrainStep = Take | GiveBack | StrayRelease | StopDrain | ResetDrain

  const NEW_DRAIN: Drain := Drain(0, false, 0, 0)

  function Less(n: nat): nat {
    if n > 0 then n - 1 else 0
  }

  function DrainNext(d: Drain, step: DrainStep): Drain {
    match step
    case Take => if d.stopping then d else d.(active := d.active + 1, holders := d.holders + 1)
    case GiveBack => if d.holders == 0 then d else
        d.(active := Less(d.active), holders := d.holders - 1,
           overdrawn := if d.active > 0 then d.overdrawn else Less(d.overdrawn))
    case StrayRelease => d.(active := Less(d.active), overdrawn := d.overdrawn + (if d.active > 0 then 1 else 0))
    case StopDrain => d.(stopping := true)
    case ResetDrain => if d.active != 0 then d else d.(stopping := false)
  }

  function DrainRun(d: Drain, steps: seq<DrainStep>): Drain {
    if steps == [] then d else DrainNext(DrainRun(d, steps[..|steps| - 1]), steps[|steps| - 1])
  }

  /** In every run the count is the holders less the releases nobody owed. */
  lemma {:induction false} CountIsHolders(steps: seq<DrainStep>)
    ensures var d := DrainRun(NEW_DRAIN, steps); d.active + d.overdrawn == d.holders
  {
    if steps != [] {
      CountIsHolders(steps[..|steps| - 1]);
    }
  }

  predicate NoStray(steps: seq<DrainStep>) {
    forall i :: 0 <= i < |steps| ==> steps[i] != StrayRelease
  }

  predicate NoReset(steps: seq<DrainStep>) {
    forall i :: 0 <= i < |steps| ==> steps[i] != ResetDrain
  }

  /** What StopAndWait waits for. */
  predicate Drained(d: Drain) {
    d.stopping && d.active == 0
  }

  lemma {:induction false} StaysEmpty(d: Drain, steps: seq<DrainStep>)
    requires Drained(d) && NoReset(steps)
    ensures var e := DrainRun(d, steps); Drained(e) && e.holders <= d.holders
  {
    if steps != [] {
      StaysEmpty(d, steps[..|steps| - 1]);
    }
  }

  /** Call number k gives back an acquisition that is not its own: nobody owed it, and something was active. */
  predicate TakesAnothers(steps: seq<DrainStep>, k: nat)
    requires k < |steps|
  {
    steps[k] == StrayRelease && DrainRun(NEW_DRAIN, steps[..k]).active > 0
  }

  ghost predicate NoneTakesAnothers(steps: seq<DrainStep>) {
    forall k: nat :: k < |steps| ==> !TakesAnothers(steps, k)
  }

  /** However the holders go on, as long as nobody releases what is not theirs, a wait that succeeds leaves none. */
  ghost predicate WaitIsHonest(d: Drain) {
    forall more: seq<DrainStep> :: NoStray(more) && Drained(DrainRun(d, more)) ==> DrainRun(d, more).holders == 0
  }

  /** At every point of the run. */
  ghost predicate AlwaysHonest(steps: seq<DrainStep>) {
    forall k: nat :: k <= |steps| ==> HonestAt(steps, k)
  }

  ghost predicate HonestAt(steps: seq<DrainStep>, k: nat)
    requires k <= |steps|
  {
    WaitIsHonest(DrainRun(NEW_DRAIN, steps[..k]))
  }

  lemma {:induction false} HonestKeepsCount(d: Drain, more: seq<DrainStep>)
    requires d.active == d.holders && d.overdrawn == 0 && NoStray(more)
    ensures var e := DrainRun(d, more); e.active == e.holders && e.overdrawn == 0
  {
    if more != [] {
      HonestKeepsCount(d, more[..|more| - 1]);
    }
  }

  lemma {:induction false} AllGiveBack(d: Drain, n: nat) returns (more: seq<DrainStep>)
    requires d.active + d.overdrawn == d.holders && n <= d.active
    ensures NoStray(more) && DrainRun(d, more) == d.(active := d.active - n, holders := d.holders - n)
  {
    more := [];
    if n > 0 {
      var before := AllGiveBack(d, n - 1);
      more := before + [GiveBack];
      assert more[..|more| - 1] == before;
    }
  }

  lemma HonestExactly(d: Drain)
    requires d.active + d.overdrawn == d.holders
    ensures WaitIsHonest(d) <==> d.overdrawn == 0
  {
    if d.overdrawn == 0 {
      forall more: seq<DrainStep> | NoStray(more) && Drained(DrainRun(d, more))
        ensures DrainRun(d, more).holders == 0
      {
        HonestKeepsCount(d, more);
      }
    } else {
      var back := AllGiveBack(d, d.active);
      var more := back + [StopDrain];
      assert more[..|more| - 1] == back;
      assert NoStray(more) && Drained(DrainRun(d, more)) && DrainRun(d, more).holders == d.overdrawn;
    }
  }

  lemma {:induction false} NothingOverdrawn(steps: seq<DrainStep>)
    requires NoneTakesAnothers(steps)
    ensures DrainRun(NEW_DRAIN, steps).overdrawn == 0
  {
    if steps != [] {
      var front := steps[..|steps| - 1];
      forall k: nat | k < |front|
        ensures !TakesAnothers(front, k)
      {
        assert !TakesAnothers(steps, k) && front[..k] == steps[..k];
      }
      NothingOverdrawn(front);
      assert !TakesAnothers(steps, |steps| - 1);
    }
  }

  lemma TakingAnothersOverdraws(steps: seq<DrainStep>, k: nat)
    requires k < |steps| && TakesAnothers(steps, k)
    ensures DrainRun(NEW_DRAIN, steps[..k + 1]).overdrawn > 0
  {
    assert steps[..k + 1][..k] == steps[..k];
  }

  lemma PrefixTakesNone(steps: seq<DrainStep>, k: nat)
    requires NoneTakesAnothers(steps) && k <= |steps|
    ensures NoneTakesAnothers(steps[..k])
  {
    forall j: nat | j < k
      ensures !TakesAnothers(steps[..k], j)
    {
      assert !TakesAnothers(steps, j) && steps[..k][..j] == steps[..j];
    }
  }

  /**
    Exactly which callers a stop-and-wait can trust: at every point of the run every honest continuation whose wait
    succeeds leaves no acquisition live, if and only if no call of the run released, while something was active,
    what nobody owed.
   */
  lemma DrainSafeExactly(steps: seq<DrainStep>)
    ensures AlwaysHonest(steps) <==> NoneTakesAnothers(steps)
  {
    forall k: nat | k <= |steps|
      ensures HonestAt(steps, k) <==> DrainRun(NEW_DRAIN, steps[..k]).overdrawn == 0
    {
      CountIsHolders(steps[..k]);
      HonestExactly(DrainRun(NEW_DRAIN, steps[..k]));
    }
    if NoneTakesAnothers(steps) {
      forall k: nat | k <= |steps|
        ensures DrainRun(NEW_DRAIN, steps[..k]).overdrawn == 0
      {
        PrefixTakesNone(steps, k);
        NothingOverdrawn(steps[..k]);
      }
    }
    if k: nat :| k < |steps| && TakesAnothers(steps, k) {
      TakingAnothersOverdraws(steps, k);
      assert !HonestAt(steps, k + 1);
    }
  }

  /** With such callers a wait that succeeds leaves no holder; and as long as nothing resets the drain, none appears. */
  lemma DrainedMeansNoHolder(before: seq<DrainStep>, after: seq<DrainStep>)
    requires Drained(DrainRun(NEW_DRAIN, before)) && NoReset(after)
    ensures var d := DrainRun(NEW_DRAIN, before);
            && (NoneTakesAnothers(before) ==> d.holders == 0)
            && (d.holders == 0 ==> DrainRun(d, after).holders == 0)
            && Drained(DrainRun(d, after))
  {
    CountIsHolders(before);
    StaysEmpty(DrainRun(NEW_DRAIN, before), after);
    if NoneTakesAnothers(before) {
      NothingOverdrawn(before);
    }
  }

  /** One release too many: the wait succeeds with an acquisition still live. */
  lemma StrayReleaseBreaksDrain()
    ensures var d := DrainRun(NEW_DRAIN, [Take, StrayRelease, StopDrain]);
            d.stopping && d.active == 0 && d.holders == 1
  {
    var steps := [Take, StrayRelease, StopDrain];
    assert steps[..2] == [Take, StrayRelease] && steps[..2][..1] == [Take] && steps[..2][..1][..0] == [];
    assert DrainRun(NEW_DRAIN, [Take]) == Drain(1, false, 1, 0);
    assert DrainRun(NEW_DRAIN, steps[..2]) == Drain(0, false, 1, 1);
  }

  class BoundedDrain {
    var active: nat
    var stopping: bool
    ghost var holders: nat
    ghost var overdrawn: nat

    ghost function View(): Drain
      reads this
    {
      Drain(active, stopping, holders, overdrawn)
    }

    constructor ()
      ensures View() == NEW_DRAIN
    {
      active, stopping, holders, overdrawn := 0, false, 0, 0;
    }

    method TryAcquire() returns (acquired: bool)
      modifies this
      ensures View() == DrainNext(old(View()), Take) && acquired == !old(stopping)
      ensures active == old(active) + (if acquired then 1 else 0) && holders - old(holders) == active - old(active)
    {
      if stopping {
        return false;
      }
      active := active + 1;
      holders := holders + 1;
      acquired := true;
    }

    /** Release, by a holder or by nobody. */
    method Release(ghost owed: bool)
      requires owed ==> holders > 0
      modifies this
      ensures View() == DrainNext(old(View()), if owed then GiveBack else StrayRelease)
    {
      if owed {
        holders := holders - 1;
        overdrawn := if active > 0 then overdrawn else Less(overdrawn);
      } else {
        overdrawn := overdrawn + (if active > 0 then 1 else 0);
      }
      if active > 0 {
        active := active - 1;
      }
    }

    method Stop()
      modifies this`stopping
      ensures View() == DrainNext(old(View()), StopDrain) && stopping
    {
      stopping := true;
    }

    /** StopAndWait when it is called, and when its wait looks again. */
    method StopAndTest() returns (drained: bool)
      requires active + overdrawn == holders
      modifies this`stopping
      ensures View() == DrainNext(old(View()), StopDrain) && stopping
      ensures drained <==> active == 0
      ensures overdrawn == 0 ==> (drained <==> holders == 0)
    {
      stopping := true;
      drained := active == 0;
    }

    method Reset() returns (done: bool)
      modifies this`stopping
      ensures View() == DrainNext(old(View()), ResetDrain) && (done <==> active == 0)
      ensures stopping == (old(stopping) && !done)
    {
      if active != 0 {
        return false;
      }
      stopping := false;
      done := true;
    }
  }
}
