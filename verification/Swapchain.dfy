/** The image ring of SwapchainCommon.cpp: acquire, wait, release, each one critical section. */
module Swapchain {
  datatype ImageState = Available | Acquired | Waited

  datatype Result<+T> = Success(value: T) | CallOrderInvalid

  datatype Ring = Ring(
    states: seq<ImageState>,
    order: seq<nat>,
    nextAcquire: nat,
    lastReleased: nat,
    staticAcquired: bool,
    hasReleased: bool)

  function Count(r: Ring): nat { |r.states| }

  predicate WellFormed(r: Ring) {
    && 0 < Count(r)
    && r.nextAcquire < Count(r) && r.lastReleased < Count(r)
    && (forall i :: 0 <= i < |r.order| ==> r.order[i] < Count(r))
  }

  function Initial(imageCount: nat): Ring {
    Ring(seq(imageCount, _ => Available), [], 0, 0, false, false)
  }

  // ---- the three calls ----

  /** The scan: the first available image among the candidates next + i, next + i + 1, ..., next + n - 1, mod n. */
  function Scan(states: seq<ImageState>, next: nat, i: nat): (r: Result<nat>)
    requires states != [] && i <= |states|
    ensures r.Success? ==> r.value < |states|
    decreases |states| - i
  {
    var candidate := (next + i) % |states|;
    if i == |states| then CallOrderInvalid
    else if states[candidate].Available? then Success(candidate)
    else Scan(states, next, i + 1)
  }

  function AcquireImage(r: Ring): (a: (Result<nat>, Ring))
    requires WellFormed(r)
    ensures WellFormed(a.1) && Count(a.1) == Count(r)
  {
    if r.staticAcquired || |r.order| >= Count(r) then (CallOrderInvalid, r)
    else
      match Scan(r.states, r.nextAcquire, 0)
      case CallOrderInvalid => (CallOrderInvalid, r)
      case Success(i) =>
        (Success(i),
         r.(states := r.states[i := Acquired], order := r.order + [i], nextAcquire := (i + 1) % Count(r),
            staticAcquired := Count(r) == 1))
  }

  function WaitImage(r: Ring): (a: (Result<nat>, Ring))
    requires WellFormed(r)
    ensures WellFormed(a.1) && Count(a.1) == Count(r)
  {
    if r.order == [] || !r.states[r.order[0]].Acquired? then (CallOrderInvalid, r)
    else (Success(r.order[0]), r.(states := r.states[r.order[0] := Waited]))
  }

  function ReleaseImage(r: Ring): (a: (Result<nat>, Ring))
    requires WellFormed(r)
    ensures WellFormed(a.1) && Count(a.1) == Count(r)
  {
    if r.order == [] || !r.states[r.order[0]].Waited? then (CallOrderInvalid, r)
    else
      var i := r.order[0];
      (Success(i),
       r.(lastReleased := i, states := r.states[i := Available], hasReleased := true, order := r.order[1..]))
  }

  predicate HasReleasedImage(r: Ring)
    requires WellFormed(r)
  {
    r.hasReleased && r.states[r.lastReleased].Available?
  }

  // ---- runs ----

  datatype Call = Acquire | Wait | Release

  /** A ring and how many acquires and releases have succeeded. */
  datatype Run = Run(ring: Ring, acquires: nat, releases: nat)

  function Next(s: Run, call: Call): (a: (Result<nat>, Run))
    requires WellFormed(s.ring)
    ensures WellFormed(a.1.ring) && Count(a.1.ring) == Count(s.ring)
  {
    match call
    case Acquire =>
      var (result, ring) := AcquireImage(s.ring);
      (result, Run(ring, s.acquires + if result.Success? then 1 else 0, s.releases))
    case Wait =>
      var (result, ring) := WaitImage(s.ring);
      (result, s.(ring := ring))
    case Release =>
      var (result, ring) := ReleaseImage(s.ring);
      (result, Run(ring, s.acquires, s.releases + if result.Success? then 1 else 0))
  }

  // ---- the closed form of every reachable ring ----

  lemma DivMod(a: int, n: nat)
    requires n > 0
    ensures a == n * (a / n) + a % n && 0 <= a % n < n
  {
  }

  lemma Multiple(n: nat, k: int)
    requires n > 0 && -(n as int) < n * k < n
    ensures k == 0
  {
    if k >= 1 {
      MulMonotone(n, 1, k);
    } else if k <= -1 {
      MulMonotone(n, k, -1);
    }
  }

  lemma MulMonotone(n: nat, x: int, y: int)
    requires x <= y
    ensures n * x <= n * y
  {
  }

  /** Fewer than n apart, different numbers have different remainders. */
  lemma ModDistinct(a: nat, b: nat, n: nat)
    requires n > 0 && a < b < a + n
    ensures a % n != b % n
  {
    DivMod(a, n);
    DivMod(b, n);
    if a % n == b % n {
      assert n * (b / n) - n * (a / n) == n * (b / n - a / n);
      Multiple(n, b / n - a / n);
    }
  }

  lemma ModUnique(a: nat, q: int, r: nat, n: nat)
    requires n > 0 && a == n * q + r && r < n
    ensures a % n == r
  {
    DivMod(a, n);
    assert n * q - n * (a / n) == n * (q - a / n);
    Multiple(n, q - a / n);
  }

  lemma ModSuccessor(a: nat, n: nat)
    requires n > 0
    ensures (a + 1) % n == (a % n + 1) % n
  {
    DivMod(a, n);
    if a % n + 1 < n {
      ModUnique(a + 1, a / n, a % n + 1, n);
      ModUnique(a % n + 1, 0, a % n + 1, n);
    } else {
      assert n * (a / n + 1) == n * (a / n) + n;
      ModUnique(a + 1, a / n + 1, 0, n);
      ModUnique(a % n + 1, 1, 0, n);
    }
  }

  lemma ModWrap(a: nat, n: nat)
    requires n > 0
    ensures (a + n) % n == a % n
  {
    DivMod(a, n);
    assert n * (a / n + 1) == n * (a / n) + n;
    ModUnique(a + n, a / n + 1, a % n, n);
  }

  /**
    The whole ring is a function of how many acquires and releases succeeded and of whether the front has been
    waited for: the held images are the cyclic run of indices that ends just before nextAcquire.
   */
  ghost predicate Inv(s: Run) {
    var n := Count(s.ring);
    && WellFormed(s.ring)
    && s.releases <= s.acquires <= s.releases + n
    && |s.ring.order| == s.acquires - s.releases
    && (forall j: nat :: j < |s.ring.order| ==> s.ring.order[j] == (s.releases + j) % n)
    && (forall i: nat :: i < n ==> (s.ring.states[i].Available? <==> i !in s.ring.order))
    && (forall j: nat :: 0 < j < |s.ring.order| ==> s.ring.states[s.ring.order[j]].Acquired?)
    && s.ring.nextAcquire == s.acquires % n
    && (s.ring.hasReleased <==> s.releases > 0)
    && (s.releases > 0 ==> s.ring.lastReleased == (s.releases - 1) % n)
    && (s.ring.staticAcquired <==> n == 1 && s.acquires > 0)
    && (n == 1 ==> s.acquires <= 1)
  }

  lemma InitialInv(n: nat)
    requires n > 0
    ensures Inv(Run(Initial(n), 0, 0))
  {
    ModUnique(0, 0, 0, n);
  }

  /** Two places in the queue never hold the same image. */
  lemma OrderDistinct(s: Run, i: nat, j: nat)
    requires Inv(s) && i < j < |s.ring.order|
    ensures s.ring.order[i] != s.ring.order[j]
  {
    ModDistinct(s.releases + i, s.releases + j, Count(s.ring));
  }

  /** With room left, the image after the last acquired one is free: the scan stops at its first candidate. */
  lemma NextIsFree(s: Run)
    requires Inv(s) && s.acquires < s.releases + Count(s.ring)
    ensures s.ring.nextAcquire !in s.ring.order
    ensures Scan(s.ring.states, s.ring.nextAcquire, 0) == Success(s.ring.nextAcquire)
  {
    ModUnique(s.ring.nextAcquire, 0, s.ring.nextAcquire, Count(s.ring));
    forall j: nat | j < |s.ring.order|
      ensures s.ring.order[j] != s.ring.nextAcquire
    {
      ModDistinct(s.releases + j, s.acquires, Count(s.ring));
    }
  }

  lemma AcquireKeepsInv(s: Run)
    requires Inv(s)
    ensures Inv(Next(s, Acquire).1)
  {
    if !s.ring.staticAcquired && |s.ring.order| < Count(s.ring) {
      AcquireTakesNext(s);
      TakenKeepsInv(s, Next(s, Acquire).1);
    }
  }

  /** An acquire that succeeds takes the next image in turn. */
  predicate Takes(s: Run, t: Run)
    requires WellFormed(s.ring)
  {
    var i := s.ring.nextAcquire;
    t == Run(s.ring.(states := s.ring.states[i := Acquired], order := s.ring.order + [i],
                     nextAcquire := (i + 1) % Count(s.ring), staticAcquired := Count(s.ring) == 1),
             s.acquires + 1, s.releases)
  }

  lemma AcquireTakesNext(s: Run)
    requires Inv(s) && !s.ring.staticAcquired && |s.ring.order| < Count(s.ring)
    ensures Takes(s, Next(s, Acquire).1)
  {
    NextIsFree(s);
  }

  lemma TakenKeepsInv(s: Run, t: Run)
    requires Inv(s) && !s.ring.staticAcquired && |s.ring.order| < Count(s.ring) && Takes(s, t)
    ensures Inv(t)
  {
    NextIsFree(s);
    ModSuccessor(s.acquires, Count(s.ring));
    forall j: nat | 0 < j < |t.ring.order|
      ensures t.ring.states[t.ring.order[j]].Acquired?
    {
      if j < |s.ring.order| {
        assert s.ring.order[j] != s.ring.nextAcquire;
      }
    }
  }

  lemma WaitKeepsInv(s: Run)
    requires Inv(s)
    ensures Inv(Next(s, Wait).1)
  {
    if s.ring.order != [] && s.ring.states[s.ring.order[0]].Acquired? {
      forall j: nat | 0 < j < |s.ring.order|
        ensures s.ring.order[j] != s.ring.order[0]
      {
        OrderDistinct(s, 0, j);
      }
    }
  }

  /** Taking the front out leaves the later images in the queue, the front not among them. */
  lemma FrontLeaves(s: Run)
    requires Inv(s) && s.ring.order != []
    ensures forall j: nat :: j + 1 < |s.ring.order| ==>
              s.ring.order[1..][j] == s.ring.order[j + 1] == (s.releases + 1 + j) % Count(s.ring)
    ensures forall i: nat :: i in s.ring.order[1..] <==> i in s.ring.order && i != s.ring.order[0]
  {
    var rest := s.ring.order[1..];
    assert s.ring.order == [s.ring.order[0]] + rest;
    forall j: nat | j < |rest|
      ensures rest[j] != s.ring.order[0]
    {
      OrderDistinct(s, 0, j + 1);
    }
  }

  lemma ReleaseKeepsInv(s: Run)
    requires Inv(s)
    ensures Inv(Next(s, Release).1)
  {
    if s.ring.order != [] && s.ring.states[s.ring.order[0]].Waited? {
      FreedKeepsInv(s, Next(s, Release).1);
    }
  }

  /** A release that succeeds frees the front. */
  predicate Frees(s: Run, t: Run)
    requires s.ring.order != [] && s.ring.order[0] < Count(s.ring)
  {
    var i := s.ring.order[0];
    t == Run(s.ring.(states := s.ring.states[i := Available], order := s.ring.order[1..], lastReleased := i,
                     hasReleased := true),
             s.acquires, s.releases + 1)
  }

  lemma FreedKeepsInv(s: Run, t: Run)
    requires Inv(s) && s.ring.order != [] && Frees(s, t)
    ensures Inv(t)
  {
    FrontLeaves(s);
    RestStillAcquired(s);
    assert s.ring.order[0] == (s.releases + 0) % Count(s.ring);
  }

  lemma RestStillAcquired(s: Run)
    requires Inv(s) && s.ring.order != []
    ensures var states, rest := s.ring.states[s.ring.order[0] := Available], s.ring.order[1..];
            && (forall j: nat :: j < |rest| ==> states[rest[j]].Acquired?)
            && (forall i: nat :: i < |states| ==> (states[i].Available? <==> i !in rest))
  {
    FrontLeaves(s);
    var states, rest := s.ring.states[s.ring.order[0] := Available], s.ring.order[1..];
    forall j: nat | j < |rest|
      ensures states[rest[j]].Acquired?
    {
      assert rest[j] in rest && rest[j] == s.ring.order[j + 1];
    }
  }

  function After(n: nat, calls: seq<Call>): (s: Run)
    requires n > 0
    ensures WellFormed(s.ring) && Count(s.ring) == n
  {
    if calls == [] then Run(Initial(n), 0, 0)
    else Next(After(n, calls[..|calls| - 1]), calls[|calls| - 1]).1
  }

  lemma {:induction false} Reachable(n: nat, calls: seq<Call>)
    requires n > 0
    ensures Inv(After(n, calls))
  {
    if calls == [] {
      InitialInv(n);
    } else {
      Reachable(n, calls[..|calls| - 1]);
      var s := After(n, calls[..|calls| - 1]);
      match calls[|calls| - 1]
      case Acquire => AcquireKeepsInv(s);
      case Wait => WaitKeepsInv(s);
      case Release => ReleaseKeepsInv(s);
    }
  }

  /**
    In every run: the k-th successful acquire and the k-th successful release (from zero) both use image
    k mod n; an acquire fails exactly when all images are held, or for good once a static image was acquired;
    and a release fails exactly when the front has not been waited for.
   */
  lemma RingInOrder(n: nat, calls: seq<Call>)
    requires n > 0
    ensures var s := After(n, calls);
            && Next(s, Acquire).0 == (if s.acquires - s.releases == n || (n == 1 && s.acquires > 0) then CallOrderInvalid
                                      else Success(s.acquires % n))
            && (Next(s, Release).0.Success? ==> Next(s, Release).0.value == s.releases % n)
            && (Next(s, Wait).0.Success? ==> Next(s, Wait).0.value == s.releases % n)
            && (Next(s, Release).0.Success? <==> s.acquires > s.releases && s.ring.states[s.releases % n].Waited?)
            && (Next(s, Wait).0.Success? <==> s.acquires > s.releases && s.ring.states[s.releases % n].Acquired?)
  {
    Reachable(n, calls);
    var s := After(n, calls);
    if s.acquires < s.releases + n {
      NextIsFree(s);
    }
    if s.ring.order != [] {
      assert s.ring.order[0] == (s.releases + 0) % n;
    }
  }

  // ---- three numbers instead of a ring ----

  /** What a caller can know: how many acquires and releases have succeeded, and whether it has waited since. */
  datatype Tally = Tally(acquires: nat, releases: nat, waited: bool)

  /** What the next call gives, and what it leaves, by the tally alone. */
  function Answer(n: nat, t: Tally, call: Call): (a: (Result<nat>, Tally))
    requires n > 0
  {
    match call
    case Acquire =>
      if t.acquires >= t.releases + n || (n == 1 && t.acquires > 0) then (CallOrderInvalid, t)
      else (Success(t.acquires % n), t.(acquires := t.acquires + 1))
    case Wait =>
      if t.acquires <= t.releases || t.waited then (CallOrderInvalid, t)
      else (Success(t.releases % n), t.(waited := true))
    case Release =>
      if !t.waited then (CallOrderInvalid, t)
      else (Success(t.releases % n), t.(releases := t.releases + 1, waited := false))
  }

  function Answers(n: nat, calls: seq<Call>): (a: (seq<Result<nat>>, Tally))
    requires n > 0
  {
    if calls == [] then ([], Tally(0, 0, false))
    else
      var before := Answers(n, calls[..|calls| - 1]);
      var now := Answer(n, before.1, calls[|calls| - 1]);
      (before.0 + [now.0], now.1)
  }

  function Results(n: nat, calls: seq<Call>): (r: seq<Result<nat>>)
    requires n > 0
    ensures |r| == |calls|
  {
    if calls == [] then []
    else
      var front := calls[..|calls| - 1];
      Results(n, front) + [Next(After(n, front), calls[|calls| - 1]).0]
  }

  /** The front image is held and waited for, or the front image, if any, is not. */
  ghost predicate Tallied(s: Run, t: Tally) {
    && Inv(s)
    && t.acquires == s.acquires && t.releases == s.releases
    && (t.waited ==> s.ring.order != [])
    && (s.ring.order != [] ==> s.ring.states[s.ring.order[0]] == if t.waited then Waited else Acquired)
  }

  lemma AcquireInTurn(s: Run)
    requires Inv(s)
    ensures Next(s, Acquire).0 ==
              if s.acquires == s.releases + Count(s.ring) || (Count(s.ring) == 1 && s.acquires > 0) then CallOrderInvalid
              else Success(s.acquires % Count(s.ring))
  {
    if !s.ring.staticAcquired && |s.ring.order| < Count(s.ring) {
      NextIsFree(s);
    }
  }

  lemma AcquireTallied(s: Run, t: Tally)
    requires Tallied(s, t)
    ensures var (result, next) := Answer(Count(s.ring), t, Acquire);
            Next(s, Acquire).0 == result && Tallied(Next(s, Acquire).1, next)
  {
    AcquireKeepsInv(s);
    AcquireInTurn(s);
    if !s.ring.staticAcquired && |s.ring.order| < Count(s.ring) {
      NextIsFree(s);
    }
  }

  lemma WaitTallied(s: Run, t: Tally)
    requires Tallied(s, t)
    ensures var (result, next) := Answer(Count(s.ring), t, Wait);
            Next(s, Wait).0 == result && Tallied(Next(s, Wait).1, next)
  {
    WaitKeepsInv(s);
    if s.ring.order != [] {
      assert s.ring.order[0] == (s.releases + 0) % Count(s.ring);
    }
  }

  lemma ReleaseTallied(s: Run, t: Tally)
    requires Tallied(s, t)
    ensures var (result, next) := Answer(Count(s.ring), t, Release);
            Next(s, Release).0 == result && Tallied(Next(s, Release).1, next)
  {
    ReleaseKeepsInv(s);
    if s.ring.order != [] {
      assert s.ring.order[0] == (s.releases + 0) % Count(s.ring);
      RestStillAcquired(s);
    }
  }

  lemma {:induction false} TallyKept(n: nat, calls: seq<Call>)
    requires n > 0
    ensures Tallied(After(n, calls), Answers(n, calls).1) && Results(n, calls) == Answers(n, calls).0
  {
    if calls == [] {
      InitialInv(n);
    } else {
      var front := calls[..|calls| - 1];
      TallyKept(n, front);
      var s, t := After(n, front), Answers(n, front).1;
      match calls[|calls| - 1]
      case Acquire => AcquireTallied(s, t);
      case Wait => WaitTallied(s, t);
      case Release => ReleaseTallied(s, t);
    }
  }

  /** The ring refines the tally: for every sequence of calls all the results are those the three numbers give. */
  lemma RingRefinesTally(n: nat, calls: seq<Call>)
    requires n > 0
    ensures Results(n, calls) == Answers(n, calls).0
  {
    TallyKept(n, calls);
  }

  /** Call number i is a wait that succeeded, and no release has since. */
  predicate WaitedAt(calls: seq<Call>, results: seq<Result<nat>>, i: nat)
    requires |calls| == |results|
  {
    i < |calls| && calls[i].Wait? && results[i].Success? &&
    forall j :: i < j < |calls| && calls[j].Release? ==> !results[j].Success?
  }

  ghost predicate WaitStands(calls: seq<Call>, results: seq<Result<nat>>)
    requires |calls| == |results|
  {
    exists i: nat :: WaitedAt(calls, results, i)
  }

  lemma WaitStandsStep(calls: seq<Call>, results: seq<Result<nat>>, call: Call, result: Result<nat>)
    requires |calls| == |results|
    ensures WaitStands(calls + [call], results + [result]) <==>
              (call.Wait? && result.Success?) || (WaitStands(calls, results) && !(call.Release? && result.Success?))
  {
    var all, given := calls + [call], results + [result];
    if call.Wait? && result.Success? {
      assert WaitedAt(all, given, |calls|);
    }
    if WaitStands(calls, results) && !(call.Release? && result.Success?) {
      var i: nat :| WaitedAt(calls, results, i);
      assert WaitedAt(all, given, i);
    }
    if WaitStands(all, given) {
      var i: nat :| WaitedAt(all, given, i);
      if i < |calls| {
        assert forall j :: 0 <= j < |calls| ==> all[j] == calls[j] && given[j] == results[j];
        assert WaitedAt(calls, results, i) && given[|calls|] == result && all[|calls|] == call;
      }
    }
  }

  lemma {:induction false} WaitStandsExactly(n: nat, calls: seq<Call>)
    requires n > 0
    ensures WaitStands(calls, Results(n, calls)) <==> Answers(n, calls).1.waited
  {
    if calls != [] {
      var front, last := calls[..|calls| - 1], calls[|calls| - 1];
      WaitStandsExactly(n, front);
      TallyKept(n, front);
      TallyKept(n, calls);
      WaitStandsStep(front, Results(n, front), last, Next(After(n, front), last).0);
      assert calls == front + [last];
    }
  }

  /**
    On the calls alone: a release succeeds if and only if a wait has succeeded since the last release that did, and a
    wait if and only if an image is held and none has. So after a wait that succeeds, the next release succeeds, with
    the oldest image held, and a second wait fails.
   */
  lemma ReleaseFollowsWait(n: nat, calls: seq<Call>)
    requires n > 0
    ensures var s := After(n, calls);
            && (Next(s, Release).0 == (if WaitStands(calls, Results(n, calls)) then Success(s.releases % n) else CallOrderInvalid))
            && (Next(s, Wait).0.Success? <==> s.acquires > s.releases && !WaitStands(calls, Results(n, calls)))
            && (Next(s, Wait).0.Success? ==>
                  var w := Next(s, Wait).1;
                  && Next(w, Release).0 == Success(s.releases % n)
                  && Next(w, Wait).0 == CallOrderInvalid)
  {
    TallyKept(n, calls);
    WaitStandsExactly(n, calls);
    var s, t := After(n, calls), Answers(n, calls).1;
    ReleaseTallied(s, t);
    WaitTallied(s, t);
    var w, u := Next(s, Wait).1, Answer(n, t, Wait).1;
    ReleaseTallied(w, u);
    WaitTallied(w, u);
  }

  /** A released image can be shown exactly when something was released and not every image is held again. */
  lemma HasReleasedExactly(n: nat, calls: seq<Call>)
    requires n > 0
    ensures var s := After(n, calls);
            HasReleasedImage(s.ring) <==> s.releases > 0 && s.acquires - s.releases < n
  {
    Reachable(n, calls);
    var s := After(n, calls);
    if s.releases > 0 {
      if s.acquires - s.releases < n {
        forall j: nat | j < |s.ring.order|
          ensures s.ring.order[j] != s.ring.lastReleased
        {
          ModDistinct(s.releases - 1, s.releases + j, n);
        }
      } else {
        ModWrap(s.releases - 1, n);
        assert s.ring.order[n - 1] == s.ring.lastReleased;
      }
    }
  }

  // ---- the class ----

  class SwapchainImages {
    var imageStates: seq<ImageState>
    var acquiredImageOrder: seq<nat>
    var nextAcquireIndex: nat
    var lastReleasedIndex: nat
    var staticImageAcquired: bool
    var hasReleasedImage: bool
    ghost var acquires: nat
    ghost var releases: nat

    ghost function View(): Run
      reads this
    {
      Run(Ring(imageStates, acquiredImageOrder, nextAcquireIndex, lastReleasedIndex, staticImageAcquired,
               hasReleasedImage), acquires, releases)
    }

    constructor (imageCount: nat)
      requires imageCount > 0
      ensures View() == Run(Initial(imageCount), 0, 0) && Inv(View())
    {
      imageStates := seq(imageCount, _ => Available);
      acquiredImageOrder, nextAcquireIndex, lastReleasedIndex := [], 0, 0;
      staticImageAcquired, hasReleasedImage := false, false;
      acquires, releases := 0, 0;
      new;
      InitialInv(imageCount);
    }

    /** The candidate loop; the image count means none is available. */
    method FindAvailable() returns (index: nat)
      requires nextAcquireIndex < |imageStates|
      ensures index <= |imageStates|
      ensures Scan(imageStates, nextAcquireIndex, 0) ==
              if index < |imageStates| then Success(index) else CallOrderInvalid
    {
      var imageCount := |imageStates|;
      for i := 0 to imageCount
        invariant Scan(imageStates, nextAcquireIndex, 0) == Scan(imageStates, nextAcquireIndex, i)
      {
        var candidate := (nextAcquireIndex + i) % imageCount;
        if imageStates[candidate] == Available {
          return candidate;
        }
      }
      index := imageCount;
    }

    method AcquireImage() returns (result: Result<nat>)
      requires Inv(View())
      modifies this
      ensures Inv(View()) && (result, View()) == Next(old(View()), Acquire)
      ensures result == (if old(acquires) == old(releases) + |imageStates| || (|imageStates| == 1 && old(acquires) > 0)
                         then CallOrderInvalid else Success(old(acquires) % |imageStates|))
      ensures result.Success? ==> acquiredImageOrder == old(acquiredImageOrder) + [result.value] &&
                                  imageStates == old(imageStates)[result.value := Acquired]
      ensures !result.Success? ==> View() == old(View())
    {
      AcquireKeepsInv(View());
      AcquireInTurn(View());
      result := DecideAcquire();
    }

    method DecideAcquire() returns (result: Result<nat>)
      requires WellFormed(View().ring)
      modifies this
      ensures (result, View()) == Next(old(View()), Acquire)
    {
      var imageCount := |imageStates|;
      if staticImageAcquired || |acquiredImageOrder| >= imageCount {
        return CallOrderInvalid;
      }
      var acquired := FindAvailable();
      if acquired == imageCount {
        return CallOrderInvalid;
      }
      imageStates := imageStates[acquired := Acquired];
      acquiredImageOrder := acquiredImageOrder + [acquired];
      nextAcquireIndex := (acquired + 1) % imageCount;
      staticImageAcquired := imageCount == 1;
      acquires := acquires + 1;
      result := Success(acquired);
    }

    method WaitImage() returns (result: Result<nat>)
      requires Inv(View())
      modifies this`imageStates
      ensures Inv(View()) && (result, View()) == Next(old(View()), Wait)
      ensures result.Success? ==> acquiredImageOrder != [] && result.value == acquiredImageOrder[0] &&
                                  imageStates == old(imageStates)[result.value := Waited]
      ensures result.Success? <==> acquiredImageOrder != [] && old(imageStates)[acquiredImageOrder[0]] == Acquired
      ensures !result.Success? ==> imageStates == old(imageStates)
    {
      WaitKeepsInv(View());
      if acquiredImageOrder == [] || imageStates[acquiredImageOrder[0]] != Acquired {
        return CallOrderInvalid;
      }
      imageStates := imageStates[acquiredImageOrder[0] := Waited];
      result := Success(acquiredImageOrder[0]);
    }

    method ReleaseImage() returns (result: Result<nat>)
      requires Inv(View())
      modifies this
      ensures Inv(View()) && (result, View()) == Next(old(View()), Release)
      ensures result.Success? <==> old(acquiredImageOrder) != [] && old(imageStates)[old(acquiredImageOrder)[0]] == Waited
      ensures result.Success? ==>
                && result.value == lastReleasedIndex == old(acquiredImageOrder)[0] && hasReleasedImage
                && imageStates[result.value] == Available && acquiredImageOrder == old(acquiredImageOrder)[1..]
      ensures !result.Success? ==> View() == old(View())
    {
      ReleaseKeepsInv(View());
      if acquiredImageOrder == [] || imageStates[acquiredImageOrder[0]] != Waited {
        return CallOrderInvalid;
      }
      lastReleasedIndex := acquiredImageOrder[0];
      imageStates := imageStates[lastReleasedIndex := Available];
      hasReleasedImage := true;
      acquiredImageOrder := acquiredImageOrder[1..];
      releases := releases + 1;
      result := Success(lastReleasedIndex);
    }
  }
}
