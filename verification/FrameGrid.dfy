/** The absolute-deadline pacing grid of Session::WaitFrame. Times are nanoseconds on the steady clock. */
module FrameGrid {
  /** deadline is None until the first call. */
  datatype Grid = Unseeded | Grid(deadline: int, period: nat)

  /** One call: the clock on entry, the clock after sleep_until if the call sleeps, and the period in force. */
  datatype Call = Call(entry: int, wake: int, period: nat)

  predicate Seeds(g: Grid, c: Call) {
    g.Unseeded? || g.period != c.period
  }

  predicate Sleeps(g: Grid, c: Call) {
    !Seeds(g, c) && c.entry < g.deadline
  }

  /** sleep_until returns at or after the deadline, however late. */
  predicate ClockOk(g: Grid, c: Call) {
    Sleeps(g, c) ==> g.deadline <= c.wake
  }

  /** When the frame is released. */
  function Release(g: Grid, c: Call): int {
    if Sleeps(g, c) then c.wake else c.entry
  }

  /** The release is more than two periods past the advanced deadline: the grid starts over. */
  predicate SnapsBack(g: Grid, c: Call) {
    !Seeds(g, c) && Release(g, c) - (g.deadline + c.period) > 2 * c.period
  }

  function Advance(g: Grid, c: Call): Grid {
    if Seeds(g, c) then Grid(c.entry + c.period, c.period)
    else if SnapsBack(g, c) then Grid(Release(g, c) + c.period, c.period)
    else Grid(g.deadline + c.period, c.period)
  }

  /** The grid before call k of a run. */
  function Before(calls: seq<Call>, k: nat): Grid
    requires k <= |calls|
  {
    if k == 0 then Unseeded else Advance(Before(calls, k - 1), calls[k - 1])
  }

  function ReleaseOf(calls: seq<Call>, k: nat): int
    requires k < |calls|
  {
    Release(Before(calls, k), calls[k])
  }

  /** A run at one period with a clock that honours sleep_until. */
  ghost predicate Run(calls: seq<Call>, period: nat) {
    forall k: nat :: k < |calls| ==> CallOk(calls, period, k)
  }

  ghost predicate CallOk(calls: seq<Call>, period: nat, k: nat)
    requires k < |calls|
  {
    calls[k].period == period && ClockOk(Before(calls, k), calls[k])
  }

  lemma SeededAfterFirst(calls: seq<Call>, period: nat, k: nat)
    requires Run(calls, period) && 0 < k <= |calls|
    ensures Before(calls, k).Grid? && Before(calls, k).period == period
  {
    assert CallOk(calls, period, k - 1);
  }

  /** No frame after the first is released before its deadline. */
  lemma NeverEarly(calls: seq<Call>, period: nat, k: nat)
    requires Run(calls, period) && 0 < k < |calls|
    ensures Before(calls, k).Grid? && Before(calls, k).deadline <= ReleaseOf(calls, k)
  {
    SeededAfterFirst(calls, period, k);
    assert CallOk(calls, period, k);
  }

  /** The next deadline is never more than two periods behind a release. */
  lemma GridKeepsUp(calls: seq<Call>, period: nat, k: nat)
    requires Run(calls, period) && k < |calls|
    ensures Before(calls, k + 1).Grid?
    ensures ReleaseOf(calls, k) - 2 * period <= Before(calls, k + 1).deadline
  {
    assert CallOk(calls, period, k);
    if k > 0 {
      SeededAfterFirst(calls, period, k);
    }
  }

  /** n periods, summed up one by one. */
  function Periods(n: nat, period: nat): nat {
    if n == 0 then 0 else Periods(n - 1, period) + period
  }

  lemma {:induction false} PeriodsIsProduct(n: nat, period: nat)
    ensures Periods(n, period) == n * period
  {
    if n > 0 {
      PeriodsIsProduct(n - 1, period);
      assert n * period == (n - 1) * period + period;
    }
  }

  lemma OneAdvance(calls: seq<Call>, period: nat, k: nat)
    requires Run(calls, period) && 0 < k < |calls|
    ensures Before(calls, k).Grid? && Before(calls, k + 1).Grid?
    ensures Before(calls, k + 1).deadline >= Before(calls, k).deadline + period
    ensures !SnapsBack(Before(calls, k), calls[k]) ==>
              Before(calls, k + 1).deadline == Before(calls, k).deadline + period
  {
    SeededAfterFirst(calls, period, k);
    assert CallOk(calls, period, k);
  }

  /** Whatever happens, later deadlines are at least one period per frame further on. */
  lemma {:induction false} DeadlinesAdvance(calls: seq<Call>, period: nat, j: nat, k: nat)
    requires Run(calls, period) && 0 < j <= k <= |calls|
    ensures Before(calls, j).Grid? && Before(calls, k).Grid?
    ensures Before(calls, j).deadline + Periods(k - j, period) <= Before(calls, k).deadline
    decreases k
  {
    SeededAfterFirst(calls, period, j);
    if j < k {
      DeadlinesAdvance(calls, period, j, k - 1);
      OneAdvance(calls, period, k - 1);
    }
  }

  lemma ReleasesSpread(calls: seq<Call>, period: nat, first: nat, n: nat)
    requires Run(calls, period) && 2 <= n && first + n <= |calls|
    ensures ReleaseOf(calls, first) + Periods(n - 2, period) <=
            ReleaseOf(calls, first + n - 1) + 2 * period
  {
    var last := first + n - 1;
    GridKeepsUp(calls, period, first);
    DeadlinesAdvance(calls, period, first + 1, last);
    NeverEarly(calls, period, last);
  }

  /**
    The rate bound: n releases in a row that span time T satisfy n <= T / period + 4, whatever stalls,
    overshoots and snap-backs lie between them.
   */
  lemma ReleaseRateBounded(calls: seq<Call>, period: nat, first: nat, n: nat)
    requires Run(calls, period) && 2 <= n && first + n <= |calls| && 0 < period
    ensures n <= (ReleaseOf(calls, first + n - 1) - ReleaseOf(calls, first)) / period + 4
  {
    ReleasesSpread(calls, period, first, n);
    var span := ReleaseOf(calls, first + n - 1) - ReleaseOf(calls, first);
    PeriodsIsProduct(n - 2, period);
    QuotientBound(n - 4, span, period);
  }

  lemma QuotientBound(q: int, a: int, d: int)
    requires d > 0 && (q + 2) * d <= a + 2 * d
    ensures q <= a / d
  {
    var r := a / d;
    assert a < r * d + d;
    if r < q {
      ProductMonotone(r + 3, q + 2, d);
    }
  }

  lemma ProductMonotone(x: int, y: int, d: int)
    requires x <= y && d > 0
    ensures x * d <= y * d
  {
  }

  /** Between snap-backs the k-th deadline after a seed is exactly seed + k * period: no drift. */
  lemma {:induction false} NoDrift(calls: seq<Call>, period: nat, j: nat, k: nat)
    requires Run(calls, period) && 0 < j <= k <= |calls|
    requires forall i: nat :: j <= i < k ==> !SnapsBack(Before(calls, i), calls[i])
    ensures Before(calls, j).Grid? && Before(calls, k).Grid?
    ensures Before(calls, k).deadline == Before(calls, j).deadline + (k - j) * period
    decreases k
  {
    SeededAfterFirst(calls, period, j);
    if j < k {
      NoDrift(calls, period, j, k - 1);
      OneAdvance(calls, period, k - 1);
      SeededAfterFirst(calls, period, k - 1);
      StepOfProduct(k - j, period);
    }
  }

  lemma StepOfProduct(n: nat, period: nat)
    requires n > 0
    ensures n * period == (n - 1) * period + period
  {
  }

  /**
    When the grid snaps back, exactly: from the first call on, deadline k is the first entry + k * period as
    long as no release is more than three periods late on that line, and the first that is ends it.
   */
  lemma {:induction false} GridHoldsUntilThreePeriodsLate(calls: seq<Call>, period: nat, k: nat)
    requires Run(calls, period) && 0 < k < |calls|
    requires forall i: nat :: 0 < i < k ==> ReleaseOf(calls, i) <= calls[0].entry + Periods(i + 3, period)
    ensures Before(calls, k) == Grid(calls[0].entry + Periods(k, period), period)
    ensures SnapsBack(Before(calls, k), calls[k]) <==>
            ReleaseOf(calls, k) > calls[0].entry + Periods(k + 3, period)
  {
    assert CallOk(calls, period, 0) && CallOk(calls, period, k);
    if k > 1 {
      GridHoldsUntilThreePeriodsLate(calls, period, k - 1);
      assert ReleaseOf(calls, k - 1) <= calls[0].entry + Periods(k - 1 + 3, period);
      assert CallOk(calls, period, k - 1);
    } else {
      assert Before(calls, 0) == Unseeded;
    }
    assert Periods(k + 3, period) == Periods(k + 2, period) + period;
    assert Periods(k + 2, period) == Periods(k + 1, period) + period;
    assert Periods(k + 1, period) == Periods(k, period) + period;
  }

  /**
    A call sleeps exactly when it comes before its deadline, and otherwise goes at once; the first call goes at once
    and seeds the grid one period ahead.
   */
  lemma SleepsExactlyWhenEarly(calls: seq<Call>, period: nat, k: nat)
    requires Run(calls, period) && k < |calls|
    ensures k == 0 ==> ReleaseOf(calls, 0) == calls[0].entry
    ensures k == 0 ==> Before(calls, 1) == Grid(calls[0].entry + period, period)
    ensures k > 0 ==> Before(calls, k).Grid? &&
                      ReleaseOf(calls, k) ==
                        if calls[k].entry < Before(calls, k).deadline then calls[k].wake else calls[k].entry
  {
    assert CallOk(calls, period, k);
    if k > 0 {
      SeededAfterFirst(calls, period, k);
    }
  }

  /** After a release that is more than two periods past the next deadline the grid starts over from it. */
  lemma SnapRestarts(calls: seq<Call>, period: nat, k: nat)
    requires Run(calls, period) && 0 < k < |calls|
    ensures Before(calls, k).Grid? && Before(calls, k + 1).Grid?
    ensures var next := Before(calls, k).deadline + period;
            Before(calls, k + 1).deadline ==
              if ReleaseOf(calls, k) - next > 2 * period then ReleaseOf(calls, k) + period else next
  {
    SeededAfterFirst(calls, period, k);
    assert CallOk(calls, period, k);
  }

  /** The session's grid fields and the pacing part of WaitFrame. */
  class FramePacer {
    var nextFrameDeadline: int
    var pacingPeriod: nat
    var seeded: bool

    ghost function View(): Grid
      reads this
    {
      if seeded then Grid(nextFrameDeadline, pacingPeriod) else Unseeded
    }

    constructor ()
      ensures View() == Unseeded
    {
      nextFrameDeadline, pacingPeriod, seeded := 0, 0, false;
    }

    method WaitFrame(c: Call) returns (released: int)
      requires ClockOk(View(), c)
      modifies this
      ensures released == Release(old(View()), c)
      ensures View() == Advance(old(View()), c)
      ensures seeded && pacingPeriod == c.period
      ensures !old(seeded) || old(pacingPeriod) != c.period ==>
                released == c.entry && nextFrameDeadline == c.entry + c.period
      ensures old(seeded) && old(pacingPeriod) == c.period ==>
                && released == (if c.entry < old(nextFrameDeadline) then c.wake else c.entry)
                && nextFrameDeadline ==
                   (if released - old(nextFrameDeadline) > 3 * c.period then released + c.period
                    else old(nextFrameDeadline) + c.period)
    {
      released := c.entry;
      if !seeded || pacingPeriod != c.period {
        pacingPeriod, seeded := c.period, true;
        nextFrameDeadline := c.entry + c.period;
      } else {
        if c.entry < nextFrameDeadline {
          released := c.wake;
        }
        nextFrameDeadline := nextFrameDeadline + c.period;
        if released - nextFrameDeadline > 2 * c.period {
          nextFrameDeadline := released + c.period;
        }
      }
    }
  }
}
