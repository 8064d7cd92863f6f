/**
  The encoder worker's wait for a frame's snapshots (SnapshotWaitPolicy.h): the short and long wait modes with their
  streak counters, and one budget shared by every image of a frame. Clock values stay far below 64 bits.
 */
module SnapshotWait {
  import opened Protocol

  datatype Settings = Settings(shortWaitNs: nat, longWaitNs: nat, enterLongAfterLate: nat, leaveLongAfterOnTime: nat)

  datatype WaitState = WaitState(longWait: bool, lateStreak: nat, onTimeStreak: nat)

  const START: WaitState := WaitState(false, 0, 0)

  function Min(x: nat, y: nat): nat {
    if x < y then x else y
  }

  function Max(x: nat, y: nat): nat {
    if x < y then y else x
  }

  function SettingsForFps(fps: nat): Settings {
    var period := 1_000_000_000 / Max(fps, 1);
    Settings(Min(period, 16_666_667), Max(period, 100_000_000), 3, U32(Max(fps, 1) * 2))
  }

  function WaitNs(state: WaitState, settings: Settings): nat {
    if state.longWait then settings.longWaitNs else settings.shortWaitNs
  }

  /** The thresholds: the short wait is one frame or 16.7 ms, the long one at least 100 ms and never shorter. */
  lemma ThresholdsFor(fps: nat)
    ensures var s := SettingsForFps(fps);
            && s.shortWaitNs <= 16_666_667 && 100_000_000 <= s.longWaitNs && s.shortWaitNs <= s.longWaitNs
            && s.enterLongAfterLate == 3
            && (0 < fps < 0x8000_0000 ==> s.leaveLongAfterOnTime == 2 * fps)
            && (0 < fps < 60 ==> s.shortWaitNs == 16_666_667)
            && (0 < fps < 10 ==> fps * s.longWaitNs <= 1_000_000_000 < fps * s.longWaitNs + fps)
            && (60 <= fps ==> fps * s.shortWaitNs <= 1_000_000_000 < fps * s.shortWaitNs + fps)
            && (10 <= fps ==> s.longWaitNs == 100_000_000)
  {
    if fps > 0 {
      PeriodIs(fps, 1_000_000_000 / fps);
    }
  }

  lemma PeriodIs(fps: nat, period: nat)
    requires fps > 0 && period == 1_000_000_000 / fps
    ensures fps * period <= 1_000_000_000 < fps * period + fps
    ensures 60 <= fps ==> period <= 16_666_666
    ensures fps < 60 ==> period >= 16_666_667
    ensures 10 <= fps ==> period <= 100_000_000
    ensures fps < 10 ==> period >= 100_000_000
  {
  }

  /** RecordSnapshotWait, once it is known whether the frame was late; the counters are uint32. */
  function Recorded(s: WaitState, settings: Settings, late: bool): WaitState {
    if late then
      var streak := Min(U32(s.lateStreak + 1), settings.enterLongAfterLate);
      WaitState(s.longWait || streak >= settings.enterLongAfterLate, streak, 0)
    else
      var streak := Min(U32(s.onTimeStreak + 1), settings.leaveLongAfterOnTime);
      WaitState(s.longWait && streak < settings.leaveLongAfterOnTime, 0, streak)
  }

  function Replay(settings: Settings, history: seq<bool>): WaitState {
    if history == [] then START
    else Recorded(Replay(settings, history[..|history| - 1]), settings, history[|history| - 1])
  }

  // ---- the history definition ----

  /** The last n frames before position i, at least one, were all late (or all on time). */
  predicate RunEndsAt(history: seq<bool>, i: nat, late: bool, n: nat) {
    Max(n, 1) <= i <= |history| && forall j :: i - Max(n, 1) <= j < i ==> history[j] == late
  }

  predicate NoneLater(settings: Settings, history: seq<bool>, i: nat) {
    forall k: nat :: i < k <= |history| ==> !RunEndsAt(history, k, false, settings.leaveLongAfterOnTime)
  }

  /** The latest qualifying run of the history was a late one. */
  ghost predicate LongByHistory(settings: Settings, history: seq<bool>) {
    exists i: nat ::
      RunEndsAt(history, i, true, settings.enterLongAfterLate) && NoneLater(settings, history, i)
  }

  /** How many frames at the end of the history were all late (or all on time). */
  function Trailing(history: seq<bool>, late: bool): (n: nat)
    ensures n <= |history|
  {
    if history == [] || history[|history| - 1] != late then 0
    else Trailing(history[..|history| - 1], late) + 1
  }

  lemma {:induction false} TrailingIsARun(history: seq<bool>, late: bool, n: nat)
    ensures RunEndsAt(history, |history|, late, n) <==> Trailing(history, late) >= Max(n, 1)
  {
    if history != [] && history[|history| - 1] == late && n > 1 {
      var front := history[..|history| - 1];
      TrailingIsARun(front, late, n - 1);
    }
  }

  lemma RunsBefore(history: seq<bool>, late: bool, i: nat, flag: bool, n: nat)
    requires i <= |history|
    ensures RunEndsAt(history + [late], i, flag, n) <==> RunEndsAt(history, i, flag, n)
  {
    assert forall j :: 0 <= j < |history| ==> (history + [late])[j] == history[j];
  }

  lemma RunEndsWith(history: seq<bool>, late: bool, flag: bool, n: nat)
    ensures RunEndsAt(history + [late], |history| + 1, flag, n) ==> late == flag
  {
    assert (history + [late])[|history|] == late;
  }

  lemma NoneLaterStep(settings: Settings, history: seq<bool>, late: bool, i: nat)
    requires i <= |history|
    ensures NoneLater(settings, history + [late], i) <==>
              NoneLater(settings, history, i) &&
              !RunEndsAt(history + [late], |history| + 1, false, settings.leaveLongAfterOnTime)
  {
    var all, n := history + [late], settings.leaveLongAfterOnTime;
    forall k: nat | k <= |history|
      ensures RunEndsAt(all, k, false, n) <==> RunEndsAt(history, k, false, n)
    {
      RunsBefore(history, late, k, false, n);
    }
    if NoneLater(settings, all, i) {
      assert !RunEndsAt(all, |all|, false, n);
    }
  }

  /** Appending a frame: a qualifying late run makes the mode long, a qualifying on-time run short. */
  lemma LongStep(settings: Settings, history: seq<bool>, late: bool)
    ensures LongByHistory(settings, history + [late]) <==>
              if late then LongByHistory(settings, history) ||
                           RunEndsAt(history + [late], |history| + 1, true, settings.enterLongAfterLate)
              else LongByHistory(settings, history) &&
                   !RunEndsAt(history + [late], |history| + 1, false, settings.leaveLongAfterOnTime)
  {
    var all, n := history + [late], settings.enterLongAfterLate;
    RunEndsWith(history, late, true, n);
    RunEndsWith(history, late, false, settings.leaveLongAfterOnTime);
    if LongByHistory(settings, all) {
      var i: nat :| RunEndsAt(all, i, true, n) && NoneLater(settings, all, i);
      if i <= |history| {
        RunsBefore(history, late, i, true, n);
        NoneLaterStep(settings, history, late, i);
      }
    }
    if LongByHistory(settings, history) {
      var i: nat :| RunEndsAt(history, i, true, n) && NoneLater(settings, history, i);
      RunsBefore(history, late, i, true, n);
      NoneLaterStep(settings, history, late, i);
    }
    if RunEndsAt(all, |all|, true, n) {
      assert NoneLater(settings, all, |all|);
    }
  }

  /** In the short mode the late streak is exact, in the long mode the on-time streak is. */
  predicate StreaksExact(s: WaitState, settings: Settings, history: seq<bool>) {
    && (!s.longWait ==> s.lateStreak == Trailing(history, true) && s.lateStreak < Max(settings.enterLongAfterLate, 1))
    && (s.longWait ==> s.onTimeStreak == Trailing(history, false) &&
                       s.onTimeStreak < Max(settings.leaveLongAfterOnTime, 1))
  }

  lemma TrailingAppend(history: seq<bool>, late: bool, flag: bool)
    ensures Trailing(history + [late], flag) == if late == flag then Trailing(history, flag) + 1 else 0
  {
    assert (history + [late])[..|history|] == history;
  }

  /** next is one more than streak as far as the threshold matters. */
  predicate CountsOn(streak: nat, next: nat, limit: nat) {
    && (next >= limit <==> streak + 1 >= Max(limit, 1))
    && (next < limit ==> next == streak + 1)
  }

  /** A streak below the threshold counts on without wrapping, up to the threshold. */
  lemma StreakStep(streak: nat, limit: nat)
    requires limit <= 0xFFFF_FFFF && streak < Max(limit, 1)
    ensures CountsOn(streak, Min(U32(streak + 1), limit), limit)
  {
  }

  lemma LateStep(s: WaitState, settings: Settings, history: seq<bool>, streak: nat)
    requires StreaksExact(s, settings, history)
    requires !s.longWait ==> CountsOn(s.lateStreak, streak, settings.enterLongAfterLate)
    ensures var next := WaitState(s.longWait || streak >= settings.enterLongAfterLate, streak, 0);
            && (next.longWait <==> s.longWait || Trailing(history, true) + 1 >= Max(settings.enterLongAfterLate, 1))
            && StreaksExact(next, settings, history + [true])
  {
    TrailingAppend(history, true, true);
    TrailingAppend(history, true, false);
  }

  lemma OnTimeStep(s: WaitState, settings: Settings, history: seq<bool>, streak: nat)
    requires StreaksExact(s, settings, history)
    requires s.longWait ==> CountsOn(s.onTimeStreak, streak, settings.leaveLongAfterOnTime)
    ensures var next := WaitState(s.longWait && streak < settings.leaveLongAfterOnTime, 0, streak);
            && (next.longWait <==> s.longWait && Trailing(history, false) + 1 < Max(settings.leaveLongAfterOnTime, 1))
            && StreaksExact(next, settings, history + [false])
  {
    TrailingAppend(history, false, true);
    TrailingAppend(history, false, false);
  }

  /** One frame: the mode flips exactly on a qualifying run, and the streaks stay exact. */
  lemma RecordedStep(s: WaitState, settings: Settings, history: seq<bool>, late: bool)
    requires settings.enterLongAfterLate <= 0xFFFF_FFFF && settings.leaveLongAfterOnTime <= 0xFFFF_FFFF
    requires StreaksExact(s, settings, history)
    ensures var next := Recorded(s, settings, late);
            && (next.longWait <==>
                  if late then s.longWait || Trailing(history, true) + 1 >= Max(settings.enterLongAfterLate, 1)
                  else s.longWait && Trailing(history, false) + 1 < Max(settings.leaveLongAfterOnTime, 1))
            && StreaksExact(next, settings, history + [late])
  {
    if late {
      if !s.longWait {
        StreakStep(s.lateStreak, settings.enterLongAfterLate);
      }
      LateStep(s, settings, history, Min(U32(s.lateStreak + 1), settings.enterLongAfterLate));
    } else {
      if s.longWait {
        StreakStep(s.onTimeStreak, settings.leaveLongAfterOnTime);
      }
      OnTimeStep(s, settings, history, Min(U32(s.onTimeStreak + 1), settings.leaveLongAfterOnTime));
    }
  }

  /** The saturating counters compute the history definition, even where they would wrap. */
  lemma {:induction false} ModeIsLatestRun(settings: Settings, history: seq<bool>)
    requires settings.enterLongAfterLate <= 0xFFFF_FFFF && settings.leaveLongAfterOnTime <= 0xFFFF_FFFF
    ensures Replay(settings, history).longWait <==> LongByHistory(settings, history)
    ensures StreaksExact(Replay(settings, history), settings, history)
  {
    if history != [] {
      var front, late := history[..|history| - 1], history[|history| - 1];
      assert history == front + [late];
      ModeIsLatestRun(settings, front);
      LongStep(settings, front, late);
      RecordedStep(Replay(settings, front), settings, front, late);
      TrailingIsARun(history, late, if late then settings.enterLongAfterLate else settings.leaveLongAfterOnTime);
    }
  }

  // ---- switches ----

  /** Frame number i, counted from 1, switched the mode. */
  predicate SwitchedAt(settings: Settings, history: seq<bool>, i: nat)
    requires 1 <= i <= |history|
  {
    Replay(settings, history[..i]).longWait != Replay(settings, history[..i - 1]).longWait
  }

  lemma SwitchNeedsRun(settings: Settings, history: seq<bool>, i: nat)
    requires settings.enterLongAfterLate <= 0xFFFF_FFFF && settings.leaveLongAfterOnTime <= 0xFFFF_FFFF
    requires 1 <= i <= |history| && SwitchedAt(settings, history, i)
    ensures var long := Replay(settings, history[..i]).longWait;
            RunEndsAt(history, i, long, if long then settings.enterLongAfterLate else settings.leaveLongAfterOnTime)
  {
    var front := history[..i - 1];
    assert history[..i] == front + [history[i - 1]];
    ModeIsLatestRun(settings, front);
    ModeIsLatestRun(settings, history[..i]);
    LongStep(settings, front, history[i - 1]);
  }

  /** A late frame never ends the long mode, an on-time frame never starts it. */
  lemma {:induction false} ModeKept(settings: Settings, history: seq<bool>, i: nat, j: nat, late: bool)
    requires i <= j <= |history| && Replay(settings, history[..i]).longWait == late
    requires forall k :: i <= k < j ==> history[k] == late
    ensures Replay(settings, history[..j]).longWait == late
  {
    if i < j {
      ModeKept(settings, history, i, j - 1, late);
      assert history[..j][..j - 1] == history[..j - 1];
    }
  }

  /**
    Two switches are at least as many frames apart as the threshold of the second: enterLongAfterLate frames before
    going long, leaveLongAfterOnTime before going back (one, if the threshold is zero).
   */
  lemma SwitchesApart(settings: Settings, history: seq<bool>, p: nat, q: nat)
    requires settings.enterLongAfterLate <= 0xFFFF_FFFF && settings.leaveLongAfterOnTime <= 0xFFFF_FFFF
    requires 1 <= p < q <= |history|
    requires SwitchedAt(settings, history, p) && SwitchedAt(settings, history, q)
    ensures q - p >= Max(if Replay(settings, history[..q]).longWait then settings.enterLongAfterLate
                         else settings.leaveLongAfterOnTime, 1)
  {
    var long := Replay(settings, history[..q]).longWait;
    var n := Max(if long then settings.enterLongAfterLate else settings.leaveLongAfterOnTime, 1);
    SwitchNeedsRun(settings, history, p);
    SwitchNeedsRun(settings, history, q);
    if q - p < n {
      assert history[p - 1] == long;
      ModeKept(settings, history, p, q - 1, long);
      assert false;
    }
  }

  class SnapshotWaitMode {
    const settings: Settings
    var longWait: bool
    var lateStreak: nat
    var onTimeStreak: nat
    ghost var history: seq<bool>

    ghost predicate Valid()
      reads this
    {
      WaitState(longWait, lateStreak, onTimeStreak) == Replay(settings, history) &&
      settings.enterLongAfterLate <= 0xFFFF_FFFF && settings.leaveLongAfterOnTime <= 0xFFFF_FFFF
    }

    constructor (fps: nat)
      ensures Valid() && settings == SettingsForFps(fps) && history == []
    {
      settings := SettingsForFps(fps);
      longWait, lateStreak, onTimeStreak, history := false, 0, 0, [];
    }

    /** Records one frame's wait; the mode is the one its history defines, and switched tells that it changed. */
    method Record(ready: bool, waitedNs: nat) returns (switched: bool)
      requires Valid()
      modifies this
      ensures Valid() && history == old(history) + [!ready || waitedNs > settings.shortWaitNs]
      ensures longWait <==> LongByHistory(settings, history)
      ensures switched <==> longWait != old(longWait)
    {
      var late := !ready || waitedNs > settings.shortWaitNs;
      ghost var all := history + [late];
      ModeIsLatestRun(settings, all);
      assert all[..|all| - 1] == history;
      switched := Count(late);
      history := all;
    }

    method Count(late: bool) returns (switched: bool)
      modifies this`longWait, this`lateStreak, this`onTimeStreak
      ensures WaitState(longWait, lateStreak, onTimeStreak) ==
              Recorded(old(WaitState(longWait, lateStreak, onTimeStreak)), settings, late)
      ensures switched <==> longWait != old(longWait)
    {
      switched := false;
      if late {
        onTimeStreak := 0;
        lateStreak := Min(U32(lateStreak + 1), settings.enterLongAfterLate);
        if !longWait && lateStreak >= settings.enterLongAfterLate {
          longWait := true;
          return true;
        }
      } else {
        lateStreak := 0;
        onTimeStreak := Min(U32(onTimeStreak + 1), settings.leaveLongAfterOnTime);
        if longWait && onTimeStreak >= settings.leaveLongAfterOnTime {
          longWait := false;
          return true;
        }
      }
    }
  }

  // ---- one frame's images ----

  datatype HostWait = HostWait(ready: bool, tookNs: nat)

  /** What waiting for image number k with some timeout comes to. */
  type Host = (nat, nat) -> HostWait

  /** Each host wait respects its own timeout. */
  ghost predicate Punctual(host: Host) {
    forall k: nat, timeout: nat :: host(k, timeout).tookNs <= timeout
  }

  datatype WaitResult = Ready | TimedOut | Superseded

  function Timeout(nowNs: nat, deadlineNs: nat): nat {
    if nowNs < deadlineNs then deadlineNs - nowNs else 0
  }

  /** The frame's surroundings: the time that passes before each clock reading, and the host. */
  datatype Frame = Frame(startNs: nat, budgetNs: nat, gapNs: nat -> nat, host: Host)

  /** The clock at the start of image k's wait, when all before it were waited for. */
  function StartOf(f: Frame, k: nat): nat
    decreases k, 1
  {
    EndOf(f, k) + f.gapNs(k)
  }

  /** The clock after the waits for the first k images. */
  function EndOf(f: Frame, k: nat): nat
    decreases k, 0
  {
    if k == 0 then f.startNs else StartOf(f, k - 1) + Waited(f, k - 1).tookNs
  }

  function Waited(f: Frame, k: nat): HostWait
    decreases k, 2
  {
    f.host(k, Timeout(StartOf(f, k), f.startNs + f.budgetNs))
  }

  function Spent(f: Frame, k: nat): nat {
    if k == 0 then 0 else Spent(f, k - 1) + Waited(f, k - 1).tookNs
  }

  function Gaps(f: Frame, k: nat): nat {
    if k == 0 then 0 else Gaps(f, k - 1) + f.gapNs(k - 1)
  }

  /** Waits of all images together take one budget at most, whatever else takes time. */
  lemma {:induction false} OneBudget(f: Frame, k: nat)
    requires Punctual(f.host)
    ensures Spent(f, k) <= f.budgetNs
    ensures EndOf(f, k) == f.startNs + Spent(f, k) + Gaps(f, k)
  {
    if k > 0 {
      OneBudget(f, k - 1);
      var deadlineNs := f.startNs + f.budgetNs;
      assert StartOf(f, k - 1) >= f.startNs + Spent(f, k - 1);
      assert Waited(f, k - 1).tookNs <= Timeout(StartOf(f, k - 1), deadlineNs);
    }
  }

  /** Each image is waited for with what the waits and the gaps before it have left of the budget. */
  lemma RestOfBudget(f: Frame, k: nat, goneNs: nat, restNs: nat)
    requires Punctual(f.host) && goneNs == Spent(f, k) + Gaps(f, k + 1)
    requires restNs == if goneNs < f.budgetNs then f.budgetNs - goneNs else 0
    ensures Waited(f, k) == f.host(k, restNs)
  {
    StartIs(f, k, goneNs);
    TimeoutIs(f.startNs, f.budgetNs, goneNs);
    WaitedFor(f, k, f.startNs + goneNs, restNs);
  }

  lemma WaitedFor(f: Frame, k: nat, nowNs: nat, restNs: nat)
    requires nowNs == StartOf(f, k) && restNs == Timeout(nowNs, f.startNs + f.budgetNs)
    ensures Waited(f, k) == f.host(k, restNs)
  {
  }

  lemma StartIs(f: Frame, k: nat, goneNs: nat)
    requires Punctual(f.host) && goneNs == Spent(f, k) + Gaps(f, k + 1)
    ensures StartOf(f, k) == f.startNs + goneNs
  {
    OneBudget(f, k);
  }

  lemma TimeoutIs(startNs: nat, budgetNs: nat, goneNs: nat)
    ensures Timeout(startNs + goneNs, startNs + budgetNs) == if goneNs < budgetNs then budgetNs - goneNs else 0
  {
  }

  ghost predicate AllReady(f: Frame, k: nat) {
    forall j: nat :: j < k ==> Waited(f, j).ready
  }

  /** Of n images, the first waits were waited for, and the last of them is the first that was not ready, if any. */
  ghost predicate Stopped(f: Frame, waits: nat, n: nat, ready: bool) {
    if ready then waits == n && AllReady(f, n)
    else 0 < waits <= n && !Waited(f, waits - 1).ready && AllReady(f, waits - 1)
  }

  class Waiter {
    var nowNs: nat
    var waits: nat
    var spentNs: nat

    constructor (nowNs: nat)
      ensures this.nowNs == nowNs && waits == 0 && spentNs == 0
    {
      this.nowNs, waits, spentNs := nowNs, 0, 0;
    }

    /** The first waits images were waited for. */
    ghost predicate At(f: Frame)
      reads this
    {
      nowNs == EndOf(f, waits) && spentNs == Spent(f, waits)
    }

    method WaitWithinBudget(f: Frame) returns (ready: bool)
      requires At(f)
      modifies this
      ensures At(f) && waits == old(waits) + 1
      ensures ready == Waited(f, old(waits)).ready
    {
      var startNs := nowNs + f.gapNs(waits);
      var deadlineNs := f.startNs + f.budgetNs;
      var wait := f.host(waits, if startNs < deadlineNs then deadlineNs - startNs else 0);
      assert wait == Waited(f, waits);
      nowNs := startNs + wait.tookNs;
      spentNs := spentNs + wait.tookNs;
      waits := waits + 1;
      ready := wait.ready;
    }

    method WaitForOverlays(f: Frame, overlays: nat) returns (ready: bool)
      requires At(f) && waits == 0
      modifies this
      ensures At(f) && Stopped(f, waits, overlays, ready)
    {
      ready := true;
      for i := 0 to overlays
        invariant At(f) && Stopped(f, waits, i, ready)
      {
        if ready {
          ready := WaitWithinBudget(f);
        }
      }
    }

    method WaitForEyes(f: Frame, overlays: nat, stereo: bool) returns (ready: bool)
      requires At(f) && Stopped(f, waits, overlays, true)
      modifies this
      ensures At(f) && Stopped(f, waits, overlays + (if stereo then 2 else 1), ready)
    {
      ready := WaitWithinBudget(f);
      if ready && stereo {
        ready := WaitWithinBudget(f);
      }
    }

    /**
      The waits of a frame never exceed one budget in all; they stop at the first image that is not ready; the frame
      is used exactly if every image was ready and no newer frame has finished.
     */
    method WaitForFrameSnapshots(f: Frame, overlays: nat, stereo: bool, superseded: bool)
      returns (result: WaitResult, waitedNs: nat)
      requires nowNs == f.startNs && waits == 0 && spentNs == 0 && Punctual(f.host)
      modifies this
      ensures Stopped(f, waits, overlays + (if stereo then 2 else 1), result != TimedOut)
      ensures result != TimedOut ==> (result == Superseded <==> superseded)
      ensures spentNs == Spent(f, waits) <= f.budgetNs
      ensures waitedNs == spentNs + Gaps(f, waits + 1)
    {
      var ready := WaitForOverlays(f, overlays);
      if ready {
        ready := WaitForEyes(f, overlays, stereo);
      }
      OneBudget(f, waits);
      waitedNs := nowNs + f.gapNs(waits) - f.startNs;
      if !ready {
        return TimedOut, waitedNs;
      }
      result := if superseded then Superseded else Ready;
    }
  }

  /** With no time passing outside the waits, the time reported is within the budget too. */
  lemma {:induction false} NoGapsNoOverrun(f: Frame, k: nat)
    requires Punctual(f.host) && forall j :: f.gapNs(j) == 0
    ensures Gaps(f, k) == 0 && EndOf(f, k) <= f.startNs + f.budgetNs
  {
    OneBudget(f, k);
    if k > 0 {
      NoGapsNoOverrun(f, k - 1);
    }
  }

  /**
    A frame's budget is the wait of the mode it starts in. So no frame waits longer than its mode allows, and in the
    short mode a frame that is ready is late only through the time that passes outside the waits.
   */
  lemma BudgetOfTheMode(state: WaitState, settings: Settings, f: Frame, k: nat)
    requires Punctual(f.host) && f.budgetNs == WaitNs(state, settings)
    ensures Spent(f, k) <= if state.longWait then settings.longWaitNs else settings.shortWaitNs
    ensures !state.longWait && Spent(f, k) + Gaps(f, k + 1) > settings.shortWaitNs ==>
              0 < Spent(f, k) + Gaps(f, k + 1) - settings.shortWaitNs <= Gaps(f, k + 1)
  {
    OneBudget(f, k);
  }
}
