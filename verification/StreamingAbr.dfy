/**
  The adaptive-bitrate controller (StreamingAbr.h): a window of five client samples, a fast downshift and a slow
  recovery. Floats are reals; the uint32 arithmetic wraps.
 */
module StreamingAbr {
  import opened Protocol

  datatype Mode = Off | BitrateOnly | Full

  datatype Health = Stable | Constrained | Recovery

  datatype Profile = Balanced | FixedScale | Smooth | WifiSmooth | Quality

  datatype Sample = Sample(
    latencyMs: real,
    frameAgeMs: real,
    keyframeRequests: nat,
    sendDrops: nat,
    encoderDrops: nat,
    reprojected: nat,
    staleReuses: nat,
    poseFallbacks: nat)

  datatype Decision = Decision(state: Health, bitrate: nat, bitrateChanged: bool, profile: Profile, scale: real)

  datatype Abr = Abr(
    mode: Mode,
    state: Health,
    current: nat,
    max: nat,
    configuredScale: real,
    minimumScale: real,
    stableWindows: nat,
    hold: nat,
    profile: Profile,
    samples: seq<Sample>)

  const WINDOW := 5
  const MIN_BITRATE := 10
  const STABLE_BEFORE_INCREASE := 5
  const HOLD_WINDOWS := 4

  /** From this bitrate up, adding a twentieth leaves 32 bits. */
  const WRAPPING_BITRATE := 4_090_445_044

  function Clamp(x: real, low: real, high: real): real {
    if x < low then low else if high < x then high else x
  }

  function Initial(mode: Mode, current: nat, max: nat, configuredScale: real, minimumScale: real): Abr {
    var top := if max < MIN_BITRATE then MIN_BITRATE else max;
    var scale := Clamp(configuredScale, 0.25, 1.0);
    Abr(mode, Stable,
        if current < MIN_BITRATE then MIN_BITRATE else if top < current then top else current, top,
        scale, Clamp(minimumScale, 0.25, scale), 0, 0, Balanced, [])
  }

  function Total(samples: seq<Sample>, get: Sample -> real): real {
    if samples == [] then 0.0 else Total(samples[..|samples| - 1], get) + get(samples[|samples| - 1])
  }

  function AverageOf(samples: seq<Sample>, get: Sample -> real): real {
    if samples == [] then 0.0 else Total(samples, get) / |samples| as real
  }

  const LATENCY: Sample -> real := (s: Sample) => s.latencyMs
  const FRAME_AGE: Sample -> real := (s: Sample) => s.frameAgeMs
  const REPROJECTED: Sample -> real := (s: Sample) => s.reprojected as real
  const STALE_REUSES: Sample -> real := (s: Sample) => s.staleReuses as real

  function Pushed(samples: seq<Sample>, sample: Sample): seq<Sample> {
    var all := samples + [sample];
    if |all| > WINDOW then all[1..] else all
  }

  predicate NeedsRecovery(s: Sample) {
    s.keyframeRequests > 0 || s.sendDrops > 1 || s.encoderDrops > 0 || s.frameAgeMs >= 85.0 || s.reprojected >= 12 ||
    s.staleReuses >= 18
  }

  predicate AveragesConstrain(window: seq<Sample>) {
    AverageOf(window, LATENCY) >= 45.0 || AverageOf(window, FRAME_AGE) >= 55.0 ||
    AverageOf(window, REPROJECTED) >= 4.0 || AverageOf(window, STALE_REUSES) >= 6.0
  }

  function HealthOf(window: seq<Sample>, sample: Sample): Health {
    if NeedsRecovery(sample) then Recovery
    else if AveragesConstrain(window) || sample.poseFallbacks >= 2 then Constrained
    else Stable
  }

  function Lowered(current: nat, state: Health): nat {
    var cut := U32(current * (if state == Recovery then 80 else 90)) / 100;
    if cut < MIN_BITRATE then MIN_BITRATE else cut
  }

  function Raised(current: nat, max: nat): nat {
    var next := U32(current + (if current / 20 < 1 then 1 else current / 20));
    if max < next then max else next
  }

  function ProfileFor(c: Abr): Profile {
    if c.mode != Full then FixedScale
    else if c.state == Recovery then WifiSmooth
    else if c.state == Constrained then Smooth
    else if c.hold == 0 && AverageOf(c.samples, FRAME_AGE) < 30.0 && AverageOf(c.samples, REPROJECTED) < 1.0 &&
            c.current >= U32(c.max * 9) / 10 then Quality
    else Balanced
  }

  function ScaleFor(c: Abr, profile: Profile): real {
    if c.mode != Full then c.configuredScale
    else if profile == WifiSmooth then Larger(c.minimumScale, c.configuredScale * 0.70)
    else if profile == Smooth then Larger(c.minimumScale, c.configuredScale * 0.85)
    else c.configuredScale
  }

  function Larger(x: real, y: real): real {
    if x < y then y else x
  }

  /** The counters and the bitrate, once the sample is in the window and the state is known. */
  function Adjusted(c: Abr): Abr {
    if c.state != Stable then
      c.(stableWindows := 0, current := Lowered(c.current, c.state),
         hold := if c.hold < HOLD_WINDOWS then HOLD_WINDOWS else c.hold)
    else
      var hold := if c.hold > 0 then c.hold - 1 else 0;
      var stable := U32(c.stableWindows + 1);
      if stable >= STABLE_BEFORE_INCREASE && c.current < c.max then
        c.(hold := hold, stableWindows := 0, current := Raised(c.current, c.max))
      else c.(hold := hold, stableWindows := stable)
  }

  function Updated(c: Abr, sample: Sample): Abr {
    if c.mode == Off then c.(state := Stable)
    else
      var window := Pushed(c.samples, sample);
      var next := Adjusted(c.(samples := window, state := HealthOf(window, sample)));
      next.(profile := ProfileFor(next))
  }

  function DecisionOf(before: Abr, after: Abr): Decision {
    Decision(after.state, after.current, after.current != before.current, after.profile,
             ScaleFor(after, after.profile))
  }

  function Run(c: Abr, samples: seq<Sample>): Abr {
    if samples == [] then c else Updated(Run(c, samples[..|samples| - 1]), samples[|samples| - 1])
  }

  // ---- every run stays in range ----

  predicate Inv(c: Abr) {
    && MIN_BITRATE <= c.current <= c.max
    && |c.samples| <= WINDOW
    && 0.0 < c.minimumScale <= c.configuredScale <= 1.0
    && (c.current < c.max ==> c.stableWindows < STABLE_BEFORE_INCREASE)
  }

  lemma LoweredFalls(current: nat, state: Health)
    requires current >= MIN_BITRATE && state != Stable
    ensures MIN_BITRATE <= Lowered(current, state) <= current
    ensures current > MIN_BITRATE ==> Lowered(current, state) < current
  {
    var product := current * (if state == Recovery then 80 else 90);
    assert U32(product) <= product <= current * 90;
  }

  /** Adding a twentieth moves up by at least one, unless it wraps. */
  lemma RaisedRises(current: nat, max: nat)
    requires MIN_BITRATE <= current < max && current < WRAPPING_BITRATE
    ensures current < Raised(current, max) <= max
  {
  }

  lemma UpdatedKeepsInv(c: Abr, sample: Sample)
    requires Inv(c) && c.max <= WRAPPING_BITRATE
    ensures Inv(Updated(c, sample)) && Updated(c, sample).max == c.max
    ensures Updated(c, sample).mode == c.mode
  {
    if c.mode != Off {
      var state := HealthOf(Pushed(c.samples, sample), sample);
      if state != Stable {
        LoweredFalls(c.current, state);
      } else if c.current < c.max {
        RaisedRises(c.current, c.max);
      }
    }
  }

  lemma {:induction false} RunKeepsInv(c: Abr, samples: seq<Sample>)
    requires Inv(c) && c.max <= WRAPPING_BITRATE
    ensures Inv(Run(c, samples)) && Run(c, samples).max == c.max && Run(c, samples).mode == c.mode
  {
    if samples != [] {
      RunKeepsInv(c, samples[..|samples| - 1]);
      UpdatedKeepsInv(Run(c, samples[..|samples| - 1]), samples[|samples| - 1]);
    }
  }

  ghost predicate InRange(c: Abr) {
    MIN_BITRATE <= c.current <= c.max
  }

  // ---- clean samples ----

  /** Below every threshold, those on single samples and those on averages. */
  predicate Clean(s: Sample) {
    s.keyframeRequests == 0 && s.sendDrops <= 1 && s.encoderDrops == 0 && s.poseFallbacks < 2 &&
    s.latencyMs < 45.0 && s.frameAgeMs < 55.0 && s.reprojected < 4 && s.staleReuses < 6
  }

  predicate AllClean(samples: seq<Sample>) {
    forall i :: 0 <= i < |samples| ==> Clean(samples[i])
  }

  lemma {:induction false} TotalBelow(samples: seq<Sample>, get: Sample -> real, limit: real)
    requires samples != [] && forall i :: 0 <= i < |samples| ==> get(samples[i]) < limit
    ensures Total(samples, get) < |samples| as real * limit
  {
    var n := |samples| - 1;
    if n > 0 {
      TotalBelow(samples[..n], get, limit);
      assert (n + 1) as real * limit == n as real * limit + limit;
    }
  }

  lemma AverageBelow(samples: seq<Sample>, get: Sample -> real, limit: real)
    requires samples != [] && forall i :: 0 <= i < |samples| ==> get(samples[i]) < limit
    ensures AverageOf(samples, get) < limit
  {
    TotalBelow(samples, get, limit);
    Divide(Total(samples, get), |samples| as real, limit);
  }

  lemma Divide(total: real, n: real, limit: real)
    requires n > 0.0 && total < n * limit
    ensures total / n < limit
  {
    var q := total / n;
    assert q * n == total;
    if q >= limit {
      MulGrows(limit, q, n);
      assert false;
    }
  }

  lemma MulGrows(x: real, y: real, n: real)
    requires x <= y && n > 0.0
    ensures x * n <= y * n
  {
  }

  /** A clean sample in a clean window leaves nothing to constrain the averages. */
  lemma StableOnClean(window: seq<Sample>, sample: Sample)
    requires Clean(sample) && AllClean(Pushed(window, sample))
    ensures HealthOf(Pushed(window, sample), sample) == Stable
  {
    var w := Pushed(window, sample);
    AverageBelow(w, LATENCY, 45.0);
    AverageBelow(w, FRAME_AGE, 55.0);
    AverageBelow(w, REPROJECTED, 4.0);
    AverageBelow(w, STALE_REUSES, 6.0);
  }

  lemma CleanStep(c: Abr, sample: Sample)
    requires c.mode != Off && AllClean(c.samples) && Clean(sample)
    ensures var stable := Adjusted(c.(samples := Pushed(c.samples, sample), state := Stable));
            Updated(c, sample) == stable.(profile := ProfileFor(stable)) && AllClean(Updated(c, sample).samples)
  {
    StableOnClean(c.samples, sample);
  }

  // ---- convergence ----

  /** How many more stable updates there can be before the bitrate is max. */
  function Gap(c: Abr): int {
    if c.current >= c.max then 0 else 5 * (c.max - c.current) - c.stableWindows
  }

  /** The last n samples of a window, or all of them if it has fewer, are clean. */
  predicate CleanTail(w: seq<Sample>, n: nat) {
    |w| <= WINDOW && forall i :: 0 <= i < |w| && |w| - n <= i ==> Clean(w[i])
  }

  lemma PushedCleanTail(w: seq<Sample>, n: nat, sample: Sample)
    requires CleanTail(w, n) && Clean(sample)
    ensures CleanTail(Pushed(w, sample), n + 1)
  {
  }

  /** After n clean samples the last n of the window are clean. */
  lemma {:induction false} TailClean(c: Abr, samples: seq<Sample>)
    requires c.mode != Off && |c.samples| <= WINDOW && AllClean(samples)
    ensures Run(c, samples).mode == c.mode && CleanTail(Run(c, samples).samples, |samples|)
  {
    if samples != [] {
      var n := |samples| - 1;
      TailClean(c, samples[..n]);
      PushedCleanTail(Run(c, samples[..n]).samples, n, samples[n]);
    }
  }

  lemma StableCloses(c: Abr, sample: Sample)
    requires Inv(c) && c.mode != Off && c.max <= WRAPPING_BITRATE
    requires HealthOf(Pushed(c.samples, sample), sample) == Stable
    ensures Gap(Updated(c, sample)) <= (if Gap(c) > 0 then Gap(c) - 1 else 0)
  {
    if c.current < c.max {
      RaisedRises(c.current, c.max);
    }
  }

  lemma {:induction false} GapCloses(c: Abr, samples: seq<Sample>)
    requires Inv(c) && c.mode != Off && c.max <= WRAPPING_BITRATE && AllClean(samples) && |samples| >= 4
    ensures Gap(Run(c, samples)) <= (if |samples| - 4 <= 5 * (c.max - MIN_BITRATE)
                                     then 5 * (c.max - MIN_BITRATE) - (|samples| - 4) else 0)
  {
    RunKeepsInv(c, samples);
    if |samples| > 4 {
      var n := |samples| - 1;
      GapCloses(c, samples[..n]);
      RunKeepsInv(c, samples[..n]);
      TailClean(c, samples[..n]);
      var before := Run(c, samples[..n]);
      assert AllClean(Pushed(before.samples, samples[n]));
      StableOnClean(before.samples, samples[n]);
      StableCloses(before, samples[n]);
    }
  }

  /**
    From the end of any run, 4 + 5 * (max - 10) consecutive samples below every threshold, or more, bring the bitrate
    to exactly max.
   */
  lemma Recovers(mode: Mode, current: nat, max: nat, scale: real, minimum: real, before: seq<Sample>,
                 clean: seq<Sample>)
    requires mode != Off && MIN_BITRATE <= max <= WRAPPING_BITRATE
    requires AllClean(clean) && |clean| >= 4 + 5 * (max - MIN_BITRATE)
    ensures Run(Run(Initial(mode, current, max, scale, minimum), before), clean).current == max
  {
    var c := Run(Initial(mode, current, max, scale, minimum), before);
    RunKeepsInv(Initial(mode, current, max, scale, minimum), before);
    GapCloses(c, clean);
    RunKeepsInv(c, clean);
  }

  /** The controller after the first i samples. */
  function After(c: Abr, samples: seq<Sample>, i: nat): Abr
    requires i <= |samples|
  {
    Run(c, samples[..i])
  }

  predicate AllUnhealthy(c: Abr, samples: seq<Sample>) {
    forall i :: 1 <= i <= |samples| ==> After(c, samples, i).state != Stable
  }

  lemma UnhealthyStepLowers(c: Abr, sample: Sample)
    requires Inv(c) && c.mode != Off && Updated(c, sample).state != Stable
    ensures Updated(c, sample).current < c.current || Updated(c, sample).current == c.current == MIN_BITRATE
  {
    LoweredFalls(c.current, Updated(c, sample).state);
  }

  /**
    Each of a run of updates that are not stable lowers the bitrate, until it is 10: after n of them it has fallen by
    at least n, or to 10.
   */
  lemma {:induction false} UnhealthyReachesFloor(c: Abr, samples: seq<Sample>)
    requires Inv(c) && c.mode != Off && c.max <= WRAPPING_BITRATE && AllUnhealthy(c, samples)
    ensures Run(c, samples).current <= (if c.current - |samples| < MIN_BITRATE then MIN_BITRATE
                                        else c.current - |samples|)
  {
    if samples != [] {
      var n := |samples| - 1;
      PrefixesAgree(c, samples);
      UnhealthyReachesFloor(c, samples[..n]);
      RunKeepsInv(c, samples[..n]);
      assert samples[..n + 1] == samples;
      assert After(c, samples, n + 1).state != Stable;
      UnhealthyStepLowers(Run(c, samples[..n]), samples[n]);
    }
  }

  lemma PrefixesAgree(c: Abr, samples: seq<Sample>)
    requires samples != [] && AllUnhealthy(c, samples)
    ensures AllUnhealthy(c, samples[..|samples| - 1])
  {
    var front := samples[..|samples| - 1];
    forall i | 1 <= i <= |front|
      ensures After(c, front, i).state != Stable
    {
      assert front[..i] == samples[..i];
      assert After(c, samples, i).state != Stable;
    }
  }

  // ---- one report in numbers ----

  /** The sum of up to five numbers, written out. */
  function SumOfFive(v: seq<real>): real
    requires |v| <= 5
  {
    (if 0 < |v| then v[0] else 0.0) + (if 1 < |v| then v[1] else 0.0) + (if 2 < |v| then v[2] else 0.0) +
    (if 3 < |v| then v[3] else 0.0) + (if 4 < |v| then v[4] else 0.0)
  }

  function Values(samples: seq<Sample>, get: Sample -> real): (v: seq<real>)
    ensures |v| == |samples|
  {
    seq(|samples|, i requires 0 <= i < |samples| => get(samples[i]))
  }

  lemma SumSnoc(v: seq<real>, x: real)
    requires |v| < 5
    ensures SumOfFive(v + [x]) == SumOfFive(v) + x
  {
  }

  lemma {:induction false} TotalIsSum(samples: seq<Sample>, get: Sample -> real)
    requires |samples| <= 5
    ensures Total(samples, get) == SumOfFive(Values(samples, get))
  {
    if samples != [] {
      var n := |samples| - 1;
      TotalIsSum(samples[..n], get);
      SumSnoc(Values(samples[..n], get), get(samples[n]));
      assert Values(samples, get) == Values(samples[..n], get) + [get(samples[n])];
    }
  }

  lemma DivideExactly(total: real, n: real, limit: real)
    requires n > 0.0
    ensures total / n < limit <==> total < n * limit
  {
    if total < n * limit {
      Divide(total, n, limit);
    } else {
      var q := total / n;
      assert q * n == total;
      if q < limit {
        MulStrict(q, limit, n);
        assert false;
      }
    }
  }

  lemma MulStrict(x: real, y: real, n: real)
    requires x < y && n > 0.0
    ensures x * n < y * n
  {
  }

  /** The values have a mean below the limit. */
  predicate MeanBelow(v: seq<real>, limit: real)
    requires |v| <= 5
  {
    SumOfFive(v) < |v| as real * limit
  }

  lemma AverageExactly(w: seq<Sample>, get: Sample -> real, limit: real)
    requires 0 < |w| <= 5
    ensures AverageOf(w, get) < limit <==> MeanBelow(Values(w, get), limit)
  {
    TotalIsSum(w, get);
    DivideExactly(Total(w, get), |w| as real, limit);
  }

  /** The newest five samples, the one that comes in last. */
  function Newest(samples: seq<Sample>, sample: Sample): (w: seq<Sample>)
    ensures 0 < |w| <= 5 && w[|w| - 1] == sample
  {
    var all := samples + [sample];
    all[if |all| > 5 then |all| - 5 else 0..]
  }

  /** No mean over the window is at its limit: 45 ms, 55 ms, 4 frames reprojected, 6 reused. */
  predicate MeansAreLow(w: seq<Sample>)
    requires |w| <= 5
  {
    && MeanBelow(Values(w, LATENCY), 45.0) && MeanBelow(Values(w, FRAME_AGE), 55.0)
    && MeanBelow(Values(w, REPROJECTED), 4.0) && MeanBelow(Values(w, STALE_REUSES), 6.0)
  }

  lemma MeansExactly(w: seq<Sample>)
    requires 0 < |w| <= 5
    ensures AveragesConstrain(w) <==> !MeansAreLow(w)
  {
    AverageExactly(w, LATENCY, 45.0);
    AverageExactly(w, FRAME_AGE, 55.0);
    AverageExactly(w, REPROJECTED, 4.0);
    AverageExactly(w, STALE_REUSES, 6.0);
  }

  /**
    When a report asks for recovery, and when for constraint. Recovery is about the sample alone; a constraint takes
    two pose fallbacks or one of four means over the newest five samples.
   */
  lemma StateExactly(c: Abr, sample: Sample)
    requires |c.samples| <= WINDOW && c.mode != Off
    ensures var r := Updated(c, sample);
            && r.samples == Newest(c.samples, sample)
            && (r.state == Recovery <==>
                  sample.keyframeRequests > 0 || sample.sendDrops > 1 || sample.encoderDrops > 0 ||
                  sample.frameAgeMs >= 85.0 || sample.reprojected >= 12 || sample.staleReuses >= 18)
            && (r.state == Constrained <==>
                  r.state != Recovery && (sample.poseFallbacks >= 2 || !MeansAreLow(Newest(c.samples, sample))))
  {
    assert Pushed(c.samples, sample) == Newest(c.samples, sample);
    MeansExactly(Newest(c.samples, sample));
  }

  /** One limit that every sample of the window reaches is enough. */
  lemma AllAtALimit(w: seq<Sample>, get: Sample -> real, limit: real)
    requires 0 < |w| <= 5 && forall i :: 0 <= i < |w| ==> get(w[i]) >= limit
    ensures !MeanBelow(Values(w, get), limit)
  {
    assert forall i :: 0 <= i < |w| ==> Values(w, get)[i] >= limit;
  }

  lemma WindowAtALimit(c: Abr, sample: Sample)
    requires |c.samples| <= WINDOW && c.mode != Off
    requires var w := Newest(c.samples, sample);
             || (forall i :: 0 <= i < |w| ==> w[i].latencyMs >= 45.0)
             || (forall i :: 0 <= i < |w| ==> w[i].frameAgeMs >= 55.0)
             || (forall i :: 0 <= i < |w| ==> w[i].reprojected >= 4)
             || (forall i :: 0 <= i < |w| ==> w[i].staleReuses >= 6)
    ensures Updated(c, sample).state != Stable
  {
    var w := Newest(c.samples, sample);
    StateExactly(c, sample);
    if forall i :: 0 <= i < |w| ==> w[i].latencyMs >= 45.0 {
      AllAtALimit(w, LATENCY, 45.0);
    } else if forall i :: 0 <= i < |w| ==> w[i].frameAgeMs >= 55.0 {
      AllAtALimit(w, FRAME_AGE, 55.0);
    } else if forall i :: 0 <= i < |w| ==> w[i].reprojected >= 4 {
      AllAtALimit(w, REPROJECTED, 4.0);
    } else {
      AllAtALimit(w, STALE_REUSES, 6.0);
    }
  }

  function AtLeastTen(n: int): nat {
    if n < 10 then 10 else n
  }

  lemma LoweredInNumbers(current: nat, state: Health)
    requires state != Stable
    ensures var percent := if state == Recovery then 80 else 90;
            && Lowered(current, state) == AtLeastTen(U32(current * percent) / 100)
            && (current < 47_721_859 ==> Lowered(current, state) == AtLeastTen(current * percent / 100))
  {
    var product := current * (if state == Recovery then 80 else 90);
    assert current < 47_721_859 ==> U32(product) == product;
  }

  /** What a report that is not stable leads to; below 47721859 Mbps nothing wraps. */
  lemma UnstableInNumbers(c: Abr, sample: Sample)
    requires c.mode != Off && Updated(c, sample).state != Stable
    ensures var r, d := Updated(c, sample), DecisionOf(c, Updated(c, sample));
            var percent := if r.state == Recovery then 80 else 90;
            && d.bitrate == r.current == AtLeastTen(U32(c.current * percent) / 100)
            && (c.current < 47_721_859 ==> d.bitrate == AtLeastTen(c.current * percent / 100))
            && (d.bitrateChanged <==> d.bitrate != c.current)
            && r.stableWindows == 0 && r.hold == (if c.hold < 4 then 4 else c.hold)
            && d.profile == (if c.mode != Full then FixedScale else if r.state == Recovery then WifiSmooth else Smooth)
            && (c.mode != Full ==> d.scale == c.configuredScale)
            && (c.mode == Full ==>
                  d.scale == Larger(c.minimumScale, c.configuredScale * (if r.state == Recovery then 0.70 else 0.85)))
  {
    LoweredInNumbers(c.current, Updated(c, sample).state);
  }

  lemma RaisedInNumbers(current: nat, max: nat)
    requires current < max <= WRAPPING_BITRATE
    ensures var up := current + (if current < 20 then 1 else current / 20);
            Raised(current, max) == if up < max then up else max
  {
    assert current + (if current / 20 < 1 then 1 else current / 20) < 0x1_0000_0000;
  }

  lemma AdjustedStable(c: Abr)
    requires c.state == Stable && c.max <= WRAPPING_BITRATE
    ensures var r := Adjusted(c);
            var rises := U32(c.stableWindows + 1) >= 5 && c.current < c.max;
            && r == c.(current := r.current, stableWindows := r.stableWindows, hold := r.hold)
            && r.current == (if rises then Raised(c.current, c.max) else c.current)
            && r.stableWindows == (if rises then 0 else U32(c.stableWindows + 1))
            && r.hold == (if c.hold > 0 then c.hold - 1 else 0)
  {
  }

  /**
    What a stable one leads to: every fifth in a row raises the bitrate by a twentieth, or by one, up to the maximum;
    the scale is full.
   */
  lemma StableInNumbers(c: Abr, sample: Sample)
    requires c.mode != Off && c.max <= WRAPPING_BITRATE && Updated(c, sample).state == Stable
    ensures var r, d := Updated(c, sample), DecisionOf(c, Updated(c, sample));
            var rises := U32(c.stableWindows + 1) >= 5 && c.current < c.max;
            var up := c.current + (if c.current < 20 then 1 else c.current / 20);
            && r.current == d.bitrate == (if !rises then c.current else if up < c.max then up else c.max)
            && r.stableWindows == (if rises then 0 else U32(c.stableWindows + 1))
            && r.hold == (if c.hold > 0 then c.hold - 1 else 0)
            && d.scale == c.configuredScale
            && (c.mode != Full ==> d.profile == FixedScale)
            && (c.mode == Full ==> d.profile == Quality || d.profile == Balanced)
  {
    AdjustedStable(c.(samples := Pushed(c.samples, sample), state := HealthOf(Pushed(c.samples, sample), sample)));
    if c.current < c.max {
      RaisedInNumbers(c.current, c.max);
    }
  }

  /** In Full mode a stable report has the Quality profile exactly when nothing lately was out of order. */
  lemma QualityExactly(c: Abr, sample: Sample)
    requires |c.samples| <= WINDOW && c.mode == Full && Updated(c, sample).state == Stable
    ensures var r, w := Updated(c, sample), Newest(c.samples, sample);
            r.profile == Quality <==>
              && c.hold <= 1 && MeanBelow(Values(w, FRAME_AGE), 30.0) && MeanBelow(Values(w, REPROJECTED), 1.0)
              && r.current >= U32(c.max * 9) / 10
  {
    var w := Newest(c.samples, sample);
    assert Pushed(c.samples, sample) == w;
    AverageExactly(w, FRAME_AGE, 30.0);
    AverageExactly(w, REPROJECTED, 1.0);
  }

  // ---- 32-bit wrap-around ----

  const CLEAN: Sample := Sample(0.0, 0.0, 0, 0, 0, 0, 0, 0)

  function Repeat(sample: Sample, n: nat): seq<Sample> {
    seq(n, i => sample)
  }

  lemma RunSnoc(c: Abr, samples: seq<Sample>, sample: Sample)
    ensures Run(c, samples + [sample]) == Updated(Run(c, samples), sample)
  {
    assert (samples + [sample])[..|samples|] == samples;
  }

  predicate Quiet(r: Abr, c: Abr, n: nat) {
    r.mode == c.mode && r.current == c.current && r.max == c.max && r.stableWindows == n && AllClean(r.samples)
  }

  lemma QuietStep(r: Abr, c: Abr, n: nat)
    requires Quiet(r, c, n) && c.mode != Off && n + 1 < STABLE_BEFORE_INCREASE
    ensures Quiet(Updated(r, CLEAN), c, n + 1)
  {
    CleanStep(r, CLEAN);
  }

  /** Below five stable windows nothing but the counter moves. */
  lemma {:induction false} QuietRun(c: Abr, n: nat)
    requires Quiet(c, c, 0) && c.mode != Off && n < STABLE_BEFORE_INCREASE
    ensures Quiet(Run(c, Repeat(CLEAN, n)), c, n)
  {
    if n > 0 {
      QuietRun(c, n - 1);
      QuietStep(Run(c, Repeat(CLEAN, n - 1)), c, n - 1);
      RunSnoc(c, Repeat(CLEAN, n - 1), CLEAN);
      assert Repeat(CLEAN, n) == Repeat(CLEAN, n - 1) + [CLEAN];
    }
  }

  lemma WrapStep(r: Abr, c: Abr, n: nat)
    requires Quiet(r, c, n) && c.mode != Off && n + 1 == STABLE_BEFORE_INCREASE
    requires c.current == WRAPPING_BITRATE < c.max
    ensures Updated(r, CLEAN).current == 0
  {
    CleanStep(r, CLEAN);
  }

  lemma WrapsToZero(c: Abr, n: nat)
    requires Quiet(c, c, 0) && c.mode != Off && n + 1 == STABLE_BEFORE_INCREASE
    requires c.current == WRAPPING_BITRATE < c.max
    ensures Run(c, Repeat(CLEAN, n + 1)).current == 0
  {
    var before := Repeat(CLEAN, n);
    QuietRun(c, n);
    RunSnoc(c, before, CLEAN);
    assert Repeat(CLEAN, n + 1) == before + [CLEAN];
    WrapStep(Run(c, before), c, n);
  }

  /**
    The bitrate stays in [10, max] in every run of the controller exactly when max keeps clear of 32-bit wrap-around;
    the configuration caps it at 200.
   */
  lemma BitrateInRange(mode: Mode, max: nat, scale: real, minimum: real)
    requires mode != Off && max <= 0xFFFF_FFFF
    ensures (forall current: nat, samples ::
               InRange(Run(Initial(mode, current, max, scale, minimum), samples))) <==> max <= WRAPPING_BITRATE
  {
    if max <= WRAPPING_BITRATE {
      forall current: nat, samples
        ensures InRange(Run(Initial(mode, current, max, scale, minimum), samples))
      {
        RunKeepsInv(Initial(mode, current, max, scale, minimum), samples);
      }
    } else {
      var c := Initial(mode, WRAPPING_BITRATE, max, scale, minimum);
      var n := STABLE_BEFORE_INCREASE - 1;
      WrapsToZero(c, n);
      assert !InRange(Run(Initial(mode, WRAPPING_BITRATE, max, scale, minimum), Repeat(CLEAN, n + 1)));
    }
  }

  // ---- the profile ----

  lemma {:induction false} HoldRemembers(c: Abr, samples: seq<Sample>, j: nat)
    requires c.mode != Off && 1 <= j <= |samples| && Run(c, samples[..j]).state != Stable
    ensures Run(c, samples).hold >= HOLD_WINDOWS - (|samples| - j) && Run(c, samples).mode == c.mode
  {
    ModeKept(c, samples);
    if j < |samples| {
      var n := |samples| - 1;
      assert samples[..n][..j] == samples[..j];
      HoldRemembers(c, samples[..n], j);
    } else {
      assert samples[..j] == samples;
      ModeKept(c, samples[..j - 1]);
    }
  }

  lemma {:induction false} ModeKept(c: Abr, samples: seq<Sample>)
    ensures Run(c, samples).mode == c.mode && Run(c, samples).max == c.max
    ensures Run(c, samples).configuredScale == c.configuredScale && Run(c, samples).minimumScale == c.minimumScale
  {
    if samples != [] {
      ModeKept(c, samples[..|samples| - 1]);
    }
  }

  /**
    Outside Full mode the profile is never Quality; in it, Quality means that the last four updates were stable and
    that the bitrate is nine tenths of max again.
   */
  lemma QualityIsEarned(c: Abr, samples: seq<Sample>, j: nat)
    requires Inv(c) && c.mode != Off && c.max <= WRAPPING_BITRATE
    requires samples != [] && Run(c, samples).profile == Quality
    ensures c.mode == Full && Run(c, samples).state == Stable
    ensures Run(c, samples).current >= U32(c.max * 9) / 10
    ensures 1 <= j <= |samples| && |samples| - HOLD_WINDOWS < j ==> Run(c, samples[..j]).state == Stable
  {
    ModeKept(c, samples);
    ModeKept(c, samples[..|samples| - 1]);
    if 1 <= j <= |samples| && |samples| - HOLD_WINDOWS < j && Run(c, samples[..j]).state != Stable {
      HoldRemembers(c, samples, j);
      assert false;
    }
  }

  /** The scale asked for lies between the configured minimum and the configured scale, and is full when stable. */
  lemma ScaleBounded(c: Abr, samples: seq<Sample>)
    requires Inv(c) && c.max <= WRAPPING_BITRATE
    ensures var r := Run(c, samples);
            && c.minimumScale <= ScaleFor(r, r.profile) <= c.configuredScale
            && (samples != [] && r.state == Stable && c.mode != Off ==> ScaleFor(r, r.profile) == c.configuredScale)
  {
    RunKeepsInv(c, samples);
    ModeKept(c, samples);
    if samples != [] {
      ModeKept(c, samples[..|samples| - 1]);
    }
  }

  // ---- the class ----

  class Controller {
    var mode: Mode
    var state: Health
    var current: nat
    var max: nat
    var configuredScale: real
    var minimumScale: real
    var stableWindows: nat
    var hold: nat
    var profile: Profile
    var samples: seq<Sample>

    function View(): Abr
      reads this
    {
      Abr(mode, state, current, max, configuredScale, minimumScale, stableWindows, hold, profile, samples)
    }

    constructor (mode: Mode, current: nat, max: nat, configuredScale: real, minimumScale: real)
      ensures View() == Initial(mode, current, max, configuredScale, minimumScale)
    {
      new;
      Reset(mode, current, max, configuredScale, minimumScale);
    }

    method Reset(mode: Mode, current: nat, max: nat, configuredScale: real, minimumScale: real)
      modifies this
      ensures View() == Initial(mode, current, max, configuredScale, minimumScale)
      ensures Inv(View())
      ensures this.max == AtLeastTen(max) && samples == []
      ensures 10 <= current <= this.max ==> this.current == current
      ensures current < 10 ==> this.current == 10
      ensures current > this.max ==> this.current == this.max
      ensures 0.25 <= minimumScale <= configuredScale <= 1.0 ==>
                this.configuredScale == configuredScale && this.minimumScale == minimumScale
    {
      this.mode := mode;
      this.max := if max < MIN_BITRATE then MIN_BITRATE else max;
      this.current := if current < MIN_BITRATE then MIN_BITRATE else if this.max < current then this.max else current;
      this.configuredScale := Clamp(configuredScale, 0.25, 1.0);
      this.minimumScale := Clamp(minimumScale, 0.25, this.configuredScale);
      state := Stable;
      stableWindows, hold := 0, 0;
      profile := Balanced;
      samples := [];
    }

    method Average(get: Sample -> real) returns (average: real)
      ensures average == AverageOf(samples, get)
    {
      if samples == [] {
        return 0.0;
      }
      var total := 0.0;
      for i := 0 to |samples|
        invariant total == Total(samples[..i], get)
      {
        assert samples[..i + 1][..i] == samples[..i];
        total := total + get(samples[i]);
      }
      assert samples[..|samples|] == samples;
      average := total / |samples| as real;
    }

    method PushSample(sample: Sample)
      modifies this`samples
      ensures samples == Pushed(old(samples), sample)
    {
      samples := samples + [sample];
      if |samples| > WINDOW {
        samples := samples[1..];
      }
    }

    method Judge(sample: Sample) returns (averageAge: real, averageReprojected: real)
      modifies this`state
      ensures state == HealthOf(samples, sample)
      ensures averageAge == AverageOf(samples, FRAME_AGE) && averageReprojected == AverageOf(samples, REPROJECTED)
    {
      var averageLatency := Average(LATENCY);
      averageAge := Average(FRAME_AGE);
      averageReprojected := Average(REPROJECTED);
      var averageStale := Average(STALE_REUSES);
      var immediate := NeedsRecovery(sample);
      var constrained := immediate || averageLatency >= 45.0 || averageAge >= 55.0 || averageReprojected >= 4.0 ||
                         averageStale >= 6.0 || sample.poseFallbacks >= 2;
      state := if immediate then Recovery else if constrained then Constrained else Stable;
    }

    method Adjust() returns (changed: bool)
      modifies this`current, this`stableWindows, this`hold
      ensures View() == Adjusted(old(View())) && changed == (current != old(current))
    {
      var next := current;
      if state == Recovery || state == Constrained {
        stableWindows := 0;
        next := Lowered(current, state);
        hold := if hold < HOLD_WINDOWS then HOLD_WINDOWS else hold;
      } else {
        if hold > 0 {
          hold := hold - 1;
        }
        stableWindows := U32(stableWindows + 1);
        if stableWindows >= STABLE_BEFORE_INCREASE && current < max {
          next := Raised(current, max);
          stableWindows := 0;
        }
      }
      changed := next != current;
      if changed {
        current := next;
      }
    }

    /** One client report; the bitrate never leaves [10, max] and never rises on a report that is not stable. */
    method Update(sample: Sample) returns (decision: Decision)
      requires Inv(View()) && max <= WRAPPING_BITRATE
      modifies this
      ensures Inv(View()) && View() == Updated(old(View()), sample)
      ensures mode != Off ==> decision == DecisionOf(old(View()), View())
      ensures mode == Off ==> decision == Decision(Stable, current, false, profile, configuredScale)
      ensures state != Stable ==> current < old(current) || current == old(current) == MIN_BITRATE
      ensures mode == Off ==> View() == old(View()).(state := Stable)
      ensures mode != Off ==>
                && samples == Newest(old(samples), sample)
                && (decision.state == Recovery <==>
                      sample.keyframeRequests > 0 || sample.sendDrops > 1 || sample.encoderDrops > 0 ||
                      sample.frameAgeMs >= 85.0 || sample.reprojected >= 12 || sample.staleReuses >= 18)
                && (decision.state == Constrained <==>
                      decision.state != Recovery && (sample.poseFallbacks >= 2 || !MeansAreLow(samples)))
      ensures mode != Off && decision.state != Stable && old(current) < 47_721_859 ==>
                decision.bitrate == AtLeastTen(old(current) * (if decision.state == Recovery then 80 else 90) / 100)
      ensures mode == Full && decision.state != Stable ==>
                decision.profile == if decision.state == Recovery then WifiSmooth else Smooth
    {
      ghost var before := View();
      decision := Respond(sample);
      if before.mode != Off {
        StateExactly(before, sample);
        if state != Stable {
          UnstableInNumbers(before, sample);
        }
      }
    }

    method Respond(sample: Sample) returns (decision: Decision)
      requires Inv(View()) && max <= WRAPPING_BITRATE
      modifies this
      ensures Inv(View()) && View() == Updated(old(View()), sample)
      ensures mode != Off ==> decision == DecisionOf(old(View()), View())
      ensures mode == Off ==> decision == Decision(Stable, current, false, profile, configuredScale)
      ensures state != Stable ==> current < old(current) || current == old(current) == MIN_BITRATE
    {
      UpdatedKeepsInv(View(), sample);
      if mode == Off {
        state := Stable;
        return Decision(Stable, current, false, profile, configuredScale);
      }
      PushSample(sample);
      var averageAge, averageReprojected := Judge(sample);
      if state != Stable {
        LoweredFalls(current, state);
      }
      var changed := Adjust();
      SelectProfile(averageAge, averageReprojected);
      decision := Decision(state, current, changed, profile, ScaleFor(View(), profile));
    }

    method SelectProfile(averageAge: real, averageReprojected: real)
      requires averageAge == AverageOf(samples, FRAME_AGE) && averageReprojected == AverageOf(samples, REPROJECTED)
      modifies this`profile
      ensures profile == ProfileFor(old(View()))
    {
      if mode != Full {
        profile := FixedScale;
      } else if state == Recovery {
        profile := WifiSmooth;
      } else if state == Constrained {
        profile := Smooth;
      } else if hold == 0 && averageAge < 30.0 && averageReprojected < 1.0 && current >= U32(max * 9) / 10 {
        profile := Quality;
      } else {
        profile := Balanced;
      }
    }
  }
}
