/**
  The tracking history (TrackingReceiver.cpp): samples stored under poseMutex_, the address of the admitted client
  set without it. A store that has passed the address check holds the mutex until it is done.
 */
module TrackingHistory {
  import opened Protocol

  const MAX_SAMPLES := 8

  /** source is None for tracking that came over TCP; a stamp of zero is no stamp. */
  datatype Sample = Sample(stampNs: int, source: Option<nat>, receiveTimeNs: int, pose: int)

  datatype History = History(address: nat, samples: seq<Sample>, latest: Option<Sample>, storing: Option<Sample>)

  datatype Step =
    | SetAddress(address: nat)
    | Arrive(sample: Sample)   // takes the mutex and checks the source
    | Commit                   // the rest of the store, and the mutex back
    | Reset

  const EMPTY: History := History(0, [], None, None)

  predicate Admitted(h: History, sample: Sample) {
    sample.source == None || sample.source == Some(h.address)
  }

  predicate Reordered(h: History, sample: Sample) {
    h.latest.Some? && sample.stampNs > 0 && h.latest.value.stampNs > 0 && sample.stampNs <= h.latest.value.stampNs
  }

  /** The history after one more sample: the newest eight. */
  function Kept(samples: seq<Sample>, sample: Sample): seq<Sample> {
    var all := samples + [sample];
    if |all| > MAX_SAMPLES then all[|all| - MAX_SAMPLES..] else all
  }

  /** A step that finds the mutex taken waits: it does nothing yet. */
  function Next(h: History, step: Step): History {
    match step
    case SetAddress(address) => h.(address := address)
    case Arrive(sample) => if h.storing.Some? || !Admitted(h, sample) then h else h.(storing := Some(sample))
    case Commit =>
      if h.storing.None? then h
      else if Reordered(h, h.storing.value) then h.(storing := None)
      else h.(storing := None, latest := h.storing, samples := Kept(h.samples, h.storing.value))
    case Reset => if h.storing.Some? then h else h.(samples := [], latest := None)
  }

  function Run(h: History, steps: seq<Step>): History {
    if steps == [] then h else Next(Run(h, steps[..|steps| - 1]), steps[|steps| - 1])
  }

  // ---- every run ----

  predicate Increasing(samples: seq<Sample>) {
    forall i :: 0 <= i < |samples| - 1 ==>
      samples[i].stampNs > 0 && samples[i + 1].stampNs > 0 ==> samples[i].stampNs < samples[i + 1].stampNs
  }

  predicate Inv(h: History) {
    && |h.samples| <= MAX_SAMPLES
    && Increasing(h.samples)
    && h.latest == if h.samples == [] then None else Some(h.samples[|h.samples| - 1])
  }

  lemma AppendOrdered(samples: seq<Sample>, sample: Sample)
    requires Increasing(samples)
    requires samples != [] ==> var last := samples[|samples| - 1];
               sample.stampNs <= 0 || last.stampNs <= 0 || last.stampNs < sample.stampNs
    ensures Increasing(samples + [sample])
  {
  }

  lemma TailOrdered(samples: seq<Sample>, n: nat)
    requires n <= |samples| && Increasing(samples)
    ensures Increasing(samples[n..])
  {
    forall i | 0 <= i < |samples[n..]| - 1
      ensures samples[n..][i].stampNs > 0 && samples[n..][i + 1].stampNs > 0 ==>
                samples[n..][i].stampNs < samples[n..][i + 1].stampNs
    {
      assert samples[n..][i] == samples[n + i] && samples[n..][i + 1] == samples[n + i + 1];
    }
  }

  lemma CommitKeepsInv(h: History)
    requires Inv(h)
    ensures Inv(Next(h, Commit))
  {
    if h.storing.Some? && !Reordered(h, h.storing.value) {
      var all := h.samples + [h.storing.value];
      AppendOrdered(h.samples, h.storing.value);
      if |all| > MAX_SAMPLES {
        TailOrdered(all, |all| - MAX_SAMPLES);
      }
    }
  }

  /**
    In every run the history holds at most eight samples, adjacent samples that both carry stamps strictly increase,
    and the latest packet is the last of the history.
   */
  lemma {:induction false} HistoryOrdered(steps: seq<Step>)
    ensures Inv(Run(EMPTY, steps))
  {
    if steps != [] {
      HistoryOrdered(steps[..|steps| - 1]);
      var h := Run(EMPTY, steps[..|steps| - 1]);
      if steps[|steps| - 1].Commit? {
        CommitKeepsInv(h);
      } else {
        assert Next(h, steps[|steps| - 1]).samples == h.samples || steps[|steps| - 1].Reset?;
      }
    }
  }

  /** Between two samples with no unstamped sample from one to the other, stamps strictly increase. */
  lemma {:induction false} StampedStretch(samples: seq<Sample>, i: nat, j: nat)
    requires Increasing(samples) && i < j < |samples| && forall k :: i <= k <= j ==> samples[k].stampNs > 0
    ensures samples[i].stampNs < samples[j].stampNs
  {
    if i + 1 < j {
      StampedStretch(samples, i, j - 1);
    }
    assert samples[j - 1].stampNs < samples[j - 1 + 1].stampNs;
  }

  function Stores(samples: seq<Sample>): seq<Step> {
    if samples == [] then []
    else Stores(samples[..|samples| - 1]) + [Arrive(samples[|samples| - 1]), Commit]
  }

  lemma StoreRuns(before: seq<Step>, sample: Sample)
    requires Run(EMPTY, before).storing == None
    ensures Run(EMPTY, before + [Arrive(sample), Commit]) ==
            Next(Next(Run(EMPTY, before), Arrive(sample)), Commit)
  {
    var steps := before + [Arrive(sample), Commit];
    assert steps[..|steps| - 1] == before + [Arrive(sample)];
    assert (before + [Arrive(sample)])[..|before|] == before;
  }

  /** The history keeps every one of up to eight samples exactly when no two stamped neighbours fail to increase. */
  lemma {:induction false} AllStored(samples: seq<Sample>)
    requires |samples| <= MAX_SAMPLES && forall i :: 0 <= i < |samples| ==> samples[i].source == None
    ensures Run(EMPTY, Stores(samples)).storing == None && |Run(EMPTY, Stores(samples)).samples| <= |samples|
    ensures Run(EMPTY, Stores(samples)).samples == samples <==> Increasing(samples)
  {
    HistoryOrdered(Stores(samples));
    if samples != [] {
      var front, sample := samples[..|samples| - 1], samples[|samples| - 1];
      AllStored(front);
      HistoryOrdered(Stores(front));
      StoreRuns(Stores(front), sample);
      assert samples == front + [sample];
      StoredWhenOrdered(Run(EMPTY, Stores(front)), front, sample);
    }
  }

  /** What is kept of all that came. */
  predicate NewestEight(kept: seq<Sample>, all: seq<Sample>) {
    kept == all[if |all| <= 8 then 0 else |all| - 8..]
  }

  /** Of a sequence of any length whose stamped neighbours increase the history keeps the newest eight, in order. */
  lemma {:induction false} NewestKept(samples: seq<Sample>)
    requires Increasing(samples) && forall i :: 0 <= i < |samples| ==> samples[i].source == None
    ensures var h := Run(EMPTY, Stores(samples));
            h.storing == None && h.address == 0 && NewestEight(h.samples, samples)
  {
    HistoryOrdered(Stores(samples));
    if samples != [] {
      var front, sample := samples[..|samples| - 1], samples[|samples| - 1];
      assert samples == front + [sample];
      TaillessOrdered(front, sample);
      NewestKept(front);
      HistoryOrdered(Stores(front));
      StoreRuns(Stores(front), sample);
      if front != [] {
        var k := |front| - 1;
        assert samples[k] == front[k] && samples[k + 1] == sample;
      }
      NextInOrder(Run(EMPTY, Stores(front)), front, sample);
    }
  }

  lemma NextInOrder(h: History, front: seq<Sample>, sample: Sample)
    requires Inv(h) && h.storing == None && NewestEight(h.samples, front) && sample.source == None
    requires front != [] ==> var last := front[|front| - 1];
               last.stampNs <= 0 || sample.stampNs <= 0 || last.stampNs < sample.stampNs
    ensures var next := Next(Next(h, Arrive(sample)), Commit);
            next.storing == None && next.address == h.address && NewestEight(next.samples, front + [sample])
  {
    if front != [] {
      assert h.latest == Some(front[|front| - 1]);
    }
    assert h.samples + [sample] == (front + [sample])[|front| - |h.samples|..];
  }

  lemma StoredWhenOrdered(h: History, front: seq<Sample>, sample: Sample)
    requires Inv(h) && h.storing == None && |h.samples| <= |front| < MAX_SAMPLES && sample.source == None
    requires h.samples == front <==> Increasing(front)
    ensures var next := Next(Next(h, Arrive(sample)), Commit);
            Increasing(front + [sample]) ==> next.samples == front + [sample]
  {
    if Increasing(front + [sample]) {
      var all := front + [sample];
      TaillessOrdered(front, sample);
      if front != [] {
        assert all[|front| - 1] == front[|front| - 1] && all[|front| - 1 + 1] == sample;
      }
    }
  }

  lemma TaillessOrdered(front: seq<Sample>, sample: Sample)
    requires Increasing(front + [sample])
    ensures Increasing(front)
  {
    forall i | 0 <= i < |front| - 1
      ensures front[i].stampNs > 0 && front[i + 1].stampNs > 0 ==> front[i].stampNs < front[i + 1].stampNs
    {
      assert (front + [sample])[i] == front[i] && (front + [sample])[i + 1] == front[i + 1];
    }
  }

  /** So an unstamped sample in between lets an older stamp in after a newer one. */
  lemma UnstampedLetsOlderIn(newer: Sample, unstamped: Sample, older: Sample)
    requires newer.source == unstamped.source == older.source == None
    requires unstamped.stampNs == 0 && 0 < older.stampNs < newer.stampNs
    ensures Run(EMPTY, Stores([newer, unstamped, older])).samples == [newer, unstamped, older]
  {
    AllStored([newer, unstamped, older]);
  }

  // ---- which histories are in order, whatever the stamps ----

  /** Which samples carry a stamp. */
  predicate Stamped(samples: seq<Sample>, flags: seq<bool>) {
    |samples| == |flags| && forall i :: 0 <= i < |flags| ==> (flags[i] <==> samples[i].stampNs > 0)
  }

  /** All the stamped samples increase, neighbours or not. */
  predicate AllIncreasing(samples: seq<Sample>) {
    forall i, j :: 0 <= i < j < |samples| && samples[i].stampNs > 0 && samples[j].stampNs > 0 ==>
      samples[i].stampNs < samples[j].stampNs
  }

  predicate SplitAt(flags: seq<bool>, i: nat, j: nat, k: nat) {
    i < j < k < |flags| && flags[i] && !flags[j] && flags[k]
  }

  /** An unstamped sample has a stamped one on both sides. */
  ghost predicate Split(flags: seq<bool>) {
    exists i: nat, j: nat, k: nat :: SplitAt(flags, i, j, k)
  }

  ghost predicate AlwaysInOrder(flags: seq<bool>) {
    forall steps: seq<Step> :: Stamped(Run(EMPTY, steps).samples, flags) ==> AllIncreasing(Run(EMPTY, steps).samples)
  }

  lemma UnsplitInOrder(samples: seq<Sample>, flags: seq<bool>)
    requires Increasing(samples) && Stamped(samples, flags) && !Split(flags)
    ensures AllIncreasing(samples)
  {
    forall i, j | 0 <= i < j < |samples| && samples[i].stampNs > 0 && samples[j].stampNs > 0
      ensures samples[i].stampNs < samples[j].stampNs
    {
      forall k | i <= k <= j
        ensures samples[k].stampNs > 0
      {
        assert k == i || k == j || !SplitAt(flags, i, k, j);
      }
      StampedStretch(samples, i, j);
    }
  }

  /** Stamps that fall back after the unstamped sample j. */
  function FallsBack(flags: seq<bool>, j: nat): (samples: seq<Sample>)
    ensures Stamped(samples, flags)
    ensures forall i :: 0 <= i < |samples| ==> samples[i].source == None
  {
    seq(|flags|, i requires 0 <= i < |flags| =>
      Sample(if !flags[i] then 0 else if i < j then |flags| + 1 + i else i + 1, None, 0, 0))
  }

  lemma SplitOutOfOrder(flags: seq<bool>, i: nat, j: nat, k: nat) returns (steps: seq<Step>)
    requires |flags| <= MAX_SAMPLES && SplitAt(flags, i, j, k)
    ensures Stamped(Run(EMPTY, steps).samples, flags) && !AllIncreasing(Run(EMPTY, steps).samples)
  {
    var samples := FallsBack(flags, j);
    assert Increasing(samples);
    AllStored(samples);
    steps := Stores(samples);
    assert samples[i].stampNs >= samples[k].stampNs > 0;
  }

  /**
    Exactly which histories are in order whatever their stamps: of all the runs that end with samples stamped and not
    stamped in this pattern, every one leaves the stamped samples increasing if and only if no unstamped sample in
    the history has a stamped one on both sides.
   */
  lemma InOrderExactly(flags: seq<bool>)
    requires |flags| <= MAX_SAMPLES
    ensures AlwaysInOrder(flags) <==> !Split(flags)
  {
    if Split(flags) {
      var i: nat, j: nat, k: nat :| SplitAt(flags, i, j, k);
      var steps := SplitOutOfOrder(flags, i, j, k);
    } else {
      forall steps: seq<Step> | Stamped(Run(EMPTY, steps).samples, flags)
        ensures AllIncreasing(Run(EMPTY, steps).samples)
      {
        HistoryOrdered(steps);
        UnsplitInOrder(Run(EMPTY, steps).samples, flags);
      }
    }
  }

  // ---- a change of client ----

  predicate NoAddressChange(steps: seq<Step>) {
    forall i :: 0 <= i < |steps| ==> !steps[i].SetAddress?
  }

  predicate From(sample: Sample, address: nat) {
    sample.source == None || sample.source == Some(address)
  }

  predicate AllFrom(h: History, address: nat) {
    && h.address == address
    && (forall i :: 0 <= i < |h.samples| ==> From(h.samples[i], address))
    && (h.storing.Some? ==> From(h.storing.value, address))
  }

  lemma {:induction false} AddressKept(h: History, steps: seq<Step>)
    requires NoAddressChange(steps)
    ensures Run(h, steps).address == h.address
  {
    if steps != [] {
      AddressKept(h, steps[..|steps| - 1]);
    }
  }

  lemma {:induction false} OriginKept(h: History, steps: seq<Step>, address: nat)
    requires NoAddressChange(steps) && AllFrom(h, address)
    ensures AllFrom(Run(h, steps), address)
  {
    if steps != [] {
      OriginKept(h, steps[..|steps| - 1], address);
    }
  }

  /**
    The address set, then anything, a store of the old client's in the middle of it included, then the reset, then
    anything: every UDP sample in the history came from the new address.
   */
  lemma SwitchIsClean(before: seq<Step>, address: nat, between: seq<Step>, after: seq<Step>)
    requires NoAddressChange(between) && NoAddressChange(after)
    requires Run(Next(Run(EMPTY, before), SetAddress(address)), between).storing == None
    ensures var atReset := Run(Next(Run(EMPTY, before), SetAddress(address)), between);
            AllFrom(Run(Next(atReset, Reset), after), address)
  {
    var atReset := Run(Next(Run(EMPTY, before), SetAddress(address)), between);
    AddressKept(Next(Run(EMPTY, before), SetAddress(address)), between);
    OriginKept(Next(atReset, Reset), after, address);
  }

  /** In the other order a store that passed the check before the address changed can land after the reset. */
  lemma ResetFirstIsNotClean(oldAddress: nat, newAddress: nat, sample: Sample)
    requires oldAddress != newAddress && sample.source == Some(oldAddress)
    ensures var h := Run(EMPTY, [SetAddress(oldAddress), Reset, Arrive(sample), SetAddress(newAddress), Commit]);
            h.samples == [sample] && !AllFrom(h, newAddress)
  {
    var steps := [SetAddress(oldAddress), Reset, Arrive(sample), SetAddress(newAddress), Commit];
    assert steps[..4] == [SetAddress(oldAddress), Reset, Arrive(sample), SetAddress(newAddress)];
    assert steps[..4][..3] == [SetAddress(oldAddress), Reset, Arrive(sample)];
    assert steps[..4][..3][..2] == [SetAddress(oldAddress), Reset];
    assert steps[..4][..3][..2][..1] == [SetAddress(oldAddress)];
    assert steps[..4][..3][..2][..1][..0] == [];
    var h0 := Next(EMPTY, SetAddress(oldAddress));
    assert Run(EMPTY, [SetAddress(oldAddress)]) == h0;
    var h1 := Next(h0, Reset);
    assert Run(EMPTY, steps[..4][..3][..2]) == h1;
    var h2 := Next(h1, Arrive(sample));
    assert Run(EMPTY, steps[..4][..3]) == h2;
    assert Run(EMPTY, steps[..4]) == Next(h2, SetAddress(newAddress));
    assert Kept([], sample) == [sample];
    assert !From(Run(EMPTY, steps).samples[0], newAddress);
  }

  /** Every UDP sample in the history came from the address, and a store under way will leave it so. */
  predicate OnlyFrom(h: History, address: nat) {
    && (forall i :: 0 <= i < |h.samples| ==> From(h.samples[i], address))
    && (h.storing.Some? ==> From(h.storing.value, address) || Reordered(h, h.storing.value))
  }

  /** However the run goes on, the history holds UDP samples of this address alone until the address changes again. */
  ghost predicate StaysClean(h: History, address: nat) {
    forall after: seq<Step>, i: nat :: NoAddressChange(after) && i < |Run(h, after).samples| ==>
      From(Run(h, after).samples[i], address)
  }

  lemma {:induction false} OnlyFromKept(h: History, steps: seq<Step>, address: nat)
    requires NoAddressChange(steps) && h.address == address && OnlyFrom(h, address)
    ensures OnlyFrom(Run(h, steps), address)
  {
    if steps != [] {
      OnlyFromKept(h, steps[..|steps| - 1], address);
      AddressKept(h, steps[..|steps| - 1]);
    }
  }

  lemma LandsNext(h: History, address: nat)
    requires h.storing.Some? && !From(h.storing.value, address) && !Reordered(h, h.storing.value)
    ensures !StaysClean(h, address)
  {
    var one: seq<Step> := [Commit];
    assert one[..0] == [] && Run(h, []) == h;
    assert Run(h, one) == Next(Run(h, one[..0]), one[0]);
    KeptLast(h.samples, h.storing.value);
    assert NoAddressChange(one) && !From(Run(h, one).samples[|Run(h, one).samples| - 1], address);
  }

  lemma KeptLast(samples: seq<Sample>, sample: Sample)
    ensures var kept := Kept(samples, sample); kept != [] && kept[|kept| - 1] == sample
  {
  }

  /**
    Exactly when the address can be written last. Whatever ran before it, a reset included, the new client's history
    stays free of other addresses if and only if, as the address is written, none of theirs is in the history and none
    is past its check that will not be refused as reordered.
   */
  lemma AddressLastExactly(before: seq<Step>, address: nat)
    ensures var h := Run(EMPTY, before);
            StaysClean(Next(h, SetAddress(address)), address) <==> OnlyFrom(h, address)
  {
    var h := Run(EMPTY, before);
    var t := Next(h, SetAddress(address));
    if OnlyFrom(h, address) {
      forall after: seq<Step>, i: nat | NoAddressChange(after) && i < |Run(t, after).samples|
        ensures From(Run(t, after).samples[i], address)
      {
        OnlyFromKept(t, after, address);
      }
    } else if i :| 0 <= i < |h.samples| && !From(h.samples[i], address) {
      assert Run(t, []).samples[i] == h.samples[i];
    } else {
      LandsNext(t, address);
    }
  }

  class Receiver {
    var clientAddress: nat
    var history: seq<Sample>
    var latest: Option<Sample>

    function View(): History
      reads this
    {
      History(clientAddress, history, latest, None)
    }

    constructor ()
      ensures View() == EMPTY && Inv(View())
    {
      clientAddress, history, latest := 0, [], None;
    }

    method SetClientAddress(address: nat)
      modifies this`clientAddress
      ensures View() == Next(old(View()), SetAddress(address)) && clientAddress == address
    {
      clientAddress := address;
    }

    method Clear()
      modifies this
      ensures View() == Next(old(View()), Reset) && Inv(View()) && history == [] && latest == None
    {
      history, latest := [], None;
    }

    /** The newest eight samples are kept. */
    method Append(sample: Sample)
      requires |history| <= MAX_SAMPLES
      modifies this`history, this`latest
      ensures history == Kept(old(history), sample) && latest == Some(sample)
    {
      ghost var all := history + [sample];
      latest := Some(sample);
      history := history + [sample];
      while |history| > MAX_SAMPLES
        invariant |history| <= |all| && history == all[|all| - |history|..] && latest == Some(sample)
        invariant |history| >= MAX_SAMPLES || history == all
      {
        history := history[1..];
      }
    }

    /** StorePacket with no address change inside: the two steps of a store in a row. */
    method StorePacket(sample: Sample) returns (stored: bool)
      requires Inv(View())
      modifies this
      ensures Inv(View()) && View() == Next(Next(old(View()), Arrive(sample)), Commit)
      ensures stored <==>
                && (sample.source == None || sample.source == Some(clientAddress))
                && (old(latest) == None || sample.stampNs <= 0 || old(latest).value.stampNs <= 0 ||
                    old(latest).value.stampNs < sample.stampNs)
      ensures stored ==> NewestEight(history, old(history) + [sample]) && latest == Some(sample)
      ensures !stored ==> View() == old(View())
    {
      if sample.source.Some? && sample.source.value != clientAddress {
        return false;
      }
      if latest.Some? && sample.stampNs > 0 && latest.value.stampNs > 0 && sample.stampNs <= latest.value.stampNs {
        return false;
      }
      CommitKeepsInv(History(clientAddress, history, latest, Some(sample)));
      Append(sample);
      stored := true;
    }
  }
}
