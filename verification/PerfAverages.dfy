/** PerfMetricsDataProvider::Analyze: one averaged record for each slot of the template frame. */
module PerfAverages {
  import opened Wrappers
  import opened PerfRecords

  type Slots = seq<Option<nat>>

  predicate StandsFor(slots: Slots, i: nat, slot: nat)
    requires i < |slots|
  {
    slots[i] == Some(slot)
  }

  /** How many of the first n records count for a slot: those mapped to it that have all metrics. */
  function Count(rs: seq<Record>, slots: Slots, slot: nat, numMetrics: nat, n: nat): nat
    requires n <= |rs| == |slots|
  {
    if n == 0 then 0
    else Count(rs, slots, slot, numMetrics, n - 1) +
         if StandsFor(slots, n - 1, slot) && |rs[n - 1].values| == numMetrics then 1 else 0
  }

  function Sum(rs: seq<Record>, slots: Slots, slot: nat, numMetrics: nat, j: nat, n: nat): real
    requires n <= |rs| == |slots| && j < numMetrics
  {
    if n == 0 then 0.0
    else Sum(rs, slots, slot, numMetrics, j, n - 1) +
         if StandsFor(slots, n - 1, slot) && |rs[n - 1].values| == numMetrics then rs[n - 1].values[j] else 0.0
  }

  /** The record whose other fields a slot keeps: the last one mapped to it before any counted. */
  function Kept(rs: seq<Record>, slots: Slots, slot: nat, numMetrics: nat, n: nat): (k: Option<nat>)
    requires n <= |rs| == |slots|
    ensures k.Some? ==> k.value < n && StandsFor(slots, k.value, slot)
  {
    if n == 0 then None
    else if StandsFor(slots, n - 1, slot) && Count(rs, slots, slot, numMetrics, n - 1) == 0 then Some(n - 1)
    else Kept(rs, slots, slot, numMetrics, n - 1)
  }

  function Skipped(slots: Slots, n: nat): nat
    requires n <= |slots|
  {
    if n == 0 then 0 else Skipped(slots, n - 1) + if slots[n - 1] == None then 1 else 0
  }

  function Means(rs: seq<Record>, slots: Slots, slot: nat, numMetrics: nat): (r: seq<real>)
    requires |rs| == |slots|
  {
    var count := Count(rs, slots, slot, numMetrics, |rs|);
    if count == 0 then []
    else seq(numMetrics, j requires 0 <= j < numMetrics => Sum(rs, slots, slot, numMetrics, j, |rs|) / (count as real))
  }

  /** Slots are below size. */
  ghost predicate InPattern(slots: Slots, size: nat) {
    forall i {:trigger slots[i]} :: 0 <= i < |slots| && slots[i].Some? ==> slots[i].value < size
  }

  /** Running sums for one slot. */
  datatype Running = Running(sums: seq<real>, count: nat, kept: Option<Record>)

  ghost predicate IsRunning(r: Running, rs: seq<Record>, slots: Slots, slot: nat, numMetrics: nat, n: nat)
    requires n <= |rs| == |slots|
  {
    && r.count == Count(rs, slots, slot, numMetrics, n)
    && (match Kept(rs, slots, slot, numMetrics, n)
        case None => r.kept == None && r.count == 0 && r.sums == []
        case Some(k) => r.kept == Some(rs[k]) && |r.sums| == numMetrics)
    && forall j {:trigger r.sums[j]} :: 0 <= j < |r.sums| && j < numMetrics ==>
         r.sums[j] == Sum(rs, slots, slot, numMetrics, j, n)
  }

  lemma OthersKeepRunning(r: Running, rs: seq<Record>, slots: Slots, slot: nat, numMetrics: nat, n: nat)
    requires n < |rs| == |slots| && IsRunning(r, rs, slots, slot, numMetrics, n) && !StandsFor(slots, n, slot)
    ensures IsRunning(r, rs, slots, slot, numMetrics, n + 1)
  {
  }

  /** Nothing has been summed up before the first record that counts. */
  lemma {:induction false} NothingYet(rs: seq<Record>, slots: Slots, slot: nat, numMetrics: nat, j: nat, n: nat)
    requires n <= |rs| == |slots| && j < numMetrics && Count(rs, slots, slot, numMetrics, n) == 0
    ensures Sum(rs, slots, slot, numMetrics, j, n) == 0.0
  {
    if n > 0 {
      NothingYet(rs, slots, slot, numMetrics, j, n - 1);
    }
  }

  method AddValues(sums: seq<real>, values: seq<real>) returns (r: seq<real>)
    requires |sums| == |values|
    ensures |r| == |sums| && forall j :: 0 <= j < |r| ==> r[j] == sums[j] + values[j]
  {
    r := sums;
    for j := 0 to |values|
      invariant |r| == |sums| && forall l :: 0 <= l < |r| ==> r[l] == if l < j then sums[l] + values[l] else sums[l]
    {
      r := r[j := r[j] + values[j]];
    }
  }

  /** Record n is added to its slot. */
  method AddRecord(r: Running, ghost rs: seq<Record>, ghost slots: Slots, ghost slot: nat, numMetrics: nat,
                   ghost n: nat, record: Record) returns (t: Running)
    requires n < |rs| == |slots| && IsRunning(r, rs, slots, slot, numMetrics, n) && StandsFor(slots, n, slot)
      && record == rs[n]
    ensures IsRunning(t, rs, slots, slot, numMetrics, n + 1)
  {
    t := r;
    if t.count == 0 {
      forall j: nat | j < numMetrics
        ensures Sum(rs, slots, slot, numMetrics, j, n) == 0.0
      {
        NothingYet(rs, slots, slot, numMetrics, j, n);
      }
      if |t.sums| < numMetrics {
        t := t.(sums := seq(numMetrics, _ => 0.0));
      }
      t := t.(kept := Some(record));
    }
    if |record.values| == numMetrics {
      var sums := AddValues(t.sums, record.values);
      t := t.(sums := sums, count := t.count + 1);
    }
  }

  method Average(r: Running, numMetrics: nat) returns (values: seq<real>)
    requires r.count > 0 ==> |r.sums| == numMetrics
    ensures values == if r.count == 0 then []
                      else seq(numMetrics, j requires 0 <= j < numMetrics => r.sums[j] / (r.count as real))
  {
    values := [];
    if r.count == 0 || r.sums == [] {
      return;
    }
    for j := 0 to numMetrics
      invariant |values| == j && forall l :: 0 <= l < j ==> values[l] == r.sums[l] / (r.count as real)
    {
      values := values + [r.sums[j] / (r.count as real)];
    }
  }

  /** Means of all slots, and the number of records that were skipped. */
  method Analyze(rs: seq<Record>, slots: Slots, size: nat, numMetrics: nat)
    returns (computed: seq<Record>, skipped: nat)
    requires |rs| == |slots| && InPattern(slots, size)
    requires forall slot :: 0 <= slot < size ==> Kept(rs, slots, slot, numMetrics, |rs|).Some?
    ensures |computed| == size && skipped == Skipped(slots, |rs|)
    ensures forall slot {:trigger computed[slot]} :: 0 <= slot < size ==>
      computed[slot] == rs[Kept(rs, slots, slot, numMetrics, |rs|).value].(frameId := 0,
        values := Means(rs, slots, slot, numMetrics))
  {
    hide StandsFor, Count, Sum, Kept;
    var running := seq(size, _ => Running([], 0, None));
    skipped := 0;
    NoneRunning(rs, slots, numMetrics);
    for i := 0 to |rs|
      invariant |running| == size && skipped == Skipped(slots, i)
      invariant forall slot {:trigger running[slot]} :: 0 <= slot < size ==>
        IsRunning(running[slot], rs, slots, slot, numMetrics, i)
    {
      hide IsRunning;
      forall slot | 0 <= slot < size && slots[i] != Some(slot)
        ensures IsRunning(running[slot], rs, slots, slot, numMetrics, i + 1)
      {
        assert !StandsFor(slots, i, slot) by { StandsForIs(slots, i, slot); }
        OthersKeepRunning(running[slot], rs, slots, slot, numMetrics, i);
      }
      match slots[i]
      case None => skipped := skipped + 1;
      case Some(slot) =>
        StandsForIs(slots, i, slot);
        var r := AddRecord(running[slot], rs, slots, slot, numMetrics, i, rs[i]);
        running := running[slot := r];
    }
    computed := [];
    for slot := 0 to size
      invariant |computed| == slot
      invariant forall l {:trigger computed[l]} :: 0 <= l < slot ==>
        computed[l] == rs[Kept(rs, slots, l, numMetrics, |rs|).value].(frameId := 0,
          values := Means(rs, slots, l, numMetrics))
    {
      var r := running[slot];
      var values := Average(r, numMetrics);
      assert values == Means(rs, slots, slot, numMetrics);
      computed := computed + [r.kept.value.(frameId := 0, values := values)];
    }
  }

  lemma StandsForIs(slots: Slots, i: nat, slot: nat)
    requires i < |slots|
    ensures StandsFor(slots, i, slot) <==> slots[i] == Some(slot)
  {
  }

  lemma NoneRunning(rs: seq<Record>, slots: Slots, numMetrics: nat)
    requires |rs| == |slots|
    ensures forall slot: nat :: IsRunning(Running([], 0, None), rs, slots, slot, numMetrics, 0)
  {
  }

  /** Every slot keeps the record of the first frame that counts for it, or of the last frame if none does. */
  lemma {:induction false} KeptIs(rs: seq<Record>, slots: Slots, slot: nat, numMetrics: nat, n: nat)
    requires n <= |rs| == |slots| && Kept(rs, slots, slot, numMetrics, n).Some?
    ensures var k := Kept(rs, slots, slot, numMetrics, n).value;
      && k < n && slots[k] == Some(slot)
      && (forall i :: 0 <= i < k && slots[i] == Some(slot) ==> |rs[i].values| != numMetrics)
      && (|rs[k].values| == numMetrics || forall i :: k < i < n ==> slots[i] != Some(slot))
  {
    CountIsNone(rs, slots, slot, numMetrics, n - 1);
    if !(StandsFor(slots, n - 1, slot) && Count(rs, slots, slot, numMetrics, n - 1) == 0) {
      KeptIs(rs, slots, slot, numMetrics, n - 1);
    }
  }

  lemma {:induction false} CountIsNone(rs: seq<Record>, slots: Slots, slot: nat, numMetrics: nat, n: nat)
    requires n <= |rs| == |slots|
    ensures Count(rs, slots, slot, numMetrics, n) == 0 <==>
      forall i :: 0 <= i < n && slots[i] == Some(slot) ==> |rs[i].values| != numMetrics
  {
    if n > 0 {
      CountIsNone(rs, slots, slot, numMetrics, n - 1);
    }
  }
}
