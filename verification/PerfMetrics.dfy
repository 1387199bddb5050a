/** The correlator between command-hierarchy nodes, draws, template slots and records, and its use. */
module PerfMetrics {
  import opened Wrappers
  import opened PerfDraws
  import opened PerfRecords
  import opened PerfAverages

  // ---------- averages are means over the matching frames ----------

  /** A frame with the template's sequence of command buffers and draws starts at a. */
  predicate MatchingFrame(rs: seq<Record>, start: nat, size: nat, a: nat)
    requires start + size <= |rs|
  {
    a < |rs| && FrameStart(rs, a) == a && Matches(rs, start, size, a, FrameEnd(rs, a))
  }

  /** Matching frames that start before record n. */
  function Frames(rs: seq<Record>, start: nat, size: nat, n: nat): nat
    requires start + size <= |rs|
  {
    if n == 0 then 0 else Frames(rs, start, size, n - 1) + if MatchingFrame(rs, start, size, n - 1) then 1 else 0
  }

  /** The frame counts for a slot: its record there has all metrics. */
  predicate CountsFor(rs: seq<Record>, start: nat, size: nat, slot: nat, numMetrics: nat, a: nat)
    requires start + size <= |rs| && slot < size
  {
    MatchingFrame(rs, start, size, a) && |rs[a + slot].values| == numMetrics
  }

  function CountedFrames(rs: seq<Record>, start: nat, size: nat, slot: nat, numMetrics: nat, n: nat): nat
    requires start + size <= |rs| && slot < size
  {
    if n == 0 then 0
    else
      CountedFrames(rs, start, size, slot, numMetrics, n - 1) +
      if CountsFor(rs, start, size, slot, numMetrics, n - 1) then 1 else 0
  }

  /** The j-th metric of a slot, added up over the frames that count for it. */
  function FrameTotal(rs: seq<Record>, start: nat, size: nat, slot: nat, numMetrics: nat, j: nat, n: nat): real
    requires start + size <= |rs| && slot < size && j < numMetrics
  {
    if n == 0 then 0.0
    else FrameTotal(rs, start, size, slot, numMetrics, j, n - 1) +
         if CountsFor(rs, start, size, slot, numMetrics, n - 1) then rs[n - 1 + slot].values[j] else 0.0
  }

  /** Every record has all metrics. */
  ghost predicate AllSized(rs: seq<Record>, numMetrics: nat) {
    forall i :: 0 <= i < |rs| ==> |rs[i].values| == numMetrics
  }

  /** A record stands for a slot exactly if a matching frame starts that many records before it. */
  lemma SlotIffFrame(rs: seq<Record>, start: nat, size: nat, i: nat, slot: nat)
    requires start + size <= |rs| && i < |rs| && slot < size
    ensures PerfRecords.SlotOf(rs, start, size, i) == Some(slot) <==>
      slot <= i && MatchingFrame(rs, start, size, i - slot)
  {
    FrameOf(rs, i);
    var a := FrameStart(rs, i);
    if slot <= i && MatchingFrame(rs, start, size, i - slot) {
      InFrame(rs, i - slot, i);
    } else if PerfRecords.SlotOf(rs, start, size, i) == Some(slot) {
      FrameEndShift(rs, a, i);
    }
  }

  /** A matching frame fits. */
  lemma FrameFits(rs: seq<Record>, start: nat, size: nat, a: nat)
    requires start + size <= |rs|
    ensures MatchingFrame(rs, start, size, a) ==> a + size <= |rs|
  {
  }

  lemma {:induction false} CountsFrames(rs: seq<Record>, start: nat, size: nat, slots: Slots, slot: nat,
                                        numMetrics: nat, n: nat)
    requires start + size <= |rs| && Mapped(rs, start, size, slots, |rs|) && slot < size && n <= |rs|
    ensures var m := if slot <= n then n - slot else 0;
      && Count(rs, slots, slot, numMetrics, n) == CountedFrames(rs, start, size, slot, numMetrics, m)
      && forall j :: 0 <= j < numMetrics ==>
           Sum(rs, slots, slot, numMetrics, j, n) == FrameTotal(rs, start, size, slot, numMetrics, j, m)
  {
    if n > 0 {
      hide PerfRecords.SlotOf, MatchingFrame;
      CountsFrames(rs, start, size, slots, slot, numMetrics, n - 1);
      SlotIffFrame(rs, start, size, n - 1, slot);
      assert slots[n - 1] == PerfRecords.SlotOf(rs, start, size, n - 1);
    }
  }

  lemma {:induction false} NoFrameAtEnd(rs: seq<Record>, start: nat, size: nat, slot: nat, numMetrics: nat, n: nat)
    requires start + size <= |rs| && slot < size && |rs| - slot <= n <= |rs|
    ensures var m: nat := |rs| - slot;
      && CountedFrames(rs, start, size, slot, numMetrics, n) == CountedFrames(rs, start, size, slot, numMetrics, m)
      && forall j :: 0 <= j < numMetrics ==>
           FrameTotal(rs, start, size, slot, numMetrics, j, n) == FrameTotal(rs, start, size, slot, numMetrics, j, m)
  {
    if n > |rs| - slot {
      NoFrameAtEnd(rs, start, size, slot, numMetrics, n - 1);
      FrameFits(rs, start, size, n - 1);
    }
  }

  /** If every record has all metrics, every matching frame counts for every slot. */
  lemma {:induction false} AllFramesCount(rs: seq<Record>, start: nat, size: nat, slot: nat, numMetrics: nat, n: nat)
    requires start + size <= |rs| && slot < size && AllSized(rs, numMetrics)
    ensures CountedFrames(rs, start, size, slot, numMetrics, n) == Frames(rs, start, size, n)
  {
    if n > 0 {
      FrameFits(rs, start, size, n - 1);
      AllFramesCount(rs, start, size, slot, numMetrics, n - 1);
    }
  }

  lemma {:induction false} FramesGrow(rs: seq<Record>, start: nat, size: nat, a: nat, n: nat)
    requires start + size <= |rs| && a < n && MatchingFrame(rs, start, size, a)
    ensures Frames(rs, start, size, n) > 0
  {
    if a < n - 1 {
      FramesGrow(rs, start, size, a, n - 1);
    }
  }

  /** A slot has one record for each matching frame that counts for it, and its values are the means over
      exactly these frames. If every record has all metrics, they are all matching frames, the same positive
      number for every slot. */
  lemma MeansOverFrames(rs: seq<Record>, start: nat, size: nat, slots: Slots, slot: nat, numMetrics: nat)
    requires IsTemplate(rs, start, size) && start + size <= |rs| && Mapped(rs, start, size, slots, |rs|) && slot < size
    ensures var frames := CountedFrames(rs, start, size, slot, numMetrics, |rs|);
      && Count(rs, slots, slot, numMetrics, |rs|) == frames
      && |Means(rs, slots, slot, numMetrics)| == (if frames == 0 then 0 else numMetrics)
      && (forall j :: 0 <= j < |Means(rs, slots, slot, numMetrics)| ==>
            Means(rs, slots, slot, numMetrics)[j] ==
              FrameTotal(rs, start, size, slot, numMetrics, j, |rs|) / (frames as real))
      && (AllSized(rs, numMetrics) ==> frames == Frames(rs, start, size, |rs|) > 0)
  {
    CountsFrames(rs, start, size, slots, slot, numMetrics, |rs|);
    NoFrameAtEnd(rs, start, size, slot, numMetrics, |rs|);
    FramesGrow(rs, start, size, start, |rs|);
    if AllSized(rs, numMetrics) {
      AllFramesCount(rs, start, size, slot, numMetrics, |rs|);
    }
  }

  /** Every record before n, in a frame or skipped: the matching frames that are complete have one record
      for each slot, and so far as it goes the one that n - 1 lies in. */
  lemma {:induction false} MatchedOrSkipped(rs: seq<Record>, start: nat, size: nat, slots: Slots, n: nat)
    requires start + size <= |rs| && Mapped(rs, start, size, slots, |rs|) && 0 < n <= |rs|
    ensures var a := FrameStart(rs, n - 1);
      && Frames(rs, start, size, n) == Frames(rs, start, size, a) + (if MatchingFrame(rs, start, size, a) then 1 else 0)
      && n == Skipped(slots, n) + Times(size, Frames(rs, start, size, a)) +
           (if MatchingFrame(rs, start, size, a) then n - a else 0)
  {
    var i, a := n - 1, FrameStart(rs, n - 1);
    FrameOf(rs, i);
    FrameEndShift(rs, a, i);
    assert slots[i] == PerfRecords.SlotOf(rs, start, size, i);
    assert MatchingFrame(rs, start, size, a) <==> slots[i] != None;
    hide Matches, PerfRecords.SlotOf;
    if i > 0 {
      MatchedOrSkipped(rs, start, size, slots, i);
      if a == i {
        PreviousFrame(rs, start, size, i);
      }
    }
  }

  function Times(size: nat, n: nat): nat {
    if n == 0 then 0 else Times(size, n - 1) + size
  }

  lemma {:induction false} TimesIs(size: nat, n: nat)
    ensures Times(size, n) == size * n
  {
    if n > 0 {
      TimesIs(size, n - 1);
    }
  }

  /** A frame that matches has as many records as the template. */
  lemma PreviousFrame(rs: seq<Record>, start: nat, size: nat, i: nat)
    requires start + size <= |rs| && 0 < i < |rs| && FrameStart(rs, i) == i
    ensures MatchingFrame(rs, start, size, FrameStart(rs, i - 1)) ==> i - FrameStart(rs, i - 1) == size
  {
    NextFrame(rs, i);
    FrameOf(rs, i - 1);
    FrameEndShift(rs, FrameStart(rs, i - 1), i - 1);
  }

  /** The records of the matching frames and the skipped records are all records. */
  lemma AllRecords(rs: seq<Record>, start: nat, size: nat, slots: Slots)
    requires start + size <= |rs| && Mapped(rs, start, size, slots, |rs|)
    ensures size * Frames(rs, start, size, |rs|) + Skipped(slots, |rs|) == |rs|
  {
    if rs != [] {
      var n := |rs|;
      var a := FrameStart(rs, n - 1);
      MatchedOrSkipped(rs, start, size, slots, n);
      FrameOf(rs, n - 1);
      FrameEndShift(rs, a, n - 1);
      assert MatchingFrame(rs, start, size, a) ==> n - a == size;
      TimesIs(size, Frames(rs, start, size, n));
    } else {
      assert size * 0 == 0;
    }
  }

  /** The template stands for itself, so every slot keeps a record, with the template's identity. */
  lemma {:induction false} SlotHasRecord(rs: seq<Record>, slots: Slots, slot: nat, numMetrics: nat, i: nat, n: nat)
    requires i < n <= |rs| == |slots| && StandsFor(slots, i, slot)
    ensures PerfAverages.Kept(rs, slots, slot, numMetrics, n).Some?
  {
    if i < n - 1 {
      SlotHasRecord(rs, slots, slot, numMetrics, i, n - 1);
    } else if Count(rs, slots, slot, numMetrics, n - 1) > 0 {
      CountedIsKept(rs, slots, slot, numMetrics, n - 1);
    }
  }

  lemma {:induction false} CountedIsKept(rs: seq<Record>, slots: Slots, slot: nat, numMetrics: nat, n: nat)
    requires n <= |rs| == |slots| && Count(rs, slots, slot, numMetrics, n) > 0
    ensures PerfAverages.Kept(rs, slots, slot, numMetrics, n).Some?
  {
    if Count(rs, slots, slot, numMetrics, n - 1) > 0 {
      CountedIsKept(rs, slots, slot, numMetrics, n - 1);
    }
  }

  lemma TemplateSlot(rs: seq<Record>, start: nat, size: nat, slots: Slots, slot: nat, numMetrics: nat)
    requires IsTemplate(rs, start, size) && start + size <= |rs| && Mapped(rs, start, size, slots, |rs|) && slot < size
    ensures PerfAverages.Kept(rs, slots, slot, numMetrics, |rs|).Some?
    ensures var r := rs[PerfAverages.Kept(rs, slots, slot, numMetrics, |rs|).value];
      r.cmdBufferId == rs[start + slot].cmdBufferId && r.drawId == rs[start + slot].drawId
  {
    SlotIffFrame(rs, start, size, start + slot, slot);
    SlotHasRecord(rs, slots, slot, numMetrics, start + slot, |rs|);
    var k := PerfAverages.Kept(rs, slots, slot, numMetrics, |rs|).value;
    SlotIffFrame(rs, start, size, k, slot);
    assert SameDraw(rs, start, k - slot, slot);
  }

  lemma SlotsInPattern(rs: seq<Record>, start: nat, size: nat, slots: Slots)
    requires start + size <= |rs| && Mapped(rs, start, size, slots, |rs|)
    ensures InPattern(slots, size)
  {
    forall i | 0 <= i < |slots| && slots[i].Some?
      ensures slots[i].value < size
    {
      FrameOf(rs, i);
      FrameEndShift(rs, FrameStart(rs, i), i);
    }
  }

  // ---------- the correlator ----------

  function Into(i: Option<nat>, list: seq<nat>): Option<nat> {
    if i.Some? && i.value < |list| then Some(list[i.value]) else None
  }

  function IntoOptions(i: Option<nat>, list: seq<Option<nat>>): Option<nat> {
    if i.Some? && i.value < |list| then list[i.value] else None
  }

  function IntoMap(i: Option<nat>, m: map<nat, nat>): Option<nat> {
    if i.Some? && i.value in m then Some(m[i.value]) else None
  }

  class Correlator {
    var drawToNode: seq<nat>
    var nodeToDraw: map<nat, nat>
    var drawToMetric: seq<nat>
    var metricToDraw: seq<Option<nat>>
    var recordToMetric: seq<Option<nat>>
    ghost var nodes: seq<Node>      // the hierarchy, or nothing
    ghost var records: seq<Record>  // the records that were analyzed
    ghost var start: nat            // the template frame
    ghost var size: nat

    /** Nodes and draws correspond. */
    ghost predicate Draws()
      reads this
    {
      && drawToNode == DrawToNode(nodes)
      && (forall i: nat :: i in nodeToDraw <==> i < |nodes| && DrawOf(nodes, i).Some?)
      && (forall i: nat :: i in nodeToDraw ==> nodeToDraw[i] == DrawOf(nodes, i).value)
    }

    /** Draws and records correspond to the slots of the template. */
    ghost predicate Metrics()
      reads this
    {
      && |metricToDraw| == size && AreInverse(drawToMetric, metricToDraw) && start + size <= |records|
      && Mapped(records, start, size, recordToMetric, |records|)
      && (if records == [] then size == 0
          else IsTemplate(records, start, size) && drawToMetric == DrawSlots(records, start, size))
    }

    constructor ()
      ensures Draws() && Metrics() && nodes == [] && records == []
    {
      drawToNode, nodeToDraw, drawToMetric, metricToDraw, recordToMetric := [], map[], [], [], [];
      nodes, records, start, size := [], [], 0, 0;
    }

    method Reset()
      modifies this
      ensures Draws() && Metrics() && nodes == [] && records == []
    {
      drawToNode, nodeToDraw, drawToMetric, metricToDraw, recordToMetric := [], map[], [], [], [];
      nodes, records, start, size := [], [], 0, 0;
    }

    method AnalyzeCommands(hierarchy: seq<Node>)
      modifies this`drawToNode, this`nodeToDraw, this`nodes
      ensures Draws() && nodes == hierarchy
    {
      var toNode, toDraw := ExtractDraws(hierarchy);
      drawToNode, nodeToDraw := toNode, toDraw;
      nodes := hierarchy;
    }

    method AnalyzeRecords(rs: seq<Record>)
      requires Metrics() && records == []
      modifies this`drawToMetric, this`metricToDraw, this`recordToMetric, this`records, this`start, this`size
      ensures Metrics() && records == rs
    {
      recordToMetric := [];
      if rs == [] {
        return;
      }
      hide Mapped, AreInverse;
      var a, n := FindTemplate(rs);
      FrameIs(rs, a, a + n);
      var toMetric, toDraw := MapDraws(rs, a, n);
      var slots := MapRecords(rs, a, n);
      recordToMetric, drawToMetric, metricToDraw := slots, toMetric, toDraw;
      records, start, size := rs, a, n;
    }

    /** Without a hierarchy, or when it has as many draws as the template frame. */
    predicate CorrelationEnabled()
      reads this
    {
      drawToNode == [] || |drawToMetric| == |drawToNode|
    }

    function Enabled(i: Option<nat>): Option<nat>
      reads this
    {
      if CorrelationEnabled() then i else None
    }

    function GetPatternSize(): nat
      reads this
    {
      |metricToDraw|
    }

    function MatchOf(record: Option<nat>): Option<nat>
      reads this
    {
      IntoOptions(record, recordToMetric)
    }

    function GetNodeFromDraw(draw: Option<nat>): Option<nat>
      reads this
    {
      Into(draw, drawToNode)
    }

    function GetDrawFromNode(node: Option<nat>): Option<nat>
      reads this
    {
      IntoMap(node, nodeToDraw)
    }

    function GetDrawFromMetric(metric: Option<nat>): Option<nat>
      reads this
    {
      IntoOptions(Enabled(metric), metricToDraw)
    }

    function GetMetricFromDraw(draw: Option<nat>): Option<nat>
      reads this
    {
      Into(Enabled(draw), drawToMetric)
    }

    function GetNodeFromMetric(metric: Option<nat>): Option<nat>
      reads this
    {
      GetNodeFromDraw(GetDrawFromMetric(metric))
    }

    function GetMetricFromNode(node: Option<nat>): Option<nat>
      reads this
    {
      GetMetricFromDraw(GetDrawFromNode(node))
    }

    /** A first-instance draw comes back to itself by way of its metrics. */
    lemma FirstInstanceRoundTrip(i: nat)
      requires Draws() && Metrics() && |drawToMetric| == |drawToNode| && i < |nodes| && IsActual(nodes, i)
      ensures GetMetricFromNode(Some(i)).Some? && GetNodeFromMetric(GetMetricFromNode(Some(i))) == Some(i)
    {
      FirstInstanceInverts(nodes, i);
    }

    /** The draw of a tile pass comes back to the binning draw it stands for. */
    lemma AliasRoundTrip(i: nat)
      requires Draws() && Metrics() && |drawToMetric| == |drawToNode|
      requires i < |nodes| && IsAlias(nodes, i) && DrawOf(nodes, i).Some?
      ensures var node := GetNodeFromMetric(GetMetricFromNode(Some(i)));
        node.Some? && node.value < |nodes| && IsActual(nodes, node.value)
          && DrawOf(nodes, node.value) == DrawOf(nodes, i)
    {
      AliasInRange(nodes, i);
      ActualsAre(nodes, |nodes|);
      var draw := DrawOf(nodes, i).value;
      assert Actuals(nodes, |nodes|) != [];
      assert drawToNode[draw] == Actuals(nodes, |nodes|)[draw];
      DrawToNodeInverts(nodes, draw);
    }

    /** When the draw counts differ, no node has metrics and no metric has a node. */
    lemma DisabledLookups(i: Option<nat>)
      requires drawToNode != [] && |drawToMetric| != |drawToNode|
      ensures GetMetricFromNode(i) == None && GetNodeFromMetric(i) == None
    {
    }

    /** Without listed draws, as without a hierarchy, or with as many as the template frame has, draws and slots
        are found by counting the draws of the template. */
    lemma CorrelatedLookups(draw: nat, metric: nat)
      requires Draws() && Metrics()
      requires nodes == [] || DrawToNode(nodes) == [] || |DrawToNode(nodes)| == |DrawSlots(records, start, size)|
      ensures GetMetricFromDraw(Some(draw)) ==
        if draw < |DrawSlots(records, start, size)| then Some(DrawSlots(records, start, size)[draw]) else None
      ensures GetDrawFromMetric(Some(metric)) ==
        if metric < size && IsDrawOrDispatch(records[start + metric]) then Some(|DrawSlots(records, start, metric)|)
        else None
    {
      assert DrawToNode([]) == [];
      if metric < size && IsDrawOrDispatch(records[start + metric]) {
        DrawSlotIs(records, start, size, metric);
        assert metricToDraw[DrawSlots(records, start, size)[|DrawSlots(records, start, metric)|]].Some?;
      } else if metric < size && metricToDraw[metric].Some? {
        DrawSlotAt(records, start, size, metricToDraw[metric].value);
      }
    }

    /** Slots and draws are each other's inverses as far as they are defined. */
    lemma MetricRoundTrip(metric: nat)
      requires Metrics() && CorrelationEnabled() && metric < size
      ensures GetDrawFromMetric(Some(metric)).Some? <==> IsDrawOrDispatch(records[start + metric])
      ensures GetDrawFromMetric(Some(metric)).Some? ==>
        GetMetricFromDraw(GetDrawFromMetric(Some(metric))) == Some(metric)
    {
      if IsDrawOrDispatch(records[start + metric]) {
        DrawSlotIs(records, start, size, metric);
      } else if metricToDraw[metric].Some? {
        DrawSlotAt(records, start, size, metricToDraw[metric].value);
      }
    }
  }

  /** Correlates the records with a hierarchy, or with none, and averages them. */
  method Analyze(correlator: Correlator, hierarchy: Option<seq<Node>>, rs: seq<Record>, numMetrics: nat)
    returns (computed: seq<Record>, skipped: nat)
    modifies correlator
    ensures correlator.Draws() && correlator.Metrics() && correlator.records == rs
    ensures correlator.nodes == if hierarchy.Some? then hierarchy.value else []
    ensures |computed| == correlator.size && correlator.start + correlator.size <= |rs|
    ensures |correlator.recordToMetric| == |rs| && skipped == Skipped(correlator.recordToMetric, |rs|)
    ensures correlator.size * Frames(rs, correlator.start, correlator.size, |rs|) + skipped == |rs|
    ensures forall slot {:trigger computed[slot]} :: 0 <= slot < correlator.size ==>
      && computed[slot].values == Means(rs, correlator.recordToMetric, slot, numMetrics)
      && computed[slot].frameId == 0
      && computed[slot].cmdBufferId == rs[correlator.start + slot].cmdBufferId
      && computed[slot].drawId == rs[correlator.start + slot].drawId
  {
    hide IsTemplate, Mapped, AreInverse, DrawOf, InPattern, PerfAverages.Kept, Means, Skipped;
    correlator.Reset();
    if hierarchy.Some? {
      correlator.AnalyzeCommands(hierarchy.value);
    }
    correlator.AnalyzeRecords(rs);
    var slots := correlator.recordToMetric;
    TemplateSlots(rs, correlator.start, correlator.size, slots, numMetrics);
    AllRecords(rs, correlator.start, correlator.size, slots);
    computed, skipped := PerfAverages.Analyze(rs, slots, correlator.GetPatternSize(), numMetrics);
  }

  lemma TemplateSlots(rs: seq<Record>, start: nat, size: nat, slots: Slots, numMetrics: nat)
    requires start + size <= |rs| && Mapped(rs, start, size, slots, |rs|)
    requires if rs == [] then size == 0 else IsTemplate(rs, start, size)
    ensures |slots| == |rs| && InPattern(slots, size)
    ensures forall slot: nat {:trigger PerfAverages.Kept(rs, slots, slot, numMetrics, |rs|)} :: slot < size ==>
      && PerfAverages.Kept(rs, slots, slot, numMetrics, |rs|).Some?
      && rs[PerfAverages.Kept(rs, slots, slot, numMetrics, |rs|).value].cmdBufferId == rs[start + slot].cmdBufferId
      && rs[PerfAverages.Kept(rs, slots, slot, numMetrics, |rs|).value].drawId == rs[start + slot].drawId
  {
    SlotsInPattern(rs, start, size, slots);
    hide PerfAverages.Kept, IsTemplate;
    forall slot: nat | slot < size
      ensures PerfAverages.Kept(rs, slots, slot, numMetrics, |rs|).Some?
      ensures var r := rs[PerfAverages.Kept(rs, slots, slot, numMetrics, |rs|).value];
        r.cmdBufferId == rs[start + slot].cmdBufferId && r.drawId == rs[start + slot].drawId
    {
      TemplateSlot(rs, start, size, slots, slot, numMetrics);
    }
  }
}
