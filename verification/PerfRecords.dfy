/** PerfMetricsDataProvider: the template frame, the matching of frames with it, and the averages. */
module PerfRecords {
  import opened Wrappers
  import opened Ancestry

  datatype Record = Record(frameId: nat, cmdBufferId: nat, drawId: nat, drawType: nat, values: seq<real>)

  predicate IsDrawOrDispatch(r: Record) {
    r.drawType == 1 || r.drawType == 3
  }

  // ---------- frames: runs of equal frame ids ----------

  function FrameStart(rs: seq<Record>, i: nat): (a: nat)
    requires i < |rs|
    ensures a <= i
  {
    if i == 0 || rs[i - 1].frameId != rs[i].frameId then i else FrameStart(rs, i - 1)
  }

  function FrameEnd(rs: seq<Record>, i: nat): (b: nat)
    requires i < |rs|
    ensures i < b <= |rs|
    decreases |rs| - i
  {
    if i + 1 == |rs| || rs[i + 1].frameId != rs[i].frameId then i + 1 else FrameEnd(rs, i + 1)
  }

  /** Records a to b - 1 are a frame. */
  predicate IsFrame(rs: seq<Record>, a: nat, b: nat) {
    a < |rs| && FrameStart(rs, a) == a && FrameEnd(rs, a) == b
  }

  lemma {:induction false} FrameOf(rs: seq<Record>, i: nat)
    requires i < |rs|
    ensures IsFrame(rs, FrameStart(rs, i), FrameEnd(rs, i)) && rs[FrameStart(rs, i)].frameId == rs[i].frameId
  {
    if i > 0 && rs[i - 1].frameId == rs[i].frameId {
      FrameOf(rs, i - 1);
    }
  }

  lemma {:induction false} InFrame(rs: seq<Record>, a: nat, i: nat)
    requires a < |rs| && FrameStart(rs, a) == a && a <= i < FrameEnd(rs, a)
    ensures FrameStart(rs, i) == a && FrameEnd(rs, i) == FrameEnd(rs, a) && rs[i].frameId == rs[a].frameId
    decreases i - a
  {
    if i > a {
      FrameEndShift(rs, a, i);
      InFrame(rs, a, i - 1);
    }
  }

  lemma {:induction false} FrameEndShift(rs: seq<Record>, a: nat, i: nat)
    requires a <= i < |rs| && i < FrameEnd(rs, a)
    ensures FrameEnd(rs, i) == FrameEnd(rs, a) && rs[i].frameId == rs[a].frameId
    decreases i - a
  {
    if i > a {
      FrameEndShift(rs, a + 1, i);
    }
  }

  /** A frame starts at 0 and after each frame. */
  lemma NextFrame(rs: seq<Record>, i: nat)
    requires 0 < i < |rs|
    ensures FrameStart(rs, i) == i <==> FrameEnd(rs, i - 1) == i
  {
  }

  // ---------- the template ----------

  /** The first of the longest frames. */
  ghost predicate IsTemplate(rs: seq<Record>, start: nat, size: nat) {
    && size > 0 && IsFrame(rs, start, start + size)
    && forall a: nat, b: nat {:trigger IsFrame(rs, a, b)} :: IsFrame(rs, a, b) ==>
         b - a <= size && (a < start ==> b - a < size)
  }

  ghost predicate IsTemplateSoFar(rs: seq<Record>, start: nat, size: nat, end: nat) {
    && (size > 0 ==> IsFrame(rs, start, start + size) && start + size <= end)
    && forall a: nat, b: nat {:trigger IsFrame(rs, a, b)} ::
         IsFrame(rs, a, b) && b <= end ==> size > 0 && b - a <= size && (a < start ==> b - a < size)
  }

  lemma FrameIs(rs: seq<Record>, a: nat, b: nat)
    requires IsFrame(rs, a, b)
    ensures a < b <= |rs|
  {
  }

  lemma TemplateStep(rs: seq<Record>, start: nat, size: nat, a: nat, b: nat)
    requires IsTemplateSoFar(rs, start, size, a) && IsFrame(rs, a, b)
    ensures a < b && if b - a > size then IsTemplateSoFar(rs, a, b - a, b) else IsTemplateSoFar(rs, start, size, b)
  {
    FrameIs(rs, a, b);
    forall c: nat, d: nat | IsFrame(rs, c, d) && d <= b
      ensures d <= a || (c == a && d == b)
    {
      FrameIs(rs, c, d);
      if d > a {
        FramesDisjoint(rs, a, b, c, d);
      }
    }
  }

  lemma FramesDisjoint(rs: seq<Record>, a: nat, b: nat, c: nat, d: nat)
    requires IsFrame(rs, a, b) && IsFrame(rs, c, d) && a < d && c < b
    ensures a == c && b == d
  {
    if a <= c {
      InFrame(rs, a, c);
    } else {
      InFrame(rs, c, a);
    }
  }

  method FindTemplate(rs: seq<Record>) returns (start: nat, size: nat)
    requires rs != []
    ensures IsTemplate(rs, start, size)
  {
    start, size := 0, 0;
    var frameStart: nat := 0;
    hide IsTemplateSoFar, FrameStart, FrameEnd;
    FirstFrame(rs);
    for i := 0 to |rs|
      invariant frameStart <= i && (i == 0 ==> frameStart == 0) && frameStart < |rs|
      invariant FrameStart(rs, frameStart) == frameStart && (i > 0 ==> frameStart < i && i <= FrameEnd(rs, frameStart))
      invariant IsTemplateSoFar(rs, start, size, frameStart)
    {
      FrameGoesOn(rs, frameStart, i);
      if rs[frameStart].frameId != rs[i].frameId {
        TemplateStep(rs, start, size, frameStart, i);
        if i - frameStart > size {
          start, size := frameStart, i - frameStart;
        }
        frameStart := i;
      }
    }
    TemplateStep(rs, start, size, frameStart, |rs|);
    if |rs| - frameStart > size {
      start, size := frameStart, |rs| - frameStart;
    }
    TemplateDone(rs, start, size);
  }

  lemma FirstFrame(rs: seq<Record>)
    requires rs != []
    ensures FrameStart(rs, 0) == 0 && IsTemplateSoFar(rs, 0, 0, 0)
  {
  }

  lemma TemplateDone(rs: seq<Record>, start: nat, size: nat)
    requires rs != [] && IsTemplateSoFar(rs, start, size, |rs|)
    ensures IsTemplate(rs, start, size)
  {
    FrameOf(rs, 0);
    FrameIs(rs, 0, FrameEnd(rs, 0));
  }

  /** Record i is in the frame that starts at a exactly if it has its frame id; otherwise it starts one. */
  lemma FrameGoesOn(rs: seq<Record>, a: nat, i: nat)
    requires a < |rs| && FrameStart(rs, a) == a && a <= i < |rs| && (i > a ==> i <= FrameEnd(rs, a))
    ensures if rs[a].frameId != rs[i].frameId then IsFrame(rs, a, i) && FrameStart(rs, i) == i && i < FrameEnd(rs, i)
            else i < FrameEnd(rs, a)
  {
    if i > a {
      InFrame(rs, a, i - 1);
    }
  }

  // ---------- matching frames with the template ----------

  /** The same command buffers and draws, in the same order. */
  predicate Matches(rs: seq<Record>, start: nat, size: nat, a: nat, b: nat)
    requires start + size <= |rs| && a <= b <= |rs|
  {
    b - a == size && forall k :: 0 <= k < size ==> SameDraw(rs, start, a, k)
  }

  predicate SameDraw(rs: seq<Record>, start: nat, a: nat, k: nat)
    requires start + k < |rs| && a + k < |rs|
  {
    rs[a + k].cmdBufferId == rs[start + k].cmdBufferId && rs[a + k].drawId == rs[start + k].drawId
  }

  method MatchDrawSignatures(rs: seq<Record>, start: nat, size: nat, a: nat, b: nat) returns (match_: bool)
    requires start + size <= |rs| && a <= b <= |rs|
    ensures match_ == Matches(rs, start, size, a, b)
  {
    if size != b - a {
      return false;
    }
    for k := 0 to size
      invariant forall l :: 0 <= l < k ==> SameDraw(rs, start, a, l)
    {
      assert SameDraw(rs, start, a, k) <==>
        rs[a + k].cmdBufferId == rs[start + k].cmdBufferId && rs[a + k].drawId == rs[start + k].drawId;
      if rs[a + k].cmdBufferId != rs[start + k].cmdBufferId {
        return false;
      }
      if rs[a + k].drawId != rs[start + k].drawId {
        return false;
      }
    }
    return true;
  }

  /** Slot of the template that record i stands for: its place in its frame, if the frame matches. */
  function SlotOf(rs: seq<Record>, start: nat, size: nat, i: nat): Option<nat>
    requires start + size <= |rs| && i < |rs|
  {
    if Matches(rs, start, size, FrameStart(rs, i), FrameEnd(rs, i)) then Some(i - FrameStart(rs, i)) else None
  }

  /** The records before n are mapped to their slots, and the others not yet. */
  ghost predicate Mapped(rs: seq<Record>, start: nat, size: nat, slots: seq<Option<nat>>, n: nat)
    requires start + size <= |rs|
  {
    && |slots| == |rs|
    && (forall i {:trigger slots[i]} :: 0 <= i < |rs| && i < n ==> slots[i] == SlotOf(rs, start, size, i))
    && (forall i {:trigger slots[i]} :: n <= i < |rs| ==> slots[i] == None)
  }

  method MapFrame(rs: seq<Record>, start: nat, size: nat, slots: seq<Option<nat>>, a: nat, b: nat)
    returns (r: seq<Option<nat>>)
    requires start + size <= |rs| && IsFrame(rs, a, b) && Mapped(rs, start, size, slots, a)
    ensures a < b <= |rs| && Mapped(rs, start, size, r, b)
  {
    FrameIs(rs, a, b);
    r := slots;
    forall i | a <= i < b
      ensures SlotOf(rs, start, size, i) == if Matches(rs, start, size, a, b) then Some(i - a) else None
    {
      InFrame(rs, a, i);
    }
    hide SlotOf, Matches, FrameStart, FrameEnd;
    var match_ := MatchDrawSignatures(rs, start, size, a, b);
    if !match_ {
      return;
    }
    for k := 0 to b - a
      invariant |r| == |rs|
      invariant forall i {:trigger r[i]} :: 0 <= i < |rs| ==> r[i] == if a <= i < a + k then Some(i - a) else slots[i]
    {
      r := r[a + k := Some(k)];
    }
  }

  method MapRecords(rs: seq<Record>, start: nat, size: nat) returns (slots: seq<Option<nat>>)
    requires rs != [] && start + size <= |rs|
    ensures Mapped(rs, start, size, slots, |rs|)
  {
    slots := seq(|rs|, _ => None);
    var frameStart: nat := 0;
    hide SlotOf, FrameStart, FrameEnd;
    FirstFrame(rs);
    for i := 0 to |rs|
      invariant frameStart <= i && frameStart < |rs|
      invariant FrameStart(rs, frameStart) == frameStart && (i > 0 ==> frameStart < i && i <= FrameEnd(rs, frameStart))
      invariant Mapped(rs, start, size, slots, frameStart)
    {
      FrameGoesOn(rs, frameStart, i);
      if rs[frameStart].frameId != rs[i].frameId {
        slots := MapFrame(rs, start, size, slots, frameStart, i);
        frameStart := i;
      }
    }
    slots := MapFrame(rs, start, size, slots, frameStart, |rs|);
  }

  // ---------- draws and slots ----------

  /** The slots of the template that are draws or dispatches. */
  function DrawSlots(rs: seq<Record>, start: nat, n: nat): seq<nat>
    requires start + n <= |rs|
  {
    if n == 0 then []
    else DrawSlots(rs, start, n - 1) + if IsDrawOrDispatch(rs[start + n - 1]) then [n - 1] else []
  }

  lemma {:induction false} DrawSlotAt(rs: seq<Record>, start: nat, n: nat, k: nat)
    requires start + n <= |rs| && k < |DrawSlots(rs, start, n)|
    ensures var d := DrawSlots(rs, start, n)[k];
      d < n && IsDrawOrDispatch(rs[start + d]) && |DrawSlots(rs, start, d)| == k
  {
    if k < |DrawSlots(rs, start, n - 1)| {
      DrawSlotAt(rs, start, n - 1, k);
    }
  }

  lemma {:induction false} DrawSlotIs(rs: seq<Record>, start: nat, n: nat, i: nat)
    requires start + n <= |rs| && i < n && IsDrawOrDispatch(rs[start + i])
    ensures |DrawSlots(rs, start, i)| < |DrawSlots(rs, start, n)|
      && DrawSlots(rs, start, n)[|DrawSlots(rs, start, i)|] == i
  {
    if i < n - 1 {
      DrawSlotIs(rs, start, n - 1, i);
    }
  }

  lemma {:induction false} DrawSlotsIncrease(rs: seq<Record>, start: nat, n: nat)
    requires start + n <= |rs|
    ensures Increasing(DrawSlots(rs, start, n))
  {
    if n > 0 {
      hide Increasing;
      DrawSlotsIncrease(rs, start, n - 1);
      var most := DrawSlots(rs, start, n - 1);
      forall k: nat | k < |most|
        ensures most[k] < n - 1
      {
        DrawSlotAt(rs, start, n - 1, k);
      }
      SnocIncreasing(most, n - 1);
    } else {
      assert Increasing([]);
    }
  }

  /** Draws and their slots: each the inverse of the other, and in the same order. */
  ghost predicate AreInverse(drawToMetric: seq<nat>, metricToDraw: seq<Option<nat>>) {
    && Increasing(drawToMetric)
    && (forall k: nat {:trigger drawToMetric[k]} :: k < |drawToMetric| ==>
          drawToMetric[k] < |metricToDraw| && metricToDraw[drawToMetric[k]] == Some(k))
    && (forall i: nat {:trigger metricToDraw[i]} :: i < |metricToDraw| && metricToDraw[i].Some? ==>
          metricToDraw[i].value < |drawToMetric| && drawToMetric[metricToDraw[i].value] == i)
  }

  method MapDraws(rs: seq<Record>, start: nat, size: nat)
    returns (drawToMetric: seq<nat>, metricToDraw: seq<Option<nat>>)
    requires start + size <= |rs|
    ensures |metricToDraw| == size && AreInverse(drawToMetric, metricToDraw)
    ensures forall i {:trigger metricToDraw[i]} :: 0 <= i < size ==>
      (metricToDraw[i].Some? <==> rs[start + i].drawType == 1 || rs[start + i].drawType == 3)
    ensures drawToMetric == DrawSlots(rs, start, size)
  {
    drawToMetric := [];
    metricToDraw := seq(size, _ => None);
    for i := 0 to size
      invariant |metricToDraw| == size && drawToMetric == DrawSlots(rs, start, i)
      invariant forall l: nat {:trigger metricToDraw[l]} :: l < size ==>
        metricToDraw[l] == if l < i && IsDrawOrDispatch(rs[start + l]) then Some(|DrawSlots(rs, start, l)|) else None
    {
      if IsDrawOrDispatch(rs[start + i]) {
        metricToDraw := metricToDraw[i := Some(|drawToMetric|)];
        drawToMetric := drawToMetric + [i];
      }
    }
    DrawSlotsIncrease(rs, start, size);
    forall k: nat | k < |drawToMetric|
      ensures drawToMetric[k] < size && metricToDraw[drawToMetric[k]] == Some(k)
    {
      DrawSlotAt(rs, start, size, k);
    }
    forall i: nat | i < size && metricToDraw[i].Some?
      ensures metricToDraw[i].value < |drawToMetric| && drawToMetric[metricToDraw[i].value] == i
    {
      DrawSlotIs(rs, start, size, i);
    }
  }

  /** A frame is a longest run of equal frame ids. */
  lemma FrameIff(rs: seq<Record>, a: nat, b: nat)
    ensures IsFrame(rs, a, b) <==>
      && a < b <= |rs| && (forall i :: a <= i < b ==> rs[i].frameId == rs[a].frameId)
      && (a == 0 || rs[a - 1].frameId != rs[a].frameId) && (b == |rs| || rs[b].frameId != rs[a].frameId)
  {
    if a < |rs| {
      FrameEndIs(rs, a);
      var e := FrameEnd(rs, a);
      if e < b <= |rs| {
        assert rs[e].frameId != rs[a].frameId;
      }
    }
  }

  lemma {:induction false} FrameEndIs(rs: seq<Record>, a: nat)
    requires a < |rs|
    ensures forall i :: a <= i < FrameEnd(rs, a) ==> rs[i].frameId == rs[a].frameId
    ensures FrameEnd(rs, a) < |rs| ==> rs[FrameEnd(rs, a)].frameId != rs[a].frameId
    decreases |rs| - a
  {
    if a + 1 < |rs| && rs[a + 1].frameId == rs[a].frameId {
      FrameEndIs(rs, a + 1);
    }
  }
}
