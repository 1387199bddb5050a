/** The stack of open indirect buffers and the ranges recorded for them. */
module Pm4Stacks {
  import opened Pm4Trace
  import opened Pm4Effects

  // ---------- packets in creation order ----------

  predicate IsPacket(rows: seq<Row>, x: nat) {
    x < |rows| && rows[x].kind.PacketNode?
  }

  /** x is the first packet after node i. */
  ghost predicate FirstAfter(rows: seq<Row>, i: nat, x: nat) {
    i < x && IsPacket(rows, x) && forall y: nat :: IsPacket(rows, y) && i < y ==> x <= y
  }

  ghost predicate NoneAfter(rows: seq<Row>, i: nat) {
    forall y: nat :: IsPacket(rows, y) ==> y <= i
  }

  /** x is the last packet, if there is one. */
  ghost predicate IsLast(rows: seq<Row>, x: nat) {
    forall y: nat :: IsPacket(rows, y) ==> y <= x && IsPacket(rows, x)
  }

  /** The range covers exactly the packets after node i. */
  ghost predicate CoversAfter(rows: seq<Row>, i: nat, r: Range) {
    && IsPacket(rows, r.start) && IsPacket(rows, r.end)
    && forall x: nat :: IsPacket(rows, x) ==> (r.start <= x <= r.end <==> i < x)
  }

  /** More rows without packets. */
  ghost predicate AddsNoPacket(rows: seq<Row>, more: seq<Row>) {
    rows <= more && forall y: nat :: |rows| <= y ==> !IsPacket(more, y)
  }

  /** More rows of which the first is a packet and no other one is. */
  ghost predicate AddsPacket(rows: seq<Row>, more: seq<Row>) {
    rows <= more && IsPacket(more, |rows|) && forall y: nat :: |rows| < y ==> !IsPacket(more, y)
  }

  lemma SamePackets(rows: seq<Row>, more: seq<Row>)
    requires AddsNoPacket(rows, more)
    ensures forall y: nat :: IsPacket(more, y) <==> IsPacket(rows, y)
  {
    assert forall y: nat :: y < |rows| ==> more[y] == rows[y];
  }

  lemma OnePacketMore(rows: seq<Row>, more: seq<Row>)
    requires AddsPacket(rows, more)
    ensures forall y: nat :: IsPacket(more, y) <==> IsPacket(rows, y) || y == |rows|
  {
    assert forall y: nat :: y < |rows| ==> more[y] == rows[y];
  }

  // ---------- the invariant ----------

  ghost predicate OpenBuffers(rows: seq<Row>, ibs: seq<nat>) {
    && (forall k {:trigger ibs[k]} :: 0 <= k < |ibs| ==> ibs[k] < |rows| && rows[ibs[k]].kind.IbNode?)
    && (ibs != [] ==> !IsChain(rows, ibs[0]))
  }

  ghost predicate StartsMatch(rows: seq<Row>, ibs: seq<nat>, starts: seq<nat>) {
    |starts| <= |ibs| && forall k {:trigger FirstAfter(rows, ibs[k], starts[k])} :: 0 <= k < |starts| ==>
      FirstAfter(rows, ibs[k], starts[k])
  }

  /** One open buffer more than starts exactly while the innermost buffer has had no packet. */
  ghost predicate Aligned(s: State) {
    && OpenBuffers(s.rows, s.ibs) && StartsMatch(s.rows, s.ibs, s.ibStarts) && IsLast(s.rows, s.last)
    && (if s.newIb && s.ibs != [] then |s.ibs| == |s.ibStarts| + 1 && NoneAfter(s.rows, Last(s.ibs))
        else |s.ibs| == |s.ibStarts|)
  }

  lemma OpenBuffersGrow(rows: seq<Row>, more: seq<Row>, ibs: seq<nat>)
    requires OpenBuffers(rows, ibs) && rows <= more
    ensures OpenBuffers(more, ibs)
  {
  }

  lemma StartsMatchGrow(rows: seq<Row>, more: seq<Row>, ibs: seq<nat>, starts: seq<nat>)
    requires StartsMatch(rows, ibs, starts) && (AddsNoPacket(rows, more) || AddsPacket(rows, more))
    ensures StartsMatch(more, ibs, starts)
  {
    hide FirstAfter, IsPacket, AddsNoPacket, AddsPacket;
    forall k | 0 <= k < |starts|
      ensures FirstAfter(more, ibs[k], starts[k])
    {
      FirstAfterGrow(rows, more, ibs[k], starts[k]);
    }
  }

  lemma FirstAfterGrow(rows: seq<Row>, more: seq<Row>, i: nat, x: nat)
    requires FirstAfter(rows, i, x) && (AddsNoPacket(rows, more) || AddsPacket(rows, more))
    ensures FirstAfter(more, i, x)
  {
    if AddsNoPacket(rows, more) {
      SamePackets(rows, more);
    } else {
      OnePacketMore(rows, more);
    }
  }

  lemma StartsMatchSnoc(rows: seq<Row>, ibs: seq<nat>, starts: seq<nat>, x: nat)
    requires StartsMatch(rows, ibs, starts) && |starts| < |ibs| && FirstAfter(rows, ibs[|starts|], x)
    ensures StartsMatch(rows, ibs, starts + [x])
  {
    hide FirstAfter;
  }

  /** Rows that are no packets change nothing about the open buffers. */
  lemma AlignedGrow(s: State, t: State)
    requires Aligned(s) && AddsNoPacket(s.rows, t.rows)
    requires t.ibs == s.ibs && t.ibStarts == s.ibStarts && t.newIb == s.newIb && t.last == s.last
    ensures Aligned(t)
  {
    SamePackets(s.rows, t.rows);
    OpenBuffersGrow(s.rows, t.rows, s.ibs);
    StartsMatchGrow(s.rows, t.rows, s.ibs, s.ibStarts);
  }

  lemma AlignedStartIb(s: State, ib: IbType, index: nat)
    requires Aligned(s) && Allowed(s, IbStart(ib, index))
    ensures Aligned(StartIb(s, ib, index))
  {
    var t := StartIb(s, ib, index);
    assert AddsNoPacket(s.rows, t.rows);
    SamePackets(s.rows, t.rows);
    OpenBuffersGrow(s.rows, t.rows, s.ibs);
    StartsMatchGrow(s.rows, t.rows, s.ibs, s.ibStarts);
    assert Last(t.ibs) == |t.rows| - 1;
  }

  lemma AlignedEndIb(s: State)
    requires Aligned(s) && Allowed(s, IbEnd)
    ensures Aligned(EndIb(s))
  {
    var k := TrailingChains(s.rows, s.ibs, |s.ibs|);
    assert EndIb(s).ibs == s.ibs[..|s.ibs| - k - 1];
    var starts := if s.newIb then s.ibStarts else Cut(s.ibStarts, 1);
    assert starts == s.ibStarts[..|s.ibs| - 1];
    assert EndIb(s).ibStarts == s.ibStarts[..|s.ibs| - k - 1];
  }

  /** What OnIbEnd records for a buffer with a packet: exactly the packets since the buffer was entered. */
  lemma EndIbRange(s: State)
    requires Aligned(s) && Allowed(s, IbEnd) && !s.newIb
    ensures var v := Last(s.ibs); v in EndIb(s).ibRanges && CoversAfter(s.rows, v, EndIb(s).ibRanges[v])
  {
    assert FirstAfter(s.rows, s.ibs[|s.ibs| - 1], s.ibStarts[|s.ibs| - 1]);
  }

  lemma PacketRows(s: State, p: Packet)
    requires IsTyped(p)
    ensures AfterPacket(s, p).rows == s.rows + PacketNodes(s, p)
    ensures AfterPacket(s, p).flatten == s.flatten && AfterPacket(s, p).submit == s.submit
    ensures AddsPacket(s.rows, AfterPacket(s, p).rows)
    ensures var t := AfterPacket(s, p); var n := |s.rows|;
      && t.ibs == s.ibs && !t.newIb && t.last == n
      && t.ibStarts == if s.newIb then s.ibStarts + [n] else s.ibStarts
  {
    PacketEffect(s, p);
    hide AfterPacket, PacketNodes;
    AppendsPacket(s.rows, PacketNodes(s, p));
  }

  lemma AppendsPacket(rows: seq<Row>, nodes: seq<Row>)
    requires nodes != [] && nodes[0].kind.PacketNode? && forall k :: 0 < k < |nodes| ==> !nodes[k].kind.PacketNode?
    ensures AddsPacket(rows, rows + nodes)
  {
    assert forall y :: |rows| <= y < |rows + nodes| ==> (rows + nodes)[y] == nodes[y - |rows|];
  }

  lemma AlignedPacket(s: State, p: Packet)
    requires Aligned(s) && Allowed(s, OnPacket(p))
    ensures Aligned(AfterPacket(s, p))
  {
    if IsTyped(p) {
      PacketRows(s, p);
      hide AfterPacket;
      var t := AfterPacket(s, p);
      if s.newIb {
        NewStart(s.rows, t.rows, s.ibs, s.ibStarts);
      }
      AlignedMore(s.rows, t.rows, s.ibs, s.ibStarts, s.last);
    }
  }

  /** The first packet of the innermost buffer. */
  lemma NewStart(rows: seq<Row>, more: seq<Row>, ibs: seq<nat>, starts: seq<nat>)
    requires OpenBuffers(rows, ibs) && StartsMatch(rows, ibs, starts) && AddsPacket(rows, more)
    requires |ibs| == |starts| + 1 && NoneAfter(rows, Last(ibs))
    ensures StartsMatch(more, ibs, starts + [|rows|])
  {
    StartsMatchGrow(rows, more, ibs, starts);
    OnePacketMore(rows, more);
    assert FirstAfter(more, ibs[|starts|], |rows|);
    StartsMatchSnoc(more, ibs, starts, |rows|);
  }

  lemma AlignedMore(rows: seq<Row>, more: seq<Row>, ibs: seq<nat>, starts: seq<nat>, last: nat)
    requires OpenBuffers(rows, ibs) && StartsMatch(rows, ibs, starts) && IsLast(rows, last) && AddsPacket(rows, more)
    ensures OpenBuffers(more, ibs) && StartsMatch(more, ibs, starts) && IsLast(more, |rows|)
  {
    OnePacketMore(rows, more);
    OpenBuffersGrow(rows, more, ibs);
    StartsMatchGrow(rows, more, ibs, starts);
  }

  /** No assertion about the stacks fails, and no pop hits an empty stack, whatever the trace. */
  lemma AlignedStep(s: State, cb: Callback)
    requires Aligned(s) && Allowed(s, cb)
    ensures Aligned(Step(s, cb))
  {
    match cb
    case SubmitStart =>
      assert AddsNoPacket(s.rows, Step(s, cb).rows);
      SamePackets(s.rows, Step(s, cb).rows);
    case SubmitEnd(presents) =>
      AlignedGrow(s, Step(s, cb));
    case IbStart(ib, index) => AlignedStartIb(s, ib, index);
    case IbEnd => AlignedEndIb(s);
    case OnPacket(p) => AlignedPacket(s, p);
  }

  lemma {:induction false} AlignedRun(s: State, cbs: seq<Callback>)
    requires Aligned(s) && AllAllowed(s, cbs)
    ensures Aligned(Run(s, cbs))
  {
    if cbs != [] {
      AlignedRun(s, cbs[..|cbs| - 1]);
      AlignedStep(Run(s, cbs[..|cbs| - 1]), cbs[|cbs| - 1]);
    }
  }

  // ---------- the emulator's traces ----------

  /** An indirect buffer: its packets and the buffers it calls, and possibly a chain that continues it.
      ib is the type that its start callback reports. */
  datatype Buffer = Buffer(ib: IbType, index: nat, items: seq<Item>, next: Link)

  datatype Item = Emit(packet: Packet) | Enter(buffer: Buffer)

  datatype Link = Ends | ChainsTo(buffer: Buffer)

  /** Only the last buffer of a chain is reported to end. */
  function Trace(b: Buffer): seq<Callback>
    decreases b, |b.items| + 1
  {
    [IbStart(b.ib, b.index)] + ItemTraces(b, |b.items|) + match b.next case Ends => [IbEnd] case ChainsTo(c) => Trace(c)
  }

  function ItemTraces(b: Buffer, n: nat): seq<Callback>
    requires n <= |b.items|
    decreases b, n
  {
    if n == 0 then [] else ItemTraces(b, n - 1) + ItemTrace(b, n - 1)
  }

  function ItemTrace(b: Buffer, n: nat): seq<Callback>
    requires n < |b.items|
    decreases b, n
  {
    match b.items[n] case Emit(p) => [OnPacket(p)] case Enter(c) => Trace(c)
  }

  /** One of the first n items is a type-4 or type-7 packet. */
  predicate HasPacket(b: Buffer, n: nat)
    requires n <= |b.items|
  {
    n > 0 && ((b.items[n - 1].Emit? && IsTyped(b.items[n - 1].packet)) || HasPacket(b, n - 1))
  }

  /** A buffer is called or continued only after a packet of the buffer before it, and no buffer but a
      continuation is reported as a chain. */
  predicate WellFormed(b: Buffer, continues: bool)
    decreases b, |b.items| + 1
  {
    && (b.ib == Chain ==> continues)
    && WellFormedItems(b, |b.items|)
    && match b.next case Ends => true case ChainsTo(c) => HasPacket(b, |b.items|) && WellFormed(c, true)
  }

  predicate WellFormedItems(b: Buffer, n: nat)
    requires n <= |b.items|
    decreases b, n
  {
    n == 0 || (WellFormedItems(b, n - 1) &&
               match b.items[n - 1] case Emit(_) => true case Enter(c) => HasPacket(b, n - 1) && WellFormed(c, false))
  }

  /** Continuations that are not reported as chains. */
  function Mislabelled(b: Buffer, continues: bool): nat
    decreases b, |b.items| + 1
  {
    (if continues && b.ib != Chain then 1 else 0) + MislabelledItems(b, |b.items|) +
    match b.next case Ends => 0 case ChainsTo(c) => Mislabelled(c, true)
  }

  function MislabelledItems(b: Buffer, n: nat): nat
    requires n <= |b.items|
    decreases b, n
  {
    if n == 0 then 0
    else MislabelledItems(b, n - 1) + match b.items[n - 1] case Emit(_) => 0 case Enter(c) => Mislabelled(c, false)
  }

  // ---------- counting what is left open ----------

  /** Open buffers that are not chains. */
  function Plain(rows: seq<Row>, ibs: seq<nat>, n: nat): nat
    requires n <= |ibs|
  {
    if n == 0 then 0 else Plain(rows, ibs, n - 1) + if IsChain(rows, ibs[n - 1]) then 0 else 1
  }

  function PlainOpen(s: State): nat {
    Plain(s.rows, s.ibs, |s.ibs|)
  }

  lemma {:induction false} PlainOfPrefix(rows: seq<Row>, more: seq<Row>, ibs: seq<nat>, jbs: seq<nat>, n: nat)
    requires n <= |ibs| && n <= |jbs| && rows <= more
    requires forall k :: 0 <= k < n ==> ibs[k] == jbs[k] && ibs[k] < |rows|
    ensures Plain(rows, ibs, n) == Plain(more, jbs, n)
  {
    if n > 0 {
      PlainOfPrefix(rows, more, ibs, jbs, n - 1);
    }
  }

  /** Closing is possible exactly when a buffer that is no chain is open, and closes exactly one. */
  lemma {:induction false} TrailingIff(rows: seq<Row>, ibs: seq<nat>, n: nat)
    requires n <= |ibs|
    ensures var k := TrailingChains(rows, ibs, n);
      if Plain(rows, ibs, n) == 0 then k == n else k < n && Plain(rows, ibs, n - k - 1) == Plain(rows, ibs, n) - 1
  {
    if n > 0 {
      TrailingIff(rows, ibs, n - 1);
    }
  }

  lemma {:induction false} FirstIsPlain(rows: seq<Row>, ibs: seq<nat>, n: nat)
    requires 0 < n <= |ibs| && !IsChain(rows, ibs[0])
    ensures Plain(rows, ibs, n) > 0
  {
    if n > 1 {
      FirstIsPlain(rows, ibs, n - 1);
    }
  }

  /** Nothing is open exactly when no buffer is that is not a chain. */
  lemma OpenIff(s: State)
    requires Aligned(s)
    ensures s.ibs == [] <==> PlainOpen(s) == 0
  {
    if s.ibs != [] {
      FirstIsPlain(s.rows, s.ibs, |s.ibs|);
    }
  }

  lemma PlainStartIb(s: State, ib: IbType, index: nat)
    requires Aligned(s)
    ensures PlainOpen(StartIb(s, ib, index)) == PlainOpen(s) + if ib == Chain then 0 else 1
  {
    var t := StartIb(s, ib, index);
    PlainOfPrefix(s.rows, t.rows, s.ibs, t.ibs, |s.ibs|);
  }

  lemma PlainEndIb(s: State)
    requires Aligned(s) && PlainOpen(s) > 0
    ensures Allowed(s, IbEnd) && PlainOpen(EndIb(s)) == PlainOpen(s) - 1
  {
    TrailingIff(s.rows, s.ibs, |s.ibs|);
    var t := EndIb(s);
    PlainOfPrefix(s.rows, s.rows, t.ibs, s.ibs, |t.ibs|);
  }

  lemma PlainPacket(s: State, p: Packet)
    requires Aligned(s)
    ensures PlainOpen(AfterPacket(s, p)) == PlainOpen(s)
  {
    if IsTyped(p) {
      PacketRows(s, p);
      PlainOfPrefix(s.rows, AfterPacket(s, p).rows, s.ibs, s.ibs, |s.ibs|);
    }
  }

  // ---------- whole traces ----------

  /** A buffer may be entered here. */
  ghost predicate Settled(s: State) {
    Aligned(s) && (s.newIb ==> s.ibs == [])
  }

  lemma RunSingle(s: State, cb: Callback)
    ensures Run(s, [cb]) == Step(s, cb) && (AllAllowed(s, [cb]) <==> Allowed(s, cb))
  {
    RunOne(s, [], cb);
    assert [] + [cb] == [cb];
  }

  /** A well-formed buffer never fails an assertion or pops an empty stack, even if chains are not
      reported as such. Each continuation that is not leaves one more buffer open. */
  lemma {:induction false} BufferRuns(s: State, b: Buffer, continues: bool)
    requires Settled(s) && WellFormed(b, continues) && (continues ==> !s.newIb && PlainOpen(s) > 0)
    ensures AllAllowed(s, Trace(b))
    ensures var t := Run(s, Trace(b));
      Aligned(t) && !t.newIb && PlainOpen(t) == PlainOpen(s) + Mislabelled(b, continues) - if continues then 1 else 0
    decreases b, |b.items| + 1
  {
    hide Aligned, Step, Run, AllAllowed, PlainOpen, IbParent, FieldRows;
    var enter := IbStart(b.ib, b.index);
    OpenIff(s);
    var s1 := StartIb(s, b.ib, b.index);
    RunSingle(s, enter);
    EntersBuffer(s, enter);
    PlainStartIb(s, b.ib, b.index);
    ItemsRun(s1, b, |b.items|);
    var items := ItemTraces(b, |b.items|);
    RunConcat(s, [enter], items);
    var s2 := Run(s1, items);
    match b.next
    case Ends =>
      PlainEndIb(s2);
      LeavesBuffer(s2);
      RunSingle(s2, IbEnd);
      RunConcat(s, [enter] + items, [IbEnd]);
    case ChainsTo(c) =>
      BufferRuns(s2, c, true);
      RunConcat(s, [enter] + items, Trace(c));
  }

  lemma EntersBuffer(s: State, cb: Callback)
    requires Aligned(s) && cb.IbStart? && Allowed(s, cb)
    ensures var t := StartIb(s, cb.ib, cb.index);
      Step(s, cb) == t && Aligned(t) && t.newIb && t.ibs == s.ibs + [Last(t.ibs)] && t.ibs != []
        && t.ibStarts == s.ibStarts
  {
    AlignedStep(s, cb);
  }

  lemma LeavesBuffer(s: State)
    requires Aligned(s) && Allowed(s, IbEnd)
    ensures Step(s, IbEnd) == EndIb(s) && Aligned(EndIb(s)) && !EndIb(s).newIb
  {
    AlignedStep(s, IbEnd);
  }

  lemma {:induction false} ItemsRun(s: State, b: Buffer, n: nat)
    requires Aligned(s) && PlainOpen(s) > 0 && n <= |b.items| && WellFormedItems(b, n)
    ensures AllAllowed(s, ItemTraces(b, n))
    ensures var t := Run(s, ItemTraces(b, n));
      && Aligned(t) && PlainOpen(t) == PlainOpen(s) + MislabelledItems(b, n)
      && (HasPacket(b, n) ==> !t.newIb)
    decreases b, n
  {
    hide Aligned, Step, PlainOpen, WellFormed, Mislabelled;
    if n > 0 {
      ItemsRun(s, b, n - 1);
      var t := Run(s, ItemTraces(b, n - 1));
      RunConcat(s, ItemTraces(b, n - 1), ItemTrace(b, n - 1));
      match b.items[n - 1]
      case Emit(p) =>
        RunSingle(t, OnPacket(p));
        OnePacket(t, p);
      case Enter(c) =>
        BufferRuns(t, c, false);
    }
  }

  lemma OnePacket(s: State, p: Packet)
    requires Aligned(s) && PlainOpen(s) > 0
    ensures Allowed(s, OnPacket(p)) && Step(s, OnPacket(p)) == AfterPacket(s, p)
    ensures var t := AfterPacket(s, p);
      Aligned(t) && PlainOpen(t) == PlainOpen(s) && t.newIb == (s.newIb && !IsTyped(p))
  {
    OpenIff(s);
    AlignedStep(s, OnPacket(p));
    PlainPacket(s, p);
    if IsTyped(p) {
      PacketRows(s, p);
    }
  }

  function Traces(buffers: seq<Buffer>, n: nat): seq<Callback>
    requires n <= |buffers|
  {
    if n == 0 then [] else Traces(buffers, n - 1) + Trace(buffers[n - 1])
  }

  function TotalMislabelled(buffers: seq<Buffer>, n: nat): nat
    requires n <= |buffers|
  {
    if n == 0 then 0 else TotalMislabelled(buffers, n - 1) + Mislabelled(buffers[n - 1], false)
  }

  ghost predicate AllWellFormed(buffers: seq<Buffer>) {
    forall k :: 0 <= k < |buffers| ==> WellFormed(buffers[k], false)
  }

  lemma {:induction false} BuffersRun(s: State, buffers: seq<Buffer>, n: nat)
    requires Settled(s) && s.ibs == [] && AllWellFormed(buffers) && n <= |buffers|
    ensures AllAllowed(s, Traces(buffers, n))
    ensures var t := Run(s, Traces(buffers, n)); Settled(t) && PlainOpen(t) == TotalMislabelled(buffers, n)
  {
    hide Aligned, Trace, WellFormed, Mislabelled, PlainOpen, Step, Allowed;
    OpenIff(s);
    if n > 0 {
      BuffersRun(s, buffers, n - 1);
      var t := Run(s, Traces(buffers, n - 1));
      BufferRuns(t, buffers[n - 1], false);
      RunConcat(s, Traces(buffers, n - 1), Trace(buffers[n - 1]));
    }
  }

  /** A submit, from its start to its end. */
  function SubmitTrace(buffers: seq<Buffer>, presents: nat): seq<Callback> {
    [SubmitStart] + Traces(buffers, |buffers|) + [SubmitEnd(presents)]
  }

  datatype Submit = Submit(buffers: seq<Buffer>, presents: nat)

  function SubmitTraces(submits: seq<Submit>, n: nat): seq<Callback>
    requires n <= |submits|
  {
    if n == 0 then [] else SubmitTraces(submits, n - 1) + SubmitTrace(submits[n - 1].buffers, submits[n - 1].presents)
  }

  ghost predicate Inside(cbs: seq<Callback>) {
    forall k :: 0 <= k < |cbs| ==> !cbs[k].SubmitStart?
  }

  lemma {:induction false} TraceInside(b: Buffer)
    ensures Inside(Trace(b))
    decreases b, |b.items| + 1
  {
    ItemTracesInside(b, |b.items|);
    if b.next.ChainsTo? {
      TraceInside(b.next.buffer);
    }
  }

  lemma {:induction false} ItemTracesInside(b: Buffer, n: nat)
    requires n <= |b.items|
    ensures Inside(ItemTraces(b, n))
    decreases b, n
  {
    if n > 0 {
      ItemTracesInside(b, n - 1);
      if b.items[n - 1].Enter? {
        TraceInside(b.items[n - 1].buffer);
      }
    }
  }

  lemma {:induction false} TracesInside(buffers: seq<Buffer>, n: nat)
    requires n <= |buffers|
    ensures Inside(Traces(buffers, n))
  {
    if n > 0 {
      TracesInside(buffers, n - 1);
      TraceInside(buffers[n - 1]);
    }
  }

  lemma {:induction false} SubmitKept(s: State, cbs: seq<Callback>)
    requires Inside(cbs)
    ensures Run(s, cbs).submit == s.submit
  {
    if cbs != [] {
      hide Step;
      SubmitKept(s, cbs[..|cbs| - 1]);
      StepKeepsSubmit(Run(s, cbs[..|cbs| - 1]), cbs[|cbs| - 1]);
    }
  }

  lemma StepKeepsSubmit(s: State, cb: Callback)
    requires !cb.SubmitStart?
    ensures Step(s, cb).submit == s.submit
  {
    if cb.OnPacket? && IsTyped(cb.packet) {
      PacketRows(s, cb.packet);
    }
  }

  /** For every submit: no assertion fails, and at its end both stacks are empty exactly if every
      continuation was reported as a chain. */
  lemma SubmitBalance(s: State, buffers: seq<Buffer>, presents: nat)
    requires Aligned(s) && AllWellFormed(buffers)
    ensures AllAllowed(s, SubmitTrace(buffers, presents))
    ensures var t := Run(s, SubmitTrace(buffers, presents));
      Aligned(t) && (t.ibs == [] <==> t.ibStarts == []) && (t.ibs == [] <==> TotalMislabelled(buffers, |buffers|) == 0)
  {
    hide AllWellFormed, Aligned, Run, AllAllowed, Traces;
    var s1, cbs := StartSubmit(s), Traces(buffers, |buffers|);
    RunSingle(s, SubmitStart);
    AlignedStep(s, SubmitStart);
    BuffersRun(s1, buffers, |buffers|);
    RunConcat(s, [SubmitStart], cbs);
    var s2 := Run(s1, cbs);
    TracesInside(buffers, |buffers|);
    SubmitKept(s1, cbs);
    RowsGrow(s1, cbs);
    assert s1.rows[s1.submit].kind.SubmitNode?;
    RunSingle(s2, SubmitEnd(presents));
    RunConcat(s, [SubmitStart] + cbs, [SubmitEnd(presents)]);
    SubmitEnds(s2, presents);
  }

  lemma SubmitEnds(s: State, presents: nat)
    requires Settled(s) && Allowed(s, SubmitEnd(presents))
    ensures var t := Step(s, SubmitEnd(presents));
      Aligned(t) && (t.ibs == [] <==> t.ibStarts == []) && (t.ibs == [] <==> PlainOpen(s) == 0)
  {
    AlignedStep(s, SubmitEnd(presents));
    OpenIff(s);
  }

  // ---------- what a buffer leaves behind ----------

  /** All buffers from position d on are one chain. */
  ghost predicate IsGroup(rows: seq<Row>, ibs: seq<nat>, d: nat) {
    d < |ibs| && !IsChain(rows, ibs[d]) && forall k :: d < k < |ibs| ==> IsChain(rows, ibs[k])
  }

  lemma {:induction false} TrailingOfGroup(rows: seq<Row>, ibs: seq<nat>, d: nat, n: nat)
    requires IsGroup(rows, ibs, d) && d < n <= |ibs|
    ensures TrailingChains(rows, ibs, n) == n - d - 1
  {
    if n - 1 > d {
      TrailingOfGroup(rows, ibs, d, n - 1);
    }
  }

  lemma EndOfGroup(s: State, d: nat)
    requires Aligned(s) && IsGroup(s.rows, s.ibs, d)
    ensures Allowed(s, IbEnd) && EndIb(s).ibs == s.ibs[..d] && d <= |s.ibStarts| && EndIb(s).ibStarts == s.ibStarts[..d]
  {
    TrailingOfGroup(s.rows, s.ibs, d, |s.ibs|);
  }

  lemma StartOfGroup(s: State, ib: IbType, index: nat, d: nat)
    requires Aligned(s) && if ib == Chain then IsGroup(s.rows, s.ibs, d) else d == |s.ibs|
    ensures var t := StartIb(s, ib, index); IsGroup(t.rows, t.ibs, d) && t.ibs[..d] == s.ibs[..d]
  {
    var t := StartIb(s, ib, index);
    assert t.ibs[|s.ibs|] == |t.rows| - 1 && t.rows[|t.rows| - 1].kind == IbNode(ib, index);
    assert forall k :: 0 <= k < |s.ibs| ==> t.ibs[k] == s.ibs[k] && t.rows[s.ibs[k]] == s.rows[s.ibs[k]];
  }

  /** A buffer whose continuations are all reported as chains leaves the stacks as they were. */
  lemma {:induction false} BufferRestores(s: State, b: Buffer, continues: bool, d: nat)
    requires Settled(s) && WellFormed(b, continues) && Mislabelled(b, continues) == 0
    requires if continues then !s.newIb && PlainOpen(s) > 0 && IsGroup(s.rows, s.ibs, d) else d == |s.ibs|
    ensures var t := Run(s, Trace(b)); d <= |s.ibStarts| && t.ibs == s.ibs[..d] && t.ibStarts == s.ibStarts[..d]
    decreases b, |b.items| + 1
  {
    hide Run, AllAllowed, PlainOpen, IbParent, FieldRows, IsGroup, OpenBuffers, StartsMatch, NoneAfter, IsLast;
    OpenIff(s);
    GroupIsOpen(s.rows, s.ibs, d);
    var enter, items := IbStart(b.ib, b.index), ItemTraces(b, |b.items|);
    var s1 := StartIb(s, b.ib, b.index);
    EntersBuffer(s, enter);
    PlainStartIb(s, b.ib, b.index);
    StartOfGroup(s, b.ib, b.index, d);
    RunSingle(s, enter);
    RunConcat(s, [enter], items);
    ItemsRun(s1, b, |b.items|);
    ItemsRestore(s1, b, |b.items|);
    var s2 := Run(s1, items);
    GroupGrows(s1, s2, d);
    match b.next
    case Ends =>
      EndOfGroup(s2, d);
      RunSingle(s2, IbEnd);
      RunConcat(s, [enter] + items, [IbEnd]);
    case ChainsTo(c) =>
      BufferRestores(s2, c, true, d);
      RunConcat(s, [enter] + items, Trace(c));
  }

  lemma GroupIsOpen(rows: seq<Row>, ibs: seq<nat>, d: nat)
    ensures IsGroup(rows, ibs, d) ==> d < |ibs|
  {
  }

  lemma GroupGrows(s: State, t: State, d: nat)
    requires Aligned(s) && IsGroup(s.rows, s.ibs, d) && t.ibs == s.ibs && s.rows <= t.rows
    ensures IsGroup(t.rows, t.ibs, d)
  {
  }

  lemma {:induction false} ItemsRestore(s: State, b: Buffer, n: nat)
    requires Aligned(s) && PlainOpen(s) > 0 && s.newIb && n <= |b.items| && WellFormedItems(b, n)
      && MislabelledItems(b, n) == 0
    ensures var t := Run(s, ItemTraces(b, n)); t.ibs == s.ibs && s.ibStarts <= t.ibStarts && s.rows <= t.rows
    decreases b, n
  {
    hide Aligned, PlainOpen, WellFormed, Mislabelled, Step, HasPacket, AllAllowed;
    if n > 0 {
      ItemsRun(s, b, n - 1);
      ItemsRestore(s, b, n - 1);
      var t := Run(s, ItemTraces(b, n - 1));
      RunConcat(s, ItemTraces(b, n - 1), ItemTrace(b, n - 1));
      RowsGrow(t, ItemTrace(b, n - 1));
      match b.items[n - 1]
      case Emit(p) =>
        RunSingle(t, OnPacket(p));
        PacketKeepsBuffers(t, p);
      case Enter(c) =>
        BufferRestores(t, c, false, |t.ibs|);
        AlignedSizes(t);
    }
  }

  lemma PacketKeepsBuffers(s: State, p: Packet)
    ensures var t := Step(s, OnPacket(p)); t.ibs == s.ibs && s.ibStarts <= t.ibStarts
  {
    if IsTyped(p) {
      PacketRows(s, p);
    }
  }

  lemma AlignedSizes(s: State)
    requires Aligned(s) && !s.newIb
    ensures |s.ibs| == |s.ibStarts|
  {
  }

  lemma RowsGrowStep(s: State, cb: Callback)
    ensures s.rows <= Step(s, cb).rows
  {
    if cb.OnPacket? && IsTyped(cb.packet) {
      PacketRows(s, cb.packet);
    }
  }

  lemma {:induction false} RowsGrow(s: State, cbs: seq<Callback>)
    ensures s.rows <= Run(s, cbs).rows
  {
    if cbs != [] {
      hide Step;
      RowsGrow(s, cbs[..|cbs| - 1]);
      RowsGrowStep(Run(s, cbs[..|cbs| - 1]), cbs[|cbs| - 1]);
    }
  }

  lemma EnteredNode(s: State, ib: IbType, index: nat)
    ensures var t, v := StartIb(s, ib, index), |s.rows| + |FieldRows(s, ib)|;
      Last(t.ibs) == v && |t.rows| == v + 1 && t.rows[v].kind == IbNode(ib, index)
  {
  }

  /** The state when a buffer has only its end callback left. */
  lemma BeforeEnd(s: State, b: Buffer)
    requires Settled(s) && WellFormed(b, false) && Mislabelled(b, false) == 0
    requires b.next == Ends && HasPacket(b, |b.items|)
    ensures var s1 := StartIb(s, b.ib, b.index); var s2 := Run(s1, ItemTraces(b, |b.items|));
      && s2.ibs == s1.ibs && s1.rows <= s2.rows && Aligned(s2) && PlainOpen(s2) > 0 && !s2.newIb
      && Run(s, Trace(b)) == EndIb(s2)
  {
    hide Run, AllAllowed, IbParent, FieldRows, FirstAfter;
    var enter, items := IbStart(b.ib, b.index), ItemTraces(b, |b.items|);
    var s1 := StartIb(s, b.ib, b.index);
    EntersBuffer(s, enter);
    PlainStartIb(s, b.ib, b.index);
    RunSingle(s, enter);
    RunConcat(s, [enter], items);
    ItemsRun(s1, b, |b.items|);
    ItemsRestore(s1, b, |b.items|);
    RunSingle(Run(s1, items), IbEnd);
    RunConcat(s, [enter] + items, [IbEnd]);
  }

  /** The range recorded for an unchained buffer with a packet: exactly the packets emitted between its
      start and its end, those of nested buffers included. */
  lemma BufferRange(s: State, b: Buffer)
    requires Settled(s) && WellFormed(b, false) && Mislabelled(b, false) == 0
    requires b.next == Ends && HasPacket(b, |b.items|)
    ensures var t := Run(s, Trace(b)); var v := |s.rows| + |FieldRows(s, b.ib)|;
      && v < |t.rows| && t.rows[v].kind == IbNode(b.ib, b.index)
      && v in t.ibRanges && CoversAfter(t.rows, v, t.ibRanges[v])
  {
    hide Run, Aligned, Trace, WellFormed, ItemTraces, StartIb, CoversAfter, FieldRows, PlainOpen, HasPacket;
    BeforeEnd(s, b);
    EnteredNode(s, b.ib, b.index);
    var s2 := Run(StartIb(s, b.ib, b.index), ItemTraces(b, |b.items|));
    PlainEndIb(s2);
    EndIbRange(s2);
    EndKeepsRows(s2);
  }

  lemma EndKeepsRows(s: State)
    ensures EndIb(s).rows == s.rows
  {
  }
}
