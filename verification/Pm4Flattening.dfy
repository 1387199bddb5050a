/** Flattening: where the continuations of a buffer hang in the submit topology. */
module Pm4Flattening {
  import opened Pm4Trace
  import opened Pm4Effects
  import opened Pm4Stacks
  import opened Pm4Chains

  // ---------- what is reported as a chain ----------

  /** No chain is the child of a chain. */
  ghost predicate Flattened(rows: seq<Row>) {
    forall i: nat :: IsChain(rows, i) ==> 0 <= rows[i].submitParent < |rows| && !IsChain(rows, rows[i].submitParent)
  }

  lemma {:induction false} NearestIsPlain(rows: seq<Row>, ibs: seq<nat>, n: nat, otherwise: nat)
    requires 0 < n <= |ibs| && !IsChain(rows, ibs[0])
    ensures !IsChain(rows, NearestNonChain(rows, ibs, n, otherwise)) && NearestNonChain(rows, ibs, n, otherwise) in ibs
  {
    if n > 1 {
      NearestIsPlain(rows, ibs, n - 1, otherwise);
    }
  }

  lemma FlattenedStartIb(s: State, ib: IbType, index: nat)
    requires Aligned(s) && Allowed(s, IbStart(ib, index)) && s.flatten && Flattened(s.rows)
    ensures Flattened(StartIb(s, ib, index).rows)
  {
    var t := StartIb(s, ib, index);
    if ib == Chain {
      NearestIsPlain(s.rows, s.ibs, |s.ibs|, Last(s.ibs));
    }
    forall i: nat | IsChain(t.rows, i)
      ensures 0 <= t.rows[i].submitParent < |t.rows| && !IsChain(t.rows, t.rows[i].submitParent)
    {
      assert i < |s.rows| ==> t.rows[i] == s.rows[i] && IsChain(s.rows, i);
    }
  }

  lemma FlattenedStep(s: State, cb: Callback)
    requires Aligned(s) && Allowed(s, cb) && s.flatten && Flattened(s.rows)
    ensures Step(s, cb).flatten && Flattened(Step(s, cb).rows)
  {
    match cb
    case IbStart(ib, index) => FlattenedStartIb(s, ib, index);
    case OnPacket(p) =>
      NoIbFromPacket(s, p);
      FlattenedGrow(s.rows, AfterPacket(s, p).rows);
    case _ =>
      FlattenedGrow(s.rows, Step(s, cb).rows);
  }

  lemma FlattenedGrow(rows: seq<Row>, more: seq<Row>)
    requires Flattened(rows) && rows <= more && forall i :: |rows| <= i < |more| ==> !more[i].kind.IbNode?
    ensures Flattened(more)
  {
    forall i: nat | IsChain(more, i)
      ensures 0 <= more[i].submitParent < |more| && !IsChain(more, more[i].submitParent)
    {
      assert IsChain(rows, i);
    }
  }

  lemma NoIbFromPacket(s: State, p: Packet)
    ensures var t := AfterPacket(s, p);
      t.flatten == s.flatten && s.rows <= t.rows && forall i :: |s.rows| <= i < |t.rows| ==> !t.rows[i].kind.IbNode?
  {
    if IsTyped(p) {
      PacketRows(s, p);
      hide AfterPacket;
      var nodes := PacketNodes(s, p);
      assert forall i :: |s.rows| <= i < |s.rows + nodes| ==> (s.rows + nodes)[i] == nodes[i - |s.rows|];
    }
  }

  /** With flattening on, no chain is ever a child of another chain. */
  lemma {:induction false} FlattenedRun(s: State, cbs: seq<Callback>)
    requires Aligned(s) && AllAllowed(s, cbs) && s.flatten && Flattened(s.rows)
    ensures Run(s, cbs).flatten && Flattened(Run(s, cbs).rows)
  {
    if cbs != [] {
      FlattenedRun(s, cbs[..|cbs| - 1]);
      AlignedRun(s, cbs[..|cbs| - 1]);
      FlattenedStep(Run(s, cbs[..|cbs| - 1]), cbs[|cbs| - 1]);
    }
  }

  // ---------- what is a chain ----------

  /** The node of a buffer that has just been entered. */
  function Entered(s: State): nat {
    Last(s.ibs)
  }

  /** The node that was added last hangs from the given one in the submit topology. */
  predicate HangsFrom(rows: seq<Row>, parent: nat) {
    rows != [] && rows[|rows| - 1].submitParent == parent
  }

  lemma EnteredHangs(s: State, ib: IbType, index: nat, parent: nat)
    ensures HangsFrom(StartIb(s, ib, index).rows, parent) <==> IbParent(s, ib) == parent
  {
    hide IbParent;
  }

  /** Every continuation hangs from the first buffer of its chain: head, if b is a continuation itself. */
  ghost predicate Hangs(s: State, b: Buffer, continues: bool, head: nat)
    decreases b, |b.items| + 1
  {
    var s1 := StartIb(s, b.ib, b.index);
    && (continues ==> HangsFrom(s1.rows, head))
    && ItemsHang(s1, b, |b.items|)
    && match b.next
       case Ends => true
       case ChainsTo(c) => Hangs(Run(s1, ItemTraces(b, |b.items|)), c, true, if continues then head else Entered(s1))
  }

  /** So do those of the buffers that are entered from the first n items. */
  ghost predicate ItemsHang(s: State, b: Buffer, n: nat)
    requires n <= |b.items|
    decreases b, n
  {
    n > 0 ==>
      && ItemsHang(s, b, n - 1)
      && match b.items[n - 1]
         case Emit(_) => true
         case Enter(c) => Hangs(Run(s, ItemTraces(b, n - 1)), c, false, 0)
  }

  /** The condition, on a buffer alone: position is 0 for the first buffer of a chain, 1 for the first
      continuation and 2 for the others. A buffer that is continued has nothing mislabelled inside, and if
      there are several continuations they are all reported as chains. */
  predicate FlatLink(b: Buffer, position: nat)
    decreases b, |b.items| + 1
  {
    && (position >= 2 ==> b.ib == Chain)
    && FlatItems(b, |b.items|)
    && match b.next
       case Ends => true
       case ChainsTo(c) =>
         && MislabelledItems(b, |b.items|) == 0 && (position == 1 ==> b.ib == Chain)
         && FlatLink(c, if position == 0 then 1 else 2)
  }

  predicate FlatItems(b: Buffer, n: nat)
    requires n <= |b.items|
    decreases b, n
  {
    n > 0 ==> FlatItems(b, n - 1) && match b.items[n - 1] case Emit(_) => true case Enter(c) => FlatLink(c, 0)
  }

  lemma StepKeepsFlatten(s: State, cb: Callback)
    ensures Step(s, cb).flatten == s.flatten
  {
    if cb.OnPacket? && IsTyped(cb.packet) {
      PacketRows(s, cb.packet);
    }
  }

  lemma {:induction false} FlattenKept(s: State, cbs: seq<Callback>)
    ensures Run(s, cbs).flatten == s.flatten
  {
    hide Step;
    if cbs != [] {
      FlattenKept(s, cbs[..|cbs| - 1]);
      StepKeepsFlatten(Run(s, cbs[..|cbs| - 1]), cbs[|cbs| - 1]);
    }
  }

  /** The parent of a buffer that is entered while d is the last open one that is no chain. */
  lemma ParentAt(s: State, ib: IbType, d: nat)
    requires s.flatten && IsGroup(s.rows, s.ibs, d)
    ensures IbParent(s, ib) == if ib == Chain then s.ibs[d] else s.ibs[|s.ibs| - 1]
  {
    NearestAt(s.rows, s.ibs, d, |s.ibs|, Last(s.ibs));
  }

  lemma {:induction false} NearestAt(rows: seq<Row>, ibs: seq<nat>, d: nat, n: nat, otherwise: nat)
    requires IsGroup(rows, ibs, d) && d < n <= |ibs|
    ensures NearestNonChain(rows, ibs, n, otherwise) == ibs[d]
  {
    if d < n - 1 {
      NearestAt(rows, ibs, d, n - 1, otherwise);
    }
  }

  /** Where the first buffer of the chain is, when its continuation b starts. */
  ghost predicate AtLink(s: State, b: Buffer, position: nat, head: nat, d: nat) {
    && Settled(s) && Unranged(s) && s.flatten && WellFormed(b, position > 0)
    && (position > 0 ==> !s.newIb && PlainOpen(s) > 0 && IsGroup(s.rows, s.ibs, d) && d < |s.ibs| && s.ibs[d] == head)
    && (position == 0 ==> d == |s.ibs|)
    && (position == 1 ==> d == |s.ibs| - 1) && (position >= 2 ==> d < |s.ibs| - 1)
  }

  /** The state when the items of a link are done, as far as the next link depends on it. */
  ghost predicate AfterItems(s: State, s1: State, s2: State, b: Buffer) {
    && ItemsDone(s, b, s1, s2) && Unranged(s2) && s2.flatten
    && (MislabelledItems(b, |b.items|) == 0 ==> s2.ibs == s1.ibs)
  }

  lemma DoesLink(s: State, b: Buffer, continues: bool) returns (s1: State, s2: State)
    requires Settled(s) && Unranged(s) && s.flatten && WellFormed(b, continues)
    requires continues ==> !s.newIb && PlainOpen(s) > 0
    ensures AfterItems(s, s1, s2, b) && s1 == StartIb(s, b.ib, b.index) && s2 == Run(s1, ItemTraces(b, |b.items|))
    ensures Unranged(s1) && s1.flatten && s1.newIb && Aligned(s1) && PlainOpen(s1) > 0
  {
    hide Run, AllAllowed, FieldRows, PlainOpen, Aligned, StartIb, WellFormed, Unranged, Allowed;
    s1, s2 := DoesItems(s, b, continues);
    var enter := IbStart(b.ib, b.index);
    MayEnter(s, b, continues);
    EntersBuffer(s, enter);
    UnrangedStep(s, enter);
    StepKeepsFlatten(s, enter);
    ItemsAllowed(s1, b, continues);
    UnrangedRun(s1, ItemTraces(b, |b.items|));
    FlattenKept(s1, ItemTraces(b, |b.items|));
    if MislabelledItems(b, |b.items|) == 0 {
      ItemsRestore(s1, b, |b.items|);
    }
  }

  lemma MayEnter(s: State, b: Buffer, continues: bool)
    requires Settled(s) && WellFormed(b, continues) && (continues ==> !s.newIb && PlainOpen(s) > 0)
    ensures Allowed(s, IbStart(b.ib, b.index)) && WellFormedItems(b, |b.items|)
  {
    OpenIff(s);
  }

  lemma ItemsAllowed(s: State, b: Buffer, continues: bool)
    requires Aligned(s) && PlainOpen(s) > 0 && WellFormed(b, continues)
    ensures WellFormedItems(b, |b.items|) && AllAllowed(s, ItemTraces(b, |b.items|))
  {
    ItemsRun(s, b, |b.items|);
  }

  /** Nothing hangs from a buffer below the last open one that is no chain. */
  lemma ParentAbove(s: State, ib: IbType, h: nat, e: nat)
    requires Unranged(s) && s.flatten && IsGroup(s.rows, s.ibs, e) && h < e < |s.ibs|
    ensures IbParent(s, ib) != s.ibs[h]
  {
    ParentAt(s, ib, e);
  }

  /** Once a plain buffer is open above the head, the next link does not hang from the head. */
  lemma NextMisses(s1: State, s2: State, head: nat, h: nat, c: Buffer)
    requires Unranged(s2) && s2.flatten && s1.ibs <= s2.ibs && h < |s1.ibs| && s1.ibs[h] == head && PlainOpen(s2) > 0
    requires exists k :: h < k < |s2.ibs| && !IsChain(s2.rows, s2.ibs[k])
    ensures !Hangs(s2, c, true, head)
  {
    var k :| h < k < |s2.ibs| && !IsChain(s2.rows, s2.ibs[k]);
    var e := OpenGroup(s2);
    ParentAbove(s2, c.ib, h, e);
    EnteredHangs(s2, c.ib, c.index, head);
  }

  /** Mislabelled items leave a plain buffer open above their own. */
  lemma LeavesPlain(s: State, b: Buffer, s1: State, s2: State)
    requires ItemsDone(s, b, s1, s2) && MislabelledItems(b, |b.items|) > 0
    ensures exists k :: |s1.ibs| - 1 < k < |s2.ibs| && !IsChain(s2.rows, s2.ibs[k])
  {
    var m := |s1.ibs|;
    PlainOfPrefix(s1.rows, s2.rows, s1.ibs, s2.ibs, m);
    if forall k :: m <= k < |s2.ibs| ==> IsChain(s2.rows, s2.ibs[k]) {
      OnlyChains(s2.rows, s2.ibs, m, |s2.ibs|);
    }
  }

  /** A continuation hangs from the head exactly if it is the first one or is reported as a chain. */
  lemma LinkParent(s: State, b: Buffer, position: nat, head: nat, d: nat)
    requires AtLink(s, b, position, head, d) && position > 0
    ensures IbParent(s, b.ib) == head <==> (position >= 2 ==> b.ib == Chain)
  {
    ParentAt(s, b.ib, d);
  }

  lemma {:induction false} LinkHangsIff(s: State, b: Buffer, position: nat, head: nat, d: nat)
    requires AtLink(s, b, position, head, d)
    ensures Hangs(s, b, position > 0, head) <==> FlatLink(b, position)
    decreases b, |b.items| + 1
  {
    hide Run, AllAllowed, FieldRows, PlainOpen, Aligned, StartIb, WellFormed, Unranged, IbParent, ItemTraces, HangsFrom;
    var s1, s2 := DoesLink(s, b, position > 0);
    LinkFormed(b, position > 0);
    ItemsHangIff(s1, b, |b.items|);
    if position > 0 {
      LinkParent(s, b, position, head, d);
      EnteredHangs(s, b.ib, b.index, head);
    }
    match b.next
    case Ends =>
    case ChainsTo(c) =>
      if position == 0 || IbParent(s, b.ib) == head {
        NextLinkIff(s, b, position, head, d, s1, s2, c);
      }
  }

  lemma LinkFormed(b: Buffer, continues: bool)
    requires WellFormed(b, continues)
    ensures WellFormedItems(b, |b.items|) && (b.ib == Chain ==> continues)
    ensures b.next.ChainsTo? ==> HasPacket(b, |b.items|) && WellFormed(b.next.buffer, true)
  {
  }

  lemma {:induction false} NextLinkIff(s: State, b: Buffer, position: nat, head: nat, d: nat, s1: State, s2: State,
                                       c: Buffer)
    requires AtLink(s, b, position, head, d) && AfterItems(s, s1, s2, b) && b.next == ChainsTo(c) && !s2.newIb
    requires position >= 2 ==> b.ib == Chain
    ensures var head' := if position > 0 then head else Entered(s1);
      Hangs(s2, c, true, head') <==>
        MislabelledItems(b, |b.items|) == 0 && (position == 1 ==> b.ib == Chain)
          && FlatLink(c, if position == 0 then 1 else 2)
    decreases c, |c.items| + 2
  {
    hide Run, AllAllowed, FieldRows, Aligned, WellFormed, Unranged, IbParent, ItemTraces, HasPacket, Hangs, FlatLink;
    var head' := if position > 0 then head else Entered(s1);
    LinkFormed(b, position > 0);
    HeadStays(s, b, position, head, d, s1, s2);
    if MislabelledItems(b, |b.items|) > 0 {
      LeavesPlain(s, b, s1, s2);
      NextMisses(s1, s2, head', d, c);
    } else if position == 1 && b.ib != Chain {
      NextMisses(s1, s2, head', d, c);
    } else {
      LinkHangsIff(s2, c, if position == 0 then 1 else 2, head', d);
    }
  }

  /** The head stays where it is, and b is a chain above it or, if b is the head, plain. */
  lemma {:induction false} HeadStays(s: State, b: Buffer, position: nat, head: nat, d: nat, s1: State, s2: State)
    requires AtLink(s, b, position, head, d) && AfterItems(s, s1, s2, b)
    ensures d < |s1.ibs| == |s.ibs| + 1 && s1.ibs[d] == (if position > 0 then head else Entered(s1))
    ensures |s1.ibs| <= |s2.ibs| && PlainOpen(s2) > 0
    ensures b.ib != Chain && position > 0 ==> d < |s1.ibs| - 1 && !IsChain(s2.rows, s2.ibs[|s1.ibs| - 1])
    ensures MislabelledItems(b, |b.items|) == 0 && (position == 0 || b.ib == Chain) ==> IsGroup(s2.rows, s2.ibs, d)
  {
    EnteredNode(s, b.ib, b.index);
    var v := Last(s1.ibs);
    assert s2.ibs[|s.ibs|] == s1.ibs[|s.ibs|] == v && s2.rows[v] == s1.rows[v];
    assert forall k :: 0 <= k < |s.ibs| ==> s1.ibs[k] == s.ibs[k] && s2.rows[s.ibs[k]] == s.rows[s.ibs[k]];
  }

  lemma {:induction false} ItemsHangIff(s: State, b: Buffer, n: nat)
    requires Aligned(s) && Unranged(s) && s.flatten && PlainOpen(s) > 0 && n <= |b.items| && WellFormedItems(b, n)
    ensures ItemsHang(s, b, n) <==> FlatItems(b, n)
    decreases b, n
  {
    hide Aligned, PlainOpen, WellFormed, Unranged, Hangs, FlatLink, Run, AllAllowed;
    if n > 0 {
      ItemsHangIff(s, b, n - 1);
      ItemsRun(s, b, n - 1);
      UnrangedRun(s, ItemTraces(b, n - 1));
      FlattenKept(s, ItemTraces(b, n - 1));
      match b.items[n - 1]
      case Emit(p) =>
      case Enter(c) =>
        var t := Run(s, ItemTraces(b, n - 1));
        LinkHangsIff(t, c, 0, 0, |t.ibs|);
    }
  }

  /** With flattening on, every continuation hangs from the first buffer of its chain, and not from another
      continuation, exactly for the buffers that meet the condition. */
  lemma FlatIff(s: State, b: Buffer)
    requires Settled(s) && Unranged(s) && s.flatten && WellFormed(b, false)
    ensures Hangs(s, b, false, 0) <==> FlatLink(b, 0)
  {
    LinkHangsIff(s, b, 0, 0, |s.ibs|);
  }

  lemma TwiceContinued()
    ensures var p := Packet(Type4, []);
      var c := Buffer(Normal, 0, [Emit(p)], ChainsTo(Buffer(Normal, 0, [Emit(p)], Ends)));
      var b := Buffer(Normal, 0, [Emit(p)], ChainsTo(c));
      WellFormed(b, false) && !FlatLink(b, 0)
  {
    var p := Packet(Type4, []);
    var d := Buffer(Normal, 0, [Emit(p)], Ends);
    var c := Buffer(Normal, 0, [Emit(p)], ChainsTo(d));
    var b := Buffer(Normal, 0, [Emit(p)], ChainsTo(c));
    assert HasPacket(c, 1) && HasPacket(b, 1);
    assert WellFormedItems(d, 0) && WellFormed(d, true);
    assert WellFormedItems(c, 0) && WellFormed(c, true);
    assert WellFormedItems(b, 0) && WellFormed(b, false);
    assert !FlatLink(c, 1);
  }

  /** Two continuations that are reported as the emulator does: the second hangs from the first. */
  lemma SecondContinuationHangs(s: State)
    requires Settled(s) && Unranged(s) && s.flatten
    ensures var p := Packet(Type4, []);
      var c := Buffer(Normal, 0, [Emit(p)], ChainsTo(Buffer(Normal, 0, [Emit(p)], Ends)));
      var b := Buffer(Normal, 0, [Emit(p)], ChainsTo(c));
      WellFormed(b, false) && !Hangs(s, b, false, 0)
    ensures var p := Packet(Type4, []);
      var first := AfterPacket(StartIb(s, Normal, 0), p);
      var second := StartIb(first, Normal, 0);
      HangsFrom(StartIb(AfterPacket(second, p), Normal, 0).rows, |second.rows| - 1)
  {
    hide WellFormed, FlatLink, Hangs, AfterPacket, StartIb, Aligned, PlainOpen;
    var p := Packet(Type4, []);
    var c := Buffer(Normal, 0, [Emit(p)], ChainsTo(Buffer(Normal, 0, [Emit(p)], Ends)));
    TwiceContinued();
    FlatIff(s, Buffer(Normal, 0, [Emit(p)], ChainsTo(c)));
    HangsFromOpen(AfterPacket(StartIb(s, Normal, 0), p), p);
  }

  lemma HangsFromOpen(s: State, p: Packet)
    requires IsTyped(p)
    ensures var second := StartIb(s, Normal, 0);
      |second.rows| > 0 && HangsFrom(StartIb(AfterPacket(second, p), Normal, 0).rows, |second.rows| - 1)
  {
    var second := StartIb(s, Normal, 0);
    PacketRows(second, p);
    EnteredHangs(AfterPacket(second, p), Normal, 0, |second.rows| - 1);
  }
}
