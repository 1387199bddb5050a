/** What continuations that are not reported as chains do to the buffers that are open around them. */
module Pm4Chains {
  import opened Pm4Trace
  import opened Pm4Effects
  import opened Pm4Stacks

  // ---------- open buffers have no range yet ----------

  ghost predicate Unranged(s: State) {
    && (forall k {:trigger s.ibs[k]} :: 0 <= k < |s.ibs| ==> s.ibs[k] < |s.rows| && s.ibs[k] !in s.ibRanges)
    && (forall k, l {:trigger s.ibs[k], s.ibs[l]} :: 0 <= k < l < |s.ibs| ==> s.ibs[k] < s.ibs[l])
    && forall v :: v in s.ibRanges ==> v < |s.rows|
  }

  lemma UnrangedGrow(s: State, t: State)
    requires Unranged(s) && s.rows <= t.rows && t.ibs == s.ibs && t.ibRanges == s.ibRanges
    ensures Unranged(t)
  {
  }

  lemma PacketKeepsRanges(s: State, p: Packet)
    ensures var t := AfterPacket(s, p); s.rows <= t.rows && t.ibs == s.ibs && t.ibRanges == s.ibRanges
  {
    if IsTyped(p) {
      PacketEffect(s, p);
    }
  }

  /** A range is recorded only for the buffer that is closed with it. */
  lemma UnrangedStep(s: State, cb: Callback)
    requires Aligned(s) && Unranged(s) && Allowed(s, cb)
    ensures Unranged(Step(s, cb))
  {
    hide AfterPacket, Aligned;
    var t := Step(s, cb);
    match cb
    case SubmitStart =>
    case SubmitEnd(presents) => UnrangedGrow(s, t);
    case IbStart(ib, index) =>
    case IbEnd =>
    case OnPacket(p) =>
      PacketKeepsRanges(s, p);
      UnrangedGrow(s, t);
  }

  lemma {:induction false} UnrangedRun(s: State, cbs: seq<Callback>)
    requires Aligned(s) && Unranged(s) && AllAllowed(s, cbs)
    ensures Unranged(Run(s, cbs))
  {
    hide Aligned, Unranged, Step, Allowed;
    if cbs != [] {
      UnrangedRun(s, cbs[..|cbs| - 1]);
      AlignedRun(s, cbs[..|cbs| - 1]);
      UnrangedStep(Run(s, cbs[..|cbs| - 1]), cbs[|cbs| - 1]);
    }
  }

  // ---------- what a buffer never closes ----------

  /** Where the innermost open buffer is that is no chain. */
  lemma {:induction false} LastPlain(rows: seq<Row>, ibs: seq<nat>, n: nat) returns (d: nat)
    requires n <= |ibs| && Plain(rows, ibs, n) > 0
    ensures d < n && !IsChain(rows, ibs[d]) && forall k :: d < k < n ==> IsChain(rows, ibs[k])
  {
    if IsChain(rows, ibs[n - 1]) {
      d := LastPlain(rows, ibs, n - 1);
    } else {
      d := n - 1;
    }
  }

  lemma {:induction false} OnlyChains(rows: seq<Row>, ibs: seq<nat>, m: nat, n: nat)
    requires m <= n <= |ibs| && forall k :: m <= k < n ==> IsChain(rows, ibs[k])
    ensures Plain(rows, ibs, n) == Plain(rows, ibs, m)
    decreases n
  {
    if m < n {
      OnlyChains(rows, ibs, m, n - 1);
    }
  }

  /** What is open at the end of a buffer's items, and before its end callback or its continuation. */
  ghost predicate ItemsDone(s: State, b: Buffer, s1: State, s2: State) {
    && s1 == StartIb(s, b.ib, b.index) && s2 == Run(s1, ItemTraces(b, |b.items|))
    && Aligned(s2) && PlainOpen(s2) == PlainOpen(s1) + MislabelledItems(b, |b.items|)
    && (HasPacket(b, |b.items|) ==> !s2.newIb) && s1.ibs == s.ibs + [Last(s1.ibs)] && s1.ibs <= s2.ibs
         && s1.rows <= s2.rows
    && Aligned(s1) && PlainOpen(s1) == PlainOpen(s) + (if b.ib == Chain then 0 else 1)
    && PlainOpen(s1) > 0
  }

  lemma {:induction false} DoesItems(s: State, b: Buffer, continues: bool) returns (s1: State, s2: State)
    requires Settled(s) && WellFormed(b, continues) && (continues ==> !s.newIb && PlainOpen(s) > 0)
    ensures ItemsDone(s, b, s1, s2)
    ensures Run(s, Trace(b)) == match b.next case Ends => EndIb(s2) case ChainsTo(c) => Run(s2, Trace(c))
    decreases b, |b.items| + 1, 0
  {
    hide Run, AllAllowed, IbParent, FieldRows, FirstAfter, PlainOpen, Aligned, StartIb, EndIb;
    OpenIff(s);
    var enter, items := IbStart(b.ib, b.index), ItemTraces(b, |b.items|);
    s1 := StartIb(s, b.ib, b.index);
    EntersBuffer(s, enter);
    PlainStartIb(s, b.ib, b.index);
    RunSingle(s, enter);
    RunConcat(s, [enter], items);
    ItemsRun(s1, b, |b.items|);
    ItemsKeep(s1, b, |b.items|);
    s2 := Run(s1, items);
    match b.next
    case Ends =>
      PlainEndIb(s2);
      LeavesBuffer(s2);
      RunSingle(s2, IbEnd);
      RunConcat(s, [enter] + items, [IbEnd]);
    case ChainsTo(c) =>
      RunConcat(s, [enter] + items, Trace(c));
  }

  lemma {:induction false} ItemsKeep(s: State, b: Buffer, n: nat)
    requires Aligned(s) && PlainOpen(s) > 0 && n <= |b.items| && WellFormedItems(b, n)
    ensures var t := Run(s, ItemTraces(b, n)); s.ibs <= t.ibs && s.rows <= t.rows
    decreases b, n, 0
  {
    hide Aligned, PlainOpen, WellFormed, MislabelledItems, HasPacket, AllAllowed, Run, ItemTrace;
    RowsGrow(s, ItemTraces(b, n));
    if n == 0 {
      RunNothing(s);
    } else {
      ItemsRun(s, b, n - 1);
      ItemsKeep(s, b, n - 1);
      RunConcat(s, ItemTraces(b, n - 1), ItemTrace(b, n - 1));
      ItemKeeps(Run(s, ItemTraces(b, n - 1)), b, n - 1);
    }
  }

  lemma {:induction false} ItemKeeps(s: State, b: Buffer, n: nat)
    requires Aligned(s) && n < |b.items| && WellFormedItems(b, n + 1) && (HasPacket(b, n) ==> !s.newIb)
    ensures s.ibs <= Run(s, ItemTrace(b, n)).ibs
    decreases b, n, 1
  {
    hide Aligned, WellFormed, HasPacket, AllAllowed, Run;
    match b.items[n]
    case Emit(p) =>
      RunSingle(s, OnPacket(p));
      PacketKeepsBuffers(s, p);
    case Enter(c) =>
      BufferKeeps(s, c, false, |s.ibs|);
  }

  /** A buffer closes nothing below itself. A continuation closes at most its chain. */
  lemma {:induction false} BufferKeeps(s: State, b: Buffer, continues: bool, d: nat)
    requires Settled(s) && WellFormed(b, continues)
    requires if continues then !s.newIb && PlainOpen(s) > 0 && IsGroup(s.rows, s.ibs, d) else d == |s.ibs|
    ensures var t := Run(s, Trace(b)); d <= |s.ibs| && d <= |t.ibs| && t.ibs[..d] == s.ibs[..d]
    decreases b, |b.items| + 1, 1
  {
    hide Run, Trace, AllAllowed, PlainOpen, WellFormed, HasPacket, Aligned, StartIb;
    GroupIsOpen(s.rows, s.ibs, d);
    var s1, s2 := DoesItems(s, b, continues);
    var e := OpenGroup(s2);
    StillPlain(s, b, continues, d, s1, s2);
    NextIsFormed(b, continues);
    match b.next
    case Ends =>
      EndOfGroup(s2, e);
    case ChainsTo(c) =>
      BufferKeeps(s2, c, true, e);
  }

  lemma OpenGroup(s: State) returns (e: nat)
    requires PlainOpen(s) > 0
    ensures IsGroup(s.rows, s.ibs, e) && e < |s.ibs|
  {
    e := LastPlain(s.rows, s.ibs, |s.ibs|);
  }

  lemma NextIsFormed(b: Buffer, continues: bool)
    requires WellFormed(b, continues)
    ensures b.next.ChainsTo? ==> HasPacket(b, |b.items|) && WellFormed(b.next.buffer, true)
  {
  }

  /** The buffer at d is open and no chain until the end of b's items. */
  lemma StillPlain(s: State, b: Buffer, continues: bool, d: nat, s1: State, s2: State)
    requires ItemsDone(s, b, s1, s2) && Aligned(s) && WellFormed(b, continues)
    requires if continues then IsGroup(s.rows, s.ibs, d) else d == |s.ibs|
    ensures d < |s2.ibs| && !IsChain(s2.rows, s2.ibs[d]) && s2.ibs[..d] == s.ibs[..d]
  {
    EnteredNode(s, b.ib, b.index);
    if continues {
      assert s2.ibs[d] == s1.ibs[d] == s.ibs[d];
      assert s2.rows[s.ibs[d]] == s1.rows[s.ibs[d]] == s.rows[s.ibs[d]];
    } else {
      var v := Last(s1.ibs);
      assert s2.ibs[d] == s1.ibs[d] == v && s2.rows[v] == s1.rows[v];
    }
  }

  // ---------- exactly when a buffer is closed ----------

  /** A buffer leaves the stack as it was exactly if all continuations in it are reported as chains. */
  lemma BufferRestoresIff(s: State, b: Buffer)
    requires Settled(s) && WellFormed(b, false)
    ensures Run(s, Trace(b)).ibs == s.ibs <==> Mislabelled(b, false) == 0
  {
    hide Run, Trace, WellFormed;
    BufferRuns(s, b, false);
    var t := Run(s, Trace(b));
    if Mislabelled(b, false) == 0 {
      BufferRestores(s, b, false, |s.ibs|);
    } else if t.ibs == s.ibs {
      RowsGrow(s, Trace(b));
      PlainOfPrefix(s.rows, t.rows, s.ibs, t.ibs, |s.ibs|);
    }
  }

  /** The range of an unchained buffer with a packet is recorded exactly if all continuations in it are
      reported as chains, and then it is the packets since its start. Otherwise the buffer stays open. */
  lemma BufferRangeIff(s: State, b: Buffer)
    requires Settled(s) && Unranged(s) && WellFormed(b, false) && b.next == Ends && HasPacket(b, |b.items|)
    ensures var t := Run(s, Trace(b)); var v := |s.rows| + |FieldRows(s, b.ib)|;
      && v < |t.rows| && t.rows[v].kind == IbNode(b.ib, b.index)
      && (v in t.ibRanges <==> Mislabelled(b, false) == 0)
      && (v in t.ibRanges ==> CoversAfter(t.rows, v, t.ibRanges[v]))
      && (v !in t.ibRanges ==> v in t.ibs)
  {
    hide Run, Trace, WellFormed, Aligned, PlainOpen, HasPacket, StartIb, CoversAfter, AllAllowed, FieldRows;
    BufferRuns(s, b, false);
    UnrangedRun(s, Trace(b));
    if Mislabelled(b, false) == 0 {
      BufferRange(s, b);
    } else {
      var s1, s2 := DoesItems(s, b, false);
      EnteredNode(s, b.ib, b.index);
      var e := OpenGroup(s2);
      OpensAbove(s, b, s1, s2, e);
      EndOfGroup(s2, e);
      EndKeepsRows(s2);
      assert s2.ibs[..e][|s.ibs|] == Last(s1.ibs);
    }
  }

  /** Some buffer above b is left open. */
  lemma OpensAbove(s: State, b: Buffer, s1: State, s2: State, e: nat)
    requires ItemsDone(s, b, s1, s2) && b.next == Ends && Mislabelled(b, false) > 0 && IsGroup(s2.rows, s2.ibs, e)
    ensures |s.ibs| < e < |s2.ibs| && s2.ibs[|s.ibs|] == Last(s1.ibs)
  {
    var m := |s1.ibs|;
    assert s2.ibs[m - 1] == s1.ibs[m - 1];
    PlainOfPrefix(s1.rows, s2.rows, s1.ibs, s2.ibs, m);
    if e < m {
      OnlyChains(s2.rows, s2.ibs, m, |s2.ibs|);
    }
  }

  /** The emulator reports a continuation with the type of the buffer that it continues. */
  lemma NormalChainStaysOpen(s: State)
    requires Aligned(s)
    ensures var p := Packet(Type4, []);
      var b := Buffer(Normal, 0, [Emit(p)], ChainsTo(Buffer(Normal, 0, [Emit(p)], Ends)));
      AllWellFormed([b]) && AllAllowed(s, SubmitTrace([b], 0)) && Run(s, SubmitTrace([b], 0)).ibs != []
  {
    var p := Packet(Type4, []);
    var c := Buffer(Normal, 0, [Emit(p)], Ends);
    var b := Buffer(Normal, 0, [Emit(p)], ChainsTo(c));
    assert WellFormedItems(c, 0) && WellFormed(c, true);
    assert WellFormedItems(b, 0) && HasPacket(b, 1) && WellFormed(b, false);
    assert Mislabelled(c, true) >= 1 && Mislabelled(b, false) >= 1;
    assert TotalMislabelled([b], 1) > 0;
    SubmitBalance(s, [b], 0);
  }
}
