/** The nodes of a submit, read off the nesting of its buffers: no stack, no current buffer. */
module Pm4Layout {
  import opened Forests
  import opened Pm4Trace
  import opened Pm4Effects
  import opened Pm4Stacks
  import opened Pm4Chains
  import opened Pm4Flattening

  // ---------- reading the nodes off the buffers ----------

  /** The nodes so far; the current pass, the number of events, the open bin and the last draw table. */
  datatype Plan = Plan(rows: seq<Row>, pass: int, events: nat, bin: int, table: int)

  function PlanFields(p: Packet, n: nat): (r: seq<Row>)
    ensures |r| == |p.parentOf|
  {
    seq(|p.parentOf|, k requires 0 <= k < |p.parentOf| =>
      var parent := n + if p.parentOf[k] < k then p.parentOf[k] else k;
      Row(FieldNode, parent, parent))
  }

  /** A packet node hangs from nothing. An event hangs from the current pass or else from the submit, and
      a pass from the submit. */
  function PlanPacket(q: Plan, p: Packet, submit: nat): Plan {
    var n := |q.rows|;
    var rows := q.rows + [Row(PacketNode(p.header), NONE, NONE)] + PlanFields(p, n);
    match p.header
    case OtherType => q
    case Type4 => q.(rows := rows)
    case Type7(IsEvent(event)) =>
      var parent := if q.pass == NONE then submit else q.pass;
      q.(rows := rows + [Row(EventNode(q.events, event), NONE, parent)], events := q.events + 1)
    case Type7(SetsMarker(marker)) =>
      (match marker
       case BinEndOfDraws | BinRenderEnd | OtherMarker => q.(rows := rows)
       case _ => q.(rows := rows + [Row(PassNode(marker), NONE, submit)], pass := |rows|))
    case Type7(StartsBin) => q.(rows := rows, bin := n)
    case Type7(EndsBin) => q.(rows := rows, bin := NONE)
    case Type7(DrawsTable) => q.(rows := rows, table := n)
    case Type7(OtherAction) => q.(rows := rows)
  }

  /** The node of a buffer. Bin and draw-table buffers get a field node before it. */
  function PlanEntered(q: Plan, b: Buffer, parent: nat): (r: Plan)
    ensures r.rows != []
  {
    var rows := q.rows + match b.ib
                         case BinPrefix | BinCommon => [Row(FieldNode, q.bin, q.bin)]
                         case FixedStrideDrawTable => [Row(FieldNode, q.table, q.table)]
                         case _ => [];
    q.(rows := rows + [Row(IbNode(b.ib, b.index), parent, NONE)])
  }

  /** A buffer hangs from the one that it is entered from or that it continues; with flattening on, a
      continuation that is reported as a chain hangs from plain, the last one before it that is not. */
  function PlanBuffer(q: Plan, b: Buffer, submit: nat, flatten: bool, around: nat, plain: nat): Plan
    decreases b, |b.items| + 1
  {
    var r := PlanEntered(q, b, if flatten && b.ib == Chain then plain else around);
    var v := |r.rows| - 1;
    var t := PlanItems(r, b, |b.items|, submit, flatten, v);
    match b.next
    case Ends => t
    case ChainsTo(c) => PlanBuffer(t, c, submit, flatten, v, if b.ib == Chain then plain else v)
  }

  function PlanItems(q: Plan, b: Buffer, n: nat, submit: nat, flatten: bool, v: nat): Plan
    requires n <= |b.items|
    decreases b, n
  {
    if n == 0 then q
    else
      var r := PlanItems(q, b, n - 1, submit, flatten, v);
      match b.items[n - 1]
      case Emit(p) => PlanPacket(r, p, submit)
      case Enter(c) => PlanBuffer(r, c, submit, flatten, v, v)
  }

  function PlanBuffers(q: Plan, buffers: seq<Buffer>, n: nat, submit: nat, flatten: bool): Plan
    requires n <= |buffers|
  {
    if n == 0 then q
    else PlanBuffer(PlanBuffers(q, buffers, n - 1, submit, flatten), buffers[n - 1], submit, flatten, submit, submit)
  }

  function PlanPresents(n: nat): (r: seq<Row>)
    ensures |r| == n
  {
    if n == 0 then [] else PlanPresents(n - 1) + [Row(PresentNode, NONE, ROOT)]
  }

  /** A submit hangs from the root in both topologies, and the buffers that it lists hang from it. */
  function PlanSubmit(q: Plan, buffers: seq<Buffer>, presents: nat, flatten: bool): Plan {
    var start := q.(rows := q.rows + [Row(SubmitNode, ROOT, ROOT)], pass := NONE);
    var r := PlanBuffers(start, buffers, |buffers|, |q.rows|, flatten);
    r.(rows := r.rows + PlanPresents(presents))
  }

  // ---------- when it is so ----------

  /** Nothing is entered or continued after a continuation that is not reported as a chain, within the
      buffer around it. */
  predicate Tidy(b: Buffer)
    decreases b, |b.items| + 1
  {
    && TidyItems(b, |b.items|)
    && match b.next case Ends => true case ChainsTo(c) => MislabelledItems(b, |b.items|) == 0 && Tidy(c)
  }

  predicate TidyItems(b: Buffer, n: nat)
    requires n <= |b.items|
    decreases b, n
  {
    n == 0 || (TidyItems(b, n - 1) && match b.items[n - 1]
                                      case Emit(_) => true
                                      case Enter(c) => MislabelledItems(b, n - 1) == 0 && Tidy(c))
  }

  predicate TidyBuffers(buffers: seq<Buffer>, n: nat)
    requires n <= |buffers|
  {
    n == 0 || (TidyBuffers(buffers, n - 1) && TotalMislabelled(buffers, n - 1) == 0 && Tidy(buffers[n - 1]))
  }

  // ---------- one step ----------

  function PlanOf(s: State): Plan {
    Plan(s.rows, s.pass, |s.events|, s.startBin, s.drawTable)
  }

  /** Equal but for what the nodes are. */
  predicate Alike(q: Plan, r: Plan) {
    |q.rows| == |r.rows| && q == r.(rows := q.rows)
  }

  lemma FieldsAre(p: Packet, n: nat)
    ensures PlanFields(p, n) == Extras(p, n)
  {
  }

  lemma PacketPlan(s: State, p: Packet)
    ensures PlanOf(AfterPacket(s, p)) == PlanPacket(PlanOf(s), p, s.submit) && AfterPacket(s, p).submit == s.submit
  {
    hide AfterPacket;
    if IsTyped(p) {
      PacketEffect(s, p);
      FieldsAre(p, |s.rows|);
    } else {
      Untyped(s, p);
    }
  }

  lemma PlanPacketAlike(q: Plan, r: Plan, p: Packet, submit: nat)
    requires Alike(q, r)
    ensures Alike(PlanPacket(q, p, submit), PlanPacket(r, p, submit))
    ensures PlanPacket(q, p, submit) == PlanPacket(r, p, submit) <==> q == r
  {
    var q', r' := PlanPacket(q, p, submit), PlanPacket(r, p, submit);
    assert q'.rows[..|q.rows|] == q.rows && r'.rows[..|r.rows|] == r.rows;
  }

  lemma PacketPlanned(s: State, q: Plan, p: Packet)
    requires Alike(PlanOf(s), q)
    ensures var t, r := Run(s, [OnPacket(p)]), PlanPacket(q, p, s.submit);
      Alike(PlanOf(t), r) && t.submit == s.submit && (PlanOf(t) == r <==> PlanOf(s) == q)
  {
    hide PlanPacket, AfterPacket, PlanOf;
    RunSingle(s, OnPacket(p));
    PacketPlan(s, p);
    PlanPacketAlike(PlanOf(s), q, p, s.submit);
  }

  lemma EnteredPlan(s: State, q: Plan, b: Buffer, parent: nat)
    requires Alike(PlanOf(s), q)
    ensures var t, r := StartIb(s, b.ib, b.index), PlanEntered(q, b, parent);
      && Alike(PlanOf(t), r) && t.submit == s.submit && t.flatten == s.flatten
      && |r.rows| > 0 && Last(t.ibs) == |r.rows| - 1 == |t.rows| - 1
      && (PlanOf(t) == r <==> PlanOf(s) == q && IbParent(s, b.ib) == parent)
  {
    hide IbParent;
    var t, r := StartIb(s, b.ib, b.index), PlanEntered(q, b, parent);
    assert t.rows[..|s.rows|] == s.rows && r.rows[..|s.rows|] == q.rows;
    assert t.rows[|t.rows| - 1] == Row(IbNode(b.ib, b.index), IbParent(s, b.ib), NONE);
    assert r.rows[|t.rows| - 1] == Row(IbNode(b.ib, b.index), parent, NONE);
  }

  lemma EndPlan(s: State)
    ensures PlanOf(EndIb(s)) == PlanOf(s) && EndIb(s).submit == s.submit && EndIb(s).flatten == s.flatten
  {
  }

  // ---------- whose child a buffer becomes ----------

  /** A buffer that is entered among the items of another hangs from it exactly if nothing has been left
      open in between. */
  lemma EnteredFrom(s: State, t: State, b: Buffer, n: nat, ib: IbType)
    requires s.ibs != [] && s.ibs <= t.ibs && s.rows <= t.rows && Unranged(t) && Aligned(s) && ib != Chain
    requires n <= |b.items| && PlainOpen(t) == PlainOpen(s) + MislabelledItems(b, n)
    requires MislabelledItems(b, n) == 0 ==> t.ibs == s.ibs
    ensures IbParent(t, ib) == Last(s.ibs) <==> MislabelledItems(b, n) == 0
  {
    var m := |s.ibs|;
    PlainOfPrefix(s.rows, t.rows, s.ibs, t.ibs, m);
    assert t.ibs[m - 1] == s.ibs[m - 1];
  }

  /** So does a continuation, or with flattening on from the last link that is no chain. */
  lemma ContinuedFrom(s: State, b: Buffer, s1: State, s2: State, c: Buffer, d: nat)
    requires ItemsDone(s, b, s1, s2) && Unranged(s1) && Unranged(s2) && s2.flatten == s.flatten
    requires IsGroup(s1.rows, s1.ibs, d)
    requires MislabelledItems(b, |b.items|) == 0 ==> s2.ibs == s1.ibs
    ensures IbParent(s2, c.ib) == (if s.flatten && c.ib == Chain then s1.ibs[d] else Last(s1.ibs)) <==>
      MislabelledItems(b, |b.items|) == 0
  {
    var m := |s1.ibs|;
    assert forall k :: 0 <= k < m ==> s2.ibs[k] == s1.ibs[k];
    if MislabelledItems(b, |b.items|) > 0 {
      LeavesPlain(s, b, s1, s2);
      var e := OpenGroup(s2);
      NearestAt(s2.rows, s2.ibs, e, |s2.ibs|, Last(s2.ibs));
    } else {
      GroupGrows(s1, s2, d);
      NearestAt(s2.rows, s2.ibs, d, |s2.ibs|, Last(s2.ibs));
    }
  }

  // ---------- whole buffers ----------

  /** The last plain link of the chain that b continues, if all has been in order so far. */
  ghost predicate AtPlain(s: State, b: Buffer, continues: bool, plain: nat, d: nat) {
    if continues then IsGroup(s.rows, s.ibs, d) && s.ibs[d] == plain else d == |s.ibs|
  }

  ghost predicate MayRun(s: State, b: Buffer, continues: bool) {
    Settled(s) && Unranged(s) && WellFormed(b, continues) && (continues ==> !s.newIb && PlainOpen(s) > 0)
  }

  /** What the links and the items of b leave for the next link. */
  lemma LinkDone(s: State, b: Buffer, continues: bool) returns (s1: State, s2: State)
    requires MayRun(s, b, continues)
    ensures s1 == StartIb(s, b.ib, b.index) && s2 == Run(s1, ItemTraces(b, |b.items|)) && ItemsDone(s, b, s1, s2)
    ensures Unranged(s1) && Unranged(s2) && s1.newIb && s2.flatten == s.flatten && WellFormedItems(b, |b.items|)
    ensures MislabelledItems(b, |b.items|) == 0 ==> s2.ibs == s1.ibs
    ensures b.next.ChainsTo? ==> MayRun(s2, b.next.buffer, true)
    ensures Run(s, Trace(b)) == match b.next case Ends => EndIb(s2) case ChainsTo(c) => Run(s2, Trace(c))
  {
    hide Run, AllAllowed, FieldRows, PlainOpen, Aligned, StartIb, WellFormed, Unranged, Allowed;
    s1, s2 := DoesItems(s, b, continues);
    var enter := IbStart(b.ib, b.index);
    MayEnter(s, b, continues);
    EntersBuffer(s, enter);
    UnrangedStep(s, enter);
    StepKeepsFlatten(s, enter);
    ItemsAllowed(s1, b, continues);
    UnrangedRun(s1, ItemTraces(b, |b.items|));
    FlattenKept(s1, ItemTraces(b, |b.items|));
    LinkFormed(b, continues);
    if MislabelledItems(b, |b.items|) == 0 {
      ItemsRestore(s1, b, |b.items|);
    }
  }

  /** The rows of a buffer are the planned ones exactly if they were so far, the buffer itself hangs from
      where it should, and it is tidy. */
  lemma {:induction false} BufferPlanned(s: State, q: Plan, b: Buffer, continues: bool, around: nat, plain: nat, d: nat)
    requires MayRun(s, b, continues) && Alike(PlanOf(s), q)
    requires var parent := if s.flatten && b.ib == Chain then plain else around;
      PlanOf(s) == q && IbParent(s, b.ib) == parent ==> AtPlain(s, b, continues, plain, d)
    ensures var t, r := Run(s, Trace(b)), PlanBuffer(q, b, s.submit, s.flatten, around, plain);
      var parent := if s.flatten && b.ib == Chain then plain else around;
      && Alike(PlanOf(t), r) && t.submit == s.submit && t.flatten == s.flatten
      && (PlanOf(t) == r <==> PlanOf(s) == q && IbParent(s, b.ib) == parent && Tidy(b))
    decreases b, |b.items| + 1
  {
    hide Run, Trace, AllAllowed, FieldRows, PlainOpen, Aligned, StartIb, EndIb, WellFormed, Unranged, Allowed, IbParent,
      PlanEntered, PlanItems, PlanOf, Alike;
    var parent := if s.flatten && b.ib == Chain then plain else around;
    var s1, s2 := LinkDone(s, b, continues);
    var r := PlanEntered(q, b, parent);
    EnteredPlan(s, q, b, parent);
    var v := |r.rows| - 1;
    ItemsPlanned(s1, r, b, |b.items|, v);
    var r2 := PlanItems(r, b, |b.items|, s.submit, s.flatten, v);
    match b.next {
      case Ends =>
        EndPlan(s2);
      case ChainsTo(c) =>
        NextPlanned(s, q, b, continues, around, plain, d, s1, s2, r2, c);
    }
  }

  /** Where the next link finds the last plain one. */
  lemma NextPlain(s: State, b: Buffer, continues: bool, plain: nat, d: nat, s1: State) returns (e: nat)
    requires Aligned(s) && AtPlain(s, b, continues, plain, d) && WellFormed(b, continues)
      && s1 == StartIb(s, b.ib, b.index)
    ensures IsGroup(s1.rows, s1.ibs, e) && s1.ibs[e] == if b.ib == Chain then plain else Last(s1.ibs)
  {
    e := if b.ib == Chain then d else |s.ibs|;
    StartOfGroup(s, b.ib, b.index, e);
  }

  lemma {:induction false} NextPlanned(s: State, q: Plan, b: Buffer, continues: bool, around: nat, plain: nat, d: nat,
                                       s1: State, s2: State, r2: Plan, c: Buffer)
    requires MayRun(s, b, continues) && s1 == StartIb(s, b.ib, b.index) && ItemsDone(s, b, s1, s2)
    requires Unranged(s1) && Unranged(s2) && s2.flatten == s.flatten && MayRun(s2, c, true)
    requires MislabelledItems(b, |b.items|) == 0 ==> s2.ibs == s1.ibs
    requires Alike(PlanOf(s2), r2)
    requires var parent := if s.flatten && b.ib == Chain then plain else around;
      && (PlanOf(s) == q && IbParent(s, b.ib) == parent ==> AtPlain(s, b, continues, plain, d))
      && (PlanOf(s2) == r2 ==> PlanOf(s) == q && IbParent(s, b.ib) == parent)
    ensures var t := Run(s2, Trace(c));
      var v := Last(s1.ibs);
      var r := PlanBuffer(r2, c, s2.submit, s.flatten, v, if b.ib == Chain then plain else v);
      && Alike(PlanOf(t), r) && t.submit == s2.submit && t.flatten == s.flatten
      && (PlanOf(t) == r <==> PlanOf(s2) == r2 && MislabelledItems(b, |b.items|) == 0 && Tidy(c))
    decreases c, |c.items| + 2
  {
    hide Run, Trace, AllAllowed, FieldRows, PlainOpen, Aligned, StartIb, WellFormed, Unranged, IbParent, PlanBuffer,
      PlanOf, Alike, AtPlain, IsGroup, Tidy;
    var v := Last(s1.ibs);
    var plain' := if b.ib == Chain then plain else v;
    var e := 0;
    if PlanOf(s2) == r2 {
      e := NextPlain(s, b, continues, plain, d, s1);
      ContinuedFrom(s, b, s1, s2, c, e);
      StillAtPlain(s1, s2, c, e);
    }
    BufferPlanned(s2, r2, c, true, v, plain', e);
  }

  lemma StillAtPlain(s1: State, s2: State, c: Buffer, e: nat)
    requires Aligned(s1) && s1.rows <= s2.rows && IsGroup(s1.rows, s1.ibs, e)
    ensures e < |s1.ibs| && (s2.ibs == s1.ibs ==> AtPlain(s2, c, true, s1.ibs[e], e))
  {
    if s2.ibs == s1.ibs {
      GroupGrows(s1, s2, e);
    }
  }

  lemma {:induction false} ItemsPlanned(s: State, q: Plan, b: Buffer, n: nat, v: nat)
    requires Aligned(s) && Unranged(s) && PlainOpen(s) > 0 && s.newIb && n <= |b.items| && WellFormedItems(b, n)
    requires Alike(PlanOf(s), q) && s.ibs != [] && Last(s.ibs) == v
    ensures var t, r := Run(s, ItemTraces(b, n)), PlanItems(q, b, n, s.submit, s.flatten, v);
      && Alike(PlanOf(t), r) && t.submit == s.submit && t.flatten == s.flatten
      && (PlanOf(t) == r <==> PlanOf(s) == q && TidyItems(b, n))
    decreases b, n
  {
    hide Run, Trace, AllAllowed, PlainOpen, Aligned, WellFormed, Unranged, IbParent, PlanBuffer, PlanPacket, PlanOf,
      Alike, HasPacket, Tidy, Last;
    if n == 0 {
      RunNothing(s);
    } else {
      ItemsPlanned(s, q, b, n - 1, v);
      ItemsRun(s, b, n - 1);
      ItemsKeep(s, b, n - 1);
      UnrangedRun(s, ItemTraces(b, n - 1));
      var t, r := Run(s, ItemTraces(b, n - 1)), PlanItems(q, b, n - 1, s.submit, s.flatten, v);
      RunConcat(s, ItemTraces(b, n - 1), ItemTrace(b, n - 1));
      match b.items[n - 1]
      case Emit(p) =>
        PacketPlanned(t, r, p);
        FlattenKept(t, [OnPacket(p)]);
      case Enter(c) =>
        if MislabelledItems(b, n - 1) == 0 {
          ItemsRestore(s, b, n - 1);
        }
        LinkFormed(c, false);
        EnteredFrom(s, t, b, n - 1, c.ib);
        NoPlain(t, c, v);
        BufferPlanned(t, r, c, false, v, v, |t.ibs|);
    }
  }

  lemma NoPlain(s: State, b: Buffer, plain: nat)
    ensures AtPlain(s, b, false, plain, |s.ibs|)
  {
  }

  // ---------- submits ----------

  lemma {:induction false} BuffersPlanned(s: State, q: Plan, buffers: seq<Buffer>, n: nat)
    requires Settled(s) && Unranged(s) && s.ibs == [] && AllWellFormed(buffers) && n <= |buffers| && Alike(PlanOf(s), q)
    requires s.submit < |s.rows| && s.rows[s.submit].kind.SubmitNode?
    ensures var t, r := Run(s, Traces(buffers, n)), PlanBuffers(q, buffers, n, s.submit, s.flatten);
      && Alike(PlanOf(t), r) && t.submit == s.submit && t.flatten == s.flatten
      && (PlanOf(t) == r <==> PlanOf(s) == q && TidyBuffers(buffers, n))
  {
    hide Run, Trace, PlanBuffer, PlanOf, Alike, Tidy, Aligned, Unranged, WellFormed, PlainOpen, AllAllowed, IbParent;
    if n == 0 {
      RunNothing(s);
    } else {
      BuffersPlanned(s, q, buffers, n - 1);
      BuffersRun(s, buffers, n - 1);
      UnrangedRun(s, Traces(buffers, n - 1));
      var t, r := Run(s, Traces(buffers, n - 1)), PlanBuffers(q, buffers, n - 1, s.submit, s.flatten);
      RunConcat(s, Traces(buffers, n - 1), Trace(buffers[n - 1]));
      RowsGrow(s, Traces(buffers, n - 1));
      var b := buffers[n - 1];
      LinkFormed(b, false);
      ListedUnder(t, b.ib);
      NoPlain(t, b, s.submit);
      BufferPlanned(t, r, b, false, s.submit, s.submit, |t.ibs|);
    }
  }

  /** A listed buffer hangs from its submit exactly if nothing is open. */
  lemma ListedUnder(s: State, ib: IbType)
    requires Settled(s) && ib != Chain && s.submit < |s.rows| && s.rows[s.submit].kind.SubmitNode?
    ensures IbParent(s, ib) == s.submit <==> PlainOpen(s) == 0
  {
    OpenIff(s);
  }

  lemma {:induction false} PresentsAre(n: nat)
    ensures PlanPresents(n) == Presents(n)
  {
    if n > 0 {
      PresentsAre(n - 1);
      assert Presents(n) == Presents(n - 1) + [Presents(n)[n - 1]];
    }
  }

  lemma EndPlanned(s: State, q: Plan, presents: nat)
    requires Alike(PlanOf(s), q)
    ensures var t, r := EndSubmit(s, presents), q.(rows := q.rows + PlanPresents(presents));
      Alike(PlanOf(t), r) && (PlanOf(t) == r <==> PlanOf(s) == q)
  {
    PresentsAre(presents);
    var t, r := EndSubmit(s, presents), q.(rows := q.rows + PlanPresents(presents));
    assert t.rows[..|s.rows|] == s.rows && r.rows[..|s.rows|] == q.rows;
  }

  lemma StartPlanned(s: State, q: Plan)
    requires Alike(PlanOf(s), q)
    ensures var t, r := StartSubmit(s), q.(rows := q.rows + [Row(SubmitNode, ROOT, ROOT)], pass := NONE);
      && Alike(PlanOf(t), r) && (PlanOf(t) == r <==> PlanOf(s) == q)
      && t.submit == |q.rows| && t.flatten == s.flatten
  {
    var t, r := StartSubmit(s), q.(rows := q.rows + [Row(SubmitNode, ROOT, ROOT)], pass := NONE);
    assert t.rows[..|s.rows|] == s.rows && r.rows[..|s.rows|] == q.rows;
  }

  /** The nodes of a submit are the planned ones exactly if its buffers are tidy. */
  lemma SubmitPlanned(s: State, q: Plan, buffers: seq<Buffer>, presents: nat)
    requires Aligned(s) && Unranged(s) && AllWellFormed(buffers) && Alike(PlanOf(s), q)
    ensures var t, r := Run(s, SubmitTrace(buffers, presents)), PlanSubmit(q, buffers, presents, s.flatten);
      Alike(PlanOf(t), r) && (PlanOf(t) == r <==> PlanOf(s) == q && TidyBuffers(buffers, |buffers|))
  {
    hide AllWellFormed, Aligned, Run, AllAllowed, Traces, PlanBuffers, Unranged, StartSubmit, EndSubmit, PlanOf, Alike,
      TidyBuffers, PlanPresents;
    var s1, cbs := StartSubmit(s), Traces(buffers, |buffers|);
    var q1 := q.(rows := q.rows + [Row(SubmitNode, ROOT, ROOT)], pass := NONE);
    StartPlanned(s, q);
    StartsEmpty(s);
    RunSingle(s, SubmitStart);
    AlignedStep(s, SubmitStart);
    UnrangedStep(s, SubmitStart);
    BuffersPlanned(s1, q1, buffers, |buffers|);
    RunConcat(s, [SubmitStart], cbs);
    var s2 := Run(s1, cbs);
    RunSingle(s2, SubmitEnd(presents));
    RunConcat(s, [SubmitStart] + cbs, [SubmitEnd(presents)]);
    EndPlanned(s2, PlanBuffers(q1, buffers, |buffers|, |q.rows|, s.flatten), presents);
  }

  lemma StartsEmpty(s: State)
    ensures var t, n := StartSubmit(s), |s.rows|;
      t.ibs == [] && t.submit == n && |t.rows| == n + 1 && t.rows[n] == Row(SubmitNode, ROOT, ROOT)
        && t.flatten == s.flatten
  {
  }

  /** A listed buffer hangs from its submit exactly if all continuations in the buffers listed before it
      were reported as chains. */
  lemma ListedBufferIff(s: State, buffers: seq<Buffer>, presents: nat, k: nat)
    requires Aligned(s) && Unranged(s) && AllWellFormed(buffers) && k < |buffers|
    ensures var rows, b, submit := Run(s, SubmitTrace(buffers, presents)).rows, buffers[k], |s.rows|;
      var q := PlanBuffers(PlanOf(StartSubmit(s)), buffers, k, submit, s.flatten);
      var v := |PlanEntered(q, b, submit).rows| - 1;
      && submit < v < |rows| && rows[submit] == Row(SubmitNode, ROOT, ROOT) && rows[v].kind == IbNode(b.ib, b.index)
      && (rows[v].submitParent == submit <==> TotalMislabelled(buffers, k) == 0)
  {
    hide Aligned, Run, AllAllowed, Unranged, StartSubmit, PlanOf, Alike, PlanPresents, Trace, WellFormed, StartIb;
    var s1, b := StartSubmit(s), buffers[k];
    StartsEmpty(s);
    RunSingle(s, SubmitStart);
    AlignedStep(s, SubmitStart);
    UnrangedStep(s, SubmitStart);
    Reflexive(PlanOf(s1));
    BuffersPlanned(s1, PlanOf(s1), buffers, k);
    BuffersRun(s1, buffers, k);
    RowsGrow(s1, Traces(buffers, k));
    var t := Run(s1, Traces(buffers, k));
    LinkFormed(b, false);
    ListedUnder(t, b.ib);
    EnteredPlan(t, PlanBuffers(PlanOf(s1), buffers, k, s1.submit, s.flatten), b, s1.submit);
    EnteredRow(t, b.ib, b.index);
    ListedRowsStay(s, buffers, presents, k);
  }

  lemma Reflexive(q: Plan)
    ensures Alike(q, q)
  {
  }

  lemma EnteredRow(s: State, ib: IbType, index: nat)
    ensures var t := StartIb(s, ib, index);
      |t.rows| > |s.rows| && t.rows[|t.rows| - 1] == Row(IbNode(ib, index), IbParent(s, ib), NONE)
  {
  }

  lemma {:induction false} TracesGrow(s: State, buffers: seq<Buffer>, k: nat, n: nat)
    requires k <= n <= |buffers|
    ensures Run(s, Traces(buffers, k)).rows <= Run(s, Traces(buffers, n)).rows
    decreases n
  {
    hide Run, Trace;
    if k < n {
      TracesGrow(s, buffers, k, n - 1);
      RunConcat(s, Traces(buffers, n - 1), Trace(buffers[n - 1]));
      RowsGrow(Run(s, Traces(buffers, n - 1)), Trace(buffers[n - 1]));
    }
  }

  lemma TraceEnters(s: State, b: Buffer)
    ensures StartIb(s, b.ib, b.index).rows <= Run(s, Trace(b)).rows
  {
    hide Run, StartIb, ItemTraces;
    var enter := [IbStart(b.ib, b.index)];
    RunSingle(s, enter[0]);
    assert Trace(b) == enter + Trace(b)[1..];
    RunConcat(s, enter, Trace(b)[1..]);
    RowsGrow(StartIb(s, b.ib, b.index), Trace(b)[1..]);
  }

  /** What was there when a listed buffer had been entered is still there at the end of the submit. */
  lemma ListedRowsStay(s: State, buffers: seq<Buffer>, presents: nat, k: nat)
    requires k < |buffers|
    ensures var s1, rows := StartSubmit(s), Run(s, SubmitTrace(buffers, presents)).rows;
      && s1.rows <= rows
      && StartIb(Run(s1, Traces(buffers, k)), buffers[k].ib, buffers[k].index).rows <= rows
  {
    hide Run, Trace, StartIb, StartSubmit;
    var s1, b, cbs := StartSubmit(s), buffers[k], Traces(buffers, |buffers|);
    RunSingle(s, SubmitStart);
    RunConcat(s, [SubmitStart], cbs);
    RunConcat(s, [SubmitStart] + cbs, [SubmitEnd(presents)]);
    RowsGrow(Run(s1, cbs), [SubmitEnd(presents)]);
    RowsGrow(s1, cbs);
    TracesGrow(s1, buffers, k + 1, |buffers|);
    RunConcat(s1, Traces(buffers, k), Trace(b));
    TraceEnters(Run(s1, Traces(buffers, k)), b);
  }

  // ---------- captures ----------

  const NOTHING := Plan([Row(RootNode, NONE, NONE)], NONE, 0, NONE, NONE)

  function PlanSubmits(submits: seq<Submit>, n: nat, flatten: bool): Plan
    requires n <= |submits|
  {
    if n == 0 then NOTHING
    else PlanSubmit(PlanSubmits(submits, n - 1, flatten), submits[n - 1].buffers, submits[n - 1].presents, flatten)
  }

  predicate TidySubmits(submits: seq<Submit>, n: nat)
    requires n <= |submits|
  {
    n == 0 || (TidySubmits(submits, n - 1) && TidyBuffers(submits[n - 1].buffers, |submits[n - 1].buffers|))
  }

  /** All nodes of a capture, with their parents in both topologies, are the planned ones exactly if the
      capture is tidy. */
  lemma {:induction false} CapturePlanned(submits: seq<Submit>, n: nat, flatten: bool)
    requires n <= |submits| && forall k :: 0 <= k < |submits| ==> AllWellFormed(submits[k].buffers)
    ensures var s, q := Run(Start(flatten), SubmitTraces(submits, n)), PlanSubmits(submits, n, flatten);
      && Aligned(s) && Unranged(s) && s.flatten == flatten && Alike(PlanOf(s), q)
      && (s.rows == q.rows <==> TidySubmits(submits, n))
  {
    hide Run, Aligned, Unranged, AllWellFormed, TidyBuffers, PlanSubmit, SubmitTrace, AllAllowed;
    if n == 0 {
      StartsPlanned(flatten);
    } else {
      CapturePlanned(submits, n - 1, flatten);
      var s, submit := Run(Start(flatten), SubmitTraces(submits, n - 1)), submits[n - 1];
      var cbs := SubmitTrace(submit.buffers, submit.presents);
      SubmitPlanned(s, PlanSubmits(submits, n - 1, flatten), submit.buffers, submit.presents);
      SubmitBalance(s, submit.buffers, submit.presents);
      UnrangedRun(s, cbs);
      FlattenKept(s, cbs);
      RunConcat(Start(flatten), SubmitTraces(submits, n - 1), cbs);
    }
  }

  lemma StartsPlanned(flatten: bool)
    ensures var s := Start(flatten);
      Run(s, []) == s && Aligned(s) && Unranged(s) && s.flatten == flatten && PlanOf(s) == NOTHING
  {
    RunNothing(Start(flatten));
  }
}
