/** What every kind of node hangs from, and so which nodes each topology reaches from its root. */
module Pm4Reach {
  import opened Wrappers
  import opened Forests
  import opened Pm4Trace
  import opened Pm4Effects
  import opened Pm4Stacks
  import opened Pm4Forest

  predicate HoldsEvents(kind: NodeKind) {
    kind.RootNode? || kind.SubmitNode? || kind.PassNode?
  }

  predicate HoldsBuffers(kind: NodeKind) {
    kind.RootNode? || kind.SubmitNode? || kind.IbNode?
  }

  predicate HoldsFields(kind: NodeKind) {
    kind.PacketNode? || kind.FieldNode?
  }

  predicate RowAttached(rows: seq<Row>, i: nat)
    requires i < |rows|
  {
    var up, over := rows[i].submitParent, rows[i].eventParent;
    match rows[i].kind
    case RootNode => i == ROOT && up == over == NONE
    case SubmitNode => up == over == ROOT && i > ROOT
    case IbNode(_, _) => 0 <= up < i && HoldsBuffers(rows[up].kind) && over == NONE
    case PacketNode(_) => up == over == NONE && i > ROOT
    case FieldNode => 0 <= up == over < i && HoldsFields(rows[up].kind)
    case EventNode(_, _) => up == NONE && 0 <= over < i && HoldsEvents(rows[over].kind)
    case PassNode(_) => up == NONE && 0 <= over < i && (rows[over].kind.SubmitNode? || over == ROOT)
    case PresentNode => up == NONE && over == ROOT && i > ROOT
  }

  ghost predicate RowsAttached(rows: seq<Row>) {
    && rows != [] && rows[ROOT].kind == RootNode
    && forall i {:trigger RowAttached(rows, i)} :: 0 <= i < |rows| ==> RowAttached(rows, i)
  }

  ghost predicate Attached(s: State) {
    && RowsAttached(s.rows) && s.submit < |s.rows| && (s.submit == ROOT || s.rows[s.submit].kind.SubmitNode?)
    && (s.pass == NONE || (0 <= s.pass < |s.rows| && s.rows[s.pass].kind.PassNode?))
  }

  lemma AttachedGrow(rows: seq<Row>, more: seq<Row>)
    requires RowsAttached(rows) && rows <= more
    requires forall i {:trigger RowAttached(more, i)} :: |rows| <= i < |more| ==> RowAttached(more, i)
    ensures RowsAttached(more)
  {
    forall i | 0 <= i < |rows|
      ensures RowAttached(more, i)
    {
      assert RowAttached(rows, i) && more[i] == rows[i];
    }
  }

  lemma AttachedStartIb(s: State, ib: IbType, index: nat)
    requires Attached(s) && Well(s) && OpenBuffers(s.rows, s.ibs) && Caused(s, IbStart(ib, index))
    ensures Attached(StartIb(s, ib, index))
  {
    hide RowsOk;
    var t := StartIb(s, ib, index);
    NearestIsOpen(s.rows, s.ibs, |s.ibs|, if s.ibs == [] then s.submit else Last(s.ibs));
    AttachedGrow(s.rows, t.rows);
  }

  lemma NodesAttached(s: State, p: Packet)
    requires Attached(s) && IsTyped(p)
    ensures RowsAttached(s.rows + PacketNodes(s, p))
  {
    var n, more := |s.rows|, s.rows + PacketNodes(s, p);
    assert more[n] == Row(PacketNode(p.header), NONE, NONE);
    assert forall k :: 0 <= k < |p.parentOf| ==> more[n + 1 + k] == Extras(p, n)[k];
    forall i | n <= i < |more|
      ensures RowAttached(more, i)
    {
      if n < i <= n + |p.parentOf| {
        assert more[i] == Extras(p, n)[i - n - 1];
        assert forall j :: n <= j < i ==> HoldsFields(more[j].kind);
      } else if i > n {
        assert more[i] == MadeBy(s, p.header)[i - n - 1 - |p.parentOf|];
      }
    }
    AttachedGrow(s.rows, more);
  }

  lemma AttachedPacket(s: State, p: Packet)
    requires Attached(s)
    ensures Attached(AfterPacket(s, p))
  {
    hide AfterPacket, PacketNodes, RowsAttached;
    if IsTyped(p) {
      PacketEffect(s, p);
      NodesAttached(s, p);
      PassIsMade(s, p);
    } else {
      Untyped(s, p);
    }
  }

  lemma PassIsMade(s: State, p: Packet)
    ensures OpensPass(p.header) ==>
      |PacketNodes(s, p)| == |p.parentOf| + 2 && PacketNodes(s, p)[|p.parentOf| + 1].kind.PassNode?
  {
  }

  lemma AttachedSubmits(s: State, presents: nat)
    requires Attached(s)
    ensures Attached(StartSubmit(s)) && Attached(EndSubmit(s, presents)) && Attached(EndIb(s))
  {
    hide Presents;
    AttachedGrow(s.rows, StartSubmit(s).rows);
    var more := s.rows + Presents(presents);
    forall i | |s.rows| <= i < |more|
      ensures RowAttached(more, i)
    {
      assert more[i] == Presents(presents)[i - |s.rows|];
    }
    AttachedGrow(s.rows, more);
  }

  lemma AttachedStep(s: State, cb: Callback)
    requires Attached(s) && Well(s) && OpenBuffers(s.rows, s.ibs) && Caused(s, cb)
    ensures Attached(Step(s, cb))
  {
    hide Attached, Well, AfterPacket, StartSubmit, EndSubmit, StartIb, EndIb;
    match cb
    case SubmitStart => AttachedSubmits(s, 0);
    case SubmitEnd(presents) => AttachedSubmits(s, presents);
    case IbStart(ib, index) => AttachedStartIb(s, ib, index);
    case IbEnd => AttachedSubmits(s, 0);
    case OnPacket(p) => AttachedPacket(s, p);
  }

  /** In every trace a submit hangs from the root in both topologies. */
  lemma {:induction false} SubmitsAtRoot(flatten: bool, cbs: seq<Callback>, v: nat)
    requires v < |Run(Start(flatten), cbs).rows| && Run(Start(flatten), cbs).rows[v].kind.SubmitNode?
    ensures Run(Start(flatten), cbs).rows[v] == Row(SubmitNode, ROOT, ROOT)
  {
    if cbs != [] {
      hide Run;
      var s, cb := Run(Start(flatten), cbs[..|cbs| - 1]), cbs[|cbs| - 1];
      StepOf(Start(flatten), cbs);
      OneSubmitMore(s, cb);
      if v < |s.rows| {
        SubmitsAtRoot(flatten, cbs[..|cbs| - 1], v);
      }
    }
  }

  lemma StepOf(s: State, cbs: seq<Callback>)
    requires cbs != []
    ensures Run(s, cbs) == Step(Run(s, cbs[..|cbs| - 1]), cbs[|cbs| - 1])
  {
  }

  lemma OneSubmitMore(s: State, cb: Callback)
    ensures s.rows <= Step(s, cb).rows
    ensures forall v :: |s.rows| <= v < |Step(s, cb).rows| && Step(s, cb).rows[v].kind.SubmitNode? ==>
      Step(s, cb).rows[v] == Row(SubmitNode, ROOT, ROOT)
  {
    hide AfterPacket;
    if cb.OnPacket? && IsTyped(cb.packet) {
      PacketEffect(s, cb.packet);
    } else if cb.OnPacket? {
      Untyped(s, cb.packet);
    }
  }

  // ---------- what the topologies reach ----------

  /** The lists hold each attached node below its parent. */
  ghost predicate Gives(lists: ChildLists, parents: seq<int>) {
    && IsForest(lists) && |lists| == |parents|
    && (forall c: nat :: c < |lists| ==> (IsChild(lists, c) <==> parents[c] != NONE))
    && forall c: nat :: c < |lists| && IsChild(lists, c) ==> SlotOf(lists, c).0 == parents[c]
  }

  predicate InSubmits(kind: NodeKind) {
    kind.RootNode? || kind.SubmitNode? || kind.IbNode?
  }

  predicate InEvents(kind: NodeKind) {
    kind.RootNode? || kind.SubmitNode? || kind.PassNode? || kind.EventNode? || kind.PresentNode?
  }

  /** From the root the submit topology reaches exactly the submits and the buffers. Packets are in it as
      shared children only, and so are their fields. */
  lemma {:induction false} SubmitTopologyReaches(rows: seq<Row>, lists: ChildLists, c: nat)
    requires RowsAttached(rows) && Gives(lists, SubmitParents(rows)) && c < |rows|
    ensures Rooted(lists, c) <==> InSubmits(rows[c].kind)
    decreases c
  {
    hide IsForest, SlotOf;
    assert RowAttached(rows, c) && RowAttached(rows, ROOT);
    var p := rows[c].submitParent;
    if p >= 0 {
      SubmitTopologyReaches(rows, lists, p);
    }
  }

  /** The topology of all events reaches exactly the submits, passes, events and presents. */
  lemma {:induction false} EventTopologyReaches(rows: seq<Row>, lists: ChildLists, c: nat)
    requires RowsAttached(rows) && Gives(lists, EventParents(rows)) && c < |rows|
    ensures Rooted(lists, c) <==> InEvents(rows[c].kind)
    decreases c
  {
    hide IsForest, SlotOf;
    assert RowAttached(rows, c) && RowAttached(rows, ROOT);
    var p := rows[c].eventParent;
    if p >= 0 {
      EventTopologyReaches(rows, lists, p);
    }
  }

  lemma HoldsGives(lists: ChildLists, parents: seq<int>)
    requires ListsHold(lists, parents) && ParentsBefore(parents) && 0 < |lists| < UINT64_MAX
    ensures Gives(lists, parents)
  {
    HoldsForest(lists, parents);
  }

  lemma TopologiesReach(rows: seq<Row>, submits: ChildLists, events: ChildLists)
    requires RowsAttached(rows) && Gives(submits, SubmitParents(rows)) && Gives(events, EventParents(rows))
    ensures forall c: nat :: c < |rows| ==>
      (Rooted(submits, c) <==> InSubmits(rows[c].kind)) && (Rooted(events, c) <==> InEvents(rows[c].kind))
  {
    forall c: nat | c < |rows|
      ensures Rooted(submits, c) <==> InSubmits(rows[c].kind)
      ensures Rooted(events, c) <==> InEvents(rows[c].kind)
    {
      SubmitTopologyReaches(rows, submits, c);
      EventTopologyReaches(rows, events, c);
    }
  }
}
