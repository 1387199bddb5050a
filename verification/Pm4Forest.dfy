/** Child lists of the PM4 creator: every node is attached at most once in each topology. */
module Pm4Forest {
  import opened Wrappers
  import opened Forests
  import opened Pm4Trace
  import opened Pm4Effects
  import opened Pm4Stacks

  function SubmitParents(rows: seq<Row>): (r: seq<int>)
    ensures |r| == |rows| && forall i :: 0 <= i < |r| ==> r[i] == rows[i].submitParent
  {
    seq(|rows|, i requires 0 <= i < |rows| => rows[i].submitParent)
  }

  function EventParents(rows: seq<Row>): (r: seq<int>)
    ensures |r| == |rows| && forall i :: 0 <= i < |r| ==> r[i] == rows[i].eventParent
  {
    seq(|rows|, i requires 0 <= i < |rows| => rows[i].eventParent)
  }

  /** The list has the nodes whose parent is q, each once, in some order. */
  ghost predicate Holds(list: seq<nat>, parents: seq<int>, q: nat) {
    && (forall k :: 0 <= k < |list| ==> list[k] < |parents| && parents[list[k]] == q)
    && (forall c: nat :: c < |parents| && parents[c] == q ==> c in list)
    && Distinct(list)
  }

  ghost predicate Distinct(s: seq<nat>) {
    forall k, l :: 0 <= k < l < |s| ==> s[k] != s[l]
  }

  ghost predicate ListsHold(lists: ChildLists, parents: seq<int>) {
    |lists| == |parents| && forall q :: 0 <= q < |lists| ==> Holds(lists[q], parents, q)
  }

  ghost predicate ParentsBefore(parents: seq<int>) {
    forall i :: 0 <= i < |parents| ==> parents[i] == NONE || 0 <= parents[i] < i
  }

  lemma HoldsNode(lists: ChildLists, parents: seq<int>)
    requires ListsHold(lists, parents) && ParentsBefore(parents)
    ensures ListsHold(lists + [[]], parents + [NONE])
  {
    var parents' := parents + [NONE];
    forall q | 0 <= q < |lists|
      ensures Holds(lists[q], parents', q)
    {
      assert Holds(lists[q], parents, q);
    }
    assert Holds([], parents', |lists|);
  }

  lemma HoldsChild(lists: ChildLists, parents: seq<int>, c: nat, p: nat)
    requires ListsHold(lists, parents) && p < |lists| && c < |parents| && parents[c] == NONE
    ensures ListsHold(lists[p := lists[p] + [c]], parents[c := p])
  {
    var lists', parents' := lists[p := lists[p] + [c]], parents[c := p];
    forall q | 0 <= q < |lists|
      ensures Holds(lists'[q], parents', q)
    {
      assert Holds(lists[q], parents, q);
    }
  }

  lemma HoldsReordered(lists: ChildLists, parents: seq<int>, p: nat, list: seq<nat>)
    requires ListsHold(lists, parents) && p < |lists| && Distinct(list) && forall c :: c in list <==> c in lists[p]
    ensures ListsHold(lists[p := list], parents)
  {
    assert Holds(lists[p], parents, p);
    forall k | 0 <= k < |list|
      ensures list[k] < |parents| && parents[list[k]] == p
    {
      assert list[k] in lists[p];
    }
    assert Holds(list, parents, p);
  }

  /** The lists are a forest whose parents are the given ones. */
  lemma HoldsForest(lists: ChildLists, parents: seq<int>)
    requires ListsHold(lists, parents) && ParentsBefore(parents) && 0 < |lists| < UINT64_MAX
    ensures IsForest(lists)
    ensures forall c: nat :: c < |lists| ==> (IsChild(lists, c) <==> parents[c] != NONE)
    ensures forall c: nat :: c < |lists| && IsChild(lists, c) ==> SlotOf(lists, c).0 == parents[c]
  {
    forall p, k | IsSlot(lists, p, k)
      ensures p < lists[p][k] < |lists| && parents[lists[p][k]] == p
    {
      assert Holds(lists[p], parents, p);
    }
    forall p, k, q, l | IsSlot(lists, p, k) && IsSlot(lists, q, l) && lists[p][k] == lists[q][l]
      ensures p == q && k == l
    {
      assert parents[lists[p][k]] == p && parents[lists[q][l]] == q;
      assert Holds(lists[p], parents, p);
    }
    forall c: nat | c < |lists| && parents[c] != NONE
      ensures IsChild(lists, c)
    {
      assert Holds(lists[parents[c]], parents, parents[c]);
      var k :| 0 <= k < |lists[parents[c]]| && lists[parents[c]][k] == c;
      assert IsSlot(lists, parents[c], k);
    }
    forall c: nat | c < |lists| && IsChild(lists, c)
      ensures SlotOf(lists, c).0 == parents[c]
    {
      var (p, k) := SlotOf(lists, c);
      assert IsSlot(lists, p, k) && lists[p][k] == c;
    }
  }

  // ---------- sorting the children of a submit ----------

  predicate AreIbs(kinds: seq<NodeKind>, list: seq<nat>) {
    forall k {:trigger list[k]} :: 0 <= k < |list| ==> list[k] < |kinds| && kinds[list[k]].IbNode?
  }

  ghost predicate InIndexOrder(kinds: seq<NodeKind>, list: seq<nat>)
    requires AreIbs(kinds, list)
  {
    forall k, l {:trigger list[k], list[l]} :: 0 <= k < l < |list| ==> kinds[list[k]].index <= kinds[list[l]].index
  }

  function InsertIb(kinds: seq<NodeKind>, list: seq<nat>, x: nat): (r: seq<nat>)
    requires AreIbs(kinds, list) && x < |kinds| && kinds[x].IbNode?
    ensures AreIbs(kinds, r)
  {
    if list == [] || kinds[list[|list| - 1]].index <= kinds[x].index then list + [x]
    else InsertIb(kinds, list[..|list| - 1], x) + [list[|list| - 1]]
  }

  lemma InsertIbUnfolds(kinds: seq<NodeKind>, list: seq<nat>, x: nat)
    requires AreIbs(kinds, list) && x < |kinds| && kinds[x].IbNode?
    ensures InsertIb(kinds, list, x) ==
      if list == [] || kinds[list[|list| - 1]].index <= kinds[x].index then list + [x]
      else InsertIb(kinds, list[..|list| - 1], x) + [list[|list| - 1]]
  {
  }

  lemma {:induction false} InsertIbCorrect(kinds: seq<NodeKind>, list: seq<nat>, x: nat)
    requires AreIbs(kinds, list) && x < |kinds| && kinds[x].IbNode? && InIndexOrder(kinds, list) && Distinct(list)
      && x !in list
    ensures var r := InsertIb(kinds, list, x);
      InIndexOrder(kinds, r) && Distinct(r) && forall c :: c in r <==> c == x || c in list
  {
    hide InsertIb;
    InsertIbUnfolds(kinds, list, x);
    if list != [] && kinds[list[|list| - 1]].index > kinds[x].index {
      var most, last := list[..|list| - 1], list[|list| - 1];
      InsertIbCorrect(kinds, most, x);
      var r := InsertIb(kinds, most, x);
      assert list == most + [last] && last !in most;
      forall k | 0 <= k < |r|
        ensures r[k] != last && kinds[r[k]].index <= kinds[last].index
      {
        assert r[k] in r;
        if r[k] != x {
          var l :| 0 <= l < |most| && most[l] == r[k];
          assert list[l] == r[k];
        }
      }
    }
  }

  /** The children in the order of their buffer indices. */
  function SortIbs(kinds: seq<NodeKind>, list: seq<nat>, n: nat): (r: seq<nat>)
    requires n <= |list| && AreIbs(kinds, list)
    ensures AreIbs(kinds, r)
  {
    if n == 0 then [] else InsertIb(kinds, SortIbs(kinds, list, n - 1), list[n - 1])
  }

  lemma {:induction false} SortIbsCorrect(kinds: seq<NodeKind>, list: seq<nat>, n: nat)
    requires n <= |list| && AreIbs(kinds, list) && Distinct(list)
    ensures var r := SortIbs(kinds, list, n);
      InIndexOrder(kinds, r) && Distinct(r) && forall c :: c in r <==> c in list[..n]
  {
    if n > 0 {
      SortIbsCorrect(kinds, list, n - 1);
      assert list[..n] == list[..n - 1] + [list[n - 1]];
      InsertIbCorrect(kinds, SortIbs(kinds, list, n - 1), list[n - 1]);
    }
  }

  // ---------- what the state machine attaches ----------

  predicate ParentOk(parent: int, i: nat) {
    parent == NONE || 0 <= parent < i
  }

  /** Parents come first, and submits have nothing but buffers below them in the submit topology. */
  predicate RowOk(rows: seq<Row>, i: nat)
    requires i < |rows|
  {
    && ParentOk(rows[i].submitParent, i) && ParentOk(rows[i].eventParent, i)
    && (rows[i].submitParent >= 0 && rows[rows[i].submitParent].kind.SubmitNode? ==> rows[i].kind.IbNode?)
  }

  ghost predicate RowsOk(rows: seq<Row>) {
    rows != [] && rows[0].kind == RootNode && forall i {:trigger RowOk(rows, i)} :: 0 <= i < |rows| ==> RowOk(rows, i)
  }

  predicate PacketOrNone(rows: seq<Row>, x: int) {
    x == NONE || (0 <= x < |rows| && rows[x].kind.PacketNode?)
  }

  ghost predicate Well(s: State) {
    && RowsOk(s.rows) && s.submit < |s.rows| && ParentOk(s.pass, |s.rows|)
    && PacketOrNone(s.rows, s.startBin) && PacketOrNone(s.rows, s.drawTable)
  }

  lemma RowsOkGrow(rows: seq<Row>, more: seq<Row>)
    requires RowsOk(rows) && rows <= more && forall i {:trigger RowOk(more, i)} :: |rows| <= i < |more| ==>
      RowOk(more, i)
    ensures RowsOk(more)
  {
    forall i | 0 <= i < |rows|
      ensures RowOk(more, i)
    {
      assert RowOk(rows, i) && more[i] == rows[i];
    }
  }

  lemma WellStartIb(s: State, ib: IbType, index: nat)
    requires Well(s) && OpenBuffers(s.rows, s.ibs) && Caused(s, IbStart(ib, index))
    ensures Well(StartIb(s, ib, index))
  {
    var t := StartIb(s, ib, index);
    NearestIsOpen(s.rows, s.ibs, |s.ibs|, if s.ibs == [] then s.submit else Last(s.ibs));
    RowsOkGrow(s.rows, t.rows);
  }

  lemma {:induction false} NearestIsOpen(rows: seq<Row>, ibs: seq<nat>, n: nat, otherwise: nat)
    requires n <= |ibs|
    ensures var p := NearestNonChain(rows, ibs, n, otherwise); p == otherwise || p in ibs
  {
    if n > 0 {
      NearestIsOpen(rows, ibs, n - 1, otherwise);
    }
  }

  lemma WellPacket(s: State, p: Packet)
    requires Well(s) && IsTyped(p)
    ensures Well(AfterPacket(s, p))
  {
    PacketRows(s, p);
    PacketEffect(s, p);
    hide AfterPacket, PacketNodes;
    NodesAreOk(s, p);
    RowsOkGrow(s.rows, AfterPacket(s, p).rows);
  }

  lemma NodesAreOk(s: State, p: Packet)
    requires Well(s) && IsTyped(p)
    ensures var more := s.rows + PacketNodes(s, p); forall i {:trigger RowOk(more, i)} :: |s.rows| <= i < |more| ==>
      RowOk(more, i)
  {
    var n, more := |s.rows|, s.rows + PacketNodes(s, p);
    assert more[n] == Row(PacketNode(p.header), NONE, NONE);
    assert forall k :: 0 <= k < |p.parentOf| ==> more[n + 1 + k] == Extras(p, n)[k];
    forall i | n <= i < |more|
      ensures RowOk(more, i)
    {
      if n < i <= n + |p.parentOf| {
        assert more[i] == Extras(p, n)[i - n - 1];
        assert forall j :: n <= j < i ==> !more[j].kind.SubmitNode?;
      } else if i > n {
        assert more[i] == MadeBy(s, p.header)[i - n - 1 - |p.parentOf|];
      }
    }
  }

  lemma WellStartSubmit(s: State)
    requires Well(s)
    ensures Well(StartSubmit(s))
  {
    RowsOkGrow(s.rows, StartSubmit(s).rows);
  }

  lemma WellEndSubmit(s: State, presents: nat)
    requires Well(s)
    ensures Well(EndSubmit(s, presents))
  {
    hide Presents;
    var rows, more := s.rows, s.rows + Presents(presents);
    forall i | |rows| <= i < |more|
      ensures RowOk(more, i)
    {
      assert more[i] == Presents(presents)[i - |rows|] && more[0] == rows[0];
    }
    RowsOkGrow(rows, more);
  }

  lemma WellEndIb(s: State)
    requires Well(s)
    ensures Well(EndIb(s))
  {
  }

  lemma WellStep(s: State, cb: Callback)
    requires Well(s) && OpenBuffers(s.rows, s.ibs) && Caused(s, cb)
    ensures Well(Step(s, cb))
  {
    hide Well, AfterPacket, StartSubmit, EndSubmit, StartIb, EndIb;
    match cb
    case SubmitStart => WellStartSubmit(s);
    case SubmitEnd(presents) => WellEndSubmit(s, presents);
    case IbStart(ib, index) => WellStartIb(s, ib, index);
    case IbEnd => WellEndIb(s);
    case OnPacket(p) =>
      if IsTyped(p) {
        WellPacket(s, p);
      } else {
        Untyped(s, p);
      }
  }
}
