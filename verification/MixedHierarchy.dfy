/** DiveCommandHierarchyCreator: one tree from a PM4 tree and the GFXR nodes created after it. */
module MixedHierarchy {
  import opened Wrappers
  import opened Forests
  import opened Ancestry
  import opened GfxrRows
  import opened GfxrHierarchy
  import opened GfxrPaths
  import opened GfxrTrees
  import opened Topologies

  // ---------- the merged parents ----------

  predicate IsTopLevel(node: Node) {
    node.kind in {FrameNode, SubmitNode}
  }

  /** Frame and submit nodes hang from the root. A command recorded before any command buffer, which the
      builder also stored as a child of the root, ends up under the frame node. */
  function MergedParents(rows: seq<Row>, first: nat): (r: seq<int>)
    ensures |r| == |rows|
    ensures forall i :: 0 <= i < |r| ==>
      r[i] == if i < first then UNATTACHED
              else if rows[i].parent == ROOT && !IsTopLevel(rows[i].node) then first
              else rows[i].parent
  {
    seq(|rows|, i requires 0 <= i < |rows| =>
      if i < first then UNATTACHED else if rows[i].parent == ROOT
        && !IsTopLevel(rows[i].node) then first else rows[i].parent)
  }

  function MergedList(pm4: ChildLists, rows: seq<Row>, q: nat): seq<nat>
    requires 0 < |pm4| <= |rows|
  {
    if q == ROOT then pm4[ROOT] + Kids(MergedParents(rows, |pm4|), |rows|, ROOT)
    else if q < |pm4| then pm4[q]
    else Kids(MergedParents(rows, |pm4|), |rows|, q)
  }

  /** The merged lists: the PM4 lists with the frame and submit nodes appended to the root's. */
  function Merged(pm4: ChildLists, rows: seq<Row>): (r: ChildLists)
    requires 0 < |pm4| <= |rows|
    ensures |r| == |rows|
    ensures forall q :: 0 <= q < |r| ==> r[q] == MergedList(pm4, rows, q)
  {
    seq(|rows|, q requires 0 <= q < |rows| => MergedList(pm4, rows, q))
  }

  // ---------- the repairing filter ----------

  function Kept(nodes: seq<Node>, children: seq<nat>, q: nat, n: nat): (r: seq<nat>)
    requires n <= |children| && forall k :: 0 <= k < |children| ==> children[k] < |nodes|
  {
    if n == 0 then []
    else if children[n - 1] != q
      && nodes[children[n - 1]].kind != SubmitNode then Kept(nodes, children, q, n - 1) + [children[n - 1]]
    else Kept(nodes, children, q, n - 1)
  }

  lemma KeptStep(nodes: seq<Node>, children: seq<nat>, x: nat, q: nat)
    requires x < |nodes| && forall k :: 0 <= k < |children| ==> children[k] < |nodes|
    ensures Kept(nodes, children + [x], q, |children| + 1) ==
      if x != q && nodes[x].kind != SubmitNode then Kept(nodes, children, q, |children|) + [x]
      else Kept(nodes, children, q, |children|)
  {
    KeptPrefix(nodes, children, x, q, |children|);
  }

  lemma {:induction false} KeptPrefix(nodes: seq<Node>, children: seq<nat>, x: nat, q: nat, n: nat)
    requires n <= |children| && x < |nodes| && forall k :: 0 <= k < |children| ==> children[k] < |nodes|
    ensures Kept(nodes, children + [x], q, n) == Kept(nodes, children, q, n)
  {
    if n > 0 {
      KeptPrefix(nodes, children, x, q, n - 1);
    }
  }

  ghost predicate NodesOf(nodes: seq<Node>, rows: seq<Row>) {
    |nodes| == |rows| && forall i :: 0 <= i < |rows| ==> nodes[i] == rows[i].node
  }

  lemma KidsAreNodes(slots: seq<int>, n: nat, q: nat)
    requires n <= |slots|
    ensures forall k :: 0 <= k < |Kids(slots, n, q)| ==> 0 < Kids(slots, n, q)[k] < n
  {
    KidsAre(slots, n, q);
    assert forall k :: 0 <= k < |Kids(slots, n, q)| ==> Kids(slots, n, q)[k] in Kids(slots, n, q);
  }

  lemma KidsStep(slots: seq<int>, n: nat, q: nat)
    requires 1 < n <= |slots|
    ensures Kids(slots, n, q) == if slots[n - 1] == q then Kids(slots, n - 1, q) + [n - 1] else Kids(slots, n - 1, q)
  {
  }

  lemma NothingKept(nodes: seq<Node>, slots: seq<int>, q: nat, n: nat)
    requires n <= 1 && n <= |slots|
    ensures Kids(slots, n, q) == [] && Kept(nodes, [], q, 0) == []
  {
  }

  /** Filtering the list stored in a local slot gives the merged children of the node. */
  lemma {:induction false} KeptAreMerged(nodes: seq<Node>, rows: seq<Row>, first: nat, q: nat, n: nat)
    requires Sound(rows, first) && NodesOf(nodes, rows) && first <= q < |rows| && n <= |rows|
    ensures var kids := Kids(SlotsOf(rows, true, first), n, q - first);
      && (forall k :: 0 <= k < |kids| ==> kids[k] < |nodes|)
      && Kept(nodes, kids, q, |kids|) == Kids(MergedParents(rows, first), n, q)
  {
    hide Sound, Kids, Kept;
    var slots := SlotsOf(rows, true, first);
    KidsAreNodes(slots, n, q - first);
    if n <= 1 {
      NothingKept(nodes, slots, q - first, n);
      NothingKept(nodes, MergedParents(rows, first), q, n);
    } else {
      KeptAreMerged(nodes, rows, first, q, n - 1);
      FilterRepairs(rows, first, q, n - 1);
      KidsAreNodes(slots, n - 1, q - first);
      KidsStep(slots, n, q - first);
      KidsStep(MergedParents(rows, first), n, q);
      if slots[n - 1] == q - first {
        KeptStep(nodes, Kids(slots, n - 1, q - first), n - 1, q);
      }
    }
  }

  /** What is kept of the list in q's slot are the nodes whose merged parent is q. */
  lemma FilterRepairs(rows: seq<Row>, first: nat, q: nat, i: nat)
    requires Sound(rows, first) && first <= q < |rows| && i < |rows|
    ensures MergedParents(rows, first)[i] == q <==>
      SlotsOf(rows, true, first)[i] == q - first && i != q && rows[i].node.kind != SubmitNode
  {
  }

  lemma {:induction false} TopLevelAreMerged(rows: seq<Row>, first: nat, n: nat)
    requires Sound(rows, first) && first <= n < |rows|
    ensures Kids(MergedParents(rows, first), n + 1, ROOT) ==
      Kids(MergedParents(rows, first), n, ROOT) + if IsTopLevel(rows[n].node) then [n] else []
  {
  }

  lemma {:induction false} NoneBefore(rows: seq<Row>, first: nat, n: nat, q: nat)
    requires n <= first <= |rows|
    ensures Kids(MergedParents(rows, first), n, q) == []
  {
    if n > 1 {
      NoneBefore(rows, first, n - 1, q);
    }
  }

  // ---------- the merged tree ----------

  lemma MergedChild(pm4: ChildLists, rows: seq<Row>, p: nat, k: nat)
    requires IsForest(pm4) && Sound(rows, |pm4|) && IsSlot(Merged(pm4, rows), p, k)
    ensures var c := Merged(pm4, rows)[p][k];
      if c < |pm4| then IsSlot(pm4, p, k) && pm4[p][k] == c
      else p < c < |rows| && MergedParents(rows, |pm4|)[c] == p &&
           IsSlotOf(Kids(MergedParents(rows, |pm4|), |rows|, p), k - |MergedLocal(pm4, p)|, c)
  {
    hide IsForest, Kids, Sound, MergedParents, MergedList, MergedLocal;
    SoundBounds(rows, |pm4|);
    assert Merged(pm4, rows)[p] == MergedList(pm4, rows, p);
    if k < |MergedLocal(pm4, p)| {
      MergedHead(pm4, rows, p, k);
    } else {
      MergedTail(pm4, rows, p, k);
      MergedKid(rows, |pm4|, p, k - |MergedLocal(pm4, p)|);
    }
  }

  lemma MergedHead(pm4: ChildLists, rows: seq<Row>, p: nat, k: nat)
    requires IsForest(pm4) && |pm4| <= |rows| && k < |MergedLocal(pm4, p)|
    ensures p < |pm4| && k < |pm4[p]| && k < |MergedList(pm4, rows, p)|
      && MergedList(pm4, rows, p)[k] == pm4[p][k] < |pm4|
  {
    hide OneParent, ParentsFirst, Kids, MergedParents;
    assert IsSlot(pm4, p, k);
  }

  lemma MergedTail(pm4: ChildLists, rows: seq<Row>, p: nat, k: nat)
    requires 0 < |pm4| <= |rows| && |MergedLocal(pm4, p)| <= k < |MergedList(pm4, rows, p)|
    ensures IsSlotOf(Kids(MergedParents(rows, |pm4|), |rows|, p), k - |MergedLocal(pm4, p)|,
      MergedList(pm4, rows, p)[k])
  {
    hide Kids, MergedParents;
  }

  lemma MergedKid(rows: seq<Row>, first: nat, p: nat, k: nat)
    requires Sound(rows, first) && k < |Kids(MergedParents(rows, first), |rows|, p)|
    ensures var c := Kids(MergedParents(rows, first), |rows|, p)[k];
      first <= c && p < c < |rows| && MergedParents(rows, first)[c] == p
  {
    var kids := Kids(MergedParents(rows, first), |rows|, p);
    KidsAre(MergedParents(rows, first), |rows|, p);
    assert kids[k] in kids;
    MergedParentBefore(rows, first, kids[k]);
  }

  lemma MergedParentBefore(rows: seq<Row>, first: nat, c: nat)
    requires Sound(rows, first) && c < |rows| && MergedParents(rows, first)[c] >= 0
    ensures first <= c && MergedParents(rows, first)[c] < c
  {
  }

  lemma SoundBounds(rows: seq<Row>, first: nat)
    requires Sound(rows, first)
    ensures 0 < first <= |rows|
  {
  }

  predicate IsSlotOf(kids: seq<nat>, k: int, c: nat) {
    0 <= k < |kids| && kids[k] == c
  }

  function MergedLocal(pm4: ChildLists, p: nat): seq<nat> {
    if p < |pm4| then pm4[p] else []
  }

  lemma KidsDistinct(slots: seq<int>, q: nat, k: int, l: int, c: nat)
    requires IsSlotOf(Kids(slots, |slots|, q), k, c) && IsSlotOf(Kids(slots, |slots|, q), l, c)
    ensures k == l
  {
    KidsAre(slots, |slots|, q);
  }

  lemma MergedIsForest(pm4: ChildLists, rows: seq<Row>)
    requires IsForest(pm4) && Sound(rows, |pm4|) && |rows| < UINT64_MAX
    ensures IsForest(Merged(pm4, rows))
  {
    hide Sound, Kids, OneParent, InRange, ParentsFirst;
    SoundBounds(rows, |pm4|);
    MergedIsForestParts(pm4, rows);
  }

  lemma MergedIsForestParts(pm4: ChildLists, rows: seq<Row>)
    requires IsForest(pm4) && Sound(rows, |pm4|)
    ensures 0 < |pm4| <= |rows|
    ensures InRange(Merged(pm4, rows)) && ParentsFirst(Merged(pm4, rows)) && OneParent(Merged(pm4, rows))
  {
    hide Sound, Merged, Kids, MergedParents;
    SoundBounds(rows, |pm4|);
    var lists := Merged(pm4, rows);
    forall p, k | IsSlot(lists, p, k)
      ensures p < lists[p][k] < |lists|
    {
      MergedChild(pm4, rows, p, k);
    }
    forall p, k, q, l | IsSlot(lists, p, k) && IsSlot(lists, q, l) && lists[p][k] == lists[q][l]
      ensures p == q && k == l
    {
      MergedChild(pm4, rows, p, k);
      MergedChild(pm4, rows, q, l);
      if lists[p][k] >= |pm4| {
        KidsDistinct(MergedParents(rows, |pm4|), p, k - |MergedLocal(pm4, p)|, l - |MergedLocal(pm4, p)|, lists[p][k]);
      }
    }
  }

  lemma GfxrParent(rows: seq<Row>, first: nat, c: nat)
    requires Sound(rows, first) && first <= c < |rows|
    ensures var p := MergedParents(rows, first)[c];
      0 <= p < c && if IsTopLevel(rows[c].node) then p == ROOT else first <= p
  {
  }

  /** Every GFXR node has exactly one parent, and an earlier one. */
  lemma GfxrNodeHasParent(pm4: ChildLists, rows: seq<Row>, c: nat)
    requires IsForest(pm4) && Sound(rows, |pm4|) && |pm4| <= c < |rows| < UINT64_MAX
    ensures var lists, p := Merged(pm4, rows), MergedParents(rows, |pm4|)[c];
      && IsForest(lists) && 0 <= p < c && IsChild(lists, c) && SlotOf(lists, c).0 == p
      && (IsTopLevel(rows[c].node) ==> p == ROOT)
      && (!IsTopLevel(rows[c].node) ==> |pm4| <= p)
  {
    hide InRange, ParentsFirst, Kids, Sound;
    SoundBounds(rows, |pm4|);
    GfxrParent(rows, |pm4|, c);
    var lists, slots := Merged(pm4, rows), MergedParents(rows, |pm4|);
    MergedIsForest(pm4, rows);
    var p := slots[c];
    KidsAre(slots, |rows|, p);
    var k :| 0 <= k < |Kids(slots, |rows|, p)| && Kids(slots, |rows|, p)[k] == c;
    var at := |MergedLocal(pm4, p)| + k;
    assert IsSlot(lists, p, at) && lists[p][at] == c;
    var (q, l) := SlotOf(lists, c);
    assert lists[q][l] == lists[p][at];
  }

  lemma Pm4NodeKeepsParent(pm4: ChildLists, rows: seq<Row>, c: nat)
    requires IsForest(pm4) && Sound(rows, |pm4|) && |rows| < UINT64_MAX && c < |pm4|
    ensures IsForest(Merged(pm4, rows)) && (IsChild(pm4, c) <==> IsChild(Merged(pm4, rows), c))
    ensures IsChild(pm4, c) ==> SlotOf(Merged(pm4, rows), c) == SlotOf(pm4, c)
  {
    var lists := Merged(pm4, rows);
    MergedIsForest(pm4, rows);
    if IsChild(pm4, c) {
      var (p, k) := SlotOf(pm4, c);
      assert IsSlot(lists, p, k) && lists[p][k] == c;
      var (q, l) := SlotOf(lists, c);
      assert lists[q][l] == lists[p][k];
    } else if IsChild(lists, c) {
      var (p, k) := SlotOf(lists, c);
      MergedChild(pm4, rows, p, k);
    }
  }

  /** Every GFXR node is reachable from the root, and a PM4 node exactly when it was before. */
  lemma {:induction false} MergedRooted(pm4: ChildLists, rows: seq<Row>, c: nat)
    requires IsForest(pm4) && Sound(rows, |pm4|) && c < |rows| < UINT64_MAX
    ensures IsForest(Merged(pm4, rows))
    ensures Rooted(Merged(pm4, rows), c) <==> c >= |pm4| || Rooted(pm4, c)
    decreases c
  {
    hide Sound, Merged, MergedParents;
    MergedIsForest(pm4, rows);
    if c >= |pm4| {
      GfxrNodeHasParent(pm4, rows, c);
      MergedRooted(pm4, rows, MergedParents(rows, |pm4|)[c]);
    } else if c > 0 {
      Pm4NodeKeepsParent(pm4, rows, c);
      if IsChild(pm4, c) {
        var (p, k) := SlotOf(pm4, c);
        assert pm4[p][k] == c;
        MergedRooted(pm4, rows, p);
      }
    }
  }

  // ---------- the successor in the merged tree ----------

  lemma FrameComesFirst(pm4: ChildLists, rows: seq<Row>)
    requires IsForest(pm4) && Sound(rows, |pm4|) && |pm4| < |rows|
    ensures var lists := Merged(pm4, rows); pm4[ROOT] < lists[ROOT] && lists[ROOT][|pm4[ROOT]|] == |pm4|
  {
    var slots := MergedParents(rows, |pm4|);
    var kids := Kids(slots, |rows|, ROOT);
    KidsAre(slots, |rows|, ROOT);
    assert slots[|pm4|] == ROOT;
    var k :| 0 <= k < |kids| && kids[k] == |pm4|;
    assert kids[0] in kids && kids[0] <= kids[k];
  }

  lemma {:induction false} AfterPm4(pm4: ChildLists, rows: seq<Row>, c: nat)
    requires IsForest(pm4) && Sound(rows, |pm4|) && |pm4| < |rows| < UINT64_MAX
    requires 0 < c < |pm4| && Rooted(pm4, c)
    ensures IsForest(Merged(pm4, rows))
    ensures var after := AfterSubtree(pm4, c);
      AfterSubtree(Merged(pm4, rows), c) == if after == UINT64_MAX then |pm4| else after
    decreases c
  {
    hide Sound, Merged;
    var lists := Merged(pm4, rows);
    MergedIsForest(pm4, rows);
    Pm4NodeKeepsParent(pm4, rows, c);
    var (p, k) := SlotOf(pm4, c);
    assert pm4[p][k] == c;
    FrameComesFirst(pm4, rows);
    assert lists[p] == MergedList(pm4, rows, p);
    if k + 1 < |pm4[p]| {
      assert pm4[p][k + 1] < |pm4|;
    } else if p > 0 {
      AfterPm4(pm4, rows, p);
    }
  }

  /** The PM4 nodes are walked as before, and the frame node comes after them. */
  lemma Pm4Next(pm4: ChildLists, rows: seq<Row>, c: nat)
    requires IsForest(pm4) && Sound(rows, |pm4|) && |pm4| < |rows| < UINT64_MAX && c < |pm4| && Rooted(pm4, c)
    ensures IsForest(Merged(pm4, rows))
    ensures Next(Merged(pm4, rows), c) == if Next(pm4, c) == UINT64_MAX then |pm4| else Next(pm4, c)
  {
    var lists := Merged(pm4, rows);
    MergedIsForest(pm4, rows);
    FrameComesFirst(pm4, rows);
    hide Sound, Merged;
    assert lists[c] == MergedList(pm4, rows, c);
    if pm4[c] != [] {
      assert pm4[c][0] < |pm4|;
    } else if c > 0 {
      AfterPm4(pm4, rows, c);
    }
  }

  lemma {:induction false} FlatKids(rows: seq<Row>, first: nat, n: nat)
    requires 0 < first <= |rows| && n <= |rows| && OnlyTopLevel(rows, first)
    ensures var flat, slots := Kids(Parents(rows, first), n, ROOT), Kids(MergedParents(rows, first), n, ROOT);
      |flat| >= |slots| && flat[|flat| - |slots|..] == slots
  {
    if n > 1 {
      FlatKids(rows, first, n - 1);
      if n <= first {
        NoneBefore(rows, first, n, ROOT);
      }
    }
  }

  lemma SameBelow(pm4: ChildLists, rows: seq<Row>, q: nat)
    requires 0 < |pm4| <= q < |rows| && OnlyTopLevel(rows, |pm4|)
    ensures Merged(pm4, rows)[q] == TreeLists(Parents(rows, |pm4|))[q]
  {
    KidsPrefix(MergedParents(rows, |pm4|), Parents(rows, |pm4|), |rows|, q);
  }

  /** In terms of the GFXR nodes' own tree, in which the PM4 nodes are leaves below the root. */
  lemma {:induction false} AfterGfxr(pm4: ChildLists, rows: seq<Row>, c: nat)
    requires IsForest(pm4) && Sound(rows, |pm4|) && |pm4| <= c < |rows| < UINT64_MAX && OnlyTopLevel(rows, |pm4|)
    requires IsTree(Parents(rows, |pm4|)) && IsForest(TreeLists(Parents(rows, |pm4|)))
    ensures IsForest(Merged(pm4, rows))
    ensures AfterSubtree(Merged(pm4, rows), c) == AfterSubtree(TreeLists(Parents(rows, |pm4|)), c)
    decreases c
  {
    hide OneParent, InRange, IsTree, Kids, Sound;
    SoundBounds(rows, |pm4|);
    var lists, own := Merged(pm4, rows), TreeLists(Parents(rows, |pm4|));
    GfxrNodeHasParent(pm4, rows, c);
    ChildHasSlot(Parents(rows, |pm4|), c);
    var (p, k) := SlotOf(lists, c);
    var (q, l) := SlotOf(own, c);
    assert p == q;
    if p > 0 {
      SameBelow(pm4, rows, p);
      AfterSubtreeAt(own, p, k);
      AfterGfxr(pm4, rows, p);
    } else {
      FlatKids(rows, |pm4|, |rows|);
      SameAtRoot(pm4, rows, c, k, l);
    }
  }

  lemma SameAtRoot(pm4: ChildLists, rows: seq<Row>, c: nat, k: nat, l: nat)
    requires IsForest(pm4) && Sound(rows, |pm4|) && |pm4| <= c < |rows| < UINT64_MAX && OnlyTopLevel(rows, |pm4|)
    requires IsTree(Parents(rows, |pm4|)) && IsForest(TreeLists(Parents(rows, |pm4|)))
    requires var lists, own := Merged(pm4, rows), TreeLists(Parents(rows, |pm4|));
      IsSlot(lists, ROOT, k) && IsSlot(own, ROOT, l) && lists[ROOT][k] == own[ROOT][l] == c
    ensures var lists, own := Merged(pm4, rows)[ROOT], TreeLists(Parents(rows, |pm4|))[ROOT];
      |lists| - k == |own| - l && (k + 1 < |lists| ==> lists[k + 1] == own[l + 1])
  {
    hide OneParent, InRange, ParentsFirst, IsTree, Sound;
    SoundBounds(rows, |pm4|);
    MergedIsForest(pm4, rows);
    var lists, own := Merged(pm4, rows), TreeLists(Parents(rows, |pm4|));
    var kids := Kids(MergedParents(rows, |pm4|), |rows|, ROOT);
    Pm4Children(pm4, c, k);
    FlatKids(rows, |pm4|, |rows|);
    var d, e := |pm4[ROOT]|, |own[ROOT]| - |kids|;
    assert k >= d;
    assert own[ROOT][e + (k - d)] == own[ROOT][e..][k - d] == kids[k - d] == c;
    KidsAre(Parents(rows, |pm4|), |rows|, ROOT);
    assert e + (k - d) == l;
    assert k + 1 < |lists[ROOT]| ==> own[ROOT][l + 1] == own[ROOT][e..][k + 1 - d];
  }

  lemma Pm4Children(pm4: ChildLists, c: nat, k: nat)
    requires IsForest(pm4) && c >= |pm4|
    ensures k < |pm4[ROOT]| ==> pm4[ROOT][k] != c
  {
  }

  lemma GfxrNext(pm4: ChildLists, p: Progress, c: Capture, i: nat)
    requires IsForest(pm4) && Complete(c) && KeepsPath(c) && StaysInside(c) && Sound(p.rows, |p.rows|)
      && |p.rows| == |pm4|
    requires p.submit == p.buffer == ROOT && p.stack == []
    requires |pm4| <= i < |RunCapture(p, c).rows| < UINT64_MAX
    ensures var rows := RunCapture(p, c).rows;
      Sound(rows, |pm4|) && IsForest(Merged(pm4, rows))
        && Next(Merged(pm4, rows), i) == if i + 1 < |rows| then i + 1 else UINT64_MAX
  {
    var rows := RunCapture(p, c).rows;
    CaptureIsSound(p, c);
    PreorderedCaptures(p, c);
    hide RunCapture, Sound;
    var parents := Parents(rows, |pm4|);
    PreorderedNext(parents, i);
    AfterGfxr(pm4, rows, i);
    SameBelow(pm4, rows, i);
  }

  lemma WalkStep(lists: ChildLists, i: nat)
    requires IsForest(lists) && Walk(lists, i) < |lists|
    ensures Walk(lists, i + 1) == Next(lists, Walk(lists, i))
  {
  }

  lemma PreorderStep(lists: ChildLists, i: nat)
    requires IsForest(lists) && i < |Preorder(lists, ROOT)|
    ensures var s := Preorder(lists, ROOT);
      s[0] == ROOT && s[i] < |lists| && Rooted(lists, s[i])
        && Next(lists, s[i]) == if i + 1 < |s| then s[i + 1] else UINT64_MAX
  {
    var s := Preorder(lists, ROOT);
    WalkIsPreorder(lists);
    assert s[i] in s;
    RootedIsNode(lists, s[i]);
    hide Preorder;
    assert Walk(lists, 0) == s[0];
    WalkStep(lists, i);
  }

  lemma HasRoot(lists: ChildLists)
    requires IsForest(lists)
    ensures ROOT < |lists| && 0 < |Preorder(lists, ROOT)|
  {
  }

  lemma WalkFromRoot(lists: ChildLists)
    requires IsForest(lists)
    ensures Walk(lists, 0) == ROOT
  {
  }

  lemma {:induction false} WalkPm4(pm4: ChildLists, rows: seq<Row>, i: nat)
    requires IsForest(pm4) && Sound(rows, |pm4|) && |pm4| < |rows| < UINT64_MAX
    requires i <= |Preorder(pm4, ROOT)|
    ensures IsForest(Merged(pm4, rows))
    ensures Walk(Merged(pm4, rows), i) == if i < |Preorder(pm4, ROOT)| then Preorder(pm4, ROOT)[i] else |pm4|
  {
    hide *;
    HasRoot(pm4);
    SoundBounds(rows, |pm4|);
    MergedIsForest(pm4, rows);
    var s := Preorder(pm4, ROOT);
    if i == 0 {
      PreorderStep(pm4, 0);
      WalkFromRoot(Merged(pm4, rows));
    } else {
      WalkPm4(pm4, rows, i - 1);
      PreorderStep(pm4, i - 1);
      Pm4Next(pm4, rows, s[i - 1]);
      WalkStep(Merged(pm4, rows), i - 1);
      if i < |s| {
        PreorderStep(pm4, i);
      }
    }
  }

  /** The walk over the mixed tree of a capture that keeps to the path and has no command before its first
      command buffer: the walk over the PM4 tree, followed by the GFXR nodes in the order they were created. */
  lemma {:induction false} MixedWalk(pm4: ChildLists, p: Progress, c: Capture, i: nat)
    requires IsForest(pm4) && Complete(c) && KeepsPath(c) && StaysInside(c) && Sound(p.rows, |p.rows|)
      && |p.rows| == |pm4|
    requires p.submit == p.buffer == ROOT && p.stack == []
    requires |RunCapture(p, c).rows| < UINT64_MAX
    ensures var rows, s := RunCapture(p, c).rows, Preorder(pm4, ROOT);
      var total := |s| + |rows| - |pm4|;
      && |pm4| < |rows| && IsForest(Merged(pm4, rows))
      && (i < |s| ==> Walk(Merged(pm4, rows), i) == s[i])
      && (|s| <= i < total ==> Walk(Merged(pm4, rows), i) == |pm4| + i - |s|)
      && (i == total ==> Walk(Merged(pm4, rows), i) == UINT64_MAX)
  {
    hide *;
    RunIsSound(p, c);
    HasRoot(pm4);
    var rows, s := RunCapture(p, c).rows, Preorder(pm4, ROOT);
    SoundBounds(rows, |pm4|);
    MergedIsForest(pm4, rows);
    if i <= |s| {
      WalkPm4(pm4, rows, i);
    } else if i <= |s| + |rows| - |pm4| {
      MixedWalk(pm4, p, c, i - 1);
      GfxrNext(pm4, p, c, |pm4| + (i - 1) - |s|);
      WalkStep(Merged(pm4, rows), i - 1);
    }
  }

  lemma RunIsSound(p: Progress, c: Capture)
    requires Complete(c) && Sound(p.rows, |p.rows|) && p.submit == p.buffer == ROOT && p.stack == []
    ensures Sound(RunCapture(p, c).rows, |p.rows|) && |p.rows| < |RunCapture(p, c).rows|
  {
    CaptureIsSound(p, c);
    FrameExists(p, c);
  }

  lemma RootedIsNode(lists: ChildLists, x: nat)
    requires IsForest(lists) && Rooted(lists, x)
    ensures x < |lists|
  {
  }

  lemma FrameExists(p: Progress, c: Capture)
    requires Complete(c) && p.rows != [] && p.submit == p.buffer == ROOT && p.stack == [] && Sound(p.rows, |p.rows|)
    ensures |p.rows| < |RunCapture(p, c).rows|
  {
    SoundSubmits(p.(rows := p.rows + [Row(Node(FrameNode, NoDesc), ROOT)]), |p.rows|, c, |c.submits|);
  }

  // ---------- building it ----------

  /** The children stored for a node, without the node itself and without submit nodes. */
  method FilterChildren(nodes: seq<Node>, children: seq<nat>, q: nat) returns (filtered: seq<nat>)
    requires forall k :: 0 <= k < |children| ==> children[k] < |nodes|
    ensures filtered == Kept(nodes, children, q, |children|)
  {
    filtered := [];
    for k := 0 to |children|
      invariant filtered == Kept(nodes, children, q, k)
    {
      var child := children[k];
      if child != q {
        if nodes[child].kind != SubmitNode {
          filtered := filtered + [child];
        }
      }
    }
  }

  /** All frame and submit nodes, in the order they were created. */
  method FindTopLevel(nodes: seq<Node>, ghost rows: seq<Row>, first: nat) returns (found: seq<nat>)
    requires Sound(rows, first) && NodesOf(nodes, rows)
    ensures found == Kids(MergedParents(rows, first), |rows|, ROOT)
  {
    found := [];
    NoneBefore(rows, first, first, ROOT);
    for i := first to |nodes|
      invariant found == Kids(MergedParents(rows, first), i, ROOT)
    {
      TopLevelAreMerged(rows, first, i);
      if nodes[i].kind == SubmitNode || nodes[i].kind == FrameNode {
        found := found + [i];
      }
    }
  }

  /** The PM4 nodes keep their shared children, except for the root, whose shared list is never read. */
  ghost function MergedShared(shared: ChildLists, total: nat): (r: ChildLists)
    ensures |r| == total
  {
    seq(total, q requires 0 <= q < total => if 1 <= q < |shared| then shared[q] else [])
  }

  /** PM4 nodes but the root keep their shared children, and GFXR nodes have none. */
  ghost predicate KeepsShared(shared: ChildLists, merged: ChildLists) {
    && (forall q :: 0 < q < |shared| ==> q < |merged| && merged[q] == shared[q])
    && forall q :: |shared| <= q < |merged| ==> merged[q] == []
  }

  lemma SharedKept(shared: ChildLists, total: nat)
    requires |shared| <= total
    ensures KeepsShared(shared, MergedShared(shared, total))
  {
  }

  lemma SharedStep(shared: ChildLists, total: nat, n: nat)
    requires 1 <= n < |shared| <= total
    ensures var all := MergedShared(shared, total);
      Partial(all, 1, n)[n := shared[n]] == Partial(all, 1, n + 1) && Partial(all, 1, n)[n] == []
  {
  }

  lemma SharedAll(shared: ChildLists, total: nat)
    requires 0 < |shared| <= total
    ensures Partial(MergedShared(shared, total), 1, |shared|) == MergedShared(shared, total)
  {
  }

  lemma NoneYet(lists: ChildLists)
    ensures Partial(lists, 1, 1) == seq(|lists|, _ => [])
  {
  }

  /** The children that a builder beside PM4 nodes stored for node q, repaired. */
  method RepairedChildren(gfxr: GfxrCreator, q: nat) returns (children: seq<nat>)
    requires gfxr.Valid() && gfxr.mixed && Sound(gfxr.rows, gfxr.first) && gfxr.first <= q < |gfxr.rows|
    ensures children == Kids(MergedParents(gfxr.rows, gfxr.first), |gfxr.rows|, q)
  {
    KeptAreMerged(gfxr.nodes, gfxr.rows, gfxr.first, q, |gfxr.rows|);
    var stored := gfxr.lists[gfxr.toLocal[q]];
    children := FilterChildren(gfxr.nodes, stored, q);
  }

  method AddPm4Nodes(t: SharedNodeTopology, pm4: ChildLists, shared: ChildLists, ghost lists: ChildLists)
    requires t.Valid() && IsForest(lists) && 0 < |shared| == |pm4| <= |lists|
    requires forall q :: 0 < q < |pm4| ==> lists[q] == pm4[q]
    requires t.lists == Partial(lists, 1, 1) && t.shared == Partial(MergedShared(shared, |lists|), 1, 1)
    modifies t
    ensures t.Valid() && t.lists == Partial(lists, 1, |pm4|) && t.shared == MergedShared(shared, |lists|)
  {
    hide OneParent, InRange, ParentsFirst, Partial, Adoptable;
    SharedAll(shared, |lists|);
    for i := 1 to |pm4|
      invariant t.Valid() && t.lists == Partial(lists, 1, i) && t.shared == Partial(MergedShared(shared, |lists|), 1, i)
    {
      PartialAdoptable(lists, 1, i, i);
      SharedStep(shared, |lists|, i);
      t.AddChildren(i, pm4[i]);
      t.AddSharedChildren(i, shared[i]);
    }
  }

  method AddGfxrNodes(t: SharedNodeTopology, gfxr: GfxrCreator, ghost lists: ChildLists)
    requires t.Valid() && IsForest(lists) && |lists| == |gfxr.rows|
    requires gfxr.Valid() && gfxr.mixed && Sound(gfxr.rows, gfxr.first)
    requires forall q :: gfxr.first <= q < |gfxr.rows| ==>
      lists[q] == Kids(MergedParents(gfxr.rows, gfxr.first), |gfxr.rows|, q)
    requires t.lists == Partial(lists, 1, gfxr.first)
    modifies t
    ensures t.Valid() && t.lists == Partial(lists, 1, |lists|) && t.shared == old(t.shared)
  {
    hide OneParent, InRange, ParentsFirst, Partial, Adoptable, Sound, MergedParents, Kids;
    var numPm4, total := |gfxr.nodes| - |gfxr.lists|, |gfxr.nodes|;
    for i := numPm4 to total
      invariant t.Valid() && t.lists == Partial(lists, 1, i) && t.shared == old(t.shared)
    {
      PartialAdoptable(lists, 1, i, i);
      var children := RepairedChildren(gfxr, i);
      t.AddChildren(i, children);
    }
  }

  /** The topology of all events. */
  method CreateTopology(pm4: ChildLists, shared: ChildLists, gfxr: GfxrCreator) returns (t: SharedNodeTopology)
    requires IsForest(pm4) && |shared| == |pm4| && gfxr.Valid() && gfxr.mixed && gfxr.first == |pm4|
    requires Sound(gfxr.rows, |pm4|) && |gfxr.rows| < UINT64_MAX
    ensures fresh(t) && t.Valid()
    ensures |pm4| <= |gfxr.rows| && t.lists == Merged(pm4, gfxr.rows)
    ensures t.shared == MergedShared(shared, |gfxr.rows|) && KeepsShared(shared, t.shared)
  {
    hide Sound, Adoptable, OneParent, InRange, ParentsFirst, Partial, Kids;
    SoundBounds(gfxr.rows, |pm4|);
    ghost var lists := Merged(pm4, gfxr.rows);
    MergedIsForest(pm4, gfxr.rows);
    t := new SharedNodeTopology();
    t.SetNumNodes(|pm4| + |gfxr.lists|);
    NoneYet(lists);
    NoneYet(MergedShared(shared, |lists|));
    var rootChildren := pm4[ROOT];
    AddPm4Nodes(t, pm4, shared, lists);
    AddGfxrNodes(t, gfxr, lists);
    var topLevel := FindTopLevel(gfxr.nodes, gfxr.rows, |pm4|);
    for k := 0 to |topLevel|
      invariant rootChildren == pm4[ROOT] + topLevel[..k]
    {
      rootChildren := rootChildren + [topLevel[k]];
    }
    assert topLevel[..|topLevel|] == topLevel;
    PartialAdoptable(lists, 1, |lists|, ROOT);
    AllAdded(lists);
    t.AddChildren(ROOT, rootChildren);
    SharedKept(shared, |lists|);
  }

  function Before(pm4: seq<Node>): (p: Progress)
    requires pm4 != []
    ensures Sound(p.rows, |p.rows|) && |p.rows| == |pm4|
    ensures p.submit == p.buffer == ROOT && p.stack == []
  {
    Progress(seq(|pm4|, i requires 0 <= i < |pm4| => Row(pm4[i], UNATTACHED)), ROOT, ROOT, [])
  }

  /** The GFXR half and the merge, once the PM4 half has been processed. */
  method CreateTrees(nodes: seq<Node>, pm4: ChildLists, shared: ChildLists, c: Capture) returns (t: SharedNodeTopology)
    requires IsForest(pm4) && |shared| == |pm4| == |nodes| && Complete(c)
    requires |RunCapture(Before(nodes), c).rows| < UINT64_MAX
    ensures fresh(t) && t.Valid()
    ensures var rows := RunCapture(Before(nodes), c).rows;
      |pm4| < |rows| && t.lists == Merged(pm4, rows) && KeepsShared(shared, t.shared)
  {
    hide RunCapture, Sound, Records, OneParent, InRange, ParentsFirst;
    CaptureIsSound(Before(nodes), c);
    FrameExists(Before(nodes), c);
    var gfxr := new GfxrCreator.Beside(nodes);
    gfxr.ProcessGfxrSubmits(c);
    t := CreateTopology(pm4, shared, gfxr);
  }
}
