/** Node trees as nested child lists, and the stackless preorder walk over them. */
module Forests {
  import opened Wrappers

  const ROOT: nat := 0

  /** lists[p] are the children of node p, in order. */
  type ChildLists = seq<seq<nat>>

  predicate IsSlot(lists: ChildLists, p: int, k: int) {
    0 <= p < |lists| && 0 <= k < |lists[p]|
  }

  /** Every child is a node. */
  ghost predicate InRange(lists: ChildLists) {
    forall p, k {:trigger lists[p][k]} :: IsSlot(lists, p, k) ==> lists[p][k] < |lists|
  }

  /** No node is a child twice. */
  ghost predicate OneParent(lists: ChildLists) {
    forall p, k, q, l {:trigger lists[p][k], lists[q][l]} ::
      IsSlot(lists, p, k) && IsSlot(lists, q, l) && lists[p][k] == lists[q][l] ==> p == q && k == l
  }

  /** A parent is created before its children. */
  ghost predicate ParentsFirst(lists: ChildLists) {
    forall p, k {:trigger lists[p][k]} :: IsSlot(lists, p, k) ==> p < lists[p][k]
  }

  ghost predicate IsForest(lists: ChildLists) {
    0 < |lists| < UINT64_MAX && InRange(lists) && OneParent(lists) && ParentsFirst(lists)
  }

  ghost predicate IsChild(lists: ChildLists, c: nat) {
    exists p, k {:trigger lists[p][k]} :: IsSlot(lists, p, k) && lists[p][k] == c
  }

  /** The slot that holds c: its parent and its position among the parent's children. */
  ghost function SlotOf(lists: ChildLists, c: nat): (s: (nat, nat))
    requires IsChild(lists, c)
    ensures IsSlot(lists, s.0, s.1) && lists[s.0][s.1] == c
  {
    var p, k :| IsSlot(lists, p, k) && lists[p][k] == c;
    (p, k)
  }

  /** Following parents from c ends at the root. */
  ghost predicate Rooted(lists: ChildLists, c: nat)
    requires IsForest(lists)
    decreases c
  {
    c == ROOT || (IsChild(lists, c) && Rooted(lists, SlotOf(lists, c).0))
  }

  // ---------- the successor ----------

  /** The first node after the whole subtree of c, or UINT64_MAX. */
  ghost function AfterSubtree(lists: ChildLists, c: nat): nat
    requires IsForest(lists)
    decreases c
  {
    if c == ROOT || !IsChild(lists, c) then UINT64_MAX
    else
      var (p, k) := SlotOf(lists, c);
      if k + 1 < |lists[p]| then lists[p][k + 1] else AfterSubtree(lists, p)
  }

  ghost function Next(lists: ChildLists, c: nat): nat
    requires IsForest(lists) && c < |lists|
  {
    if lists[c] != [] then lists[c][0] else AfterSubtree(lists, c)
  }

  lemma AfterSubtreeAt(lists: ChildLists, p: nat, k: nat)
    requires IsForest(lists) && IsSlot(lists, p, k)
    ensures AfterSubtree(lists, lists[p][k]) == if k + 1 < |lists[p]| then lists[p][k + 1] else AfterSubtree(lists, p)
  {
    assert IsChild(lists, lists[p][k]);
    var (q, l) := SlotOf(lists, lists[p][k]);
    assert lists[q][l] == lists[p][k];
  }

  // ---------- depth-first preorder ----------

  ghost function Preorder(lists: ChildLists, r: nat): seq<nat>
    requires IsForest(lists) && r < |lists|
    decreases |lists| - r, 1, 0
  {
    [r] + PreorderFrom(lists, r, 0)
  }

  /** The preorders of the children of r from the k-th on. */
  ghost function PreorderFrom(lists: ChildLists, r: nat, k: nat): seq<nat>
    requires IsForest(lists) && r < |lists| && k <= |lists[r]|
    decreases |lists| - r, 0, |lists[r]| - k
  {
    if k == |lists[r]| then [] else Preorder(lists, lists[r][k]) + PreorderFrom(lists, r, k + 1)
  }

  /** s is a stretch of the walk that is followed by after. */
  ghost predicate IsStretch(lists: ChildLists, s: seq<nat>, after: nat)
    requires IsForest(lists)
  {
    && (forall i :: 0 <= i < |s| ==> s[i] < |lists|)
    && forall i {:trigger Next(lists, s[i])} :: 0 <= i < |s| ==>
         Next(lists, s[i]) == if i + 1 < |s| then s[i + 1] else after
  }

  lemma StretchConcat(lists: ChildLists, s: seq<nat>, t: seq<nat>, after: nat)
    requires IsForest(lists) && t != [] && IsStretch(lists, s, t[0]) && IsStretch(lists, t, after)
    ensures IsStretch(lists, s + t, after)
  {
    hide Next;
    var u := s + t;
    forall i | 0 <= i < |u|
      ensures Next(lists, u[i]) == if i + 1 < |u| then u[i + 1] else after
    {
      if i < |s| {
        assert Next(lists, s[i]) == if i + 1 < |s| then s[i + 1] else t[0];
      } else {
        assert Next(lists, t[i - |s|]) == if i + 1 < |u| then t[i - |s| + 1] else after;
      }
    }
  }

  lemma {:induction false} PreorderIsStretch(lists: ChildLists, r: nat)
    requires IsForest(lists) && r < |lists|
    ensures IsStretch(lists, Preorder(lists, r), AfterSubtree(lists, r)) && Preorder(lists, r)[0] == r
    decreases |lists| - r, 1, 0
  {
    PreorderFromIsStretch(lists, r, 0);
    if lists[r] == [] {
      assert Preorder(lists, r) == [r];
    } else {
      assert IsStretch(lists, [r], lists[r][0]);
      StretchConcat(lists, [r], PreorderFrom(lists, r, 0), AfterSubtree(lists, r));
    }
  }

  lemma {:induction false} PreorderFromIsStretch(lists: ChildLists, r: nat, k: nat)
    requires IsForest(lists) && r < |lists| && k <= |lists[r]|
    ensures var s := PreorderFrom(lists, r, k);
      if k == |lists[r]| then s == [] else s != [] && s[0] == lists[r][k] && IsStretch(lists, s, AfterSubtree(lists, r))
    decreases |lists| - r, 0, |lists[r]| - k
  {
    if k < |lists[r]| {
      hide AfterSubtree, IsStretch;
      var c := lists[r][k];
      PreorderIsStretch(lists, c);
      PreorderFromIsStretch(lists, r, k + 1);
      AfterSubtreeAt(lists, r, k);
      if k + 1 < |lists[r]| {
        StretchConcat(lists, Preorder(lists, c), PreorderFrom(lists, r, k + 1), AfterSubtree(lists, r));
      } else {
        assert PreorderFrom(lists, r, k) == Preorder(lists, c);
      }
    }
  }

  // ---------- what the walk visits ----------

  /** s contains the children of everything it contains. */
  ghost predicate Closed(lists: ChildLists, s: seq<nat>) {
    forall p, k {:trigger lists[p][k]} :: IsSlot(lists, p, k) && p in s ==> lists[p][k] in s
  }

  lemma {:induction false} PreorderClosed(lists: ChildLists, r: nat)
    requires IsForest(lists) && r < |lists|
    ensures Closed(lists, Preorder(lists, r)) && forall k :: 0 <= k < |lists[r]| ==> lists[r][k] in Preorder(lists, r)
    decreases |lists| - r, 1, 0
  {
    PreorderFromClosed(lists, r, 0);
  }

  lemma {:induction false} PreorderFromClosed(lists: ChildLists, r: nat, k: nat)
    requires IsForest(lists) && r < |lists| && k <= |lists[r]|
    ensures Closed(lists, PreorderFrom(lists, r, k))
    ensures forall l :: k <= l < |lists[r]| ==> lists[r][l] in PreorderFrom(lists, r, k)
    decreases |lists| - r, 0, |lists[r]| - k
  {
    if k < |lists[r]| {
      PreorderClosed(lists, lists[r][k]);
      PreorderFromClosed(lists, r, k + 1);
      assert Preorder(lists, lists[r][k])[0] == lists[r][k];
    }
  }

  lemma {:induction false} RootedIsVisited(lists: ChildLists, x: nat)
    requires IsForest(lists) && Rooted(lists, x)
    ensures x in Preorder(lists, ROOT)
    decreases x
  {
    PreorderClosed(lists, ROOT);
    if x == ROOT {
      assert Preorder(lists, ROOT)[0] == ROOT;
    } else {
      var (p, k) := SlotOf(lists, x);
      RootedIsVisited(lists, p);
      assert lists[p][k] == x;
    }
  }

  ghost predicate AllRooted(lists: ChildLists, s: seq<nat>)
    requires IsForest(lists)
  {
    forall x :: x in s ==> Rooted(lists, x)
  }

  lemma ChildIsRooted(lists: ChildLists, p: nat, k: nat)
    requires IsForest(lists) && IsSlot(lists, p, k) && Rooted(lists, p)
    ensures Rooted(lists, lists[p][k])
  {
    assert IsChild(lists, lists[p][k]);
    var (q, l) := SlotOf(lists, lists[p][k]);
    assert lists[q][l] == lists[p][k];
  }

  lemma {:induction false} VisitedIsRooted(lists: ChildLists, r: nat)
    requires IsForest(lists) && r < |lists| && Rooted(lists, r)
    ensures AllRooted(lists, Preorder(lists, r))
    decreases |lists| - r, 1, 0
  {
    VisitedFromIsRooted(lists, r, 0);
  }

  lemma {:induction false} VisitedFromIsRooted(lists: ChildLists, r: nat, k: nat)
    requires IsForest(lists) && r < |lists| && k <= |lists[r]| && Rooted(lists, r)
    ensures AllRooted(lists, PreorderFrom(lists, r, k))
    decreases |lists| - r, 0, |lists[r]| - k
  {
    if k < |lists[r]| {
      hide Rooted;
      ChildIsRooted(lists, r, k);
      VisitedIsRooted(lists, lists[r][k]);
      VisitedFromIsRooted(lists, r, k + 1);
    }
  }

  /** A walk that ends never comes back to a node: the successor depends on the node alone. */
  lemma {:induction false} StretchHasNoRepeats(lists: ChildLists, s: seq<nat>, i: nat, j: nat)
    requires IsForest(lists) && IsStretch(lists, s, UINT64_MAX) && i < j < |s|
    ensures s[i] != s[j]
    decreases |s| - j
  {
    if s[i] == s[j] {
      hide Next;
      assert Next(lists, s[i]) == s[i + 1];
      assert Next(lists, s[j]) == if j + 1 < |s| then s[j + 1] else UINT64_MAX;
      if j + 1 < |s| {
        StretchHasNoRepeats(lists, s, i + 1, j + 1);
      }
    }
  }

  /** The node reached from the root after i successor steps. */
  ghost function Walk(lists: ChildLists, i: nat): nat
    requires IsForest(lists)
  {
    if i == 0 then ROOT
    else if Walk(lists, i - 1) < |lists| then Next(lists, Walk(lists, i - 1))
    else UINT64_MAX
  }

  lemma {:induction false} WalkFollows(lists: ChildLists, s: seq<nat>, i: nat)
    requires IsForest(lists) && IsStretch(lists, s, UINT64_MAX) && i <= |s| && s != [] && s[0] == ROOT
    ensures Walk(lists, i) == if i < |s| then s[i] else UINT64_MAX
  {
    if i > 0 {
      hide Next;
      WalkFollows(lists, s, i - 1);
      assert Next(lists, s[i - 1]) == if i < |s| then s[i] else UINT64_MAX;
    }
  }

  /** Repeated successor steps from the root visit the nodes reachable from it, each once, in
      depth-first preorder, and then reach the end marker. */
  lemma WalkIsPreorder(lists: ChildLists)
    requires IsForest(lists)
    ensures var s := Preorder(lists, ROOT);
      && (forall i :: 0 <= i < |s| ==> Walk(lists, i) == s[i])
      && Walk(lists, |s|) == UINT64_MAX
      && (forall i, j :: 0 <= i < j < |s| ==> s[i] != s[j])
      && (forall x :: x in s <==> Rooted(lists, x))
  {
    var s := Preorder(lists, ROOT);
    PreorderIsStretch(lists, ROOT);
    hide IsStretch, Preorder, Walk, Rooted;
    assert AfterSubtree(lists, ROOT) == UINT64_MAX;
    forall i | 0 <= i <= |s|
      ensures Walk(lists, i) == if i < |s| then s[i] else UINT64_MAX
    {
      WalkFollows(lists, s, i);
    }
    forall i, j | 0 <= i < j < |s|
      ensures s[i] != s[j]
    {
      StretchHasNoRepeats(lists, s, i, j);
    }
    forall x
      ensures x in s <==> Rooted(lists, x)
    {
      if Rooted(lists, x) {
        RootedIsVisited(lists, x);
      }
      RootIsRooted(lists);
      VisitedIsRooted(lists, ROOT);
    }
  }

  lemma RootIsRooted(lists: ChildLists)
    requires IsForest(lists)
    ensures Rooted(lists, ROOT)
  {
  }
}
