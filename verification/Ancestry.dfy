/** Trees given by parents alone, where a parent comes before its children. The trees whose numbering
    is a depth-first preorder are those in which each node's parent lies on the path to the node before. */
module Ancestry {
  import opened Wrappers
  import opened Forests

  /** Node 0 is the root; every other node's parent comes before it. */
  ghost predicate IsTree(parents: seq<int>) {
    0 < |parents| && forall i {:trigger parents[i]} :: 0 < i < |parents| ==> 0 <= parents[i] < i
  }

  /** a is node i or one of its ancestors. */
  ghost predicate IsAncestor(parents: seq<int>, a: nat, i: nat)
    requires IsTree(parents) && i < |parents|
  {
    a == i || (i > 0 && IsAncestor(parents, a, parents[i]))
  }

  ghost predicate IsPreordered(parents: seq<int>)
    requires IsTree(parents)
  {
    forall i, j {:trigger parents[i], parents[j]} :: 0 <= i < j < |parents| && j == i + 1 ==>
      IsAncestor(parents, parents[j], i)
  }

  lemma {:induction false} AncestorIsBefore(parents: seq<int>, a: nat, i: nat)
    requires IsTree(parents) && i < |parents| && IsAncestor(parents, a, i)
    ensures a <= i
  {
    if a != i {
      AncestorIsBefore(parents, a, parents[i]);
    }
  }

  lemma {:induction false} AncestorTransitive(parents: seq<int>, a: nat, b: nat, i: nat)
    requires IsTree(parents) && i < |parents| && b < |parents|
    requires IsAncestor(parents, a, b) && IsAncestor(parents, b, i)
    ensures IsAncestor(parents, a, i)
  {
    if b != i {
      AncestorTransitive(parents, a, b, parents[i]);
    }
  }

  /** The ancestors of a node form a chain. */
  lemma {:induction false} AncestorsAreChained(parents: seq<int>, a: nat, b: nat, i: nat)
    requires IsTree(parents) && i < |parents| && a <= b
    requires IsAncestor(parents, a, i) && IsAncestor(parents, b, i)
    ensures b < |parents| && IsAncestor(parents, a, b)
  {
    AncestorIsBefore(parents, b, i);
    if b != i {
      AncestorsAreChained(parents, a, b, parents[i]);
    }
  }

  lemma {:induction false} RootIsAncestor(parents: seq<int>, i: nat)
    requires IsTree(parents) && i < |parents|
    ensures IsAncestor(parents, ROOT, i)
  {
    if i > 0 {
      RootIsAncestor(parents, parents[i]);
    }
  }

  /** Adding nodes at the end changes nobody's ancestors. */
  lemma {:induction false} AncestorOfPrefix(parents: seq<int>, all: seq<int>, a: nat, i: nat)
    requires IsTree(parents) && IsTree(all) && parents <= all && i < |parents|
    ensures IsAncestor(all, a, i) <==> IsAncestor(parents, a, i)
  {
    if a != i && i > 0 {
      assert all[i] == parents[i];
      AncestorOfPrefix(parents, all, a, parents[i]);
    }
  }

  /** In a preordered tree a subtree is a stretch of consecutive nodes. */
  lemma SubtreeIsStretch(parents: seq<int>, a: nat, i: nat, j: nat)
    requires IsTree(parents) && IsPreordered(parents)
    requires a <= j <= i < |parents| && IsAncestor(parents, a, i)
    ensures IsAncestor(parents, a, j)
    decreases i - j
  {
    if j < i {
      assert IsAncestor(parents, parents[i], i - 1);
      AncestorTransitive(parents, a, parents[i], i - 1);
      SubtreeIsStretch(parents, a, i - 1, j);
    }
  }

  // ---------- child lists of a tree given by parents ----------

  /** The nodes in [1, n) whose slot is q, in increasing order. */
  function Kids(slots: seq<int>, n: nat, q: nat): (r: seq<nat>)
    requires n <= |slots|
  {
    if n <= 1 then [] else if slots[n - 1] == q then Kids(slots, n - 1, q) + [n - 1] else Kids(slots, n - 1, q)
  }

  ghost predicate Increasing(s: seq<nat>) {
    forall i, j :: 0 <= i < j < |s| ==> s[i] < s[j]
  }

  lemma {:induction false} KidsAre(slots: seq<int>, n: nat, q: nat)
    requires n <= |slots|
    ensures forall c :: c in Kids(slots, n, q) <==> 0 < c < n && slots[c] == q
    ensures Increasing(Kids(slots, n, q))
  {
    if n > 1 {
      KidsAre(slots, n - 1, q);
      SnocIncreasing(Kids(slots, n - 1, q), n - 1);
    }
  }

  lemma SnocIncreasing(s: seq<nat>, x: nat)
    requires Increasing(s) && forall y :: y in s ==> y < x
    ensures Increasing(s + [x])
  {
    forall i, j | 0 <= i < j < |s + [x]|
      ensures (s + [x])[i] < (s + [x])[j]
    {
      assert s[i] in s;
    }
  }

  function TreeLists(parents: seq<int>): ChildLists {
    seq(|parents|, p requires 0 <= p < |parents| => Kids(parents, |parents|, p))
  }

  lemma TreeListsSlot(parents: seq<int>, p: nat, k: nat)
    requires IsTree(parents) && IsSlot(TreeLists(parents), p, k)
    ensures var c := TreeLists(parents)[p][k]; 0 < c < |parents| && parents[c] == p
  {
    KidsAre(parents, |parents|, p);
    assert TreeLists(parents)[p][k] in Kids(parents, |parents|, p);
  }

  lemma TreeListsForest(parents: seq<int>)
    requires IsTree(parents) && |parents| < UINT64_MAX
    ensures IsForest(TreeLists(parents))
  {
    var lists := TreeLists(parents);
    forall p, k | IsSlot(lists, p, k)
      ensures p < lists[p][k] < |lists|
    {
      TreeListsSlot(parents, p, k);
    }
    forall p, k, q, l | IsSlot(lists, p, k) && IsSlot(lists, q, l) && lists[p][k] == lists[q][l]
      ensures p == q && k == l
    {
      TreeListsSlot(parents, p, k);
      TreeListsSlot(parents, q, l);
      KidsAre(parents, |parents|, p);
    }
  }

  lemma ChildHasSlot(parents: seq<int>, c: nat)
    requires IsTree(parents) && 0 < c < |parents| < UINT64_MAX
    ensures IsForest(TreeLists(parents)) && IsChild(TreeLists(parents), c)
      && SlotOf(TreeLists(parents), c).0 == parents[c]
  {
    var lists := TreeLists(parents);
    TreeListsForest(parents);
    KidsAre(parents, |parents|, parents[c]);
    var k :| 0 <= k < |lists[parents[c]]| && lists[parents[c]][k] == c;
    assert IsSlot(lists, parents[c], k);
    var (q, l) := SlotOf(lists, c);
    assert lists[q][l] == lists[parents[c]][k];
  }

  /** Every node hangs from the root. */
  lemma {:induction false} TreeIsRooted(parents: seq<int>, c: nat)
    requires IsTree(parents) && c < |parents| < UINT64_MAX
    ensures IsForest(TreeLists(parents)) && Rooted(TreeLists(parents), c)
  {
    TreeListsForest(parents);
    if c > 0 {
      ChildHasSlot(parents, c);
      TreeIsRooted(parents, parents[c]);
    }
  }

  // ---------- the successor of a preordered tree ----------

  /** The first node after c that shares its parent, given that n is the first node outside c's subtree. */
  lemma NextSibling(parents: seq<int>, c: nat, n: nat)
    requires IsTree(parents) && IsPreordered(parents) && 0 < c < n <= |parents| < UINT64_MAX
    requires IsAncestor(parents, c, n - 1) && (n < |parents| ==> !IsAncestor(parents, c, n))
    requires n < |parents| ==> parents[n] <= parents[c]
    ensures IsForest(TreeLists(parents))
    ensures AfterSubtree(TreeLists(parents), c) ==
      if n < |parents| && parents[n] == parents[c] then n else AfterSubtree(TreeLists(parents), parents[c])
  {
    var lists, p := TreeLists(parents), parents[c];
    ChildHasSlot(parents, c);
    var (_, k) := SlotOf(lists, c);
    AfterSubtreeAt(lists, p, k);
    KidsAre(parents, |parents|, p);
    if k + 1 < |lists[p]| {
      var d := lists[p][k + 1];
      assert lists[p][k] < d && d in lists[p];
      NoSiblingInside(parents, c, n, d);
      if n < |parents| && parents[n] != p {
        NoReturn(parents, p, n, d);
      }
    }
    if n < |parents| && parents[n] == p {
      var l :| 0 <= l < |lists[p]| && lists[p][l] == n;
      assert k < l && lists[p][k + 1] <= lists[p][l];
    }
  }

  /** A later sibling d of c is no earlier than the first node outside c's subtree. */
  lemma NoSiblingInside(parents: seq<int>, c: nat, n: nat, d: nat)
    requires IsTree(parents) && IsPreordered(parents) && 0 < c < n <= |parents| && IsAncestor(parents, c, n - 1)
    requires c < d < |parents| && parents[d] == parents[c]
    ensures d >= n
  {
    if d < n {
      SubtreeIsStretch(parents, c, n - 1, d);
      AncestorIsBefore(parents, c, parents[d]);
      assert false;
    }
  }

  /** Once a node n hangs from before p, no later node hangs from p. */
  lemma NoReturn(parents: seq<int>, p: nat, n: nat, d: nat)
    requires IsTree(parents) && IsPreordered(parents) && 0 < n <= d < |parents| && parents[n] < p < n
    ensures parents[d] != p
  {
    if parents[d] == p {
      assert IsAncestor(parents, p, d);
      SubtreeIsStretch(parents, p, d, n);
      AncestorIsBefore(parents, p, parents[n]);
      assert false;
    }
  }

  /** The node after the subtree of c is n. */
  lemma {:induction false} AfterIs(parents: seq<int>, c: nat, n: nat)
    requires IsTree(parents) && IsPreordered(parents) && c < n <= |parents| < UINT64_MAX
      && IsAncestor(parents, c, n - 1)
    requires n < |parents| ==> parents[n] < c
    ensures IsForest(TreeLists(parents))
    ensures AfterSubtree(TreeLists(parents), c) == if n < |parents| then n else UINT64_MAX
    decreases c
  {
    TreeListsForest(parents);
    if c > 0 {
      var p := parents[c];
      AncestorTransitive(parents, p, c, n - 1);
      if n < |parents| {
        assert IsAncestor(parents, parents[n], n - 1);
        AncestorsAreChained(parents, parents[n], c, n - 1);
        AncestorIsBefore(parents, parents[n], p);
        if IsAncestor(parents, c, n) {
          AncestorIsBefore(parents, c, parents[n]);
        }
      }
      NextSibling(parents, c, n);
      if !(n < |parents| && parents[n] == p) {
        AfterIs(parents, p, n);
      }
    }
  }

  /** In a preordered tree the successor of every node but the last is the node numbered next, and the
      last one is followed by the end marker. */
  lemma PreorderedNext(parents: seq<int>, i: nat)
    requires IsTree(parents) && IsPreordered(parents) && i < |parents| < UINT64_MAX
    ensures IsForest(TreeLists(parents))
    ensures Next(TreeLists(parents), i) == if i + 1 < |parents| then i + 1 else UINT64_MAX
  {
    var lists, n := TreeLists(parents), i + 1;
    TreeListsForest(parents);
    KidsAre(parents, |parents|, i);
    if n < |parents| && parents[n] == i {
      assert n in lists[i] && lists[i][0] in lists[i];
    } else {
      if n < |parents| {
        assert IsAncestor(parents, parents[n], i);
        AncestorIsBefore(parents, parents[n], i);
      }
      if lists[i] != [] {
        var d := lists[i][0];
        assert d in lists[i];
        NoReturn(parents, i, n, d);
      }
      AfterIs(parents, i, n);
    }
  }

  /** The parent of whatever follows c is an ancestor of c. */
  lemma {:induction false} AfterHangsFromAncestor(parents: seq<int>, c: nat)
    requires IsTree(parents) && IsForest(TreeLists(parents)) && c < |parents|
    ensures var a := AfterSubtree(TreeLists(parents), c);
      a != UINT64_MAX ==> 0 < a < |parents| && IsAncestor(parents, parents[a], c)
    decreases c
  {
    if c > 0 {
      var lists := TreeLists(parents);
      ChildHasSlot(parents, c);
      var (p, k) := SlotOf(lists, c);
      if k + 1 < |lists[p]| {
        TreeListsSlot(parents, p, k + 1);
      } else {
        AfterHangsFromAncestor(parents, p);
        var a := AfterSubtree(lists, p);
        if a != UINT64_MAX {
          AncestorTransitive(parents, parents[a], p, c);
        }
      }
    }
  }

  /** Exactly when successor steps run through the nodes in the order they were created. */
  lemma PreorderedIff(parents: seq<int>)
    requires IsTree(parents) && |parents| < UINT64_MAX
    ensures IsForest(TreeLists(parents))
    ensures IsPreordered(parents) <==>
      forall i :: 0 <= i < |parents| ==> Next(TreeLists(parents), i) == if i + 1 < |parents| then i + 1 else UINT64_MAX
  {
    var lists := TreeLists(parents);
    TreeListsForest(parents);
    if IsPreordered(parents) {
      forall i | 0 <= i < |parents|
        ensures Next(lists, i) == if i + 1 < |parents| then i + 1 else UINT64_MAX
      {
        PreorderedNext(parents, i);
      }
    } else if forall i :: 0 <= i < |parents| ==> Next(lists, i) == if i + 1 < |parents| then i + 1 else UINT64_MAX {
      forall i, j | 0 <= i < j < |parents| && j == i + 1
        ensures IsAncestor(parents, parents[j], i)
      {
        assert Next(lists, i) == j;
        if lists[i] != [] {
          TreeListsSlot(parents, i, 0);
        } else {
          AfterHangsFromAncestor(parents, i);
        }
      }
    }
  }
}
