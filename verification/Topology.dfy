/** SharedNodeTopology: child lists flattened into one list plus (start, count, parent, child index). */
module Topologies {
  import opened Wrappers
  import opened Forests

  datatype ChildrenInfo = ChildrenInfo(startIndex: nat, numChildren: nat)

  const NO_CHILDREN := ChildrenInfo(UINT64_MAX, 0)

  /** The entry says where the children of a node lie in the flat list. */
  ghost predicate Locates(info: ChildrenInfo, flat: seq<nat>, children: seq<nat>) {
    && info.numChildren == |children|
    && (children != [] ==>
          info.startIndex + info.numChildren <= |flat| &&
          flat[info.startIndex..info.startIndex + info.numChildren] == children)
  }

  ghost predicate AllLocated(infos: seq<ChildrenInfo>, flat: seq<nat>, lists: ChildLists) {
    |infos| == |lists| && forall p {:trigger infos[p]} :: 0 <= p < |lists| ==> Locates(infos[p], flat, lists[p])
  }

  /** parent and childIndex invert the child lists, and mark the nodes that are nobody's child. */
  ghost predicate Inverts(parent: seq<nat>, childIndex: seq<nat>, lists: ChildLists) {
    && |parent| == |childIndex| == |lists|
    && (forall p, k {:trigger lists[p][k]} :: IsSlot(lists, p, k) ==>
          lists[p][k] < |lists| && parent[lists[p][k]] == p && childIndex[lists[p][k]] == k)
    && forall c :: 0 <= c < |lists| && !IsChild(lists, c) ==> parent[c] == UINT64_MAX && childIndex[c] == UINT64_MAX
  }

  /** What AddChildren asserts of the children it is given: distinct nodes that have no parent yet. */
  ghost predicate Adoptable(lists: ChildLists, children: seq<nat>) {
    && (forall k :: 0 <= k < |children| ==> children[k] < |lists| && !IsChild(lists, children[k]))
    && forall k, l :: 0 <= k < l < |children| ==> children[k] != children[l]
  }

  class SharedNodeTopology {
    var childrenList: seq<nat>
    var nodeChildren: seq<ChildrenInfo>
    var nodeParent: seq<nat>
    var nodeChildIndex: seq<nat>
    var sharedChildrenIndices: seq<nat>
    var nodeSharedChildren: seq<ChildrenInfo>
    ghost var lists: ChildLists  // the child lists that were added
    ghost var shared: ChildLists // the shared child lists that were added

    ghost predicate Valid()
      reads this
    {
      && |lists| < UINT64_MAX
      && AllLocated(nodeChildren, childrenList, lists)
      && Inverts(nodeParent, nodeChildIndex, lists)
      && |shared| == |lists| && AllLocated(nodeSharedChildren, sharedChildrenIndices, shared)
    }

    constructor ()
      ensures Valid() && lists == [] && shared == []
    {
      childrenList, nodeChildren, nodeParent, nodeChildIndex := [], [], [], [];
      sharedChildrenIndices, nodeSharedChildren := [], [];
      lists, shared := [], [];
    }

    function GetNumNodes(): (n: nat)
      requires Valid()
      reads this
      ensures n == |lists|
    {
      |nodeChildren|
    }

    function GetNumChildren(node: nat): (n: nat)
      requires Valid() && node < |lists|
      reads this
      ensures n == |lists[node]|
    {
      nodeChildren[node].numChildren
    }

    function GetChildNodeIndex(node: nat, child: nat): (c: nat)
      requires Valid() && IsSlot(lists, node, child)
      reads this
      ensures c == lists[node][child]
    {
      assert Locates(nodeChildren[node], childrenList, lists[node]);
      var info := nodeChildren[node];
      assert lists[node][child] == childrenList[info.startIndex..info.startIndex + info.numChildren][child];
      childrenList[info.startIndex + child]
    }

    function GetParentNodeIndex(node: nat): (p: nat)
      requires Valid() && node < |lists|
      reads this
      ensures if IsChild(lists, node) then IsSlot(lists, p, GetChildIndex(node))
        && lists[p][GetChildIndex(node)] == node
              else p == UINT64_MAX
      ensures forall q, k :: IsSlot(lists, q, k) && lists[q][k] == node ==> p == q
    {
      nodeParent[node]
    }

    function GetChildIndex(node: nat): (k: nat)
      requires Valid() && node < |lists|
      reads this
      ensures !IsChild(lists, node) ==> k == UINT64_MAX
      ensures forall q, l :: IsSlot(lists, q, l) && lists[q][l] == node ==> k == l
    {
      nodeChildIndex[node]
    }

    function GetNumSharedChildren(node: nat): (n: nat)
      requires Valid() && node < |lists|
      reads this
      ensures n == |shared[node]|
    {
      nodeSharedChildren[node].numChildren
    }

    function GetSharedChildNodeIndex(node: nat, child: nat): (c: nat)
      requires Valid() && IsSlot(shared, node, child)
      reads this
      ensures c == shared[node][child]
    {
      assert Locates(nodeSharedChildren[node], sharedChildrenIndices, shared[node]);
      var info := nodeSharedChildren[node];
      assert shared[node][child] == sharedChildrenIndices[info.startIndex..info.startIndex + info.numChildren][child];
      sharedChildrenIndices[info.startIndex + child]
    }

    method GetNextNodeIndex(node: nat) returns (next: nat)
      requires Valid() && IsForest(lists) && node < |lists| && Rooted(lists, node)
      ensures next == Next(lists, node)
    {
      var numChildren := GetNumChildren(node);
      if numChildren > 0 {
        return GetChildNodeIndex(node, 0);
      }
      var cur: nat := node;
      while true
        invariant cur < |lists| && Rooted(lists, cur)
        invariant AfterSubtree(lists, cur) == AfterSubtree(lists, node)
        decreases cur
      {
        if cur == ROOT {
          return UINT64_MAX;
        }
        assert IsChild(lists, cur) && Rooted(lists, SlotOf(lists, cur).0);
        var parent := GetParentNodeIndex(cur);
        var sibling := GetChildIndex(cur) + 1;
        AfterSubtreeAt(lists, parent, sibling - 1);
        if sibling < GetNumChildren(parent) {
          return GetChildNodeIndex(parent, sibling);
        }
        cur := parent;
      }
    }

    method SetNumNodes(n: nat)
      requires Valid() && lists == [] && n < UINT64_MAX
      modifies this
      ensures Valid() && lists == shared == seq(n, _ => [])
    {
      nodeChildren := seq(n, _ => NO_CHILDREN);
      nodeSharedChildren := seq(n, _ => NO_CHILDREN);
      nodeParent := seq(n, _ => UINT64_MAX);
      nodeChildIndex := seq(n, _ => UINT64_MAX);
      lists := seq(n, _ => []);
      shared := seq(n, _ => []);
    }

    lemma SizesAgree()
      requires Valid()
      ensures |nodeChildren| == |nodeParent| == |nodeChildIndex| == |lists|
    {
    }

    method AddChildren(node: nat, children: seq<nat>)
      requires Valid() && node < |lists| && lists[node] == [] && Adoptable(lists, children)
      modifies this`childrenList, this`nodeChildren, this`nodeParent, this`nodeChildIndex, this`lists
      ensures Valid() && lists == old(lists)[node := children]
    {
      hide AllLocated, Locates, Inverts, IsChild;
      SizesAgree();
      var prevSize := |childrenList|;
      childrenList := childrenList + children;
      nodeChildren := nodeChildren[node := ChildrenInfo(prevSize, |children|)];
      LocatedAfter(old(nodeChildren), old(childrenList), lists, node, children);
      for i := 0 to |children|
        invariant lists == old(lists) && |nodeParent| == |nodeChildIndex| == |lists|
        invariant childrenList == old(childrenList) + children
        invariant nodeChildren == old(nodeChildren)[node := ChildrenInfo(prevSize, |children|)]
        invariant forall k :: 0 <= k < i ==> nodeParent[children[k]] == node && nodeChildIndex[children[k]] == k
        invariant forall c :: 0 <= c < |lists| && c !in children[..i] ==>
          nodeParent[c] == old(nodeParent)[c] && nodeChildIndex[c] == old(nodeChildIndex)[c]
      {
        var child := children[i];
        assert children[..i + 1] == children[..i] + [child];
        assert child !in children[..i] && !IsChild(lists, child);
        NoParent(old(nodeParent), old(nodeChildIndex), lists, child);
        assert nodeParent[child] == UINT64_MAX && nodeChildIndex[child] == UINT64_MAX;
        nodeParent := nodeParent[child := node];
        nodeChildIndex := nodeChildIndex[child := i];
      }
      assert children[..|children|] == children;
      InvertsAfter(old(nodeParent), old(nodeChildIndex), nodeParent, nodeChildIndex, lists, node, children);
      lists := lists[node := children];
    }

    method AddSharedChildren(node: nat, children: seq<nat>)
      requires Valid() && node < |lists| && shared[node] == []
      modifies this`sharedChildrenIndices, this`nodeSharedChildren, this`shared
      ensures Valid() && shared == old(shared)[node := children]
    {
      var prevSize := |sharedChildrenIndices|;
      sharedChildrenIndices := sharedChildrenIndices + children;
      nodeSharedChildren := nodeSharedChildren[node := ChildrenInfo(prevSize, |children|)];
      LocatedAfter(old(nodeSharedChildren), old(sharedChildrenIndices), shared, node, children);
      shared := shared[node := children];
    }
  }

  lemma NoParent(parent: seq<nat>, index: seq<nat>, lists: ChildLists, c: nat)
    requires Inverts(parent, index, lists) && c < |lists| && !IsChild(lists, c)
    ensures parent[c] == UINT64_MAX && index[c] == UINT64_MAX
  {
  }

  lemma LocatedAfter(infos: seq<ChildrenInfo>, flat: seq<nat>, lists: ChildLists, node: nat, children: seq<nat>)
    requires AllLocated(infos, flat, lists) && node < |lists|
    ensures AllLocated(infos[node := ChildrenInfo(|flat|, |children|)], flat + children, lists[node := children])
  {
    var infos', flat', lists' := infos[node := ChildrenInfo(|flat|, |children|)], flat + children,
      lists[node := children];
    forall p | 0 <= p < |lists'|
      ensures Locates(infos'[p], flat', lists'[p])
    {
      if p == node {
        assert flat'[|flat|..|flat| + |children|] == children;
      } else {
        assert Locates(infos[p], flat, lists[p]);
        var from, to := infos[p].startIndex, infos[p].startIndex + infos[p].numChildren;
        assert lists[p] != [] ==> flat'[from..to] == flat[from..to];
      }
    }
  }

  lemma StillChild(lists: ChildLists, node: nat, children: seq<nat>, c: nat)
    requires node < |lists| && lists[node] == []
    ensures c in children || IsChild(lists, c) ==> IsChild(lists[node := children], c)
  {
    var lists' := lists[node := children];
    if c in children {
      var k :| 0 <= k < |children| && children[k] == c;
      assert IsSlot(lists', node, k) && lists'[node][k] == c;
    } else if IsChild(lists, c) {
      var (p, k) := SlotOf(lists, c);
      assert IsSlot(lists', p, k) && lists'[p][k] == c;
    }
  }

  lemma InvertsAfter(parent: seq<nat>, index: seq<nat>, parent': seq<nat>, index': seq<nat>, lists: ChildLists,
                     node: nat, children: seq<nat>)
    requires Inverts(parent, index, lists) && node < |lists| && lists[node] == [] && Adoptable(lists, children)
    requires |parent'| == |index'| == |lists|
    requires forall k :: 0 <= k < |children| ==> parent'[children[k]] == node && index'[children[k]] == k
    requires forall c :: 0 <= c < |lists| && c !in children ==> parent'[c] == parent[c] && index'[c] == index[c]
    ensures Inverts(parent', index', lists[node := children])
  {
    var lists' := lists[node := children];
    forall p, k | IsSlot(lists', p, k)
      ensures lists'[p][k] < |lists'| && parent'[lists'[p][k]] == p && index'[lists'[p][k]] == k
    {
      if p != node {
        assert lists'[p][k] == lists[p][k] && IsSlot(lists, p, k);
        assert IsChild(lists, lists[p][k]);
      }
    }
    forall c | 0 <= c < |lists'| && !IsChild(lists', c)
      ensures parent'[c] == UINT64_MAX && index'[c] == UINT64_MAX
    {
      StillChild(lists, node, children, c);
    }
  }

  /** The lists of nodes lo to hi - 1, and none of the others. */
  ghost function Partial(lists: ChildLists, lo: nat, hi: nat): (r: ChildLists)
    ensures |r| == |lists|
  {
    seq(|lists|, q requires 0 <= q < |lists| => if lo <= q < hi then lists[q] else [])
  }

  lemma AllAdded(lists: ChildLists)
    ensures Partial(lists, 0, |lists|) == lists
  {
  }

  /** The list of a node at either end comes next. */
  lemma PartialAdoptable(lists: ChildLists, lo: nat, hi: nat, n: nat)
    requires InRange(lists) && OneParent(lists) && n < |lists| && lo <= hi && (n == hi || n + 1 == lo)
    ensures Adoptable(Partial(lists, lo, hi), lists[n]) && Partial(lists, lo, hi)[n] == []
    ensures n == hi ==> Partial(lists, lo, hi)[n := lists[n]] == Partial(lists, lo, hi + 1)
    ensures n + 1 == lo ==> Partial(lists, lo, hi)[n := lists[n]] == Partial(lists, n, hi)
  {
    var before := Partial(lists, lo, hi);
    forall k | 0 <= k < |lists[n]|
      ensures lists[n][k] < |before| && !IsChild(before, lists[n][k])
    {
      forall p, l | IsSlot(before, p, l)
        ensures before[p][l] != lists[n][k]
      {
        assert before[p][l] == lists[p][l];
      }
    }
  }

  /** The loop of CreateTopologies: every lookup of the result reads the given lists. */
  method CreateTopology(children: ChildLists, shared: ChildLists) returns (t: SharedNodeTopology)
    requires IsForest(children) && |shared| == |children|
    ensures fresh(t) && t.Valid() && t.lists == children && t.shared == shared
  {
    t := new SharedNodeTopology();
    t.SetNumNodes(|children|);
    for i := 0 to |children|
      invariant fresh(t) && t.Valid() && t.lists == Partial(children, 0, i) && t.shared == Partial(shared, 0, i)
    {
      PartialAdoptable(children, 0, i, i);
      t.AddChildren(i, children[i]);
      assert Partial(shared, 0, i)[i := shared[i]] == Partial(shared, 0, i + 1);
      t.AddSharedChildren(i, shared[i]);
    }
  }
}
