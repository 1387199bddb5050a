/** What the GFXR command-hierarchy builder creates: one row for each node, with its parent. */
module GfxrRows {
  import opened Ancestry

  datatype Json =
    | Object(fields: seq<Field>)
    | Array(elements: seq<Json>)
    | Primitive(text: string) // as dumped

  datatype Field = Field(key: string, val: Json)

  datatype Command = Command(name: string, args: Json)

  datatype NodeType =
    | RootNode
    | Pm4Node
    | FrameNode
    | SubmitNode
    | BeginCommandBufferNode
    | EndCommandBufferNode
    | CommandNode
    | ArgNode
    | DrawNode
    | BeginRenderPassNode
    | EndRenderPassNode
    | BeginLabelNode
    | CopyBufferNode
    | ClearAttachmentsNode
    | ClearColorImageNode
    | ClearDepthStencilImageNode
    | ResolveImageNode

  /** The part of a description that tells arguments apart. */
  datatype Desc =
    | NoDesc
    | Name(name: string)
    | KeyOf(key: string)
    | KeyValue(key: string, text: string)
    | ElementOf(index: nat)
    | Text(text: string)

  datatype Node = Node(kind: NodeType, desc: Desc)

  /** UNATTACHED is the parent of a node that is nobody's child (yet). */
  datatype Row = Row(node: Node, parent: int)

  const UNATTACHED: int := -1

  // ---------- command names ----------

  predicate Contains(s: string, part: string) {
    part <= s || (s != [] && Contains(s[1..], part))
  }

  datatype CommandKind =
    | BeginBuffer | EndBuffer | BeginLabel | EndLabel | Draw | BeginPass | EndPass | Plain(kind: NodeType)

  /** The name tests, in the order the builder makes them. */
  function Classify(name: string): CommandKind {
    if name == "vkBeginCommandBuffer" then BeginBuffer
    else if name == "vkEndCommandBuffer" then EndBuffer
    else if Contains(name, "BeginDebugUtilsLabelEXT") then BeginLabel
    else if Contains(name, "EndDebugUtilsLabelEXT") then EndLabel
    else if Contains(name, "vkCmdDraw") || Contains(name, "vkCmdDispatch") then Draw
    else if Contains(name, "vkCmdBeginRenderPass") then BeginPass
    else if Contains(name, "vkCmdEndRenderPass") then EndPass
    else if Contains(name, "vkCmdCopyBuffer") then Plain(CopyBufferNode)
    else if Contains(name, "vkCmdClearAttachments") then Plain(ClearAttachmentsNode)
    else if Contains(name, "vkCmdClearColorImage") then Plain(ClearColorImageNode)
    else if Contains(name, "vkCmdClearDepthStencilImage") then Plain(ClearDepthStencilImageNode)
    else if Contains(name, "vkCmdResolveImage") then Plain(ResolveImageNode)
    else Plain(CommandNode)
  }

  // ---------- arguments ----------

  function ArgRow(desc: Desc, parent: nat): Row {
    Row(Node(ArgNode, desc), parent)
  }

  /** Rows that GetArgs adds under node cur, when next is the number of the next node. */
  function ArgRows(j: Json, cur: nat, next: nat): seq<Row>
    decreases j, 2, 0
  {
    match j
    case Object(fields) => ObjectRows(j, |fields|, cur, next)
    case Array(elements) => ArrayRows(j, |elements|, cur, next)
    case Primitive(_) => []
  }

  /** The first n fields of an object. */
  function ObjectRows(j: Json, n: nat, cur: nat, next: nat): seq<Row>
    requires j.Object? && n <= |j.fields|
    decreases j, 1, n
  {
    if n == 0 then []
    else
      var r := ObjectRows(j, n - 1, cur, next);
      var f := j.fields[n - 1];
      r + FieldRows(f.key, f.val, cur, next + |r|)
  }

  function FieldRows(key: string, val: Json, cur: nat, next: nat): seq<Row>
    decreases val, 3, 0
  {
    match val
    case Object(_) => [ArgRow(KeyOf(key), cur)] + ArgRows(val, next, next + 1)
    case Array(elements) => [ArgRow(KeyOf(key), cur)] + ElementRows(val, |elements|, next, next + 1)
    case Primitive(text) => [ArgRow(KeyValue(key, text), cur)]
  }

  /** The first n elements of an array that is the value of a field with node cur. */
  function ElementRows(j: Json, n: nat, cur: nat, next: nat): seq<Row>
    requires j.Array? && n <= |j.elements|
    decreases j, 1, n
  {
    if n == 0 then []
    else
      var r := ElementRows(j, n - 1, cur, next);
      var e := j.elements[n - 1];
      var at := next + |r|;
      r + match e
          case Object(_) => ArgRows(e, cur, at)
          case Array(_) => [ArgRow(ElementOf(n - 1), cur)] + ArgRows(e, at, at + 1)
          case Primitive(text) => [ArgRow(Text(text), cur)]
  }

  /** The first n elements of an array that is not the value of a field. */
  function ArrayRows(j: Json, n: nat, cur: nat, next: nat): seq<Row>
    requires j.Array? && n <= |j.elements|
    decreases j, 1, n
  {
    if n == 0 then []
    else
      var r := ArrayRows(j, n - 1, cur, next);
      var e := j.elements[n - 1];
      r + if e.Primitive? then [ArgRow(Text(e.text), cur)] else ArgRows(e, cur, next + |r|)
  }

  // ---------- an independent reading: labels and depths only ----------

  datatype Item = Item(desc: Desc, depth: nat)

  /** The items one level down. */
  function Deeper(items: seq<Item>): (r: seq<Item>)
    ensures |r| == |items| && forall k :: 0 <= k < |r| ==> r[k] == Item(items[k].desc, items[k].depth + 1)
  {
    seq(|items|, k requires 0 <= k < |items| => Item(items[k].desc, items[k].depth + 1))
  }

  /** The arguments of j as an indented list. */
  function Outline(j: Json): seq<Item>
    decreases j, 2, 0
  {
    match j
    case Object(fields) => ObjectOutline(j, |fields|)
    case Array(elements) => ArrayOutline(j, |elements|, false)
    case Primitive(_) => []
  }

  function ObjectOutline(j: Json, n: nat): seq<Item>
    requires j.Object? && n <= |j.fields|
    decreases j, 1, n
  {
    if n == 0 then [] else ObjectOutline(j, n - 1) + FieldOutline(j.fields[n - 1].key, j.fields[n - 1].val)
  }

  function FieldOutline(key: string, val: Json): seq<Item>
    decreases val, 3, 0
  {
    match val
    case Object(_) => [Item(KeyOf(key), 1)] + Deeper(Outline(val))
    case Array(elements) => [Item(KeyOf(key), 1)] + Deeper(ArrayOutline(val, |elements|, true))
    case Primitive(text) => [Item(KeyValue(key, text), 1)]
  }

  /** Inside the array of a field, a nested array gets a line of its own; elsewhere it does not. */
  function ArrayOutline(j: Json, n: nat, ofField: bool): seq<Item>
    requires j.Array? && n <= |j.elements|
    decreases j, 1, n
  {
    if n == 0 then []
    else
      var e := j.elements[n - 1];
      ArrayOutline(j, n - 1, ofField) +
      if e.Primitive? then [Item(Text(e.text), 1)]
      else if e.Array? && ofField then [Item(ElementOf(n - 1), 1)] + Deeper(Outline(e))
      else Outline(e)
  }

  // ---------- appending subtrees ----------

  function ParentsOf(rows: seq<Row>): (r: seq<int>)
    ensures |r| == |rows| && forall k :: 0 <= k < |r| ==> r[k] == rows[k].parent
  {
    seq(|rows|, k requires 0 <= k < |rows| => rows[k].parent)
  }

  ghost function Depth(parents: seq<int>, i: nat): nat
    requires IsTree(parents) && i < |parents|
  {
    if i == 0 then 0 else 1 + Depth(parents, parents[i])
  }

  lemma {:induction false} DepthOfPrefix(parents: seq<int>, all: seq<int>, i: nat)
    requires IsTree(parents) && IsTree(all) && parents <= all && i < |parents|
    ensures Depth(all, i) == Depth(parents, i)
  {
    if i > 0 {
      assert all[i] == parents[i];
      DepthOfPrefix(parents, all, parents[i]);
    }
  }

  /** The numbering is a preorder so far, and cur lies on the path from the root to the last node. */
  ghost predicate OnSpine(parents: seq<int>, cur: nat)
    requires IsTree(parents)
  {
    IsPreordered(parents) && IsAncestor(parents, cur, |parents| - 1)
  }

  /** all extends parents with nodes that hang from cur, directly or not, at the depths of the items
      below it. If cur was on the spine, it still is. */
  ghost predicate Grows(parents: seq<int>, all: seq<int>, cur: nat, items: seq<Item>)
    requires IsTree(parents) && cur < |parents|
  {
    && parents <= all && |all| == |parents| + |items|
    && IsTree(all)
    && (forall i {:trigger all[i]} :: |parents| <= i < |all| ==> cur <= all[i])
    && (forall i {:trigger Depth(all, i)} :: |parents| <= i < |all| ==>
          Depth(all, i) == Depth(all, cur) + items[i - |parents|].depth)
    && (OnSpine(parents, cur) ==> OnSpine(all, cur))
  }

  lemma GrowsTwice(parents: seq<int>, mid: seq<int>, all: seq<int>, cur: nat, items: seq<Item>, jtems: seq<Item>)
    requires IsTree(parents) && cur < |parents| && Grows(parents, mid, cur, items) && Grows(mid, all, cur, jtems)
    ensures Grows(parents, all, cur, items + jtems)
  {
    forall i | |parents| <= i < |all|
      ensures cur <= all[i]
    {
      assert i < |mid| ==> all[i] == mid[i];
    }
    forall i | |parents| <= i < |all|
      ensures Depth(all, i) == Depth(all, cur) + (items + jtems)[i - |parents|].depth
    {
      if i < |mid| {
        DepthOfPrefix(mid, all, i);
        DepthOfPrefix(mid, all, cur);
        assert Depth(mid, i) == Depth(mid, cur) + items[i - |parents|].depth;
      } else {
        assert (items + jtems)[i - |parents|] == jtems[i - |mid|];
      }
    }
  }

  /** A node hung from the spine keeps the numbering a preorder, and is the new end of the spine. */
  lemma SpineAfterNode(parents: seq<int>, all: seq<int>, cur: nat)
    requires IsTree(parents) && cur < |parents| && all == parents + [cur] && OnSpine(parents, cur)
    ensures IsTree(all) && IsPreordered(all)
    ensures forall a: nat :: IsAncestor(parents, a, cur) ==> IsAncestor(all, a, |parents|)
  {
    OneMore(parents, all, cur);
    forall i, j | 0 <= i < j < |all| && j == i + 1
      ensures IsAncestor(all, all[j], i)
    {
      if j < |parents| {
        assert parents[j] == all[j] && parents[i] == all[i];
        assert IsAncestor(parents, parents[j], i);
      }
      AncestorOfPrefix(parents, all, all[j], i);
    }
    forall a: nat | IsAncestor(parents, a, cur)
      ensures IsAncestor(all, a, |parents|)
    {
      AncestorOfPrefix(parents, all, a, cur);
    }
  }

  lemma OneMore(parents: seq<int>, all: seq<int>, cur: nat)
    requires IsTree(parents) && cur < |parents| && all == parents + [cur]
    ensures IsTree(all) && all[|parents|] == cur && Depth(all, |parents|) == 1 + Depth(all, cur)
  {
    assert all[|parents|] == cur;
    forall i | 0 < i < |all|
      ensures 0 <= all[i] < i
    {
      assert i < |parents| ==> all[i] == parents[i];
    }
  }

  lemma GrowsNode(parents: seq<int>, all: seq<int>, cur: nat, desc: Desc)
    requires IsTree(parents) && cur < |parents| && all == parents + [cur]
    ensures Grows(parents, all, cur, [Item(desc, 1)])
  {
    OneMore(parents, all, cur);
    if OnSpine(parents, cur) {
      assert IsAncestor(parents, cur, cur);
      SpineAfterNode(parents, all, cur);
    }
  }

  lemma GrowsUnder(parents: seq<int>, mid: seq<int>, all: seq<int>, cur: nat, desc: Desc, items: seq<Item>)
    requires IsTree(parents) && cur < |parents| && mid == parents + [cur] && IsTree(mid)
    requires Grows(mid, all, |parents|, items)
    ensures Grows(parents, all, cur, [Item(desc, 1)] + Deeper(items))
  {
    hide OnSpine, IsTree;
    OneMore(parents, mid, cur);
    var x, both := |parents|, [Item(desc, 1)] + Deeper(items);
    assert all[x] == mid[x] == cur;
    DepthBelow(all, x);
    forall i | x <= i < |all|
      ensures cur <= all[i]
    {
      assert i > x ==> x <= all[i];
    }
    forall i | x <= i < |all|
      ensures Depth(all, i) == Depth(all, cur) + both[i - x].depth
    {
      if i > x {
        assert Depth(all, i) == Depth(all, x) + items[i - |mid|].depth;
        assert both[i - x] == Deeper(items)[i - |mid|];
      }
    }
    if OnSpine(parents, cur) {
      SpineUnder(parents, mid, all, cur);
    }
  }

  lemma DepthBelow(all: seq<int>, x: nat)
    requires IsTree(all) && 0 < x < |all|
    ensures 0 <= all[x] < x && Depth(all, x) == 1 + Depth(all, all[x])
  {
  }

  lemma SpineUnder(parents: seq<int>, mid: seq<int>, all: seq<int>, cur: nat)
    requires IsTree(parents) && cur < |parents| && mid == parents + [cur] && mid <= all && IsTree(mid) && IsTree(all)
    requires OnSpine(parents, cur) && (OnSpine(mid, |parents|) ==> OnSpine(all, |parents|))
    ensures OnSpine(all, cur)
  {
    SpineAfterNode(parents, mid, cur);
    assert all[|parents|] == mid[|parents|];
    assert IsAncestor(all, cur, cur);
    AncestorTransitive(all, cur, |parents|, |all| - 1);
  }

  /** The rows read as the items, and hang from cur accordingly. */
  ghost predicate Hang(parents: seq<int>, rows: seq<Row>, cur: nat, items: seq<Item>)
    requires IsTree(parents) && cur < |parents|
  {
    && |rows| == |items|
    && (forall k :: 0 <= k < |rows| ==> rows[k].node == Node(ArgNode, items[k].desc))
    && Grows(parents, parents + ParentsOf(rows), cur, items)
  }

  lemma HangsTree(parents: seq<int>, rows: seq<Row>, cur: nat, items: seq<Item>)
    requires IsTree(parents) && cur < |parents| && Hang(parents, rows, cur, items)
    ensures IsTree(parents + ParentsOf(rows))
  {
  }

  lemma HangNothing(parents: seq<int>, cur: nat)
    requires IsTree(parents) && cur < |parents|
    ensures Hang(parents, [], cur, [])
  {
    assert parents + ParentsOf([]) == parents;
  }

  lemma HangConcat(parents: seq<int>, r: seq<Row>, s: seq<Row>, cur: nat, items: seq<Item>, jtems: seq<Item>)
    requires IsTree(parents) && cur < |parents| && Hang(parents, r, cur, items)
    requires IsTree(parents + ParentsOf(r)) && Hang(parents + ParentsOf(r), s, cur, jtems)
    ensures Hang(parents, r + s, cur, items + jtems)
  {
    hide Grows;
    var mid := parents + ParentsOf(r);
    assert parents + ParentsOf(r + s) == mid + ParentsOf(s);
    GrowsTwice(parents, mid, mid + ParentsOf(s), cur, items, jtems);
  }

  lemma HangNode(parents: seq<int>, desc: Desc, cur: nat)
    requires IsTree(parents) && cur < |parents|
    ensures Hang(parents, [ArgRow(desc, cur)], cur, [Item(desc, 1)])
  {
    hide Grows;
    assert ParentsOf([ArgRow(desc, cur)]) == [cur];
    GrowsNode(parents, parents + [cur], cur, desc);
  }

  lemma HangUnder(parents: seq<int>, desc: Desc, cur: nat, rows: seq<Row>, items: seq<Item>)
    requires IsTree(parents) && cur < |parents| && IsTree(parents + [cur])
    requires Hang(parents + [cur], rows, |parents|, items)
    ensures Hang(parents, [ArgRow(desc, cur)] + rows, cur, [Item(desc, 1)] + Deeper(items))
  {
    hide Grows;
    var mid := parents + [cur];
    assert parents + ParentsOf([ArgRow(desc, cur)] + rows) == mid + ParentsOf(rows);
    GrowsUnder(parents, mid, mid + ParentsOf(rows), cur, desc, items);
  }

  // ---------- GetArgs builds the outline ----------

  lemma {:induction false} ArgRowsHang(j: Json, parents: seq<int>, cur: nat)
    requires IsTree(parents) && cur < |parents|
    ensures Hang(parents, ArgRows(j, cur, |parents|), cur, Outline(j))
    decreases j, 2, 0
  {
    match j
    case Object(fields) => ObjectRowsHang(j, |fields|, parents, cur);
    case Array(elements) => ArrayRowsHang(j, |elements|, parents, cur);
    case Primitive(_) => HangNothing(parents, cur);
  }

  lemma {:induction false} ObjectRowsHang(j: Json, n: nat, parents: seq<int>, cur: nat)
    requires IsTree(parents) && cur < |parents| && j.Object? && n <= |j.fields|
    ensures Hang(parents, ObjectRows(j, n, cur, |parents|), cur, ObjectOutline(j, n))
    decreases j, 1, n
  {
    hide Hang;
    if n == 0 {
      HangNothing(parents, cur);
    } else {
      var r, f := ObjectRows(j, n - 1, cur, |parents|), j.fields[n - 1];
      ObjectRowsHang(j, n - 1, parents, cur);
      HangsTree(parents, r, cur, ObjectOutline(j, n - 1));
      FieldRowsHang(f.key, f.val, parents + ParentsOf(r), cur);
      HangConcat(parents, r, FieldRows(f.key, f.val, cur, |parents| + |r|), cur, ObjectOutline(j, n - 1),
        FieldOutline(f.key, f.val));
    }
  }

  lemma {:induction false} FieldRowsHang(key: string, val: Json, parents: seq<int>, cur: nat)
    requires IsTree(parents) && cur < |parents|
    ensures Hang(parents, FieldRows(key, val, cur, |parents|), cur, FieldOutline(key, val))
    decreases val, 3, 0
  {
    hide Hang;
    OneMore(parents, parents + [cur], cur);
    var x := |parents|;
    match val
    case Object(_) =>
      ArgRowsHang(val, parents + [cur], x);
      HangUnder(parents, KeyOf(key), cur, ArgRows(val, x, x + 1), Outline(val));
    case Array(elements) =>
      ElementRowsHang(val, |elements|, parents + [cur], x);
      HangUnder(parents, KeyOf(key), cur, ElementRows(val, |elements|, x, x + 1), ArrayOutline(val, |elements|, true));
    case Primitive(text) =>
      HangNode(parents, KeyValue(key, text), cur);
  }

  lemma {:induction false} ElementRowsHang(j: Json, n: nat, parents: seq<int>, cur: nat)
    requires IsTree(parents) && cur < |parents| && j.Array? && n <= |j.elements|
    ensures Hang(parents, ElementRows(j, n, cur, |parents|), cur, ArrayOutline(j, n, true))
    decreases j, 1, n
  {
    hide Hang;
    if n == 0 {
      HangNothing(parents, cur);
    } else {
      var r, items, e := ElementRows(j, n - 1, cur, |parents|), ArrayOutline(j, n - 1, true), j.elements[n - 1];
      ElementRowsHang(j, n - 1, parents, cur);
      HangsTree(parents, r, cur, items);
      var mid := parents + ParentsOf(r);
      var at := |mid|;
      OneMore(mid, mid + [cur], cur);
      match e {
        case Object(_) =>
          ArgRowsHang(e, mid, cur);
          HangConcat(parents, r, ArgRows(e, cur, at), cur, items, Outline(e));
        case Array(_) =>
          ArgRowsHang(e, mid + [cur], at);
          HangUnder(mid, ElementOf(n - 1), cur, ArgRows(e, at, at + 1), Outline(e));
          HangConcat(parents, r, [ArgRow(ElementOf(n - 1), cur)] + ArgRows(e, at, at + 1), cur, items,
            [Item(ElementOf(n - 1), 1)] + Deeper(Outline(e)));
        case Primitive(text) =>
          HangNode(mid, Text(text), cur);
          HangConcat(parents, r, [ArgRow(Text(text), cur)], cur, items, [Item(Text(text), 1)]);
      }
    }
  }

  lemma {:induction false} ArrayRowsHang(j: Json, n: nat, parents: seq<int>, cur: nat)
    requires IsTree(parents) && cur < |parents| && j.Array? && n <= |j.elements|
    ensures Hang(parents, ArrayRows(j, n, cur, |parents|), cur, ArrayOutline(j, n, false))
    decreases j, 1, n
  {
    hide Hang;
    if n == 0 {
      HangNothing(parents, cur);
    } else {
      var r, items, e := ArrayRows(j, n - 1, cur, |parents|), ArrayOutline(j, n - 1, false), j.elements[n - 1];
      ArrayRowsHang(j, n - 1, parents, cur);
      HangsTree(parents, r, cur, items);
      var mid := parents + ParentsOf(r);
      if e.Primitive? {
        HangNode(mid, Text(e.text), cur);
        HangConcat(parents, r, [ArgRow(Text(e.text), cur)], cur, items, [Item(Text(e.text), 1)]);
      } else {
        ArgRowsHang(e, mid, cur);
        HangConcat(parents, r, ArgRows(e, cur, |mid|), cur, items, Outline(e));
      }
    }
  }
}
