/** GfxrVulkanCommandHierarchyCreator: the bracket stack, the argument expansion and the two ways of
    recording child lists (alone, or appended to the nodes of a PM4 capture). */
module GfxrHierarchy {
  import opened Forests
  import opened Ancestry
  import opened GfxrRows

  datatype Submit = Submit(noneCommands: seq<Command>, handles: seq<nat>)

  datatype Capture = Capture(submits: seq<Submit>, buffers: map<nat, seq<Command>>)

  /** Every handle names a recorded command buffer. */
  ghost predicate Complete(c: Capture) {
    forall i, k :: 0 <= i < |c.submits| && 0 <= k < |c.submits[i].handles| ==> c.submits[i].handles[k] in c.buffers
  }

  // ---------- what the builder computes ----------

  /** The rows so far, the current submit and command-buffer nodes, and the open labels and passes. */
  datatype Progress = Progress(rows: seq<Row>, submit: nat, buffer: nat, stack: seq<nat>)

  function Top(p: Progress): nat {
    if p.stack == [] then p.buffer else p.stack[|p.stack| - 1]
  }

  function Popped(p: Progress): Progress {
    if p.stack == [] then p else p.(stack := p.stack[..|p.stack| - 1])
  }

  /** The rows after a node under parent and the nodes of its arguments. */
  function WithNode(p: Progress, node: Node, parent: nat, args: Json): seq<Row> {
    p.rows + [Row(node, parent)] + ArgRows(args, |p.rows|, |p.rows| + 1)
  }

  function AfterCommand(p: Progress, c: Command): Progress {
    var n := |p.rows|;
    match Classify(c.name)
    case BeginBuffer => p.(rows := WithNode(p, Node(BeginCommandBufferNode, Name(c.name)), p.submit, c.args),
      buffer := n)
    case EndBuffer => p.(rows := WithNode(p, Node(EndCommandBufferNode, Name(c.name)), p.buffer, c.args))
    case BeginLabel =>
      p.(rows := WithNode(p, Node(BeginLabelNode, NoDesc), Top(p), c.args), stack := p.stack + [n])
    case EndLabel =>
      if p.stack != [] && Top(p) < n && p.rows[Top(p)].node.kind == BeginLabelNode then Popped(p) else p
    case Draw => p.(rows := WithNode(p, Node(DrawNode, Name(c.name)), Top(p), c.args))
    case BeginPass =>
      p.(rows := WithNode(p, Node(BeginRenderPassNode, Name(c.name)), Top(p), c.args), stack := p.stack + [n])
    case EndPass => Popped(p.(rows := WithNode(p, Node(EndRenderPassNode, Name(c.name)), Top(p), c.args)))
    case Plain(kind) => p.(rows := WithNode(p, Node(kind, Name(c.name)), Top(p), c.args))
  }

  /** After the first n commands of a list. */
  function RunCommands(p: Progress, cs: seq<Command>, n: nat): Progress
    requires n <= |cs|
  {
    if n == 0 then p else AfterCommand(RunCommands(p, cs, n - 1), cs[n - 1])
  }

  /** A whole list: unclosed labels and passes are dropped at its end. */
  function RunList(p: Progress, cs: seq<Command>): Progress {
    RunCommands(p, cs, |cs|).(stack := [])
  }

  function RunHandles(p: Progress, c: Capture, s: Submit, n: nat): Progress
    requires n <= |s.handles| && forall k :: 0 <= k < |s.handles| ==> s.handles[k] in c.buffers
  {
    if n == 0 then p else RunList(RunHandles(p, c, s, n - 1), c.buffers[s.handles[n - 1]])
  }

  function StartSubmit(p: Progress): Progress {
    p.(rows := p.rows + [Row(Node(SubmitNode, NoDesc), ROOT)], submit := |p.rows|)
  }

  function RunSubmits(p: Progress, c: Capture, n: nat): Progress
    requires n <= |c.submits| && Complete(c)
  {
    if n == 0 then p
    else
      var s := c.submits[n - 1];
      RunHandles(RunList(StartSubmit(RunSubmits(p, c, n - 1)), s.noneCommands), c, s, |s.handles|)
  }

  function RunCapture(p: Progress, c: Capture): Progress
    requires Complete(c)
  {
    RunSubmits(p.(rows := p.rows + [Row(Node(FrameNode, NoDesc), ROOT)]), c, |c.submits|)
  }

  // ---------- where a child is recorded ----------

  /** Nodes are numbered from first on; used beside PM4 nodes, the builder's lists are numbered from 0. */
  function Slot(mixed: bool, first: nat, parent: int): int {
    if mixed && parent >= first then parent - first else parent
  }

  function SlotsOf(rows: seq<Row>, mixed: bool, first: nat): (r: seq<int>)
    ensures |r| == |rows| && forall i :: 0 <= i < |r| ==> r[i] == Slot(mixed, first, rows[i].parent)
  {
    seq(|rows|, i requires 0 <= i < |rows| => Slot(mixed, first, rows[i].parent))
  }

  lemma {:induction false} KidsPrefix(slots: seq<int>, more: seq<int>, n: nat, q: nat)
    requires n <= |slots| && n <= |more| && forall i :: 0 < i < n ==> (slots[i] == q <==> more[i] == q)
    ensures Kids(slots, n, q) == Kids(more, n, q)
  {
    if n > 1 {
      KidsPrefix(slots, more, n - 1, q);
    }
  }

  /** Attaching node c, when no later node is in the same list yet, appends c to that list alone. */
  lemma {:induction false} KidsAttach(slots: seq<int>, c: nat, slot: int, n: nat, q: nat)
    requires 0 < c < n <= |slots| && slots[c] == UNATTACHED && slot >= 0
    requires forall i :: c < i < |slots| ==> slots[i] != slot
    ensures Kids(slots[c := slot], n, q) == if q == slot then Kids(slots, n, q) + [c] else Kids(slots, n, q)
  {
    if c == n - 1 {
      KidsPrefix(slots[c := slot], slots, n - 1, q);
    } else {
      KidsAttach(slots, c, slot, n - 1, q);
    }
  }

  lemma {:induction false} KidsOfNobody(slots: seq<int>, n: nat, q: nat)
    requires n <= |slots| && forall i :: 0 <= i < |slots| ==> slots[i] < q
    ensures Kids(slots, n, q) == []
  {
    if n > 1 {
      KidsOfNobody(slots, n - 1, q);
    }
  }

  /** The child lists hold, for each slot, the nodes attached there in increasing order. */
  ghost predicate Records(lists: ChildLists, rows: seq<Row>, mixed: bool, first: nat) {
    && 0 < first <= |rows|
    && |lists| == (if mixed then |rows| - first else |rows|)
    && (forall i :: 0 <= i < |rows| ==> UNATTACHED <= SlotsOf(rows, mixed, first)[i] < |lists|)
    && (forall i :: 0 <= i < first ==> rows[i].parent == UNATTACHED)
    && forall q :: 0 <= q < |lists| ==> lists[q] == Kids(SlotsOf(rows, mixed, first), |rows|, q)
  }

  lemma RecordsNode(lists: ChildLists, rows: seq<Row>, mixed: bool, first: nat, node: Node)
    requires Records(lists, rows, mixed, first)
    ensures Records(lists + [[]], rows + [Row(node, UNATTACHED)], mixed, first)
  {
    var rows' := rows + [Row(node, UNATTACHED)];
    var slots, slots' := SlotsOf(rows, mixed, first), SlotsOf(rows', mixed, first);
    var lists' := lists + [[]];
    forall q | 0 <= q < |lists'|
      ensures lists'[q] == Kids(slots', |rows'|, q)
    {
      KidsPrefix(slots, slots', |rows|, q);
      if q == |lists| {
        KidsOfNobody(slots, |rows|, q);
      }
    }
  }

  lemma RecordsChild(lists: ChildLists, rows: seq<Row>, mixed: bool, first: nat, parent: nat, c: nat)
    requires Records(lists, rows, mixed, first)
    requires first <= c < |rows| && rows[c].parent == UNATTACHED
    requires 0 <= Slot(mixed, first, parent) < |lists|
    requires forall i :: c < i < |rows| ==> Slot(mixed, first, rows[i].parent) != Slot(mixed, first, parent)
    ensures var q := Slot(mixed, first, parent);
      Records(lists[q := lists[q] + [c]], rows[c := rows[c].(parent := parent)], mixed, first)
  {
    var slots, slot := SlotsOf(rows, mixed, first), Slot(mixed, first, parent);
    var rows' := rows[c := rows[c].(parent := parent)];
    assert SlotsOf(rows', mixed, first) == slots[c := slot];
    var lists' := lists[slot := lists[slot] + [c]];
    forall q | 0 <= q < |lists'|
      ensures lists'[q] == Kids(slots[c := slot], |rows|, q)
    {
      KidsAttach(slots, c, slot, |rows|, q);
    }
  }

  /** Argument rows hang from their node or from later ones. */
  lemma ArgRowsBounds(j: Json, cur: nat, next: nat)
    requires cur < next
    ensures forall k :: 0 <= k < |ArgRows(j, cur, next)| ==> cur <= ArgRows(j, cur, next)[k].parent < next + k
  {
    var flat: seq<int> := seq(next, _ => 0);
    ArgRowsHang(j, flat, cur);
    var rows := ArgRows(j, cur, next);
    var all := flat + ParentsOf(rows);
    forall k | 0 <= k < |rows|
      ensures cur <= rows[k].parent < next + k
    {
      assert all[next + k] == rows[k].parent;
    }
  }

  class GfxrCreator {
    var nodes: seq<Node>        // all nodes, those of a PM4 capture first
    var lists: ChildLists       // children recorded so far
    var curSubmit: nat
    var curBuffer: nat
    var stack: seq<nat>         // open labels and render passes
    const mixed: bool
    var toLocal: map<nat, nat>  // only filled in mixed use
    ghost const first: nat      // number of nodes that existed before
    ghost var rows: seq<Row>

    ghost predicate Valid()
      reads this
    {
      && |nodes| == |rows| && (forall i :: 0 <= i < |rows| ==> rows[i].node == nodes[i])
      && Records(lists, rows, mixed, first)
      && (forall i :: i in toLocal <==> mixed && first <= i < |rows|)
      && (forall i :: i in toLocal ==> toLocal[i] == i - first)
    }

    ghost function View(): Progress
      reads this
    {
      Progress(rows, curSubmit, curBuffer, stack)
    }

    /** Alone: the root node is this builder's own. */
    constructor Alone()
      ensures Valid() && !mixed && first == 1
      ensures View() == Progress([Row(Node(RootNode, NoDesc), UNATTACHED)], 0, 0, [])
    {
      nodes, lists := [Node(RootNode, NoDesc)], [[]];
      curSubmit, curBuffer, stack := 0, 0, [];
      mixed, toLocal, first := false, map[], 1;
      rows := [Row(Node(RootNode, NoDesc), UNATTACHED)];
    }

    /** Beside a PM4 capture whose nodes, root included, were created before. */
    constructor Beside(pm4: seq<Node>)
      requires pm4 != []
      ensures Valid() && mixed && first == |pm4|
      ensures View() == Progress(seq(|pm4|, i requires 0 <= i < |pm4| => Row(pm4[i], UNATTACHED)), 0, 0, [])
    {
      nodes, lists := pm4, [];
      curSubmit, curBuffer, stack := 0, 0, [];
      mixed, toLocal, first := true, map[], |pm4|;
      rows := seq(|pm4|, i requires 0 <= i < |pm4| => Row(pm4[i], UNATTACHED));
    }

    method AddNode(kind: NodeType, desc: Desc) returns (index: nat)
      requires Valid()
      modifies this`nodes, this`lists, this`toLocal, this`rows
      ensures Valid() && index == old(|rows|)
      ensures rows == old(rows) + [Row(Node(kind, desc), UNATTACHED)]
    {
      RecordsNode(lists, rows, mixed, first, Node(kind, desc));
      index := |nodes|;
      nodes := nodes + [Node(kind, desc)];
      if mixed {
        var local := |lists|;
        toLocal := toLocal[index := local];
      }
      lists := lists + [[]];
      rows := rows + [Row(Node(kind, desc), UNATTACHED)];
    }

    /** A parent is the root or one of this builder's nodes. */
    ghost predicate MayBeParent(p: nat)
      reads this
    {
      p == ROOT || first <= p < |rows|
    }

    method AddChild(parent: nat, c: nat)
      requires Valid() && MayBeParent(parent) && first <= c < |rows| && rows[c].parent == UNATTACHED
      requires forall i :: c < i < |rows| ==> Slot(mixed, first, rows[i].parent) != Slot(mixed, first, parent)
      modifies this`lists, this`rows
      ensures Valid() && rows == old(rows)[c := old(rows)[c].(parent := parent)]
    {
      RecordsChild(lists, rows, mixed, first, parent, c);
      var slot := parent;
      if mixed {
        if parent in toLocal {
          slot := toLocal[parent];
        }
      }
      lists := lists[slot := lists[slot] + [c]];
      rows := rows[c := rows[c].(parent := parent)];
    }

    /** A new node under cur, attached at once. */
    method AddArgNode(desc: Desc, cur: nat) returns (index: nat)
      requires Valid() && first <= cur < |rows|
      modifies this`nodes, this`lists, this`toLocal, this`rows
      ensures Valid() && index == old(|rows|) && rows == old(rows) + [ArgRow(desc, cur)]
    {
      index := AddNode(ArgNode, desc);
      AddChild(cur, index);
    }

    method GetArgs(args: Json, cur: nat)
      requires Valid() && first <= cur < |rows|
      modifies this`nodes, this`lists, this`toLocal, this`rows
      ensures Valid() && rows == old(rows) + ArgRows(args, cur, |old(rows)|)
      decreases args, 1
    {
      if args.Object? {
        GetFields(args, cur);
      } else if args.Array? {
        ghost var before := rows;
        for i := 0 to |args.elements|
          invariant Valid() && rows == before + ArrayRows(args, i, cur, |before|)
        {
          var e := args.elements[i];
          if e.Object? || e.Array? {
            GetArgs(e, cur);
          } else {
            var _ := AddArgNode(Text(e.text), cur);
          }
        }
      }
    }

    method GetFields(args: Json, cur: nat)
      requires Valid() && first <= cur < |rows| && args.Object?
      modifies this`nodes, this`lists, this`toLocal, this`rows
      ensures Valid() && rows == old(rows) + ObjectRows(args, |args.fields|, cur, |old(rows)|)
      decreases args, 0
    {
      hide Records, ArgRows, ElementRows;
      ghost var before := rows;
      for i := 0 to |args.fields|
        invariant Valid() && rows == before + ObjectRows(args, i, cur, |before|)
      {
        var f := args.fields[i];
        if f.val.Object? {
          var index := AddArgNode(KeyOf(f.key), cur);
          GetArgs(f.val, index);
        } else if f.val.Array? {
          var index := AddArgNode(KeyOf(f.key), cur);
          GetElements(f.val, index);
        } else {
          var _ := AddArgNode(KeyValue(f.key, f.val.text), cur);
        }
      }
    }

    /** The elements of an array that is the value of a field. */
    method GetElements(val: Json, cur: nat)
      requires Valid() && first <= cur < |rows| && val.Array?
      modifies this`nodes, this`lists, this`toLocal, this`rows
      ensures Valid() && rows == old(rows) + ElementRows(val, |val.elements|, cur, |old(rows)|)
      decreases val, 0
    {
      ghost var before := rows;
      for i := 0 to |val.elements|
        invariant Valid() && rows == before + ElementRows(val, i, cur, |before|)
      {
        var e := val.elements[i];
        if e.Object? {
          GetArgs(e, cur);
        } else if e.Array? {
          var index := AddArgNode(ElementOf(i), cur);
          GetArgs(e, index);
        } else {
          var _ := AddArgNode(Text(e.text), cur);
        }
      }
    }

    /** Creates a node with its arguments, and attaches it afterwards. */
    method AddCommandNode(kind: NodeType, desc: Desc, parent: nat, args: Json) returns (index: nat)
      requires Valid() && MayBeParent(parent) && first < |rows|
      modifies this`nodes, this`lists, this`toLocal, this`rows
      ensures Valid() && index == old(|rows|) < |rows|
      ensures rows == old(WithNode(View(), Node(kind, desc), parent, args))
    {
      index := AddNode(kind, desc);
      GetArgs(args, index);
      ArgRowsBounds(args, index, index + 1);
      ghost var before, n := old(rows), index;
      assert forall i :: n < i < |rows| ==> rows[i] == ArgRows(args, n, n + 1)[i - (n + 1)];
      AddChild(parent, index);
      assert rows == before + [Row(Node(kind, desc), parent)] + ArgRows(args, n, n + 1);
    }

    /** Where a command goes: the innermost open label or pass, or else the command buffer. */
    method ConditionalParent() returns (parent: nat)
      ensures parent == Top(View())
    {
      if stack == [] {
        parent := curBuffer;
      } else {
        parent := stack[|stack| - 1];
      }
    }

    /** Current nodes and open brackets are nodes of this builder (or the root, before there are any). */
    ghost predicate Ready()
      reads this
    {
      && Valid() && first < |rows|
      && MayBeParent(curSubmit) && MayBeParent(curBuffer)
      && forall i :: 0 <= i < |stack| ==> first <= stack[i] < |rows|
    }

    /** A command under the innermost open label or pass, or else under the command buffer. */
    method AddConditionally(kind: NodeType, desc: Desc, args: Json) returns (index: nat)
      requires Ready()
      modifies this`nodes, this`lists, this`toLocal, this`rows
      ensures Ready() && index == old(|rows|) < |rows|
      ensures rows == old(WithNode(View(), Node(kind, desc), Top(View()), args))
    {
      hide Records, ArgRows;
      var parent := ConditionalParent();
      index := AddCommandNode(kind, desc, parent, args);
    }

    method OnCommand(c: Command)
      requires Ready()
      modifies this
      ensures Ready() && View() == AfterCommand(old(View()), c)
    {
      hide Records, ArgRows, Classify, WithNode;
      match Classify(c.name)
      case BeginBuffer =>
        var index := AddCommandNode(BeginCommandBufferNode, Name(c.name), curSubmit, c.args);
        curBuffer := index;
      case EndBuffer =>
        var _ := AddCommandNode(EndCommandBufferNode, Name(c.name), curBuffer, c.args);
      case BeginLabel =>
        var index := AddConditionally(BeginLabelNode, NoDesc, c.args);
        stack := stack + [index];
      case EndLabel =>
        if stack != [] && nodes[stack[|stack| - 1]].kind == BeginLabelNode {
          stack := stack[..|stack| - 1];
        }
      case Draw =>
        var _ := AddConditionally(DrawNode, Name(c.name), c.args);
      case BeginPass =>
        var index := AddConditionally(BeginRenderPassNode, Name(c.name), c.args);
        stack := stack + [index];
      case EndPass =>
        var _ := AddConditionally(EndRenderPassNode, Name(c.name), c.args);
        if stack != [] {
          stack := stack[..|stack| - 1];
        }
      case Plain(kind) =>
        var _ := AddConditionally(kind, Name(c.name), c.args);
    }

    method ProcessVkCmds(cs: seq<Command>)
      requires Ready()
      modifies this
      ensures Ready() && View() == RunList(old(View()), cs)
    {
      ghost var before := View();
      for i := 0 to |cs|
        invariant Ready() && View() == RunCommands(before, cs, i)
      {
        OnCommand(cs[i]);
      }
      while stack != []
        invariant Ready() && View().(stack := []) == RunList(before, cs)
        decreases |stack|
      {
        stack := stack[..|stack| - 1];
      }
    }

    method AddRootChild(kind: NodeType) returns (index: nat)
      requires Valid()
      modifies this`nodes, this`lists, this`toLocal, this`rows
      ensures Valid() && index == old(|rows|) && rows == old(rows) + [Row(Node(kind, NoDesc), ROOT)]
    {
      index := AddNode(kind, NoDesc);
      AddChild(ROOT, index);
    }

    method OnGfxrSubmit()
      requires Ready()
      modifies this
      ensures Ready() && View() == StartSubmit(old(View()))
    {
      hide Records;
      var index := AddRootChild(SubmitNode);
      curSubmit := index;
    }

    method OneSubmit(c: Capture, s: Submit)
      requires Ready() && forall k :: 0 <= k < |s.handles| ==> s.handles[k] in c.buffers
      modifies this
      ensures Ready() && View() == RunHandles(RunList(StartSubmit(old(View())), s.noneCommands), c, s, |s.handles|)
    {
      hide Records, RunList, StartSubmit;
      OnGfxrSubmit();
      ProcessVkCmds(s.noneCommands);
      ghost var ready := View();
      for k := 0 to |s.handles|
        invariant Ready() && View() == RunHandles(ready, c, s, k)
      {
        ProcessVkCmds(c.buffers[s.handles[k]]);
      }
    }

    method ProcessGfxrSubmits(c: Capture)
      requires Valid() && Complete(c) && curSubmit == curBuffer == 0 && stack == []
      modifies this
      ensures Ready() && View() == RunCapture(old(View()), c)
    {
      assert first <= |rows|;
      hide Records, RunList, StartSubmit, RunHandles;
      var _ := AddRootChild(FrameNode);
      ghost var before := View();
      for i := 0 to |c.submits|
        invariant Ready() && View() == RunSubmits(before, c, i)
      {
        OneSubmit(c, c.submits[i]);
      }
    }
  }
}
