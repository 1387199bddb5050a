/** What the GFXR builder creates, for every capture: trees, and for well-formed captures preorders. */
module GfxrTrees {
  import opened Wrappers
  import opened Forests
  import opened Ancestry
  import opened GfxrRows
  import opened GfxrHierarchy
  import opened GfxrNames
  import opened GfxrPaths
  import opened Topologies

  // ---------- every capture ----------

  /** Every node of the builder hangs from the root or from an earlier node of its own, and frame and
      submit nodes hang from the root. */
  ghost predicate Sound(rows: seq<Row>, first: nat) {
    && 0 < first <= |rows|
    && (forall i :: 0 <= i < first ==> rows[i].parent == UNATTACHED)
    && (forall i :: first <= i < |rows| ==> rows[i].parent == ROOT || first <= rows[i].parent < i)
    && (forall i :: first <= i < |rows| ==> rows[i].node.kind != RootNode)
    && (forall i :: first <= i < |rows| && rows[i].node.kind in {FrameNode, SubmitNode} ==> rows[i].parent == ROOT)
    && (forall i :: first < i < |rows| ==> rows[i].node.kind != FrameNode)
    && (first < |rows| ==> rows[first] == Row(Node(FrameNode, NoDesc), ROOT))
  }

  ghost predicate Owned(rows: seq<Row>, first: nat, p: nat) {
    p == ROOT || first <= p < |rows|
  }

  ghost predicate SoundProgress(p: Progress, first: nat) {
    && Sound(p.rows, first) && first < |p.rows|
    && Owned(p.rows, first, p.submit) && Owned(p.rows, first, p.buffer)
    && forall k :: 0 <= k < |p.stack| ==> first <= p.stack[k] < |p.rows|
  }

  lemma SoundNode(p: Progress, first: nat, node: Node, parent: nat, args: Json)
    requires SoundProgress(p, first) && Owned(p.rows, first, parent)
    requires node.kind !in {RootNode, FrameNode, SubmitNode}
    ensures SoundProgress(p.(rows := WithNode(p, node, parent, args)), first)
  {
    var n := |p.rows|;
    var more := ArgRows(args, n, n + 1);
    ArgRowsBounds(args, n, n + 1);
    ArgRowsAreArgs(args, n, n + 1);
    var rows := WithNode(p, node, parent, args);
    hide ArgRows;
    forall i | n < i < |rows|
      ensures rows[i] == more[i - n - 1]
    {
    }
    assert rows[n] == Row(node, parent);
    assert forall i :: 0 <= i < n ==> rows[i] == p.rows[i];
  }

  lemma ArgRowsAreArgs(args: Json, cur: nat, next: nat)
    requires cur < next
    ensures forall k :: 0 <= k < |ArgRows(args, cur, next)| ==> ArgRows(args, cur, next)[k].node.kind == ArgNode
  {
    ArgRowsHang(args, seq(next, _ => 0), cur);
  }

  lemma SoundCommand(p: Progress, first: nat, c: Command)
    requires SoundProgress(p, first)
    ensures SoundProgress(AfterCommand(p, c), first)
  {
    hide Sound, ArgRows, Classify, ArgRows;
    match Classify(c.name)
    case BeginBuffer => SoundNode(p, first, Node(BeginCommandBufferNode, Name(c.name)), p.submit, c.args);
    case EndBuffer => SoundNode(p, first, Node(EndCommandBufferNode, Name(c.name)), p.buffer, c.args);
    case BeginLabel => SoundNode(p, first, Node(BeginLabelNode, NoDesc), Top(p), c.args);
    case EndLabel =>
    case Draw => SoundNode(p, first, Node(DrawNode, Name(c.name)), Top(p), c.args);
    case BeginPass => SoundNode(p, first, Node(BeginRenderPassNode, Name(c.name)), Top(p), c.args);
    case EndPass => SoundNode(p, first, Node(EndRenderPassNode, Name(c.name)), Top(p), c.args);
    case Plain(kind) =>
      PlainKinds(c.name);
      SoundNode(p, first, Node(kind, Name(c.name)), Top(p), c.args);
  }

  lemma PlainKinds(name: string)
    ensures var k := Classify(name); k.Plain? ==> k.kind !in {RootNode, FrameNode, SubmitNode}
  {
  }

  lemma {:induction false} SoundCommands(p: Progress, first: nat, cs: seq<Command>, n: nat)
    requires SoundProgress(p, first) && n <= |cs|
    ensures SoundProgress(RunCommands(p, cs, n), first)
  {
    if n > 0 {
      SoundCommands(p, first, cs, n - 1);
      hide Sound;
      SoundCommand(RunCommands(p, cs, n - 1), first, cs[n - 1]);
    }
  }

  lemma {:induction false} SoundHandles(p: Progress, first: nat, c: Capture, s: Submit, n: nat)
    requires SoundProgress(p, first) && n <= |s.handles| && forall k :: 0 <= k < |s.handles| ==>
      s.handles[k] in c.buffers
    ensures SoundProgress(RunHandles(p, c, s, n), first)
  {
    if n > 0 {
      hide Sound;
      SoundHandles(p, first, c, s, n - 1);
      var cs := c.buffers[s.handles[n - 1]];
      SoundCommands(RunHandles(p, c, s, n - 1), first, cs, |cs|);
    }
  }

  lemma SoundStart(p: Progress, first: nat)
    requires SoundProgress(p, first)
    ensures SoundProgress(StartSubmit(p), first)
  {
  }

  lemma {:induction false} SoundSubmits(p: Progress, first: nat, c: Capture, n: nat)
    requires SoundProgress(p, first) && n <= |c.submits| && Complete(c)
    ensures SoundProgress(RunSubmits(p, c, n), first)
  {
    if n > 0 {
      hide Sound, StartSubmit, RunCommands, RunHandles;
      SoundSubmits(p, first, c, n - 1);
      var s, before := c.submits[n - 1], RunSubmits(p, c, n - 1);
      SoundStart(before, first);
      SoundCommands(StartSubmit(before), first, s.noneCommands, |s.noneCommands|);
      SoundHandles(RunList(StartSubmit(before), s.noneCommands), first, c, s, |s.handles|);
    }
  }

  /** Any capture, alone (first == 1) or beside PM4 nodes. */
  lemma CaptureIsSound(p: Progress, c: Capture)
    requires Sound(p.rows, |p.rows|) && p.submit == p.buffer == ROOT && p.stack == [] && Complete(c)
    ensures Sound(RunCapture(p, c).rows, |p.rows|)
  {
    SoundSubmits(p.(rows := p.rows + [Row(Node(FrameNode, NoDesc), ROOT)]), |p.rows|, c, |c.submits|);
  }

  // ---------- preorders ----------

  /** The parents of the builder's nodes; the nodes before them count as children of the root. */
  function Parents(rows: seq<Row>, first: nat): (r: seq<int>)
    ensures |r| == |rows| && forall i :: 0 <= i < |r| ==> r[i] == if i < first then ROOT else rows[i].parent
  {
    seq(|rows|, i requires 0 <= i < |rows| => if i < first then ROOT else rows[i].parent)
  }

  ghost predicate OnlyTopLevel(rows: seq<Row>, first: nat) {
    forall i :: first <= i < |rows| && rows[i].parent == ROOT ==> rows[i].node.kind in {FrameNode, SubmitNode}
  }

  /** A tree of rows. */
  ghost predicate IsRowTree(rows: seq<Row>, first: nat) {
    first <= |rows| && IsTree(Parents(rows, first))
  }

  /** Node x lies on the path from the root to the last node. */
  ghost predicate OnPath(rows: seq<Row>, first: nat, x: nat)
    requires IsRowTree(rows, first)
  {
    IsAncestor(Parents(rows, first), x, |rows| - 1)
  }

  ghost predicate InPreorder(rows: seq<Row>, first: nat)
    requires IsRowTree(rows, first)
  {
    IsPreordered(Parents(rows, first))
  }

  /** After a node under parent and a block below it, the path goes through parent and the node. */
  lemma PathThrough(flat: seq<int>, all: seq<int>, parent: nat, a: nat)
    requires IsTree(flat) && parent < |flat| && IsAncestor(flat, parent, |flat| - 1) && a < |flat|
    requires flat + [parent] <= all && IsTree(all) && IsAncestor(all, |flat|, |all| - 1)
    ensures IsAncestor(all, a, |all| - 1) <==> a <= parent && IsAncestor(flat, a, |flat| - 1)
  {
    var mid, n := flat + [parent], |flat|;
    assert all[n] == mid[n] == parent;
    AncestorOfPrefix(flat, all, a, parent);
    if IsAncestor(all, a, |all| - 1) {
      AncestorsAreChained(all, a, n, |all| - 1);
      AncestorIsBefore(flat, a, parent);
      AncestorTransitive(flat, a, parent, n - 1);
    } else if a <= parent && IsAncestor(flat, a, n - 1) {
      AncestorsAreChained(flat, a, parent, n - 1);
      AncestorTransitive(all, a, n, |all| - 1);
    }
  }

  /** A node with its arguments keeps the preorder exactly if it hangs from the path. */
  lemma BlockHangs(flat: seq<int>, all: seq<int>, parent: nat, args: Json)
    requires IsTree(flat) && parent < |flat| && all == flat + [parent] + ParentsOf(ArgRows(args, |flat|, |flat| + 1))
    ensures IsTree(all) && (IsPreordered(all) <==> IsPreordered(flat) && IsAncestor(flat, parent, |flat| - 1))
    ensures IsPreordered(all) ==> IsAncestor(all, |flat|, |all| - 1)
  {
    var mid, n := flat + [parent], |flat|;
    OneMore(flat, mid, parent);
    ArgRowsHang(args, mid, n);
    hide ArgRows;
    assert mid <= all && IsTree(all) && (OnSpine(mid, n) ==> OnSpine(all, n));
    if IsPreordered(flat) && IsAncestor(flat, parent, n - 1) {
      SpineAfterNode(flat, mid, parent);
    }
    if IsPreordered(all) {
      PreorderedPrefix(flat, all);
      assert all[n] == mid[n] == parent && all[n - 1] == flat[n - 1];
      AncestorOfPrefix(flat, all, parent, n - 1);
    }
  }

  lemma PreorderedPrefix(flat: seq<int>, all: seq<int>)
    requires IsTree(flat) && IsTree(all) && flat <= all && IsPreordered(all)
    ensures IsPreordered(flat)
  {
    forall i, j | 0 <= i < j < |flat| && j == i + 1
      ensures IsAncestor(flat, flat[j], i)
    {
      assert all[i] == flat[i] && all[j] == flat[j];
      assert IsAncestor(all, all[j], i);
      AncestorOfPrefix(flat, all, flat[j], i);
    }
  }

  /** What a node with its arguments does to the tree and to the path. */
  lemma NodeHangs(p: Progress, first: nat, node: Node, parent: nat, args: Json)
    requires IsRowTree(p.rows, first) && parent < |p.rows| && node.kind !in {FrameNode, SubmitNode}
    ensures var rows, n := WithNode(p, node, parent, args), |p.rows|;
      && IsRowTree(rows, first) && p.rows <= rows && n < |rows| && rows[n] == Row(node, parent)
      && (InPreorder(rows, first) <==> InPreorder(p.rows, first) && OnPath(p.rows, first, parent))
      && (OnlyTopLevel(rows, first) <==> OnlyTopLevel(p.rows, first) && parent != ROOT)
      && (InPreorder(rows, first) ==> OnPath(rows, first, n))
      && (InPreorder(rows, first) ==>
            forall x: nat :: x < n ==> (OnPath(rows, first, x) <==> x <= parent && OnPath(p.rows, first, x)))
  {
    hide ArgRows, IsAncestor, IsPreordered, IsTree, OnlyTopLevel;
    TreeHasRoot(Parents(p.rows, first));
    var n, rows := |p.rows|, WithNode(p, node, parent, args);
    var flat, all := Parents(p.rows, first), Parents(rows, first);
    ArgRowsBounds(args, n, n + 1);
    assert all == flat + [parent] + ParentsOf(ArgRows(args, n, n + 1));
    BlockHangs(flat, all, parent, args);
    TopLevelAfter(p.rows, node, parent, ArgRows(args, n, n + 1), first);
    if IsPreordered(all) {
      var last, before := |all| - 1, n - 1;
      forall x: nat | x < n
        ensures IsAncestor(all, x, last) <==> x <= parent && IsAncestor(flat, x, before)
      {
        PathThrough(flat, all, parent, x);
      }
    }
  }

  lemma TreeHasRoot(parents: seq<int>)
    requires IsTree(parents)
    ensures 0 < |parents|
  {
  }

  lemma TopLevelAfter(rows: seq<Row>, node: Node, parent: nat, more: seq<Row>, first: nat)
    requires first <= |rows| && 0 < |rows| && node.kind !in {FrameNode, SubmitNode}
    requires forall k :: 0 <= k < |more| ==> more[k].parent >= |rows|
    ensures OnlyTopLevel(rows + [Row(node, parent)] + more, first) <==> OnlyTopLevel(rows, first) && parent != ROOT
  {
    var all := rows + [Row(node, parent)] + more;
    assert all[|rows|] == Row(node, parent);
    assert forall i :: |rows| < i < |all| ==> all[i] == more[i - |rows| - 1];
    if OnlyTopLevel(all, first) {
      forall i | first <= i < |rows| && rows[i].parent == ROOT
        ensures rows[i].node.kind in {FrameNode, SubmitNode}
      {
        assert all[i] == rows[i];
      }
    }
  }

  // ---------- the automaton follows the builder ----------

  /** The brackets: where they are, and which of them are labels. */
  ghost predicate TracksBrackets(p: Progress, a: Path) {
    && |a.labels| == |p.stack|
    && (forall k {:trigger p.stack[k]} :: 0 <= k < |p.stack| ==>
          p.submit < p.stack[k] < |p.rows| && (a.labels[k] <==> p.rows[p.stack[k]].node.kind == BeginLabelNode))
    && forall k, l {:trigger p.stack[k], p.stack[l]} :: 0 <= k < l < |p.stack| ==> p.stack[k] < p.stack[l]
  }

  /** The path, as long as there is a preorder. */
  ghost predicate TracksPath(p: Progress, first: nat, a: Path)
    requires IsRowTree(p.rows, first)
  {
    && (a.submit <==> OnPath(p.rows, first, p.submit)) && (a.buffer <==> OnPath(p.rows, first, p.buffer))
    && (forall k {:trigger p.stack[k]} :: 0 <= k < |p.stack| ==> (a.brackets <==> OnPath(p.rows, first, p.stack[k])))
    && (a.buffer && !a.atRoot ==> p.submit < p.buffer)
    && (p.stack != [] && a.brackets ==> p.buffer < p.stack[0])
  }

  ghost predicate Tracks(p: Progress, first: nat, a: Path) {
    && IsRowTree(p.rows, first) && 0 < p.submit < |p.rows| && p.buffer < |p.rows| && (a.atRoot <==> p.buffer == ROOT)
    && TracksBrackets(p, a)
    && (a.ordered <==> InPreorder(p.rows, first)) && (a.inside <==> OnlyTopLevel(p.rows, first))
    && (a.ordered ==> TracksPath(p, first, a))
  }

  lemma TracksUnderBuffer(p: Progress, first: nat, a: Path, node: Node, args: Json)
    requires Tracks(p, first, a) && node.kind !in {FrameNode, SubmitNode}
    ensures Tracks(p.(rows := WithNode(p, node, p.buffer, args)), first, UnderBuffer(a))
  {
    hide IsRowTree, InPreorder, OnPath, OnlyTopLevel, WithNode;
    NodeHangs(p, first, node, p.buffer, args);
  }

  lemma TracksUnderTop(p: Progress, first: nat, a: Path, node: Node, args: Json)
    requires Tracks(p, first, a) && node.kind !in {FrameNode, SubmitNode}
    ensures Tracks(p.(rows := WithNode(p, node, Top(p), args)), first, UnderTop(a))
  {
    hide IsRowTree, InPreorder, OnPath, OnlyTopLevel, WithNode;
    if p.stack == [] {
      TracksUnderBuffer(p, first, a, node, args);
    } else {
      NodeHangs(p, first, node, Top(p), args);
    }
  }

  lemma TracksBracket(q: Progress, first: nat, b: Path, n: nat)
    requires Tracks(q, first, b) && q.submit < n < |q.rows| && q.buffer < n && forall k :: 0 <= k < |q.stack| ==>
      q.stack[k] < n
    requires b.ordered ==> OnPath(q.rows, first, n) && (q.stack != [] ==> b.brackets)
    ensures Tracks(q.(stack := q.stack + [n]), first, Push(b, q.rows[n].node.kind == BeginLabelNode))
  {
    hide IsRowTree, InPreorder, OnPath, OnlyTopLevel;
  }

  /** The node is also an open bracket from now on. */
  lemma TracksPush(p: Progress, first: nat, a: Path, node: Node, args: Json)
    requires Tracks(p, first, a) && node.kind !in {FrameNode, SubmitNode}
    ensures var q := p.(rows := WithNode(p, node, Top(p), args), stack := p.stack + [|p.rows|]);
      Tracks(q, first, Push(UnderTop(a), node.kind == BeginLabelNode))
  {
    hide IsRowTree, InPreorder, OnPath, OnlyTopLevel, WithNode;
    TracksUnderTop(p, first, a, node, args);
    NodeHangs(p, first, node, Top(p), args);
    TracksBracket(p.(rows := WithNode(p, node, Top(p), args)), first, UnderTop(a), |p.rows|);
  }

  lemma TracksPop(p: Progress, first: nat, a: Path)
    requires Tracks(p, first, a)
    ensures Tracks(Popped(p), first, Pop(a))
  {
    hide IsRowTree, InPreorder, OnPath, OnlyTopLevel;
  }

  lemma TracksBegin(p: Progress, first: nat, a: Path, node: Node, args: Json)
    requires Tracks(p, first, a) && node.kind !in {FrameNode, SubmitNode}
    ensures var q := p.(rows := WithNode(p, node, p.submit, args), buffer := |p.rows|);
      Tracks(q, first, Under(a, a.submit).(buffer := true, atRoot := false, brackets := a.labels == []))
  {
    hide IsRowTree, InPreorder, OnPath, OnlyTopLevel, WithNode;
    NodeHangs(p, first, node, p.submit, args);
  }

  lemma TracksCommand(p: Progress, first: nat, a: Path, c: Command)
    requires Tracks(p, first, a)
    ensures Tracks(AfterCommand(p, c), first, AfterName(a, c.name))
  {
    hide Tracks, WithNode, Classify, UnderTop, UnderBuffer, Push, Pop, Under, Popped;
    match Classify(c.name)
    case BeginBuffer => TracksBegin(p, first, a, Node(BeginCommandBufferNode, Name(c.name)), c.args);
    case EndBuffer => TracksUnderBuffer(p, first, a, Node(EndCommandBufferNode, Name(c.name)), c.args);
    case BeginLabel => TracksPush(p, first, a, Node(BeginLabelNode, NoDesc), c.args);
    case EndLabel =>
      TopIsLabel(p, first, a);
      TracksPop(p, first, a);
    case Draw => TracksUnderTop(p, first, a, Node(DrawNode, Name(c.name)), c.args);
    case BeginPass => TracksPush(p, first, a, Node(BeginRenderPassNode, Name(c.name)), c.args);
    case EndPass =>
      TracksUnderTop(p, first, a, Node(EndRenderPassNode, Name(c.name)), c.args);
      TracksPop(p.(rows := WithNode(p, Node(EndRenderPassNode, Name(c.name)), Top(p), c.args)), first, UnderTop(a));
    case Plain(kind) =>
      PlainKinds(c.name);
      TracksUnderTop(p, first, a, Node(kind, Name(c.name)), c.args);
  }

  lemma TopIsLabel(p: Progress, first: nat, a: Path)
    requires Tracks(p, first, a)
    ensures p.stack == [] <==> a.labels == []
    ensures p.stack != [] ==>
      Top(p) < |p.rows| && (a.labels[|a.labels| - 1] <==> p.rows[Top(p)].node.kind == BeginLabelNode)
  {
  }

  lemma {:induction false} TracksCommands(p: Progress, first: nat, a: Path, cs: seq<Command>, n: nat)
    requires Tracks(p, first, a) && n <= |cs|
    ensures Tracks(RunCommands(p, cs, n), first, PathCommands(a, cs, n))
  {
    hide Tracks, AfterCommand, AfterName;
    if n > 0 {
      TracksCommands(p, first, a, cs, n - 1);
      TracksCommand(RunCommands(p, cs, n - 1), first, PathCommands(a, cs, n - 1), cs[n - 1]);
    }
  }

  lemma TracksList(p: Progress, first: nat, a: Path, cs: seq<Command>)
    requires Tracks(p, first, a)
    ensures Tracks(RunList(p, cs), first, PathList(a, cs))
  {
    hide IsRowTree, InPreorder, OnPath, OnlyTopLevel, RunCommands, PathCommands;
    TracksCommands(p, first, a, cs, |cs|);
  }

  lemma {:induction false} TracksHandles(p: Progress, first: nat, a: Path, c: Capture, s: Submit, n: nat)
    requires Tracks(p, first, a) && n <= |s.handles| && forall k :: 0 <= k < |s.handles| ==> s.handles[k] in c.buffers
    ensures Tracks(RunHandles(p, c, s, n), first, PathHandles(a, c, s, n))
  {
    hide Tracks, RunList, PathList;
    if n > 0 {
      TracksHandles(p, first, a, c, s, n - 1);
      TracksList(RunHandles(p, c, s, n - 1), first, PathHandles(a, c, s, n - 1), c.buffers[s.handles[n - 1]]);
    }
  }

  /** Between submits only the brackets and the root matter. */
  ghost predicate TracksRoot(p: Progress, first: nat, a: Path) {
    && IsRowTree(p.rows, first) && p.buffer < |p.rows| && (a.atRoot <==> p.buffer == ROOT)
    && p.stack == [] && a.labels == [] && a.brackets
    && (a.ordered <==> InPreorder(p.rows, first)) && (a.inside <==> OnlyTopLevel(p.rows, first))
  }

  /** A frame or submit node: the path is the root and the node. */
  lemma RootChildHangs(rows: seq<Row>, first: nat, node: Node)
    requires IsRowTree(rows, first) && node.kind in {FrameNode, SubmitNode}
    ensures var all := rows + [Row(node, ROOT)];
      && IsRowTree(all, first) && (InPreorder(all, first) <==> InPreorder(rows, first))
      && (OnlyTopLevel(all, first) <==> OnlyTopLevel(rows, first))
      && forall x: nat :: x <= |rows| ==> (OnPath(all, first, x) <==> x == ROOT || x == |rows|)
  {
    var flat, n := Parents(rows, first), |rows|;
    var all := flat + [ROOT];
    assert Parents(rows + [Row(node, ROOT)], first) == all;
    OneMore(flat, all, ROOT);
    RootIsAncestor(flat, n - 1);
    assert all[n] == ROOT;
    if IsPreordered(flat) {
      SpineAfterNode(flat, all, ROOT);
    }
    if IsPreordered(all) {
      PreorderedPrefix(flat, all);
    }
    forall x: nat | x <= n
      ensures IsAncestor(all, x, n) <==> x == ROOT || x == n
    {
      assert IsAncestor(all, x, ROOT) <==> x == ROOT;
    }
    var more := rows + [Row(node, ROOT)];
    assert forall i :: 0 <= i < n ==> more[i] == rows[i];
    assert more[n] == Row(node, ROOT);
  }

  lemma TracksStart(p: Progress, first: nat, a: Path)
    requires TracksRoot(p, first, a)
    ensures Tracks(StartSubmit(p), first, PathStart(a))
  {
    hide IsRowTree, InPreorder, OnPath, OnlyTopLevel;
    RootChildHangs(p.rows, first, Node(SubmitNode, NoDesc));
    RowTreeHasRoot(p.rows, first);
  }

  lemma RowTreeHasRoot(rows: seq<Row>, first: nat)
    requires IsRowTree(rows, first)
    ensures 0 < |rows|
  {
    TreeHasRoot(Parents(rows, first));
  }

  lemma {:induction false} TracksHandlesEnd(p: Progress, c: Capture, s: Submit, a: Path, n: nat)
    requires n <= |s.handles| && forall k :: 0 <= k < |s.handles| ==> s.handles[k] in c.buffers
    requires p.stack == [] && a.labels == [] && a.brackets
    ensures RunHandles(p, c, s, n).stack == [] && PathHandles(a, c, s, n).labels == []
      && PathHandles(a, c, s, n).brackets
  {
  }

  lemma {:induction false} TracksSubmits(p: Progress, first: nat, c: Capture, n: nat)
    requires Complete(c) && TracksRoot(p, first, PathSubmits(c, 0)) && n <= |c.submits|
    ensures TracksRoot(RunSubmits(p, c, n), first, PathSubmits(c, n))
  {
    hide IsRowTree, InPreorder, OnPath, OnlyTopLevel, RunCommands, PathCommands, RunHandles, PathHandles;
    if n > 0 {
      TracksSubmits(p, first, c, n - 1);
      var s, before, a := c.submits[n - 1], RunSubmits(p, c, n - 1), PathSubmits(c, n - 1);
      TracksStart(before, first, a);
      TracksList(StartSubmit(before), first, PathStart(a), s.noneCommands);
      var q, b := RunList(StartSubmit(before), s.noneCommands), PathList(PathStart(a), s.noneCommands);
      TracksHandles(q, first, b, c, s, |s.handles|);
      TracksHandlesEnd(q, c, s, b, |s.handles|);
    }
  }

  /** Nodes of a PM4 capture and nothing else yet. */
  lemma FlatIsPreordered(rows: seq<Row>)
    requires rows != []
    ensures IsRowTree(rows, |rows|) && InPreorder(rows, |rows|) && OnlyTopLevel(rows, |rows|)
  {
    var parents := Parents(rows, |rows|);
    forall i, j | 0 <= i < j < |parents| && j == i + 1
      ensures IsAncestor(parents, parents[j], i)
    {
      RootIsAncestor(parents, i);
    }
  }

  /** The numbering is a depth-first preorder exactly for the captures that keep to the path, also beside
      nodes that were created before. */
  lemma PreorderedCaptures(p: Progress, c: Capture)
    requires Complete(c) && p.rows != [] && p.submit == p.buffer == ROOT && p.stack == []
    ensures var rows, first := RunCapture(p, c).rows, |p.rows|;
      && IsTree(Parents(rows, first)) && (IsPreordered(Parents(rows, first)) <==> KeepsPath(c))
      && (OnlyTopLevel(rows, first) <==> StaysInside(c))
  {
    hide RunSubmits;
    var frame := Row(Node(FrameNode, NoDesc), ROOT);
    FlatIsPreordered(p.rows);
    RootChildHangs(p.rows, |p.rows|, frame.node);
    TracksSubmits(p.(rows := p.rows + [frame]), |p.rows|, c, |c.submits|);
  }

  const START := Progress([Row(Node(RootNode, NoDesc), UNATTACHED)], ROOT, ROOT, [])

  /** The tree of a GFXR-only capture. */
  function TreeOf(c: Capture): seq<int>
    requires Complete(c)
  {
    Parents(RunCapture(START, c).rows, 1)
  }

  /** Stack parenting and recursive argument expansion create the nodes of bracketed command buffers in
      depth-first preorder. */
  lemma WellFormedIsPreordered(c: Capture)
    requires WellFormed(c)
    ensures IsTree(TreeOf(c)) && IsPreordered(TreeOf(c))
  {
    WellFormedKeepsPath(c);
    PreorderedCaptures(START, c);
  }

  /** One command outside the command buffers can break the numbering: it hangs from the last command
      buffer of an earlier submit, which the new submit node has already left. */
  lemma StrayCommandBreaksPreorder(stray: Command)
    requires IsPlain(stray.name)
    ensures var buffer := [Command("vkBeginCommandBuffer", Primitive("null"))];
      var c := Capture([Submit([], [0]), Submit([stray], [])], map[0 := buffer]);
      Complete(c) && IsBracketed(buffer) && IsTree(TreeOf(c)) && !IsPreordered(TreeOf(c))
  {
    hide Classify, IsPlain, IsBeginBuffer;
    Classifies(stray.name);
    NamesBegin();
    var buffer := [Command("vkBeginCommandBuffer", Primitive("null"))];
    var c := Capture([Submit([], [0]), Submit([stray], [])], map[0 := buffer]);
    PreorderedCaptures(START, c);
    var a := PathStart(PathSubmits(c, 0));
    NoCommands(a);
    assert PathCommands(a, buffer, 0) == a && PathHandles(a, c, c.submits[0], 0) == a;
    assert PathList(a, buffer).buffer && !PathList(a, buffer).atRoot;
    assert PathSubmits(c, 1) == PathList(a, buffer);
    var b := PathStart(PathSubmits(c, 1));
    assert PathCommands(b, [stray], 0) == b && !PathList(b, [stray]).ordered;
    assert PathSubmits(c, 2) == PathList(b, [stray]);
  }

  lemma NamesBegin()
    ensures Classify("vkBeginCommandBuffer") == BeginBuffer && IsBeginBuffer("vkBeginCommandBuffer")
  {
  }

  /** The lists of a builder that works alone are those of the tree it created. */
  lemma RecordsAreTreeLists(lists: ChildLists, rows: seq<Row>)
    requires Records(lists, rows, false, 1)
    ensures lists == TreeLists(Parents(rows, 1))
  {
    forall q | 0 <= q < |lists|
      ensures lists[q] == Kids(Parents(rows, 1), |rows|, q)
    {
      KidsPrefix(SlotsOf(rows, false, 1), Parents(rows, 1), |rows|, q);
    }
  }

  /** For every capture: a tree in which every node hangs from the root, and in which the successor of each
      node is the node created next exactly if the capture keeps to the path. */
  lemma CapturesAreTrees(c: Capture)
    requires Complete(c) && |TreeOf(c)| < UINT64_MAX
    ensures var parents := TreeOf(c);
      && IsTree(parents) && IsForest(TreeLists(parents))
      && (forall i :: 0 <= i < |parents| ==> Rooted(TreeLists(parents), i))
      && (KeepsPath(c) <==> forall i :: 0 <= i < |parents| ==>
            Next(TreeLists(parents), i) == if i + 1 < |parents| then i + 1 else UINT64_MAX)
  {
    hide RunSubmits, TreeLists, Rooted, Next;
    CaptureIsSound(START, c);
    var parents := TreeOf(c);
    assert IsTree(parents);
    TreeListsForest(parents);
    forall i | 0 <= i < |parents|
      ensures Rooted(TreeLists(parents), i)
    {
      TreeIsRooted(parents, i);
    }
    PreorderedCaptures(START, c);
    PreorderedIff(parents);
  }

  /** A GFXR-only capture, from its submits to its topology. */
  method CreateTrees(c: Capture) returns (t: SharedNodeTopology)
    requires Complete(c) && |TreeOf(c)| < UINT64_MAX
    ensures fresh(t) && t.Valid() && t.lists == TreeLists(TreeOf(c))
  {
    hide RunSubmits;
    var creator := new GfxrCreator.Alone();
    creator.ProcessGfxrSubmits(c);
    RecordsAreTreeLists(creator.lists, creator.rows);
    CapturesAreTrees(c);
    t := CreateTopology(creator.lists, seq(|creator.lists|, _ => []));
  }
}
