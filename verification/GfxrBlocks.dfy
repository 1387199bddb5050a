/** Labels and render passes as blocks: the tree that a bracketed command buffer stands for, and the proof
    that the bracket stack builds it. */
module GfxrBlocks {
  import opened GfxrRows
  import opened GfxrHierarchy
  import opened GfxrNames

  datatype Block =
    | Single(command: Command)
    | Label(begin: Command, body: seq<Block>, end: Command)
    | Pass(begin: Command, body: seq<Block>, end: Command)

  /** Begin and end commands belong to the labels and passes, and other commands are single. */
  predicate WellTyped(b: Block) {
    match b
    case Single(c) => IsDraw(c.name) || IsPlain(c.name)
    case Label(begin, body, end) =>
      OpensLabel(begin.name) && ClosesLabel(end.name) && forall k :: 0 <= k < |body| ==> WellTyped(body[k])
    case Pass(begin, body, end) =>
      OpensPass(begin.name) && ClosesPass(end.name) && forall k :: 0 <= k < |body| ==> WellTyped(body[k])
  }

  /** The commands as they are recorded. */
  function Commands(b: Block): seq<Command>
    decreases b, 0
  {
    match b
    case Single(c) => [c]
    case Label(begin, body, end) => [begin] + BodyCommands(b, |body|) + [end]
    case Pass(begin, body, end) => [begin] + BodyCommands(b, |body|) + [end]
  }

  function BodyCommands(b: Block, n: nat): seq<Command>
    requires !b.Single? && n <= |b.body|
    decreases b, 0, n
  {
    if n == 0 then [] else BodyCommands(b, n - 1) + Commands(b.body[n - 1])
  }

  // ---------- the tree of a block ----------

  /** A node under parent with its arguments; next is its number. */
  function NodeRows(kind: NodeType, desc: Desc, args: Json, parent: nat, next: nat): seq<Row> {
    [Row(Node(kind, desc), parent)] + ArgRows(args, next, next + 1)
  }

  function SingleKind(c: Command): NodeType {
    if IsDraw(c.name) then DrawNode else PlainKind(c.name)
  }

  /** The node that opens the block. */
  function HeadRows(b: Block, parent: nat, next: nat): seq<Row>
    requires !b.Single?
  {
    if b.Label? then NodeRows(BeginLabelNode, NoDesc, b.begin.args, parent, next)
    else NodeRows(BeginRenderPassNode, Name(b.begin.name), b.begin.args, parent, next)
  }

  /** The end of a pass is a node in the pass, and the end of a label makes no node. */
  function TailRows(b: Block, parent: nat, next: nat): seq<Row>
    requires !b.Single?
  {
    if b.Label? then [] else NodeRows(EndRenderPassNode, Name(b.end.name), b.end.args, parent, next)
  }

  /** Labels and passes have their bodies below them. */
  function BlockRows(b: Block, parent: nat, next: nat): seq<Row>
    decreases b, 0
  {
    if b.Single? then NodeRows(SingleKind(b.command), Name(b.command.name), b.command.args, parent, next)
    else
      var head := HeadRows(b, parent, next);
      var body := BodyRows(b, |b.body|, next, next + |head|);
      head + body + TailRows(b, next, next + |head| + |body|)
  }

  function BodyRows(b: Block, n: nat, parent: nat, next: nat): seq<Row>
    requires !b.Single? && n <= |b.body|
    decreases b, 0, n
  {
    if n == 0 then []
    else
      var before := BodyRows(b, n - 1, parent, next);
      before + BlockRows(b.body[n - 1], parent, next + |before|)
  }

  // ---------- the stack builds the tree ----------

  lemma {:induction false} RunConcat(p: Progress, before: seq<Command>, after: seq<Command>, n: nat)
    requires n <= |after|
    ensures RunCommands(p, before + after, |before| + n) == RunCommands(RunCommands(p, before, |before|), after, n)
  {
    if n > 0 {
      RunConcat(p, before, after, n - 1);
      assert (before + after)[|before| + n - 1] == after[n - 1];
    } else {
      RunPrefix(p, before, before + after, |before|);
    }
  }

  lemma {:induction false} RunPrefix(p: Progress, cs: seq<Command>, ds: seq<Command>, n: nat)
    requires n <= |cs| && n <= |ds| && forall k :: 0 <= k < n ==> cs[k] == ds[k]
    ensures RunCommands(p, cs, n) == RunCommands(p, ds, n)
  {
    if n > 0 {
      RunPrefix(p, cs, ds, n - 1);
    }
  }

  function RunAll(p: Progress, cs: seq<Command>): Progress {
    RunCommands(p, cs, |cs|)
  }

  lemma RunAllConcat(p: Progress, before: seq<Command>, after: seq<Command>)
    ensures RunAll(p, before + after) == RunAll(RunAll(p, before), after)
  {
    RunConcat(p, before, after, |after|);
  }

  lemma RunAllOne(p: Progress, c: Command)
    ensures RunAll(p, [c]) == AfterCommand(p, c)
  {
    assert RunCommands(p, [c], 0) == p;
  }

  /** Open brackets are nodes. */
  ghost predicate OpenNodes(p: Progress) {
    forall k :: 0 <= k < |p.stack| ==> p.stack[k] < |p.rows|
  }

  lemma {:induction false} Opens(p: Progress, b: Block)
    requires WellTyped(b) && !b.Single? && OpenNodes(p)
    ensures var head, q := HeadRows(b, Top(p), |p.rows|), AfterCommand(p, b.begin);
      && q == p.(rows := p.rows + head, stack := p.stack + [|p.rows|]) && OpenNodes(q) && Top(q) == |p.rows|
      && head != [] && head[0].node.kind == (if b.Label? then BeginLabelNode else BeginRenderPassNode)
  {
    hide ArgRows, Classify, IsDraw, IsPlain, OpensLabel, ClosesLabel, OpensPass, ClosesPass, PlainKind;
    Classifies(b.begin.name);
    var n := |p.rows|;
    assert p.rows + [Row(Node(BeginLabelNode, NoDesc), Top(p))] + ArgRows(b.begin.args, n, n + 1) ==
      p.rows + NodeRows(BeginLabelNode, NoDesc, b.begin.args, Top(p), n);
    assert p.rows + [Row(Node(BeginRenderPassNode, Name(b.begin.name)), Top(p))] + ArgRows(b.begin.args, n, n + 1) ==
      p.rows + NodeRows(BeginRenderPassNode, Name(b.begin.name), b.begin.args, Top(p), n);
  }

  /** The end of the innermost bracket, which node n opened. */
  lemma {:induction false} Closes(stack: seq<nat>, q: Progress, b: Block, n: nat)
    requires WellTyped(b) && !b.Single? && q.stack == stack + [n] && n < |q.rows|
    requires q.rows[n].node.kind == (if b.Label? then BeginLabelNode else BeginRenderPassNode)
    ensures AfterCommand(q, b.end) == q.(rows := q.rows + TailRows(b, n, |q.rows|), stack := stack)
  {
    hide ArgRows, Classify, IsDraw, IsPlain, OpensLabel, ClosesLabel, OpensPass, ClosesPass, PlainKind;
    Classifies(b.end.name);
    assert q.stack[..|q.stack| - 1] == stack;
    assert q.rows + [Row(Node(EndRenderPassNode, Name(b.end.name)), n)] + ArgRows(b.end.args, |q.rows|, |q.rows| + 1) ==
      q.rows + NodeRows(EndRenderPassNode, Name(b.end.name), b.end.args, n, |q.rows|);
    assert q.rows + [] == q.rows;
  }

  lemma {:induction false} RunsSingle(p: Progress, b: Block)
    requires b.Single? && WellTyped(b)
    ensures RunAll(p, Commands(b)) == p.(rows := p.rows + BlockRows(b, Top(p), |p.rows|))
  {
    hide ArgRows, Classify, IsDraw, IsPlain, OpensLabel, ClosesLabel, OpensPass, ClosesPass, PlainKind;
    Classifies(b.command.name);
    var c := b.command;
    RunAllOne(p, c);
    var n, node := |p.rows|, Node(SingleKind(c), Name(c.name));
    assert p.rows + [Row(node, Top(p))] + ArgRows(c.args, n, n + 1) ==
      p.rows + NodeRows(SingleKind(c), Name(c.name), c.args, Top(p), n);
  }

  /** The recorded commands of a block make exactly its tree, below whatever was open before, and leave
      the stack as it was. */
  lemma {:induction false} BlockRuns(p: Progress, b: Block)
    requires WellTyped(b) && OpenNodes(p)
    ensures RunAll(p, Commands(b)) == p.(rows := p.rows + BlockRows(b, Top(p), |p.rows|))
    decreases b, 0
  {
    hide RunAll, HeadRows, TailRows, BodyRows, AfterCommand, BlockRows, Commands, BodyCommands, WellTyped;
    if b.Single? {
      RunsSingle(p, b);
    } else {
      var n, head := |p.rows|, HeadRows(b, Top(p), |p.rows|);
      Opens(p, b);
      TypedBody(b);
      var q := AfterCommand(p, b.begin);
      BodyRuns(q, b, |b.body|);
      var cs, body := BodyCommands(b, |b.body|), BodyRows(b, |b.body|, n, n + |head|);
      var r := RunAll(q, cs);
      assert r.rows[n] == q.rows[n] == head[0];
      Closes(p.stack, r, b, n);
      BlockUnfolds(b, Top(p), n);
      RunThree(p, b.begin, cs, b.end);
      Assemble(p.rows, head, body, TailRows(b, n, n + |head| + |body|));
    }
  }

  lemma BlockUnfolds(b: Block, parent: nat, next: nat)
    requires !b.Single?
    ensures Commands(b) == [b.begin] + BodyCommands(b, |b.body|) + [b.end]
    ensures var head := HeadRows(b, parent, next);
      var body := BodyRows(b, |b.body|, next, next + |head|);
      BlockRows(b, parent, next) == head + body + TailRows(b, next, next + |head| + |body|)
  {
  }

  lemma RunThree(p: Progress, c: Command, cs: seq<Command>, d: Command)
    ensures RunAll(p, [c] + cs + [d]) == AfterCommand(RunAll(AfterCommand(p, c), cs), d)
  {
    hide RunAll;
    RunAllOne(p, c);
    RunAllConcat(p, [c], cs);
    RunAllConcat(p, [c] + cs, [d]);
    RunAllOne(RunAll(p, [c] + cs), d);
  }

  lemma Assemble(rows: seq<Row>, head: seq<Row>, body: seq<Row>, tail: seq<Row>)
    ensures rows + head + body + tail == rows + (head + body + tail)
  {
  }

  lemma {:induction false} BodyRuns(p: Progress, b: Block, n: nat)
    requires !b.Single? && BodyTyped(b) && OpenNodes(p) && n <= |b.body|
    ensures RunAll(p, BodyCommands(b, n)) == p.(rows := p.rows + BodyRows(b, n, Top(p), |p.rows|))
    decreases b, 0, n
  {
    hide RunAll, BlockRows, Commands, WellTyped, BodyTyped;
    if n > 0 {
      TypedAt(b, n - 1);
      BodyRuns(p, b, n - 1);
      var q := RunAll(p, BodyCommands(b, n - 1));
      BlockRuns(q, b.body[n - 1]);
      RunAllConcat(p, BodyCommands(b, n - 1), Commands(b.body[n - 1]));
      var before := BodyRows(b, n - 1, Top(p), |p.rows|);
      assert p.rows + before + BlockRows(b.body[n - 1], Top(p), |q.rows|) ==
        p.rows + (before + BlockRows(b.body[n - 1], Top(p), |q.rows|));
    } else {
      RunsNothing(p);
      assert p.rows + [] == p.rows;
    }
  }

  ghost predicate BodyTyped(b: Block)
    requires !b.Single?
  {
    forall k :: 0 <= k < |b.body| ==> WellTyped(b.body[k])
  }

  lemma TypedAt(b: Block, k: nat)
    requires !b.Single? && BodyTyped(b) && k < |b.body|
    ensures WellTyped(b.body[k])
  {
  }

  lemma TypedBody(b: Block)
    requires WellTyped(b) && !b.Single?
    ensures BodyTyped(b)
  {
  }

  lemma RunsNothing(p: Progress)
    ensures RunAll(p, []) == p
  {
  }
}
