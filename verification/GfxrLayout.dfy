/** The nodes of a bracketed capture, read off its submits, command buffers and blocks. */
module GfxrLayout {
  import opened Forests
  import opened GfxrRows
  import opened GfxrHierarchy
  import opened GfxrNames
  import opened GfxrBlocks

  datatype CommandBuffer = CommandBuffer(begin: Command, body: seq<Block>, end: Command)

  /** Its commands are bracketed in the same way as those of a pass. */
  function AsBlock(r: CommandBuffer): Block {
    Pass(r.begin, r.body, r.end)
  }

  ghost predicate IsTyped(r: CommandBuffer) {
    IsBeginBuffer(r.begin.name) && IsEndBuffer(r.end.name) && BodyTyped(AsBlock(r))
  }

  /** Submits list handles of command buffers. */
  datatype Recorded = Recorded(submits: seq<seq<nat>>, buffers: map<nat, CommandBuffer>)

  ghost predicate AllTyped(r: Recorded) {
    && (forall h :: h in r.buffers ==> IsTyped(r.buffers[h]))
    && forall i, k :: 0 <= i < |r.submits| && 0 <= k < |r.submits[i]| ==> r.submits[i][k] in r.buffers
  }

  function Commands(r: CommandBuffer): seq<Command> {
    [r.begin] + BodyCommands(AsBlock(r), |r.body|) + [r.end]
  }

  /** The capture as it is recorded. */
  function AsCapture(r: Recorded): (c: Capture)
    ensures |c.submits| == |r.submits|
    ensures forall i :: 0 <= i < |c.submits| ==> c.submits[i] == Submit([], r.submits[i])
  {
    Capture(seq(|r.submits|, i requires 0 <= i < |r.submits| => Submit([], r.submits[i])),
            map h | h in r.buffers :: Commands(r.buffers[h]))
  }

  // ---------- reading the nodes off ----------

  /** A command buffer hangs from its submit, and everything in it is below its first command. */
  function BufferRows(r: CommandBuffer, submit: nat, next: nat): seq<Row> {
    var head := NodeRows(BeginCommandBufferNode, Name(r.begin.name), r.begin.args, submit, next);
    var body := BodyRows(AsBlock(r), |r.body|, next, next + |head|);
    head + body + NodeRows(EndCommandBufferNode, Name(r.end.name), r.end.args, next, next + |head| + |body|)
  }

  /** The first n command buffers of submit i, which is node submit. */
  function BuffersRows(r: Recorded, i: nat, n: nat, submit: nat): seq<Row>
    requires i < |r.submits| && n <= |r.submits[i]|
    requires forall k :: 0 <= k < |r.submits[i]| ==> r.submits[i][k] in r.buffers
  {
    if n == 0 then []
    else
      var before := BuffersRows(r, i, n - 1, submit);
      before + BufferRows(r.buffers[r.submits[i][n - 1]], submit, submit + 1 + |before|)
  }

  /** A frame node and the first n submits, all under the root. */
  function SubmitsRows(r: Recorded, n: nat, next: nat): seq<Row>
    requires AllTyped(r) && n <= |r.submits|
  {
    if n == 0 then [Row(Node(FrameNode, NoDesc), ROOT)]
    else
      var before := SubmitsRows(r, n - 1, next);
      var submit := next + |before|;
      before + [Row(Node(SubmitNode, NoDesc), ROOT)] + BuffersRows(r, n - 1, |r.submits[n - 1]|, submit)
  }

  // ---------- the builder makes them ----------

  lemma BeginsAndEnds(p: Progress, r: CommandBuffer)
    requires IsTyped(r)
    ensures var n := |p.rows|;
      AfterCommand(p, r.begin) == p.(buffer := n,
        rows := p.rows + NodeRows(BeginCommandBufferNode, Name(r.begin.name), r.begin.args, p.submit, n))
    ensures AfterCommand(p, r.end) == p.(
      rows := p.rows + NodeRows(EndCommandBufferNode, Name(r.end.name), r.end.args, p.buffer, |p.rows|))
  {
    hide ArgRows, Classify;
    Classifies(r.begin.name);
    Classifies(r.end.name);
    var n := |p.rows|;
    assert p.rows + [Row(Node(BeginCommandBufferNode, Name(r.begin.name)), p.submit)] +
      ArgRows(r.begin.args, n, n + 1) ==
      p.rows + NodeRows(BeginCommandBufferNode, Name(r.begin.name), r.begin.args, p.submit, n);
    assert p.rows + [Row(Node(EndCommandBufferNode, Name(r.end.name)), p.buffer)] + ArgRows(r.end.args, n, n + 1) ==
      p.rows + NodeRows(EndCommandBufferNode, Name(r.end.name), r.end.args, p.buffer, n);
  }

  lemma BufferRuns(p: Progress, r: CommandBuffer)
    requires IsTyped(r) && p.stack == []
    ensures RunList(p, Commands(r)) == p.(rows := p.rows + BufferRows(r, p.submit, |p.rows|), buffer := |p.rows|)
  {
    hide RunAll, AfterCommand, BodyRows, BodyCommands, NodeRows, BodyTyped, IsBeginBuffer, IsEndBuffer;
    var b, cs := AsBlock(r), BodyCommands(AsBlock(r), |r.body|);
    BeginsAndEnds(p, r);
    var q := AfterCommand(p, r.begin);
    BodyRuns(q, b, |r.body|);
    var t := RunAll(q, cs);
    BeginsAndEnds(t, r);
    RunThree(p, r.begin, cs, r.end);
    ListIsAll(p, Commands(r));
    var head := NodeRows(BeginCommandBufferNode, Name(r.begin.name), r.begin.args, p.submit, |p.rows|);
    var body := BodyRows(b, |r.body|, |p.rows|, |p.rows| + |head|);
    Assemble(p.rows, head, body,
      NodeRows(EndCommandBufferNode, Name(r.end.name), r.end.args, |p.rows|, |p.rows| + |head| + |body|));
  }

  lemma ListIsAll(p: Progress, cs: seq<Command>)
    ensures RunList(p, cs) == RunAll(p, cs).(stack := [])
  {
  }

  lemma {:induction false} HandlesRun(p: Progress, r: Recorded, i: nat, n: nat)
    requires AllTyped(r) && i < |r.submits| && n <= |r.submits[i]| && p.stack == [] && p.submit + 1 == |p.rows|
    ensures var q := RunHandles(p, AsCapture(r), AsCapture(r).submits[i], n);
      q.rows == p.rows + BuffersRows(r, i, n, p.submit) && q.stack == [] && q.submit == p.submit
  {
    hide BufferRows, RunList, Commands, IsTyped;
    if n > 0 {
      HandlesRun(p, r, i, n - 1);
      var q := RunHandles(p, AsCapture(r), AsCapture(r).submits[i], n - 1);
      var h := r.submits[i][n - 1];
      BufferRuns(q, r.buffers[h]);
      var before := BuffersRows(r, i, n - 1, p.submit);
      assert p.rows + before + BufferRows(r.buffers[h], p.submit, |q.rows|) ==
        p.rows + (before + BufferRows(r.buffers[h], p.submit, |q.rows|));
    }
  }

  lemma {:induction false} SubmitsRun(p: Progress, r: Recorded, n: nat)
    requires AllTyped(r) && n <= |r.submits| && p.stack == []
    ensures Complete(AsCapture(r))
    ensures var start := p.(rows := p.rows + [Row(Node(FrameNode, NoDesc), ROOT)]);
      var q := RunSubmits(start, AsCapture(r), n);
      q.rows == p.rows + SubmitsRows(r, n, |p.rows|) && q.stack == []
  {
    hide BuffersRows, RunHandles, Commands, IsTyped;
    if n > 0 {
      SubmitsRun(p, r, n - 1);
      var start := p.(rows := p.rows + [Row(Node(FrameNode, NoDesc), ROOT)]);
      var t := StartSubmit(RunSubmits(start, AsCapture(r), n - 1));
      NoCommands(t);
      HandlesRun(t, r, n - 1, |r.submits[n - 1]|);
      var before, submit := SubmitsRows(r, n - 1, |p.rows|), |p.rows| + |SubmitsRows(r, n - 1, |p.rows|)|;
      Assemble(p.rows, before, [Row(Node(SubmitNode, NoDesc), ROOT)],
        BuffersRows(r, n - 1, |r.submits[n - 1]|, submit));
    }
  }

  lemma NoCommands(p: Progress)
    requires p.stack == []
    ensures RunList(p, []) == p
  {
  }

  /** The nodes of a capture of bracketed command buffers, whatever nodes were there before. */
  lemma CaptureRuns(p: Progress, r: Recorded)
    requires AllTyped(r) && p.stack == []
    ensures Complete(AsCapture(r)) && RunCapture(p, AsCapture(r)).rows == p.rows + SubmitsRows(r, |r.submits|, |p.rows|)
  {
    SubmitsRun(p, r, |r.submits|);
  }
}
