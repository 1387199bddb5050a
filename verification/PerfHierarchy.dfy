/** The correlator's nodes are those of a command hierarchy: the draws it treats as aliases are the draws
    below tile and resolve passes. */
module PerfHierarchy {
  import opened Wrappers
  import opened Pm4Trace
  import opened Pm4Effects
  import opened Pm4Stacks
  import opened Pm4Events
  import opened Pm4Filters
  import GfxrRows
  import PerfDraws

  predicate IsDraw(kind: NodeKind) {
    kind.EventNode? && (kind.event == Draw || kind.event == Dispatch)
  }

  /** A pass is a tile pass if the binning-only filter leaves it out. */
  function NodeOf(s: State, i: nat): PerfDraws.Node
    requires i < |s.rows|
  {
    match s.rows[i].kind
    case SubmitNode => PerfDraws.SubmitNode
    case PassNode(_) => PerfDraws.PassNode(i in s.filters.binningOnly)
    case EventNode(_, event) => if event == Draw || event == Dispatch then PerfDraws.DrawNode else PerfDraws.OtherNode
    case _ => PerfDraws.OtherNode
  }

  function GfxrNodeOf(row: GfxrRows.Row): PerfDraws.Node {
    if row.node.kind == GfxrRows.DrawNode then PerfDraws.GfxrDrawNode else PerfDraws.OtherNode
  }

  /** The nodes of a PM4 capture and of the GFXR capture beside it, if there is one. */
  function NodesOf(s: State, gfxr: seq<GfxrRows.Row>): (r: seq<PerfDraws.Node>)
    ensures |r| == |s.rows| + |gfxr|
    ensures forall i :: 0 <= i < |r| ==> r[i] == if i < |s.rows| then NodeOf(s, i) else GfxrNodeOf(gfxr[i - |s.rows|])
  {
    seq(|s.rows| + |gfxr|, i requires 0 <= i < |s.rows| + |gfxr| =>
      if i < |s.rows| then NodeOf(s, i) else GfxrNodeOf(gfxr[i - |s.rows|]))
  }

  // ---------- the pass of an event ----------

  predicate IsTop(kind: NodeKind) {
    kind.SubmitNode? || kind.PassNode?
  }

  /** Node p is the last submit or pass node before n, or the root if there is none. */
  ghost predicate LastTop(rows: seq<Row>, n: nat, p: int) {
    && 0 <= p < n <= |rows| && (IsTop(rows[p].kind) || p == 0)
    && forall i {:trigger rows[i]} :: p < i < n ==> !IsTop(rows[i].kind)
  }

  function CurrentTop(s: State): int {
    if s.pass == NONE then s.submit else s.pass
  }

  /** Events hang from the last submit or pass before them. */
  ghost predicate EventsBelowTops(s: State) {
    && LastTop(s.rows, |s.rows|, CurrentTop(s))
    && forall v: nat {:trigger s.rows[v]} :: v < |s.rows| && s.rows[v].kind.EventNode? ==>
         LastTop(s.rows, v, s.rows[v].eventParent)
  }

  lemma LastTopGrow(rows: seq<Row>, more: seq<Row>, n: nat, p: int)
    requires rows <= more && LastTop(rows, n, p)
    ensures LastTop(more, n, p)
  {
    assert forall i :: 0 <= i < |rows| ==> more[i] == rows[i];
  }

  /** Nodes that are neither submits nor passes nor events. */
  lemma BelowTopsGrow(s: State, t: State)
    requires EventsBelowTops(s) && s.rows <= t.rows && t.submit == s.submit && t.pass == s.pass
    requires forall i :: |s.rows| <= i < |t.rows| ==> !IsTop(t.rows[i].kind) && !t.rows[i].kind.EventNode?
    ensures EventsBelowTops(t)
  {
    forall v: nat | v < |t.rows| && t.rows[v].kind.EventNode?
      ensures LastTop(t.rows, v, t.rows[v].eventParent)
    {
      assert t.rows[v] == s.rows[v];
      LastTopGrow(s.rows, t.rows, v, s.rows[v].eventParent);
    }
    LastTopGrow(s.rows, t.rows, |s.rows|, CurrentTop(s));
    assert forall i :: CurrentTop(s) < i < |s.rows| ==> t.rows[i] == s.rows[i];
  }

  /** A new submit or pass at the end. */
  lemma BelowTopsTop(s: State, t: State)
    requires EventsBelowTops(s) && s.rows <= t.rows && |s.rows| < |t.rows|
    requires forall i :: |s.rows| <= i < |t.rows| ==> !t.rows[i].kind.EventNode?
    requires IsTop(t.rows[|t.rows| - 1].kind) && CurrentTop(t) == |t.rows| - 1
    ensures EventsBelowTops(t)
  {
    forall v: nat | v < |t.rows| && t.rows[v].kind.EventNode?
      ensures LastTop(t.rows, v, t.rows[v].eventParent)
    {
      assert t.rows[v] == s.rows[v];
      LastTopGrow(s.rows, t.rows, v, s.rows[v].eventParent);
    }
  }

  /** A new event at the end. */
  lemma BelowTopsEvent(s: State, t: State)
    requires EventsBelowTops(s) && s.rows <= t.rows && |s.rows| < |t.rows| && t.submit == s.submit && t.pass == s.pass
    requires forall i :: |s.rows| <= i < |t.rows| - 1 ==> !IsTop(t.rows[i].kind) && !t.rows[i].kind.EventNode?
    requires t.rows[|t.rows| - 1].kind.EventNode? && t.rows[|t.rows| - 1].eventParent == CurrentTop(s)
    ensures EventsBelowTops(t)
  {
    assert forall i :: 0 <= i < |s.rows| ==> t.rows[i] == s.rows[i];
    assert LastTop(t.rows, |t.rows| - 1, CurrentTop(s));
    assert LastTop(t.rows, |t.rows|, CurrentTop(s));
    forall v: nat | v < |t.rows| && t.rows[v].kind.EventNode?
      ensures LastTop(t.rows, v, t.rows[v].eventParent)
    {
      if v < |s.rows| {
        LastTopGrow(s.rows, t.rows, v, s.rows[v].eventParent);
      }
    }
  }

  lemma BelowTopsPacket(s: State, p: Packet)
    requires EventsBelowTops(s) && Recorded(s) && IsTyped(p)
    ensures EventsBelowTops(AfterPacket(s, p))
  {
    hide AfterPacket, PacketNodes, Recorded, EventsBelowTops;
    PacketEffect(s, p);
    NodesShape(s, p);
    var t := AfterPacket(s, p);
    RecordedPassIs(s);
    if IsEventHeader(p.header) {
      BelowTopsEvent(s, t);
    } else if OpensPass(p.header) {
      BelowTopsTop(s, t);
    } else {
      BelowTopsGrow(s, t);
    }
  }

  lemma RecordedPassIs(s: State)
    requires Recorded(s)
    ensures s.pass >= NONE && |s.eventStarts| == (if s.pass < 0 then 0 else 2) + (if s.newEvent then 0 else 1)
  {
  }

  lemma BelowTopsStep(s: State, cb: Callback)
    requires EventsBelowTops(s) && Recorded(s)
    ensures EventsBelowTops(Step(s, cb))
  {
    hide AfterPacket, Recorded, EventsBelowTops;
    match cb
    case SubmitStart => BelowTopsTop(s, Step(s, cb));
    case SubmitEnd(presents) => BelowTopsGrow(s, Step(s, cb));
    case IbStart(ib, index) => BelowTopsGrow(s, Step(s, cb));
    case IbEnd => BelowTopsGrow(s, Step(s, cb));
    case OnPacket(p) =>
      if IsTyped(p) {
        BelowTopsPacket(s, p);
      } else {
        Untyped(s, p);
      }
  }

  lemma {:induction false} BelowTopsRun(flatten: bool, cbs: seq<Callback>)
    ensures EventsBelowTops(Run(Start(flatten), cbs))
  {
    if cbs != [] {
      hide Step, EventsBelowTops, Recorded;
      var most := cbs[..|cbs| - 1];
      BelowTopsRun(flatten, most);
      StartRecorded(flatten);
      RecordedRun(Start(flatten), most);
      BelowTopsStep(Run(Start(flatten), most), cbs[|cbs| - 1]);
    }
  }

  // ---------- what the correlator makes of it ----------

  /** After the last submit or pass node, the correlator is in a tile pass exactly if that is one. */
  lemma {:induction false} InTileIs(s: State, gfxr: seq<GfxrRows.Row>, n: nat, p: int)
    requires Filtering(s) && LastTop(s.rows, n, p)
    ensures PerfDraws.InTile(NodesOf(s, gfxr), n) <==> IsTile(s.rows, p)
    decreases n
  {
    hide AfterBinning;
    assert n - 1 in s.filters.binningOnly <==> IsTile(s.rows, n - 1);
    if p < n - 1 {
      InTileIs(s, gfxr, n - 1, p);
    } else if n > 1 || IsTop(s.rows[0].kind) {
      assert s.rows[p].kind.PassNode? || !IsTile(s.rows, p);
    }
  }

  /** In every capture the draws that the correlator maps to earlier ones are exactly those below a tile or
      resolve pass. */
  lemma AliasIffBelowTile(flatten: bool, cbs: seq<Callback>, gfxr: seq<GfxrRows.Row>, v: nat)
    requires v < |Run(Start(flatten), cbs).rows|
    ensures var s := Run(Start(flatten), cbs);
      PerfDraws.IsAlias(NodesOf(s, gfxr), v) <==>
        IsDraw(s.rows[v].kind) && s.rows[v].eventParent >= 0 && IsTile(s.rows, s.rows[v].eventParent)
  {
    hide Run, Filtering;
    var s := Run(Start(flatten), cbs);
    BelowTopsRun(flatten, cbs);
    FiltersRun(flatten, cbs);
    if IsDraw(s.rows[v].kind) {
      InTileIs(s, gfxr, v, s.rows[v].eventParent);
    }
  }

  /** The k-th of the n draws of a tile pass that ends at node b, after m first-instance draws, in a capture. */
  lemma TileDrawOfCapture(flatten: bool, cbs: seq<Callback>, gfxr: seq<GfxrRows.Row>, b: nat, k: nat)
    requires var nodes := NodesOf(Run(Start(flatten), cbs), gfxr);
      b <= |nodes| && (b < |nodes| ==> PerfDraws.IsBoundary(nodes[b])) && k < |PerfDraws.AliasRun(nodes, b)|
    ensures var s := Run(Start(flatten), cbs);
      var nodes := NodesOf(s, gfxr);
      var d, n, m := PerfDraws.AliasRun(nodes, b)[k], |PerfDraws.AliasRun(nodes, b)|, |PerfDraws.Actuals(nodes, b)|;
      && d < |s.rows| && IsDraw(s.rows[d].kind) && s.rows[d].eventParent >= 0 && IsTile(s.rows, s.rows[d].eventParent)
      && PerfDraws.DrawOf(nodes, d) == if n <= m then Some(m - n + k) else None
  {
    hide Run, PerfDraws.DrawOf, PerfDraws.AliasRun, PerfDraws.Actuals;
    var s := Run(Start(flatten), cbs);
    var nodes := NodesOf(s, gfxr);
    PerfDraws.TileDraw(nodes, b, k);
    var d := PerfDraws.AliasRun(nodes, b)[k];
    assert nodes[d].DrawNode?;
    AliasIffBelowTile(flatten, cbs, gfxr, d);
  }

  /** In a capture without GFXR commands every number is the place of a listed draw. */
  lemma Pm4NumbersInRange(s: State, i: nat)
    requires i < |s.rows| && PerfDraws.DrawOf(NodesOf(s, []), i).Some?
    ensures PerfDraws.DrawOf(NodesOf(s, []), i).value < |PerfDraws.DrawToNode(NodesOf(s, []))|
  {
    hide PerfDraws.DrawOf;
    NoneInPm4(s, [], |s.rows|);
    PerfDraws.NumbersInRangeIff(NodesOf(s, []));
  }

  /** The draw and dispatch commands among the first n GFXR rows. */
  function DrawRows(gfxr: seq<GfxrRows.Row>, n: nat): nat
    requires n <= |gfxr|
  {
    if n == 0 then 0 else DrawRows(gfxr, n - 1) + if gfxr[n - 1].node.kind == GfxrRows.DrawNode then 1 else 0
  }

  lemma {:induction false} GfxrsCounted(s: State, gfxr: seq<GfxrRows.Row>, n: nat)
    requires n <= |gfxr|
    ensures |PerfDraws.Gfxrs(NodesOf(s, gfxr), |s.rows| + n)| == DrawRows(gfxr, n)
  {
    if n > 0 {
      GfxrsCounted(s, gfxr, n - 1);
    } else {
      NoneInPm4(s, gfxr, |s.rows|);
    }
  }

  lemma {:induction false} NoneInPm4(s: State, gfxr: seq<GfxrRows.Row>, n: nat)
    requires n <= |s.rows|
    ensures PerfDraws.Gfxrs(NodesOf(s, gfxr), n) == []
  {
    if n > 0 {
      NoneInPm4(s, gfxr, n - 1);
    }
  }

  /** The draws of a GFXR capture are counted, and its other nodes have no number. */
  lemma GfxrNumbers(s: State, gfxr: seq<GfxrRows.Row>, i: nat)
    requires i < |gfxr|
    ensures PerfDraws.DrawOf(NodesOf(s, gfxr), |s.rows| + i) ==
      if gfxr[i].node.kind == GfxrRows.DrawNode then Some(DrawRows(gfxr, i)) else None
  {
    hide PerfDraws.Gfxrs, PerfDraws.Actuals, PerfDraws.AliasRun, PerfDraws.RunEnd, PerfDraws.InTile;
    GfxrsCounted(s, gfxr, i);
  }

  /** A submit of one buffer with one draw packet. */
  function OneDraw(): seq<Callback> {
    var p := Packet(Type7(IsEvent(Draw)), []);
    SubmitTrace([Buffer(Normal, 0, [Emit(p)], Ends)], 0)
  }

  lemma OneDrawIs()
    ensures var p := Packet(Type7(IsEvent(Draw)), []);
      && OneDraw() == [SubmitStart, IbStart(Normal, 0), OnPacket(p), IbEnd, SubmitEnd(0)]
      && AllWellFormed([Buffer(Normal, 0, [Emit(p)], Ends)])
  {
    var p := Packet(Type7(IsEvent(Draw)), []);
    var b := Buffer(Normal, 0, [Emit(p)], Ends);
    assert ItemTraces(b, 0) == [] && ItemTraces(b, 1) == [OnPacket(p)] && WellFormedItems(b, 0);
    assert Trace(b) == [IbStart(Normal, 0), OnPacket(p), IbEnd];
    assert Traces([b], 0) == [] && Traces([b], 1) == Trace(b);
  }

  lemma RunFive(s: State, a: Callback, b: Callback, c: Callback, d: Callback, e: Callback)
    ensures Run(s, [a, b, c, d, e]) == Step(Step(Step(Step(Step(s, a), b), c), d), e)
  {
    hide Step, Run;
    RunSingle(s, a);
    RunOne(s, [a], b);
    RunOne(s, [a, b], c);
    RunOne(s, [a, b, c], d);
    RunOne(s, [a, b, c, d], e);
    assert [a] + [b] == [a, b] && [a, b] + [c] == [a, b, c] && [a, b, c] + [d] == [a, b, c, d];
    assert [a, b, c, d] + [e] == [a, b, c, d, e];
  }

  lemma BeforeDraw()
    ensures var s := StartIb(StartSubmit(Start(true)), Normal, 0);
      && |s.rows| == 3 && s.rows[0].kind == RootNode && s.rows[1].kind == SubmitNode
           && s.rows[2].kind == IbNode(Normal, 0)
      && s.events == []
  {
    hide IbParent;
  }

  lemma DrawNodes(s: State)
    requires s.events == []
    ensures var p := Packet(Type7(IsEvent(Draw)), []);
      |PacketNodes(s, p)| == 2 && PacketNodes(s, p)[0].kind.PacketNode?
        && PacketNodes(s, p)[1].kind == EventNode(0, Draw)
  {
  }

  lemma OneDrawRows()
    ensures var rows := Run(Start(true), OneDraw()).rows;
      && |rows| == 5 && rows[0].kind == RootNode && rows[1].kind == SubmitNode && rows[2].kind == IbNode(Normal, 0)
      && rows[3].kind.PacketNode? && rows[4].kind == EventNode(0, Draw)
  {
    hide AfterPacket, Run, OneDraw, StartIb, EndIb, StartSubmit, PacketNodes;
    OneDrawIs();
    var p := Packet(Type7(IsEvent(Draw)), []);
    RunFive(Start(true), SubmitStart, IbStart(Normal, 0), OnPacket(p), IbEnd, SubmitEnd(0));
    BeforeDraw();
    var s := StartIb(StartSubmit(Start(true)), Normal, 0);
    PacketRows(s, p);
    DrawNodes(s);
    EndKeepsRows(AfterPacket(s, p));
  }

  /** A capture of one PM4 draw beside two GFXR draws: the second of these has a number past the list. */
  lemma NumberOutOfRange()
    ensures var draw := GfxrRows.Row(GfxrRows.Node(GfxrRows.DrawNode, GfxrRows.NoDesc), 0);
      var nodes := NodesOf(Run(Start(true), OneDraw()), [draw, draw]);
      |nodes| == 7 && PerfDraws.DrawOf(nodes, 6) == Some(1) && PerfDraws.DrawToNode(nodes) == [4]
  {
    hide Run, OneDraw;
    OneDrawRows();
    var draw := GfxrRows.Row(GfxrRows.Node(GfxrRows.DrawNode, GfxrRows.NoDesc), 0);
    var nodes := NodesOf(Run(Start(true), OneDraw()), [draw, draw]);
    assert nodes[0].OtherNode? && nodes[1].SubmitNode? && nodes[2].OtherNode? && nodes[3].OtherNode?;
    assert nodes[4].DrawNode? && nodes[5].GfxrDrawNode? && nodes[6].GfxrDrawNode?;
    OneOfTwo(nodes);
  }

  lemma OneOfTwo(nodes: seq<PerfDraws.Node>)
    requires |nodes| == 7 && nodes[0].OtherNode? && nodes[1].SubmitNode? && nodes[2].OtherNode? && nodes[3].OtherNode?
    requires nodes[4].DrawNode? && nodes[5].GfxrDrawNode? && nodes[6].GfxrDrawNode?
    ensures PerfDraws.DrawOf(nodes, 6) == Some(1) && PerfDraws.DrawToNode(nodes) == [4]
  {
    hide PerfDraws.InTile;
    assert PerfDraws.Gfxrs(nodes, 0) == PerfDraws.Gfxrs(nodes, 1) == PerfDraws.Gfxrs(nodes, 2) == [];
    assert PerfDraws.Gfxrs(nodes, 3) == PerfDraws.Gfxrs(nodes, 4) == PerfDraws.Gfxrs(nodes, 5) == [];
    assert PerfDraws.Gfxrs(nodes, 6) == [5];
    assert PerfDraws.Actuals(nodes, 0) == PerfDraws.Actuals(nodes, 1) == PerfDraws.Actuals(nodes, 2) == [];
    assert PerfDraws.Actuals(nodes, 3) == PerfDraws.Actuals(nodes, 4) == [];
    TileNeedsPass(nodes, 4);
    assert PerfDraws.Actuals(nodes, 5) == PerfDraws.Actuals(nodes, 6) == PerfDraws.Actuals(nodes, 7) == [4];
  }

  lemma {:induction false} TileNeedsPass(nodes: seq<PerfDraws.Node>, n: nat)
    requires n <= |nodes| && forall i :: 0 <= i < n ==> !nodes[i].PassNode?
    ensures !PerfDraws.InTile(nodes, n)
  {
    if n > 0 {
      TileNeedsPass(nodes, n - 1);
    }
  }
}
