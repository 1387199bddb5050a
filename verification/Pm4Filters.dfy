/** The lists of pass nodes that each view filter leaves out. */
module Pm4Filters {
  import opened Pm4Trace
  import opened Pm4Effects
  import opened Pm4Stacks
  import opened Pm4Events

  predicate IsPass(rows: seq<Row>, m: nat, submit: int, marker: Marker) {
    m < |rows| && rows[m].kind == PassNode(marker) && rows[m].eventParent == submit
  }

  /** A tile or resolve pass. */
  predicate IsTile(rows: seq<Row>, m: nat) {
    m < |rows| && rows[m].kind.PassNode? && (rows[m].kind.marker == BinRenderStart || rows[m].kind.marker == BinResolve)
  }

  /** The submit had a binning visibility pass before hi, and no resolve pass since. */
  ghost predicate AfterBinning(rows: seq<Row>, submit: int, hi: nat) {
    exists v: nat {:trigger IsPass(rows, v, submit, BinVisibility)} ::
      v < hi && IsPass(rows, v, submit, BinVisibility) && NoResolve(rows, submit, v, hi)
  }

  ghost predicate NoResolve(rows: seq<Row>, submit: int, v: nat, hi: nat) {
    forall u: nat {:trigger IsPass(rows, u, submit, BinResolve)} :: v < u < hi ==> !IsPass(rows, u, submit, BinResolve)
  }

  /** A tile or resolve pass that does not belong to the first tile after a binning pass. */
  ghost predicate IsLaterTile(rows: seq<Row>, m: nat) {
    IsTile(rows, m) && !AfterBinning(rows, rows[m].eventParent, m)
  }

  /** Exactly which passes each filter leaves out. */
  ghost predicate FiltersAre(rows: seq<Row>, f: Filters) {
    && (forall m: nat :: m in f.binningOnly <==> IsTile(rows, m))
    && (forall m: nat :: m in f.binningAndFirstTile <==> IsLaterTile(rows, m))
    && (forall m: nat :: m in f.firstTileOnly <==>
          IsLaterTile(rows, m) || (m < |rows| && rows[m].kind == PassNode(BinVisibility)))
  }

  ghost predicate Filtering(s: State) {
    && FiltersAre(s.rows, s.filters) && (s.firstTile <==> AfterBinning(s.rows, s.submit, |s.rows|))
    && s.submit < |s.rows|
    && forall m: nat {:trigger s.rows[m]} :: m < |s.rows| && s.rows[m].kind.PassNode? ==>
         s.rows[m].eventParent <= s.submit
  }

  lemma AfterBinningGrow(rows: seq<Row>, more: seq<Row>, submit: int, hi: nat)
    requires rows <= more && hi <= |rows|
    ensures AfterBinning(rows, submit, hi) <==> AfterBinning(more, submit, hi)
  {
    assert forall x: nat, marker :: x < hi ==> (IsPass(rows, x, submit, marker) <==> IsPass(more, x, submit, marker));
    forall v: nat | v < hi
      ensures NoResolve(rows, submit, v, hi) <==> NoResolve(more, submit, v, hi)
    {
    }
  }

  /** Nodes that are no passes. */
  lemma AfterBinningPast(rows: seq<Row>, more: seq<Row>, submit: int)
    requires rows <= more && forall i :: |rows| <= i < |more| ==> !more[i].kind.PassNode?
    ensures AfterBinning(rows, submit, |rows|) <==> AfterBinning(more, submit, |more|)
  {
    AfterBinningGrow(rows, more, submit, |rows|);
    assert forall x: nat, marker :: x >= |rows| ==> !IsPass(more, x, submit, marker);
    forall v: nat | v < |rows|
      ensures NoResolve(more, submit, v, |rows|) <==> NoResolve(more, submit, v, |more|)
    {
    }
  }

  lemma LaterTileGrow(rows: seq<Row>, more: seq<Row>, m: nat)
    requires rows <= more && m < |rows|
    ensures IsTile(rows, m) <==> IsTile(more, m)
    ensures IsLaterTile(rows, m) <==> IsLaterTile(more, m)
  {
    AfterBinningGrow(rows, more, rows[m].eventParent, m);
  }

  lemma FiltersGrow(rows: seq<Row>, more: seq<Row>, f: Filters)
    requires FiltersAre(rows, f) && rows <= more && forall i :: |rows| <= i < |more| ==> !more[i].kind.PassNode?
    ensures FiltersAre(more, f)
  {
    forall m: nat
      ensures IsTile(rows, m) <==> IsTile(more, m)
      ensures IsLaterTile(rows, m) <==> IsLaterTile(more, m)
    {
      if m < |rows| {
        LaterTileGrow(rows, more, m);
      }
    }
  }

  /** Every callback that makes no pass. */
  lemma FilteringGrow(s: State, t: State)
    requires Filtering(s) && s.rows <= t.rows && forall i :: |s.rows| <= i < |t.rows| ==> !t.rows[i].kind.PassNode?
    requires t.filters == s.filters && t.firstTile == s.firstTile && t.submit == s.submit
    ensures Filtering(t)
  {
    hide FiltersAre, AfterBinning;
    FiltersGrow(s.rows, t.rows, s.filters);
    AfterBinningPast(s.rows, t.rows, s.submit);
    assert forall x: nat :: x < |s.rows| ==> t.rows[x] == s.rows[x];
  }

  lemma FilteringSubmit(s: State)
    requires Filtering(s)
    ensures Filtering(StartSubmit(s))
  {
    hide FiltersAre;
    var t := StartSubmit(s);
    FiltersGrow(s.rows, t.rows, s.filters);
    assert forall x: nat :: x < |s.rows| ==> t.rows[x] == s.rows[x];
  }

  /** A new pass at the end. */
  lemma FiltersPass(rows: seq<Row>, more: seq<Row>, f: Filters, firstTile: bool, submit: nat, marker: Marker)
    requires FiltersAre(rows, f) && rows <= more && |rows| < |more|
    requires forall i :: |rows| <= i < |more| - 1 ==> !more[i].kind.PassNode?
    requires more[|more| - 1] == Row(PassNode(marker), NONE, submit)
    requires firstTile <==> AfterBinning(more, submit, |more| - 1)
    ensures FiltersAre(more, Filtered(f, firstTile, marker, |more| - 1))
  {
    hide AfterBinning;
    forall m: nat | m != |more| - 1
      ensures IsTile(rows, m) <==> IsTile(more, m)
      ensures IsLaterTile(rows, m) <==> IsLaterTile(more, m)
      ensures (m < |rows| && rows[m].kind == PassNode(BinVisibility)) <==>
        (m < |more| && more[m].kind == PassNode(BinVisibility))
    {
      if m < |rows| {
        LaterTileGrow(rows, more, m);
      }
    }
  }

  lemma AfterBinningPass(more: seq<Row>, submit: nat, marker: Marker)
    requires more != [] && more[|more| - 1] == Row(PassNode(marker), NONE, submit)
    ensures AfterBinning(more, submit, |more|) <==>
      FirstTileAfter(AfterBinning(more, submit, |more| - 1), marker)
  {
    var v := |more| - 1;
    if marker == BinVisibility {
      assert IsPass(more, v, submit, BinVisibility) && NoResolve(more, submit, v, |more|);
    } else if marker == BinResolve {
      assert IsPass(more, v, submit, BinResolve);
    } else {
      assert !IsPass(more, v, submit, BinVisibility) && !IsPass(more, v, submit, BinResolve);
      forall u: nat | u < v
        ensures NoResolve(more, submit, u, v) <==> NoResolve(more, submit, u, |more|)
      {
      }
    }
  }

  // ---------- over packets ----------

  lemma FilteringPacket(s: State, p: Packet)
    requires Filtering(s) && IsTyped(p)
    ensures Filtering(AfterPacket(s, p))
  {
    hide AfterPacket, PacketNodes, FiltersAre, AfterBinning, Filtered;
    PacketRows(s, p);
    PacketEffect(s, p);
    NodesShape(s, p);
    var t, more := AfterPacket(s, p), s.rows + PacketNodes(s, p);
    if OpensPass(p.header) {
      var marker, most := p.header.action.marker, more[..|more| - 1];
      AfterBinningPast(s.rows, most, s.submit);
      AfterBinningGrow(most, more, s.submit, |most|);
      FiltersPass(s.rows, more, s.filters, s.firstTile, s.submit, marker);
      AfterBinningPass(more, s.submit, marker);
      assert forall x: nat :: x < |s.rows| ==> more[x] == s.rows[x];
    } else {
      FilteringGrow(s, t);
    }
  }

  lemma FilteringStep(s: State, cb: Callback)
    requires Filtering(s)
    ensures Filtering(Step(s, cb))
  {
    hide AfterPacket, Filtering;
    match cb
    case SubmitStart => FilteringSubmit(s);
    case SubmitEnd(presents) => FilteringGrow(s, Step(s, cb));
    case IbStart(ib, index) => FilteringGrow(s, Step(s, cb));
    case IbEnd => FilteringGrow(s, Step(s, cb));
    case OnPacket(p) =>
      if IsTyped(p) {
        FilteringPacket(s, p);
      } else {
        Untyped(s, p);
      }
  }

  /** For every trace the filters leave out exactly: all tile and resolve passes; the binning visibility
      passes and all but the first tile after one; and all but the first tile after one. */
  lemma {:induction false} FiltersRun(flatten: bool, cbs: seq<Callback>)
    ensures Filtering(Run(Start(flatten), cbs))
  {
    if cbs != [] {
      hide Step, Filtering;
      FiltersRun(flatten, cbs[..|cbs| - 1]);
      FilteringStep(Run(Start(flatten), cbs[..|cbs| - 1]), cbs[|cbs| - 1]);
    }
  }
}
