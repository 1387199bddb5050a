/** PerfMetricsDataProvider::Correlator::ExtractDraws: numbering the draws of a command hierarchy. */
module PerfDraws {
  import opened Wrappers

  /** What the correlator tells apart. A tile pass is one that the binning-only filter leaves out. */
  datatype Node = SubmitNode | PassNode(tile: bool) | DrawNode | GfxrDrawNode | OtherNode

  predicate IsBoundary(n: Node) {
    n.SubmitNode? || n.PassNode?
  }

  /** Before node i the last submit or pass node is a tile pass. */
  predicate InTile(nodes: seq<Node>, i: nat)
    requires i <= |nodes|
  {
    if i == 0 then false
    else match nodes[i - 1]
         case SubmitNode => false
         case PassNode(tile) => tile
         case _ => InTile(nodes, i - 1)
  }

  predicate IsActual(nodes: seq<Node>, i: nat)
    requires i < |nodes|
  {
    nodes[i].DrawNode? && !InTile(nodes, i)
  }

  predicate IsAlias(nodes: seq<Node>, i: nat)
    requires i < |nodes|
  {
    nodes[i].DrawNode? && InTile(nodes, i)
  }

  /** The first-instance draws among the first n nodes. */
  function Actuals(nodes: seq<Node>, n: nat): seq<nat>
    requires n <= |nodes|
  {
    if n == 0 then [] else Actuals(nodes, n - 1) + if IsActual(nodes, n - 1) then [n - 1] else []
  }

  function Gfxrs(nodes: seq<Node>, n: nat): seq<nat>
    requires n <= |nodes|
  {
    if n == 0 then [] else Gfxrs(nodes, n - 1) + if nodes[n - 1].GfxrDrawNode? then [n - 1] else []
  }

  /** The draws since the last submit or pass node before n, if that was a tile pass. */
  function AliasRun(nodes: seq<Node>, n: nat): (r: seq<nat>)
    requires n <= |nodes|
    ensures forall k :: 0 <= k < |r| ==> r[k] < n
  {
    if n == 0 || IsBoundary(nodes[n - 1]) then []
    else AliasRun(nodes, n - 1) + if IsAlias(nodes, n - 1) then [n - 1] else []
  }

  /** Where the stretch that node i lies in ends. */
  function RunEnd(nodes: seq<Node>, i: nat): (e: nat)
    requires i <= |nodes|
    ensures i <= e <= |nodes|
    decreases |nodes| - i
  {
    if i == |nodes| || IsBoundary(nodes[i]) then i else RunEnd(nodes, i + 1)
  }

  /** The draw that the k-th of n tile draws stands for, after m first-instance draws. */
  function AliasDraw(k: nat, n: nat, m: nat): Option<nat> {
    if n <= m then Some(m - n + k) else None
  }

  /** The draw number of a node: first-instance draws and GFXR draws are counted, and the draws of a tile
      pass stand for the last first-instance draws before it. */
  function DrawOf(nodes: seq<Node>, i: nat): Option<nat>
    requires i < |nodes|
  {
    if nodes[i].GfxrDrawNode? then Some(|Gfxrs(nodes, i)|)
    else if IsActual(nodes, i) then Some(|Actuals(nodes, i)|)
    else if IsAlias(nodes, i) then
      AliasDraw(|AliasRun(nodes, i)|, |AliasRun(nodes, RunEnd(nodes, i))|, |Actuals(nodes, i)|)
    else None
  }

  // ---------- counting ----------

  lemma {:induction false} ActualAt(nodes: seq<Node>, n: nat, k: nat)
    requires n <= |nodes| && k < |Actuals(nodes, n)|
    ensures var d := Actuals(nodes, n)[k]; d < n && IsActual(nodes, d) && |Actuals(nodes, d)| == k
  {
    if k < |Actuals(nodes, n - 1)| {
      ActualAt(nodes, n - 1, k);
    }
  }

  lemma {:induction false} ActualIs(nodes: seq<Node>, n: nat, i: nat)
    requires i < n <= |nodes| && IsActual(nodes, i)
    ensures |Actuals(nodes, i)| < |Actuals(nodes, n)| && Actuals(nodes, n)[|Actuals(nodes, i)|] == i
  {
    if i < n - 1 {
      ActualIs(nodes, n - 1, i);
    }
  }

  /** Counting the draws before a node numbers them. */
  lemma ActualsAre(nodes: seq<Node>, n: nat)
    requires n <= |nodes|
    ensures var s := Actuals(nodes, n);
      && (forall k {:trigger s[k]} :: 0 <= k < |s| ==> s[k] < n && IsActual(nodes, s[k]) && |Actuals(nodes, s[k])| == k)
      && forall i: nat {:trigger IsActual(nodes, i)} :: i < n && IsActual(nodes, i) ==>
           |Actuals(nodes, i)| < |s| && s[|Actuals(nodes, i)|] == i
  {
    hide Actuals, IsActual;
    forall k: nat | k < |Actuals(nodes, n)|
      ensures var d := Actuals(nodes, n)[k]; d < n && IsActual(nodes, d) && |Actuals(nodes, d)| == k
    {
      ActualAt(nodes, n, k);
    }
    forall i: nat | i < n && IsActual(nodes, i)
      ensures |Actuals(nodes, i)| < |Actuals(nodes, n)| && Actuals(nodes, n)[|Actuals(nodes, i)|] == i
    {
      ActualIs(nodes, n, i);
    }
  }

  lemma {:induction false} GfxrAt(nodes: seq<Node>, n: nat, k: nat)
    requires n <= |nodes| && k < |Gfxrs(nodes, n)|
    ensures var d := Gfxrs(nodes, n)[k]; d < n && nodes[d].GfxrDrawNode? && |Gfxrs(nodes, d)| == k
  {
    if k < |Gfxrs(nodes, n - 1)| {
      GfxrAt(nodes, n - 1, k);
    }
  }

  lemma {:induction false} GfxrIs(nodes: seq<Node>, n: nat, i: nat)
    requires i < n <= |nodes| && nodes[i].GfxrDrawNode?
    ensures |Gfxrs(nodes, i)| < |Gfxrs(nodes, n)| && Gfxrs(nodes, n)[|Gfxrs(nodes, i)|] == i
  {
    if i < n - 1 {
      GfxrIs(nodes, n - 1, i);
    }
  }

  lemma GfxrsAre(nodes: seq<Node>, n: nat)
    requires n <= |nodes|
    ensures var s := Gfxrs(nodes, n);
      && (forall k {:trigger s[k]} :: 0 <= k < |s| ==>
           s[k] < n && nodes[s[k]].GfxrDrawNode? && |Gfxrs(nodes, s[k])| == k)
      && forall i: nat {:trigger nodes[i]} :: i < n && nodes[i].GfxrDrawNode? ==>
           |Gfxrs(nodes, i)| < |s| && s[|Gfxrs(nodes, i)|] == i
  {
    hide Gfxrs;
    forall k: nat | k < |Gfxrs(nodes, n)|
      ensures var d := Gfxrs(nodes, n)[k]; d < n && nodes[d].GfxrDrawNode? && |Gfxrs(nodes, d)| == k
    {
      GfxrAt(nodes, n, k);
    }
    forall i: nat | i < n && nodes[i].GfxrDrawNode?
      ensures |Gfxrs(nodes, i)| < |Gfxrs(nodes, n)| && Gfxrs(nodes, n)[|Gfxrs(nodes, i)|] == i
    {
      GfxrIs(nodes, n, i);
    }
  }

  lemma {:induction false} ActualsGrow(nodes: seq<Node>, i: nat, n: nat)
    requires i <= n <= |nodes|
    ensures |Actuals(nodes, i)| <= |Actuals(nodes, n)|
    decreases n
  {
    if i < n {
      ActualsGrow(nodes, i, n - 1);
    }
  }

  lemma {:induction false} RunGoesOn(nodes: seq<Node>, i: nat, n: nat)
    requires i <= n <= |nodes| && n <= RunEnd(nodes, i)
    ensures RunEnd(nodes, n) == RunEnd(nodes, i)
    decreases n - i
  {
    if i < n {
      RunGoesOn(nodes, i + 1, n);
    }
  }

  /** Node i is an alias draw whose pass is still going on at n. */
  predicate IsPending(nodes: seq<Node>, i: nat, n: nat)
    requires n <= |nodes|
  {
    i < n && IsAlias(nodes, i) && n <= RunEnd(nodes, i)
  }

  lemma PendingStep(nodes: seq<Node>, n: nat)
    requires n < |nodes|
    ensures forall i: nat :: IsPending(nodes, i, n + 1) <==>
      (IsPending(nodes, i, n) && !IsBoundary(nodes[n])) || (i == n && IsAlias(nodes, n))
  {
    forall i: nat | i < n && n <= RunEnd(nodes, i)
      ensures n + 1 <= RunEnd(nodes, i) <==> !IsBoundary(nodes[n])
    {
      RunGoesOn(nodes, i, n);
    }
  }

  /** The current run holds the pending alias draws, and no first-instance draw has come since they began. */
  lemma {:induction false} AliasRunIs(nodes: seq<Node>, n: nat)
    requires n <= |nodes|
    ensures var s := AliasRun(nodes, n);
      && (forall k :: 0 <= k < |s| ==> IsPending(nodes, s[k], n) && |AliasRun(nodes, s[k])| == k)
      && (forall i: nat :: IsPending(nodes, i, n) ==> |AliasRun(nodes, i)| < |s| && s[|AliasRun(nodes, i)|] == i)
      && (forall i: nat :: IsPending(nodes, i, n) ==> InTile(nodes, n) && |Actuals(nodes, i)| == |Actuals(nodes, n)|)
  {
    if n > 0 {
      AliasRunIs(nodes, n - 1);
      PendingStep(nodes, n - 1);
    }
  }

  /** A run ends where its draws say it ends. */
  lemma RunOf(nodes: seq<Node>, n: nat, i: nat)
    requires n <= |nodes| && IsPending(nodes, i, n) && (n < |nodes| ==> IsBoundary(nodes[n]))
    ensures RunEnd(nodes, i) == n
      && DrawOf(nodes, i) == AliasDraw(|AliasRun(nodes, i)|, |AliasRun(nodes, n)|, |Actuals(nodes, n)|)
  {
    RunGoesOn(nodes, i, n);
    AliasRunIs(nodes, n);
  }

  // ---------- the algorithm ----------

  /** Alias draws of the passes that have ended before node n are numbered, and nothing else is. */
  ghost predicate Deduped(nodes: seq<Node>, n: nat, draws: map<nat, nat>)
    requires n <= |nodes|
  {
    forall i: nat :: i in draws <==> i < n && IsAlias(nodes, i) && !IsPending(nodes, i, n) && DrawOf(nodes, i).Some?
  }

  ghost predicate Numbered(nodes: seq<Node>, draws: map<nat, nat>) {
    forall i: nat :: i in draws ==> i < |nodes| && DrawOf(nodes, i) == Some(draws[i])
  }

  /** Numbers the alias draws of a pass that ends at node n. */
  method Dedupe(ghost nodes: seq<Node>, ghost n: nat, aliases: seq<nat>, actuals: seq<nat>,
                draws: map<nat, nat>)
    returns (r: map<nat, nat>)
    requires n <= |nodes| && (n < |nodes| ==> IsBoundary(nodes[n]))
    requires aliases == AliasRun(nodes, n) && actuals == Actuals(nodes, n) && Numbered(nodes, draws)
    ensures Numbered(nodes, r)
    ensures forall i: nat :: i in r <==> i in draws || (IsPending(nodes, i, n) && DrawOf(nodes, i).Some?)
  {
    r := draws;
    AliasRunIs(nodes, n);
    forall i: nat | IsPending(nodes, i, n)
      ensures DrawOf(nodes, i) == AliasDraw(|AliasRun(nodes, i)|, |aliases|, |actuals|)
    {
      RunOf(nodes, n, i);
    }
    hide DrawOf, IsPending, AliasRun, Actuals;
    if |aliases| <= |actuals| {
      var base := |actuals| - |aliases|;
      for k := 0 to |aliases|
        invariant Numbered(nodes, r)
        invariant forall i: nat :: i in r <==> i in draws || (exists l :: 0 <= l < k && aliases[l] == i)
      {
        r := r[aliases[k] := base + k];
      }
    }
  }

  ghost predicate Counted(nodes: seq<Node>, list: seq<nat>) {
    forall k :: 0 <= k < |list| ==> list[k] < |nodes| && DrawOf(nodes, list[k]) == Some(k)
  }

  lemma ActualsCounted(nodes: seq<Node>)
    ensures Counted(nodes, Actuals(nodes, |nodes|))
  {
    ActualsAre(nodes, |nodes|);
  }

  lemma GfxrsCounted(nodes: seq<Node>)
    ensures Counted(nodes, Gfxrs(nodes, |nodes|))
  {
    GfxrsAre(nodes, |nodes|);
  }

  /** A numbered node is an alias draw, a first-instance draw or a GFXR draw. */
  lemma AllNumbered(nodes: seq<Node>)
    ensures forall i: nat :: i < |nodes| ==>
      (DrawOf(nodes, i).Some? <==>
        (IsAlias(nodes, i) && DrawOf(nodes, i).Some?) || i in Actuals(nodes, |nodes|) || i in Gfxrs(nodes, |nodes|))
  {
    ActualsAre(nodes, |nodes|);
    GfxrsAre(nodes, |nodes|);
  }

  method NumberAll(ghost nodes: seq<Node>, list: seq<nat>, draws: map<nat, nat>) returns (r: map<nat, nat>)
    requires Numbered(nodes, draws) && Counted(nodes, list)
    ensures Numbered(nodes, r) && forall i: nat :: i in r <==> i in draws || i in list
  {
    hide DrawOf;
    r := draws;
    for k := 0 to |list|
      invariant Numbered(nodes, r) && forall i: nat :: i in r <==> i in draws || i in list[..k]
    {
      r := r[list[k] := k];
      assert list[..k + 1] == list[..k] + [list[k]];
    }
    assert list[..|list|] == list;
  }

  method ExtractDraws(nodes: seq<Node>) returns (drawToNode: seq<nat>, nodeToDraw: map<nat, nat>)
    ensures drawToNode == if Actuals(nodes, |nodes|) != [] then Actuals(nodes, |nodes|) else Gfxrs(nodes, |nodes|)
    ensures forall i: nat :: i in nodeToDraw <==> i < |nodes| && DrawOf(nodes, i).Some?
    ensures forall i: nat :: i in nodeToDraw ==> nodeToDraw[i] == DrawOf(nodes, i).value
  {
    var gfxrs: seq<nat>, actuals: seq<nat>, aliases: seq<nat> := [], [], [];
    var inAliases := false;
    nodeToDraw := map[];
    hide DrawOf;
    for i := 0 to |nodes|
      invariant gfxrs == Gfxrs(nodes, i) && actuals == Actuals(nodes, i) && aliases == AliasRun(nodes, i)
      invariant inAliases == InTile(nodes, i)
      invariant Deduped(nodes, i, nodeToDraw) && Numbered(nodes, nodeToDraw)
    {
      PendingStep(nodes, i);
      if IsBoundary(nodes[i]) {
        nodeToDraw := Dedupe(nodes, i, aliases, actuals, nodeToDraw);
        inAliases, aliases := false, [];
      }
      if nodes[i].PassNode? && nodes[i].tile {
        inAliases := true;
      }
      if nodes[i].GfxrDrawNode? {
        gfxrs := gfxrs + [i];
      } else if nodes[i].DrawNode? {
        if inAliases {
          aliases := aliases + [i];
        } else {
          actuals := actuals + [i];
        }
      }
    }
    nodeToDraw := Dedupe(nodes, |nodes|, aliases, actuals, nodeToDraw);
    ActualsCounted(nodes);
    GfxrsCounted(nodes);
    nodeToDraw := NumberAll(nodes, actuals, nodeToDraw);
    nodeToDraw := NumberAll(nodes, gfxrs, nodeToDraw);
    AllNumbered(nodes);
    drawToNode := if actuals != [] then actuals else gfxrs;
  }

  // ---------- what the numbers mean ----------

  function DrawToNode(nodes: seq<Node>): seq<nat> {
    if Actuals(nodes, |nodes|) != [] then Actuals(nodes, |nodes|) else Gfxrs(nodes, |nodes|)
  }

  /** Every listed draw has its place in the list as its number, and no other node of its kind does. */
  lemma DrawToNodeInverts(nodes: seq<Node>, k: nat)
    requires k < |DrawToNode(nodes)|
    ensures DrawToNode(nodes)[k] < |nodes| && DrawOf(nodes, DrawToNode(nodes)[k]) == Some(k)
  {
    ActualsCounted(nodes);
    GfxrsCounted(nodes);
  }

  lemma FirstInstanceInverts(nodes: seq<Node>, i: nat)
    requires i < |nodes| && IsActual(nodes, i)
    ensures DrawOf(nodes, i).Some? && DrawOf(nodes, i).value < |DrawToNode(nodes)|
    ensures DrawToNode(nodes)[DrawOf(nodes, i).value] == i
  {
    ActualsAre(nodes, |nodes|);
  }

  /** The k-th of the n draws of a tile pass that ends at node b, after m first-instance draws. */
  lemma TileDraw(nodes: seq<Node>, b: nat, k: nat)
    requires b <= |nodes| && (b < |nodes| ==> IsBoundary(nodes[b])) && k < |AliasRun(nodes, b)|
    ensures var d, n, m := AliasRun(nodes, b)[k], |AliasRun(nodes, b)|, |Actuals(nodes, b)|;
      d < b && IsAlias(nodes, d) && DrawOf(nodes, d) == if n <= m then Some(m - n + k) else None
  {
    AliasRunIs(nodes, b);
    RunOf(nodes, b, AliasRun(nodes, b)[k]);
  }

  /** Tile passes that follow each other directly stand for the same draws, counted from their ends. */
  lemma ConsecutiveTiles(nodes: seq<Node>, b: nat, c: nat, k: nat, l: nat)
    requires b < c <= |nodes| && nodes[b] == PassNode(true) && RunEnd(nodes, b + 1) == c
    requires k < |AliasRun(nodes, b)| <= |Actuals(nodes, b)| && l < |AliasRun(nodes, c)| <= |Actuals(nodes, c)|
    requires |AliasRun(nodes, b)| - k == |AliasRun(nodes, c)| - l
    ensures DrawOf(nodes, AliasRun(nodes, b)[k]) == DrawOf(nodes, AliasRun(nodes, c)[l]) != None
  {
    hide DrawOf, AliasRun, Actuals;
    RunStops(nodes, b + 1);
    TileDraw(nodes, b, k);
    TileDraw(nodes, c, l);
    NoActualsInTile(nodes, b, c);
  }

  lemma {:induction false} RunStops(nodes: seq<Node>, i: nat)
    requires i <= |nodes|
    ensures RunEnd(nodes, i) < |nodes| ==> IsBoundary(nodes[RunEnd(nodes, i)])
    decreases |nodes| - i
  {
    if i < |nodes| && !IsBoundary(nodes[i]) {
      RunStops(nodes, i + 1);
    }
  }

  lemma {:induction false} NoActualsInTile(nodes: seq<Node>, b: nat, n: nat)
    requires b < n <= |nodes| && nodes[b] == PassNode(true) && n <= RunEnd(nodes, b + 1)
    ensures InTile(nodes, n) && Actuals(nodes, n) == Actuals(nodes, b)
  {
    if n > b + 1 {
      NoActualsInTile(nodes, b, n - 1);
      RunGoesOn(nodes, b + 1, n - 1);
    }
  }

  /** Every number is the place of a listed draw, exactly if there are no more GFXR draws than listed ones. */
  lemma NumbersInRangeIff(nodes: seq<Node>)
    ensures (forall i: nat :: i < |nodes| && DrawOf(nodes, i).Some? ==>
      DrawOf(nodes, i).value < |DrawToNode(nodes)|) <==>
      Actuals(nodes, |nodes|) == [] || |Gfxrs(nodes, |nodes|)| <= |Actuals(nodes, |nodes|)|
  {
    var actuals, gfxrs := Actuals(nodes, |nodes|), Gfxrs(nodes, |nodes|);
    ActualsAre(nodes, |nodes|);
    GfxrsAre(nodes, |nodes|);
    if actuals == [] || |gfxrs| <= |actuals| {
      forall i: nat | i < |nodes| && DrawOf(nodes, i).Some?
        ensures DrawOf(nodes, i).value < |DrawToNode(nodes)|
      {
        if IsAlias(nodes, i) {
          AliasInRange(nodes, i);
        }
      }
    } else {
      var i := gfxrs[|actuals|];
      assert DrawOf(nodes, i) == Some(|actuals|);
    }
  }

  lemma AliasInRange(nodes: seq<Node>, i: nat)
    requires i < |nodes| && IsAlias(nodes, i) && DrawOf(nodes, i).Some?
    ensures DrawOf(nodes, i).value < |Actuals(nodes, |nodes|)|
  {
    var e := RunEnd(nodes, i);
    RunGoesOn(nodes, i, e);
    assert IsPending(nodes, i, e) by {
      RunIsLater(nodes, i);
    }
    AliasRunIs(nodes, e);
    ActualsGrow(nodes, i, |nodes|);
  }

  lemma RunIsLater(nodes: seq<Node>, i: nat)
    requires i < |nodes| && nodes[i].DrawNode?
    ensures i < RunEnd(nodes, i)
  {
  }
}
