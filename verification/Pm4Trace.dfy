/** CommandHierarchyCreator as a state machine over the emulator's callbacks. */
module Pm4Trace {
  import opened Forests

  datatype IbType = Normal | Call | Chain | ContextSwitch | BinPrefix | BinCommon | FixedStrideDrawTable | DrawState

  datatype Marker =
    | DirectRender | BinVisibility | BinDirect | BinRenderStart | BinEndOfDraws | BinResolve | Compute | BinRenderEnd
    | OtherMarker

  /** A resolve or clear between system memory and GMEM, of color or of depth. */
  datatype ResolveType = Store | StoreAndClear | Clear | Load

  datatype SyncType = Resolve(operation: ResolveType, depth: bool) | WaitMemWrites | WaitForIdle | WaitForMe

  datatype EventType = Draw | Dispatch | Blit | Sync(sync: SyncType)

  /** What a type-7 packet is to the hierarchy. */
  datatype Action =
    | IsEvent(event: EventType) | StartsBin | EndsBin | DrawsTable | SetsMarker(marker: Marker) | OtherAction

  datatype Header = Type4 | Type7(action: Action) | OtherType

  /** Beside its own node a packet gets nodes for its fields and registers, each under the packet or
      under an earlier one of them: parentOf[k] counts from the packet node. */
  datatype Packet = Packet(header: Header, parentOf: seq<nat>)

  datatype Callback =
    | SubmitStart
    | SubmitEnd(presents: nat)
    | IbStart(ib: IbType, index: nat)
    | IbEnd
    | OnPacket(packet: Packet)

  datatype NodeKind =
    | RootNode
    | SubmitNode
    | IbNode(ib: IbType, index: nat)
    | PacketNode(header: Header)
    | FieldNode
    | EventNode(id: nat, event: EventType)
    | PassNode(marker: Marker)
    | PresentNode

  /** A node with its parents in the submit topology and in the topology of all events. */
  datatype Row = Row(kind: NodeKind, submitParent: int, eventParent: int)

  const NONE: int := -1

  datatype Range = Range(start: nat, end: nat)

  /** The nodes that each filter list leaves out. */
  datatype Filters = Filters(binningOnly: set<nat>, firstTileOnly: set<nat>, binningAndFirstTile: set<nat>)

  datatype State = State(
    rows: seq<Row>,
    submit: nat,
    flatten: bool,
    ibs: seq<nat>,               // open indirect buffers
    ibStarts: seq<nat>,          // their first packets
    newIb: bool,                 // the innermost one has had no packet
    eventStarts: seq<nat>,       // first packets of the open pass and event
    newEvent: bool,              // the next packet starts an event
    pass: int,                   // node of the current pass
    last: nat,                   // last packet node
    startBin: int,
    drawTable: int,
    ibRanges: map<nat, Range>,   // shared children recorded for indirect buffers
    eventRanges: map<nat, Range>, // and for events and passes
    shared: map<nat, seq<nat>>,  // shared children of passes
    events: seq<nat>,            // event nodes
    firstTile: bool,
    filters: Filters)

  function Last(s: seq<nat>): nat {
    if s == [] then 0 else s[|s| - 1]
  }

  function Cut(s: seq<nat>, k: nat): seq<nat> {
    if k <= |s| then s[..|s| - k] else []
  }

  // ---------- submits ----------

  function StartSubmit(s: State): State {
    s.(rows := s.rows + [Row(SubmitNode, ROOT, ROOT)], submit := |s.rows|, ibs := [], ibStarts := [], eventStarts := [],
       pass := NONE, newEvent := true, newIb := true, firstTile := false)
  }

  function Presents(n: nat): (r: seq<Row>)
    ensures |r| == n && forall i :: 0 <= i < n ==> r[i] == Row(PresentNode, NONE, ROOT)
  {
    seq(n, _ => Row(PresentNode, NONE, ROOT))
  }

  function EndSubmit(s: State, presents: nat): State {
    s.(rows := s.rows + Presents(presents))
  }

  // ---------- indirect buffers ----------

  predicate IsChain(rows: seq<Row>, i: nat) {
    i < |rows| && rows[i].kind.IbNode? && rows[i].kind.ib == Chain
  }

  /** The last of the first n open buffers that is not a chain, or else the given parent. */
  function NearestNonChain(rows: seq<Row>, ibs: seq<nat>, n: nat, otherwise: nat): nat
    requires n <= |ibs|
  {
    if n == 0 then otherwise
    else if !IsChain(rows, ibs[n - 1]) then ibs[n - 1]
    else NearestNonChain(rows, ibs, n - 1, otherwise)
  }

  function IbParent(s: State, ib: IbType): nat {
    var parent := if s.ibs == [] then s.submit else Last(s.ibs);
    if s.flatten && ib == Chain then NearestNonChain(s.rows, s.ibs, |s.ibs|, parent) else parent
  }

  /** Bin and draw-table buffers get a field node under the packet that caused them. */
  predicate NeedsField(ib: IbType) {
    ib == BinPrefix || ib == BinCommon || ib == FixedStrideDrawTable
  }

  function FieldParent(s: State, ib: IbType): int {
    if ib == FixedStrideDrawTable then s.drawTable else s.startBin
  }

  function FieldRows(s: State, ib: IbType): seq<Row> {
    if NeedsField(ib) then [Row(FieldNode, FieldParent(s, ib), FieldParent(s, ib))] else []
  }

  function StartIb(s: State, ib: IbType, index: nat): State {
    var rows := s.rows + FieldRows(s, ib);
    s.(rows := rows + [Row(IbNode(ib, index), IbParent(s, ib), NONE)], ibs := s.ibs + [|rows|], newIb := true)
  }

  function TrailingChains(rows: seq<Row>, ibs: seq<nat>, n: nat): (k: nat)
    requires n <= |ibs|
    ensures k <= n
  {
    if n > 0 && IsChain(rows, ibs[n - 1]) then 1 + TrailingChains(rows, ibs, n - 1) else 0
  }

  /** Records the range of the innermost buffer, then closes it, and if it is a chain also the buffers
      that it continues. */
  function EndIb(s: State): State {
    var starts := if s.newIb then s.ibStarts else Cut(s.ibStarts, 1);
    var ranges := if s.newIb then s.ibRanges else s.ibRanges[Last(s.ibs) := Range(Last(s.ibStarts), s.last)];
    var chains := TrailingChains(s.rows, s.ibs, |s.ibs|);
    s.(newIb := false, ibRanges := ranges, ibStarts := Cut(starts, chains), ibs := Cut(s.ibs, chains + 1))
  }

  // ---------- packets ----------

  predicate IsTyped(p: Packet) {
    !p.header.OtherType?
  }

  predicate StartsPass(m: Marker) {
    m in {DirectRender, BinVisibility, BinDirect, BinRenderStart, BinResolve, Compute}
  }

  function Extras(p: Packet, n: nat): (r: seq<Row>)
    ensures |r| == |p.parentOf|
    ensures forall k :: 0 <= k < |r| ==> r[k].kind == FieldNode && n <= r[k].submitParent == r[k].eventParent <= n + k
  {
    seq(|p.parentOf|, k requires 0 <= k < |p.parentOf| =>
      var parent := n + if p.parentOf[k] <= k then p.parentOf[k] else k;
      Row(FieldNode, parent, parent))
  }

  /** The packet's nodes, and the starts it is pushed as. */
  function AddPacket(s: State, p: Packet): State {
    var n := |s.rows|;
    s.(rows := s.rows + [Row(PacketNode(p.header), NONE, NONE)] + Extras(p, n),
       eventStarts := if s.newEvent then s.eventStarts + [n] else s.eventStarts, newEvent := false,
       ibStarts := if s.newIb then s.ibStarts + [n] else s.ibStarts, newIb := false)
  }

  function AddEvent(s: State, n: nat, event: EventType): State {
    var v := |s.rows|;
    s.(rows := s.rows + [Row(EventNode(|s.events|, event), NONE, if s.pass == NONE then s.submit else s.pass)],
       events := s.events + [v], eventRanges := s.eventRanges[v := Range(Last(s.eventStarts), n)],
       newEvent := true, eventStarts := Cut(s.eventStarts, 1))
  }

  /** Ends the current pass at the packet before. */
  function ClosePass(s: State): State {
    if s.pass < 0 then s
    else
      var starts := Cut(s.eventStarts, 1);
      s.(eventStarts := Cut(starts, 1), eventRanges := s.eventRanges[s.pass := Range(Last(starts), s.last)])
  }

  function Filtered(f: Filters, firstTile: bool, marker: Marker, v: nat): Filters {
    if marker == BinVisibility then f.(firstTileOnly := f.firstTileOnly + {v})
    else if marker == BinRenderStart || marker == BinResolve then
      var g := f.(binningOnly := f.binningOnly + {v});
      if firstTile then g
      else g.(firstTileOnly := g.firstTileOnly + {v}, binningAndFirstTile := g.binningAndFirstTile + {v})
    else f
  }

  function FirstTileAfter(firstTile: bool, marker: Marker): bool {
    if marker == BinVisibility then true else if marker == BinResolve then false else firstTile
  }

  function OpenPass(s: State, n: nat, marker: Marker): State {
    var v := |s.rows|;
    s.(rows := s.rows + [Row(PassNode(marker), NONE, s.submit)], pass := v, eventStarts := s.eventStarts + [n],
       newEvent := true, filters := Filtered(s.filters, s.firstTile, marker, v),
       firstTile := FirstTileAfter(s.firstTile, marker))
  }

  function SharedOf(s: State, node: nat): seq<nat> {
    if node in s.shared then s.shared[node] else []
  }

  /** The packet becomes a shared child of the pass it is in. */
  function ShareWithPass(s: State, n: nat): State {
    if s.pass < 0 then s else s.(shared := s.shared[s.pass := SharedOf(s, s.pass) + [n]])
  }

  function Act(s: State, n: nat, header: Header): State {
    match header
    case Type7(IsEvent(event)) => AddEvent(s, n, event)
    case Type7(StartsBin) => s.(startBin := n)
    case Type7(EndsBin) => s.(startBin := NONE)
    case Type7(DrawsTable) => s.(drawTable := n)
    case Type7(SetsMarker(marker)) => if StartsPass(marker) then OpenPass(ClosePass(s), n, marker) else s
    case _ => s
  }

  function AfterPacket(s: State, p: Packet): State {
    if !IsTyped(p) then s
    else
      var n := |s.rows|;
      ShareWithPass(Act(AddPacket(s, p), n, p.header), n).(last := n)
  }

  // ---------- traces ----------

  function Step(s: State, cb: Callback): State {
    match cb
    case SubmitStart => StartSubmit(s)
    case SubmitEnd(presents) => EndSubmit(s, presents)
    case IbStart(ib, index) => StartIb(s, ib, index)
    case IbEnd => EndIb(s)
    case OnPacket(p) => AfterPacket(s, p)
  }

  /** What has to hold for a callback: its assertions do not fail and it pops no empty stack. A buffer is
      entered from outside or after a packet of the buffer around it, and a chain continues a buffer. */
  predicate Allowed(s: State, cb: Callback) {
    match cb
    case SubmitStart => true
    case SubmitEnd(_) => s.submit < |s.rows| && s.rows[s.submit].kind.SubmitNode?
    case IbStart(ib, _) => (s.newIb ==> s.ibs == []) && (ib == Chain ==> s.ibs != [])
    case IbEnd => TrailingChains(s.rows, s.ibs, |s.ibs|) < |s.ibs|
    case OnPacket(p) => IsTyped(p) ==> s.ibs != []
  }

  /** A bin or draw-table buffer comes after the packet that causes it. */
  predicate Caused(s: State, cb: Callback) {
    cb.IbStart? && NeedsField(cb.ib) ==> FieldParent(s, cb.ib) != NONE
  }

  function Run(s: State, cbs: seq<Callback>): State {
    if cbs == [] then s else Step(Run(s, cbs[..|cbs| - 1]), cbs[|cbs| - 1])
  }

  predicate AllAllowed(s: State, cbs: seq<Callback>) {
    cbs == [] || (AllAllowed(s, cbs[..|cbs| - 1]) && Allowed(Run(s, cbs[..|cbs| - 1]), cbs[|cbs| - 1]))
  }

  predicate AllCaused(s: State, cbs: seq<Callback>) {
    cbs == [] || (AllCaused(s, cbs[..|cbs| - 1]) && Caused(Run(s, cbs[..|cbs| - 1]), cbs[|cbs| - 1]))
  }

  lemma RunNothing(s: State)
    ensures Run(s, []) == s
  {
  }

  lemma RunOne(s: State, cbs: seq<Callback>, cb: Callback)
    ensures Run(s, cbs + [cb]) == Step(Run(s, cbs), cb)
    ensures AllAllowed(s, cbs + [cb]) <==> AllAllowed(s, cbs) && Allowed(Run(s, cbs), cb)
    ensures AllCaused(s, cbs + [cb]) <==> AllCaused(s, cbs) && Caused(Run(s, cbs), cb)
  {
    assert (cbs + [cb])[..|cbs|] == cbs;
  }

  lemma {:induction false} RunConcat(s: State, before: seq<Callback>, after: seq<Callback>)
    ensures Run(s, before + after) == Run(Run(s, before), after)
    ensures AllAllowed(s, before + after) <==> AllAllowed(s, before) && AllAllowed(Run(s, before), after)
    ensures AllCaused(s, before + after) <==> AllCaused(s, before) && AllCaused(Run(s, before), after)
  {
    hide Step, Allowed, Caused;
    if after == [] {
      assert before + after == before;
    } else {
      var most, cb := after[..|after| - 1], after[|after| - 1];
      RunConcat(s, before, most);
      assert before + after == (before + most) + [cb];
      RunOne(s, before + most, cb);
    }
  }

  function Start(flatten: bool): State {
    State([Row(RootNode, NONE, NONE)], ROOT, flatten, [], [], true, [], true, NONE, 0, NONE, NONE, map[], map[], map[],
      [], false, Filters({}, {}, {}))
  }
}
