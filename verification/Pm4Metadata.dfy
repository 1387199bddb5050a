/** CaptureMetadataCreator: the list of events, built from the same callbacks as the hierarchy. */
module Pm4Metadata {
  import opened Ancestry
  import opened Pm4Tracker
  import opened Pm4Trace
  import opened Pm4Effects
  import opened Pm4Stacks
  import opened Pm4Events

  datatype RenderMode =
    | DirectMode | BinningVisMode | BinningDirectMode | TiledMode | ResolveMode | DispatchMode | UnknownMode

  datatype EventInfo = EventInfo(event: EventType, mode: RenderMode)

  datatype Metadata = Metadata(numPackets: nat, infos: seq<EventInfo>, mode: RenderMode)

  function ModeOf(m: Marker): RenderMode {
    match m
    case DirectRender => DirectMode
    case BinVisibility => BinningVisMode
    case BinDirect => BinningDirectMode
    case BinRenderStart => TiledMode
    case BinResolve => ResolveMode
    case Compute => DispatchMode
    case _ => UnknownMode
  }

  function MetadataStep(m: Metadata, cb: Callback): Metadata {
    match cb
    case SubmitStart => m.(mode := UnknownMode)
    case OnPacket(p) =>
      var counted := m.(numPackets := m.numPackets + 1);
      (match p.header
       case Type7(SetsMarker(marker)) => counted.(mode := ModeOf(marker))
       case Type7(IsEvent(event)) => counted.(infos := m.infos + [EventInfo(event, m.mode)])
       case _ => counted)
    case _ => m
  }

  function MetadataRun(m: Metadata, cbs: seq<Callback>): Metadata {
    if cbs == [] then m else MetadataStep(MetadataRun(m, cbs[..|cbs| - 1]), cbs[|cbs| - 1])
  }

  const NO_METADATA := Metadata(0, [], UnknownMode)

  /** The metadata and the pass's own tracker. */
  datatype MetadataPass<T> = MetadataPass(metadata: Metadata, tracker: T)

  /** A packet, once the tracker has seen it: first the render mode, then the event. */
  function AfterRawPacket<T>(k: Tracker<T>, t: T, m: Metadata, h: RawHeader): Metadata {
    var counted := m.(numPackets := m.numPackets + 1);
    if !h.RawType7? then counted
    else
      var marked := if h.opcode.SetMarkerOpcode? then counted.(mode := ModeOf(h.opcode.marker)) else counted;
      if IsEventPacket(k, t, h.opcode) then
        marked.(infos := m.infos + [EventInfo(GetEventType(k, t, h.opcode), marked.mode)])
      else marked
  }

  function RawMetadataStep<T>(k: Tracker<T>, m: MetadataPass<T>, cb: RawCallback): MetadataPass<T> {
    var t := Track(k, m.tracker, cb);
    match cb
    case RawSubmitStart => MetadataPass(m.metadata.(mode := UnknownMode), t)
    case OnRawPacket(p) => MetadataPass(AfterRawPacket(k, t, m.metadata, p.header), t)
    case _ => MetadataPass(m.metadata, t)
  }

  function RawMetadataRun<T>(k: Tracker<T>, m: MetadataPass<T>, cbs: seq<RawCallback>): MetadataPass<T> {
    if cbs == [] then m else RawMetadataStep(k, RawMetadataRun(k, m, cbs[..|cbs| - 1]), cbs[|cbs| - 1])
  }

  class CaptureMetadataCreator<T(!new)> {
    var numPackets: nat
    var infos: seq<EventInfo>
    var mode: RenderMode
    var tracker: T
    const k: Tracker<T>

    ghost function View(): MetadataPass<T>
      reads this
    {
      MetadataPass(Metadata(numPackets, infos, mode), tracker)
    }

    constructor (k_: Tracker<T>, start: T)
      ensures k == k_ && View() == MetadataPass(NO_METADATA, start)
    {
      numPackets, infos, mode, tracker, k := 0, [], UnknownMode, start, k_;
    }

    method OnSubmitStart()
      modifies this
      ensures View() == RawMetadataStep(k, old(View()), RawSubmitStart)
    {
      tracker := k.reset(tracker);
      mode := UnknownMode;
    }

    method OnIbStart(ib: IbType, index: nat, enableMask: nat)
      modifies this
      ensures View() == RawMetadataStep(k, old(View()), RawIbStart(ib, index, enableMask))
    {
      tracker := k.push(tracker, enableMask);
    }

    method OnIbEnd()
      modifies this
      ensures View() == RawMetadataStep(k, old(View()), RawIbEnd)
    {
      tracker := k.pop(tracker);
    }

    method SetMode(marker: Marker)
      modifies this`mode
      ensures mode == ModeOf(marker)
    {
      match marker
      case DirectRender => mode := DirectMode;
      case BinVisibility => mode := BinningVisMode;
      case BinDirect => mode := BinningDirectMode;
      case BinRenderStart => mode := TiledMode;
      case BinResolve => mode := ResolveMode;
      case Compute => mode := DispatchMode;
      case _ => mode := UnknownMode;
    }

    method OnPacket(p: RawPacket)
      modifies this
      ensures View() == RawMetadataStep(k, old(View()), OnRawPacket(p))
    {
      hide IsEventPacket, GetEventType, ModeOf;
      numPackets := numPackets + 1;
      tracker := k.onPacket(tracker, p);
      if !p.header.RawType7? {
        return;
      }
      var opcode := p.header.opcode;
      if opcode.SetMarkerOpcode? {
        SetMode(opcode.marker);
      }
      if IsEventPacket(k, tracker, opcode) {
        infos := infos + [EventInfo(GetEventType(k, tracker, opcode), mode)];
      }
    }
  }

  // ---------- both passes over one capture ----------

  /** The mode of the passes that a marker starts. */
  predicate IsModeOf(mode: RenderMode, marker: Marker) {
    match mode
    case DirectMode => marker == DirectRender
    case BinningVisMode => marker == BinVisibility
    case BinningDirectMode => marker == BinDirect
    case TiledMode => marker == BinRenderStart
    case ResolveMode => marker == BinResolve
    case DispatchMode => marker == Compute
    case UnknownMode => false
  }

  ghost predicate ModeIsPass(rows: seq<Row>, pass: int, mode: RenderMode) {
    mode != UnknownMode ==>
      0 <= pass < |rows| && rows[pass].kind.PassNode? && IsModeOf(mode, rows[pass].kind.marker)
  }

  /** The k-th event of one is the k-th event of the other, and an event with a render mode is in the
      hierarchy under a pass of this mode. */
  ghost predicate Agree(s: State, m: Metadata) {
    && |s.events| == |m.infos| && ModeIsPass(s.rows, s.pass, m.mode)
    && forall k {:trigger s.events[k]} :: 0 <= k < |s.events| ==>
         && s.events[k] < |s.rows| && s.rows[s.events[k]].kind == EventNode(k, m.infos[k].event)
         && ModeIsPass(s.rows, s.rows[s.events[k]].eventParent, m.infos[k].mode)
  }

  lemma AgreeGrow(s: State, m: Metadata, more: seq<Row>)
    requires Agree(s, m) && s.rows <= more
    ensures Agree(s.(rows := more), m)
  {
    assert forall x: nat :: x < |s.rows| ==> more[x] == s.rows[x];
  }

  lemma AgreeEvent(s: State, m: Metadata, p: Packet)
    requires Agree(s, m) && IsEventHeader(p.header)
    ensures Agree(AfterPacket(s, p), MetadataStep(m, Callback.OnPacket(p)))
  {
    hide AfterPacket, PacketNodes;
    EventEffect(s, p);
    AgreeGrow(s, m, s.rows + PacketNodes(s, p));
    NodesShape(s, p);
  }

  lemma AgreePass(s: State, m: Metadata, p: Packet)
    requires Agree(s, m) && Tracked(s) && OpensPass(p.header)
    ensures Agree(AfterPacket(s, p), MetadataStep(m, Callback.OnPacket(p)))
  {
    hide AfterPacket, PacketNodes, Tracked;
    PassEffect(s, p);
    AgreeGrow(s, m, s.rows + PacketNodes(s, p));
    NodesShape(s, p);
  }

  lemma AgreePacket(s: State, m: Metadata, p: Packet)
    requires Recorded(s) && Agree(s, m)
    ensures Agree(AfterPacket(s, p), MetadataStep(m, Callback.OnPacket(p)))
  {
    hide AfterPacket, PacketNodes, Tracked, EventsDone, PassesDone, Listed;
    if !IsTyped(p) {
      Untyped(s, p);
    } else if IsEventHeader(p.header) {
      AgreeEvent(s, m, p);
    } else if OpensPass(p.header) {
      AgreePass(s, m, p);
    } else {
      PacketEffect(s, p);
      AgreeGrow(s, m, s.rows + PacketNodes(s, p));
    }
  }

  lemma AgreeStep(s: State, m: Metadata, cb: Callback)
    requires Recorded(s) && Agree(s, m)
    ensures Agree(Step(s, cb), MetadataStep(m, cb))
  {
    hide AfterPacket, Recorded;
    match cb
    case OnPacket(p) => AgreePacket(s, m, p);
    case _ => AgreeGrow(s, m, Step(s, cb).rows);
  }

  /** The metadata pass and the hierarchy pass over one capture see the same events, in the same order
      and with equal types. */
  lemma {:induction false} PassesAgree(flatten: bool, cbs: seq<Callback>)
    ensures Agree(Run(Start(flatten), cbs), MetadataRun(NO_METADATA, cbs))
  {
    if cbs != [] {
      hide Step, MetadataStep, Agree;
      var most, cb := cbs[..|cbs| - 1], cbs[|cbs| - 1];
      PassesAgree(flatten, most);
      StartRecorded(flatten);
      RecordedRun(Start(flatten), most);
      AgreeStep(Run(Start(flatten), most), MetadataRun(NO_METADATA, most), cb);
    } else {
      assert Agree(Start(flatten), NO_METADATA);
    }
  }

  // ---------- each pass with a tracker of its own ----------

  /** Without events among them, markers set the same mode for both passes. */
  lemma RawStepIs<T>(k: Tracker<T>, m: MetadataPass<T>, cb: RawCallback)
    ensures var t := Track(k, m.tracker, cb);
      RawMetadataStep(k, m, cb) == MetadataPass(MetadataStep(m.metadata, Resolved(k, t, cb)), t)
  {
  }

  lemma {:induction false} RawMetadataRunIs<T>(k: Tracker<T>, m: Metadata, t: T, cbs: seq<RawCallback>)
    ensures RawMetadataRun(k, MetadataPass(m, t), cbs) ==
      MetadataPass(MetadataRun(m, ResolvedAll(k, t, cbs)), TrackAll(k, t, cbs))
  {
    hide RawMetadataStep, MetadataStep, Resolved, Track;
    if cbs != [] {
      var most, cb := cbs[..|cbs| - 1], cbs[|cbs| - 1];
      RawMetadataRunIs(k, m, t, most);
      RawStepIs(k, RawMetadataRun(k, MetadataPass(m, t), most), cb);
      var before, r := ResolvedAll(k, t, most), Resolved(k, TrackAll(k, t, cbs), cb);
      assert (before + [r])[..|before|] == before;
    }
  }

  /** Given the same deterministic tracker, of which each pass updates its own copy, the copies stay equal
      over every trace, and the passes see the same events with equal types, in the same order. */
  lemma TrackersAgree<T>(k: Tracker<T>, start: T, flatten: bool, cbs: seq<RawCallback>)
    ensures var h, m := HierarchyRun(k, HierarchyPass(Start(flatten), start), cbs),
      RawMetadataRun(k, MetadataPass(NO_METADATA, start), cbs);
      h.tracker == m.tracker && Agree(h.state, m.metadata)
  {
    HierarchyRunIs(k, Start(flatten), start, cbs);
    RawMetadataRunIs(k, NO_METADATA, start, cbs);
    PassesAgree(flatten, ResolvedAll(k, start, cbs));
  }

  // ---------- looking up an event ----------

  /** Position of the first entry that is not below x. */
  method LowerBound(s: seq<nat>, x: nat) returns (at: nat)
    requires Increasing(s)
    ensures at <= |s| && (forall i :: 0 <= i < at ==> s[i] < x) && (forall i :: at <= i < |s| ==> x <= s[i])
  {
    var lo, hi := 0, |s|;
    while lo < hi
      invariant lo <= hi <= |s|
      invariant forall i :: 0 <= i < lo ==> s[i] < x
      invariant forall i :: hi <= i < |s| ==> x <= s[i]
    {
      var mid := (lo + hi) / 2;
      if s[mid] < x {
        lo := mid + 1;
      } else {
        hi := mid;
      }
    }
    at := lo;
  }

  /** The sequence number of an event node, from 1, and 0 for every other node. */
  method GetEventIndex(events: seq<nat>, ghost rows: seq<Row>, node: nat) returns (index: nat)
    requires Listed(rows, events)
    ensures index == if node < |rows| && rows[node].kind.EventNode? then rows[node].kind.id + 1 else 0
    ensures index > 0 ==> index <= |events| && events[index - 1] == node
  {
    assert Increasing(events);
    var at := LowerBound(events, node);
    if at == |events| || events[at] != node {
      return 0;
    }
    index := at + 1;
  }
}
