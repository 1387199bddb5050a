/** What the two passes make of each opcode, over the emulator's traces. */
module Pm4Opcodes {
  import opened Wrappers
  import opened Pm4Trace
  import opened Pm4Effects
  import opened Pm4Tracker
  import opened Pm4Stacks
  import opened Pm4Events
  import opened Pm4Metadata

  // ---------- opcodes and markers ----------

  /** The event that a packet is, when t is the tracker that has seen it. */
  function EventOf<T>(k: Tracker<T>, t: T, opcode: Opcode): Option<EventType> {
    match opcode
    case DrawOpcode => Some(Draw)
    case DispatchOpcode => Some(Dispatch)
    case BlitOpcode => Some(Blit)
    case WaitMemWritesOpcode => Some(Sync(WaitMemWrites))
    case WaitForIdleOpcode => Some(Sync(WaitForIdle))
    case WaitForMeOpcode => Some(Sync(WaitForMe))
    case EventWrite(resolves) =>
      (match k.resolve(t)
       case Some(register) =>
         if resolves && register.operation.Some? then Some(Sync(Resolve(register.operation.value, register.depth)))
         else None
       case None => None)
    case StartBinOpcode | EndBinOpcode | DrawTableOpcode | SetMarkerOpcode(_) | OtherOpcode => None
  }

  lemma EventIs<T>(k: Tracker<T>, t: T, opcode: Opcode)
    ensures EventOf(k, t, opcode).Some? <==> IsEventPacket(k, t, opcode)
    ensures EventOf(k, t, opcode).Some? ==> EventOf(k, t, opcode).value == GetEventType(k, t, opcode)
    ensures opcode.StartBinOpcode? || opcode.EndBinOpcode? || opcode.DrawTableOpcode? ==> EventOf(k, t, opcode) == None
  {
  }

  /** The markers that start a pass. */
  predicate MarksPass(marker: Marker) {
    match marker
    case DirectRender | BinVisibility | BinDirect | BinRenderStart | BinResolve | Compute => true
    case BinEndOfDraws | BinRenderEnd | OtherMarker => false
  }

  // ---------- the hierarchy ----------

  /** The packet has a node of its own and field nodes, and last makes one more node. */
  ghost predicate MakesNode(s: State, t: State, p: RawPacket, kind: NodeKind) {
    && |t.rows| == |s.rows| + |p.parentOf| + 2 && s.rows <= t.rows && t.rows[|s.rows|].kind.PacketNode?
    && t.rows[|t.rows| - 1].kind == kind
  }

  ghost predicate MakesPacket(s: State, t: State, p: RawPacket) {
    |t.rows| == |s.rows| + |p.parentOf| + 1 && s.rows <= t.rows && t.rows[|s.rows|].kind.PacketNode?
  }

  /** An event for each packet that is one, a pass for each marker that starts one, and else the packet
      alone. */
  ghost predicate Makes<T>(k: Tracker<T>, h: HierarchyPass<T>, g: HierarchyPass<T>, p: RawPacket) {
    var s, t := h.state, g.state;
    && t.startBin == (match p.header
                      case RawType7(StartBinOpcode) => |s.rows|
                      case RawType7(EndBinOpcode) => NONE
                      case _ => s.startBin)
    && t.drawTable == (if p.header == RawType7(DrawTableOpcode) then |s.rows| else s.drawTable)
    && match p.header
       case RawOther => t == s
       case RawType4 => MakesPacket(s, t, p) && t.events == s.events
       case RawType7(opcode) =>
         match EventOf(k, k.onPacket(h.tracker, p), opcode)
         case Some(event) => MakesNode(s, t, p, EventNode(|s.events|, event)) && t.events == s.events + [|t.rows| - 1]
         case None =>
           && t.events == s.events
           && if opcode.SetMarkerOpcode? && MarksPass(opcode.marker) then MakesNode(s, t, p, PassNode(opcode.marker))
              else MakesPacket(s, t, p)
  }

  /** For all packets in all traces. */
  lemma OpcodeMakes<T>(k: Tracker<T>, start: T, flatten: bool, cbs: seq<RawCallback>, p: RawPacket)
    ensures var h := HierarchyPass(Start(flatten), start);
      Makes(k, HierarchyRun(k, h, cbs), HierarchyRun(k, h, cbs + [OnRawPacket(p)]), p)
  {
    HierarchySnoc(k, HierarchyPass(Start(flatten), start), cbs, OnRawPacket(p));
    StepMakes(k, HierarchyRun(k, HierarchyPass(Start(flatten), start), cbs), p);
  }

  lemma StepMakes<T>(k: Tracker<T>, h: HierarchyPass<T>, p: RawPacket)
    ensures Makes(k, h, HierarchyStep(k, h, OnRawPacket(p)), p)
  {
    hide AfterPacket, IsEventPacket, GetEventType, EventOf, MakesNode, MakesPacket;
    var seen := Packet(HeaderOf(k, k.onPacket(h.tracker, p), p.header), p.parentOf);
    PacketMakes(h.state, seen, p);
    if p.header.RawType7? {
      EventIs(k, k.onPacket(h.tracker, p), p.header.opcode);
    }
  }

  lemma PacketMakes(s: State, p: Packet, raw: RawPacket)
    requires p.parentOf == raw.parentOf
    ensures var t := AfterPacket(s, p);
      match p.header
      case OtherType => t == s
      case Type7(IsEvent(event)) =>
        MakesNode(s, t, raw, EventNode(|s.events|, event)) && t.events == s.events + [|t.rows| - 1]
      case Type7(SetsMarker(marker)) =>
        && t.events == s.events
        && if MarksPass(marker) then MakesNode(s, t, raw, PassNode(marker)) else MakesPacket(s, t, raw)
      case _ => MakesPacket(s, t, raw) && t.events == s.events
    ensures var t := AfterPacket(s, p);
      && t.startBin == (match p.header
                        case Type7(StartsBin) => |s.rows|
                        case Type7(EndsBin) => NONE
                        case _ => s.startBin)
      && t.drawTable == if p.header == Type7(DrawsTable) then |s.rows| else s.drawTable
  {
    hide AfterPacket, PacketNodes, Filtered, StartsClosed, RangesClosed;
    if IsTyped(p) {
      PacketEffect(s, p);
      NodesShape(s, p);
    } else {
      Untyped(s, p);
    }
  }

  lemma HierarchySnoc<T>(k: Tracker<T>, h: HierarchyPass<T>, cbs: seq<RawCallback>, cb: RawCallback)
    ensures HierarchyRun(k, h, cbs + [cb]) == HierarchyStep(k, HierarchyRun(k, h, cbs), cb)
  {
    assert (cbs + [cb])[..|cbs|] == cbs;
  }

  // ---------- the metadata ----------

  /** The last marker packet of the current submit. */
  function LastMarker(cbs: seq<RawCallback>): Option<Marker> {
    if cbs == [] then None
    else match cbs[|cbs| - 1]
         case RawSubmitStart => None
         case OnRawPacket(RawPacket(RawType7(SetMarkerOpcode(marker)), _)) => Some(marker)
         case _ => LastMarker(cbs[..|cbs| - 1])
  }

  /** Six markers have a render mode, and after any other one, or none, it is unknown. */
  predicate Shows(last: Option<Marker>, mode: RenderMode) {
    && (mode == DirectMode <==> last == Some(DirectRender))
    && (mode == BinningVisMode <==> last == Some(BinVisibility))
    && (mode == BinningDirectMode <==> last == Some(BinDirect))
    && (mode == TiledMode <==> last == Some(BinRenderStart))
    && (mode == ResolveMode <==> last == Some(BinResolve))
    && (mode == DispatchMode <==> last == Some(Compute))
    && (mode == UnknownMode <==>
          last == None || last == Some(BinEndOfDraws) || last == Some(BinRenderEnd) || last == Some(OtherMarker))
  }

  function PacketsBefore(cbs: seq<RawCallback>, n: nat): nat
    requires n <= |cbs|
  {
    if n == 0 then 0 else PacketsBefore(cbs, n - 1) + if cbs[n - 1].OnRawPacket? then 1 else 0
  }

  /** The event that the i-th callback is, if it is one. */
  function EventAt<T>(k: Tracker<T>, start: T, cbs: seq<RawCallback>, i: nat): Option<EventType>
    requires i < |cbs|
  {
    match cbs[i]
    case OnRawPacket(RawPacket(RawType7(opcode), _)) => EventOf(k, TrackAll(k, start, cbs[..i + 1]), opcode)
    case _ => None
  }

  function EventsBefore<T>(k: Tracker<T>, start: T, cbs: seq<RawCallback>, n: nat): nat
    requires n <= |cbs|
  {
    if n == 0 then 0 else EventsBefore(k, start, cbs, n - 1) + if EventAt(k, start, cbs, n - 1).Some? then 1 else 0
  }

  /** Every event of the trace is recorded in its turn, with the mode of the last marker before it. */
  ghost predicate AllRecorded<T>(k: Tracker<T>, start: T, cbs: seq<RawCallback>, infos: seq<EventInfo>, n: nat)
    requires n <= |cbs|
  {
    && |infos| == EventsBefore(k, start, cbs, n)
    && forall i {:trigger EventAt(k, start, cbs, i)} :: 0 <= i < n && EventAt(k, start, cbs, i).Some? ==>
         var at := EventsBefore(k, start, cbs, i);
         && at < |infos| && infos[at].event == EventAt(k, start, cbs, i).value
         && Shows(LastMarker(cbs[..i]), infos[at].mode)
  }

  lemma MetadataStepShows<T>(k: Tracker<T>, m: MetadataPass<T>, cb: RawCallback, before: seq<RawCallback>)
    requires Shows(LastMarker(before), m.metadata.mode)
    ensures var n := RawMetadataStep(k, m, cb);
      && Shows(LastMarker(before + [cb]), n.metadata.mode) && n.tracker == Track(k, m.tracker, cb)
      && n.metadata.numPackets == m.metadata.numPackets + (if cb.OnRawPacket? then 1 else 0)
      && n.metadata.infos == m.metadata.infos +
           match cb
           case OnRawPacket(RawPacket(RawType7(opcode), _)) =>
             (match EventOf(k, n.tracker, opcode)
              case Some(event) => [EventInfo(event, m.metadata.mode)]
              case None => [])
           case _ => []
  {
    assert (before + [cb])[..|before|] == before;
  }

  /** What one more callback records. */
  function RecordedAt<T>(k: Tracker<T>, start: T, cbs: seq<RawCallback>, i: nat, mode: RenderMode): seq<EventInfo>
    requires i < |cbs|
  {
    match EventAt(k, start, cbs, i) case Some(event) => [EventInfo(event, mode)] case None => []
  }

  lemma RecordsNext<T>(k: Tracker<T>, start: T, cbs: seq<RawCallback>, infos: seq<EventInfo>, n: nat, mode: RenderMode)
    requires n < |cbs| && AllRecorded(k, start, cbs, infos, n) && Shows(LastMarker(cbs[..n]), mode)
    ensures AllRecorded(k, start, cbs, infos + RecordedAt(k, start, cbs, n, mode), n + 1)
  {
    hide EventAt, Shows, LastMarker;
    EventsMonotone(k, start, cbs, n);
    var more := infos + RecordedAt(k, start, cbs, n, mode);
    forall i | 0 <= i < n + 1 && EventAt(k, start, cbs, i).Some?
      ensures var at := EventsBefore(k, start, cbs, i);
        && at < |more| && more[at].event == EventAt(k, start, cbs, i).value
        && Shows(LastMarker(cbs[..i]), more[at].mode)
    {
      var at := EventsBefore(k, start, cbs, i);
      if i < n {
        assert at < |infos| && more[at] == infos[at];
      }
    }
  }

  /** For every trace and tracker the metadata has the events of the trace, in order, and the mode of each
      is the one of the last marker packet before it in its submit. */
  lemma {:induction false} EventsRecorded<T>(k: Tracker<T>, start: T, cbs: seq<RawCallback>, n: nat)
    requires n <= |cbs|
    ensures var m := RawMetadataRun(k, MetadataPass(NO_METADATA, start), cbs[..n]);
      && AllRecorded(k, start, cbs, m.metadata.infos, n) && Shows(LastMarker(cbs[..n]), m.metadata.mode)
      && m.tracker == TrackAll(k, start, cbs[..n]) && m.metadata.numPackets == PacketsBefore(cbs, n)
  {
    hide RawMetadataStep, AllRecorded, Shows, LastMarker, EventOf, Track;
    if n == 0 {
      NothingRecorded(k, start, cbs);
    } else {
      EventsRecorded(k, start, cbs, n - 1);
      var m := RawMetadataRun(k, MetadataPass(NO_METADATA, start), cbs[..n - 1]);
      assert cbs[..n][..n - 1] == cbs[..n - 1] && cbs[..n] == cbs[..n - 1] + [cbs[n - 1]];
      MetadataStepShows(k, m, cbs[n - 1], cbs[..n - 1]);
      RecordsNext(k, start, cbs, m.metadata.infos, n - 1, m.metadata.mode);
    }
  }

  lemma NothingRecorded<T>(k: Tracker<T>, start: T, cbs: seq<RawCallback>)
    ensures cbs[..0] == [] && AllRecorded(k, start, cbs, [], 0) && Shows(LastMarker([]), UnknownMode)
  {
  }

  lemma {:induction false} EventsMonotone<T>(k: Tracker<T>, start: T, cbs: seq<RawCallback>, n: nat)
    requires n <= |cbs|
    ensures forall i :: 0 <= i < n && EventAt(k, start, cbs, i).Some? ==>
      EventsBefore(k, start, cbs, i) < EventsBefore(k, start, cbs, n)
  {
    if n > 0 {
      EventsMonotone(k, start, cbs, n - 1);
    }
  }

  // ---------- submits start afresh ----------

  /** If resetting forgets everything, nothing before a submit bears on what a pass sees in it. */
  lemma {:induction false} SubmitsStartAfresh<T>(k: Tracker<T>, t: T, u: T, before: seq<RawCallback>,
                                                 more: seq<RawCallback>)
    requires forall v, w :: k.reset(v) == k.reset(w)
    ensures TrackAll(k, t, before + [RawSubmitStart] + more) == TrackAll(k, u, [RawSubmitStart] + more)
  {
    var cbs := before + [RawSubmitStart];
    if more == [] {
      assert cbs + more == cbs && [RawSubmitStart] + more == [RawSubmitStart];
      assert cbs[..|cbs| - 1] == before && [RawSubmitStart][..0] == [];
    } else {
      var most, cb := more[..|more| - 1], more[|more| - 1];
      SubmitsStartAfresh(k, t, u, before, most);
      assert (cbs + more)[..|cbs + more| - 1] == cbs + most;
      assert ([RawSubmitStart] + more)[..|more|] == [RawSubmitStart] + most;
    }
  }
}
