/** The emulator's callbacks before it is known which packets are events. That depends on a state tracker, of
    which each pass over a capture has its own. */
module Pm4Tracker {
  import opened Wrappers
  import opened Pm4Trace

  /** What an opcode is to the passes. */
  datatype Opcode =
    | DrawOpcode
    | DispatchOpcode
    | BlitOpcode
    | EventWrite(resolves: bool) // of the event that starts a resolve, or of another one
    | WaitMemWritesOpcode
    | WaitForIdleOpcode
    | WaitForMeOpcode
    | StartBinOpcode
    | EndBinOpcode
    | DrawTableOpcode
    | SetMarkerOpcode(marker: Marker)
    | OtherOpcode

  datatype RawHeader = RawType4 | RawType7(opcode: Opcode) | RawOther

  datatype RawPacket = RawPacket(header: RawHeader, parentOf: seq<nat>)

  datatype RawCallback =
    | RawSubmitStart
    | RawSubmitEnd(presents: nat)
    | RawIbStart(ib: IbType, index: nat, enableMask: nat)
    | RawIbEnd
    | OnRawPacket(packet: RawPacket)

  /** The resolve register. */
  datatype ResolveOperation = ResolveOperation(operation: Option<ResolveType>, depth: bool)

  /** A state tracker, deterministic but otherwise arbitrary. */
  datatype Tracker<!T> = Tracker(
    reset: T -> T,
    onPacket: (T, RawPacket) -> T,
    push: (T, nat) -> T,
    pop: T -> T,
    resolve: T -> Option<ResolveOperation>) // the resolve register, if it has been set

  /** What every pass does with its tracker before anything else. */
  function Track<T>(k: Tracker<T>, t: T, cb: RawCallback): T {
    match cb
    case RawSubmitStart => k.reset(t)
    case RawSubmitEnd(_) => t
    case RawIbStart(_, _, mask) => k.push(t, mask)
    case RawIbEnd => k.pop(t)
    case OnRawPacket(p) => k.onPacket(t, p)
  }

  // ---------- events ----------

  function GetSyncType<T>(k: Tracker<T>, t: T, opcode: Opcode): Option<SyncType> {
    match opcode
    case EventWrite(true) =>
      (match k.resolve(t)
       case Some(ResolveOperation(Some(operation), depth)) => Some(Resolve(operation, depth))
       case _ => None)
    case WaitMemWritesOpcode => Some(WaitMemWrites)
    case WaitForIdleOpcode => Some(WaitForIdle)
    case WaitForMeOpcode => Some(WaitForMe)
    case _ => None
  }

  predicate IsEventPacket<T>(k: Tracker<T>, t: T, opcode: Opcode) {
    opcode.DrawOpcode? || opcode.DispatchOpcode? || opcode.BlitOpcode? || GetSyncType(k, t, opcode).Some?
  }

  function GetEventType<T>(k: Tracker<T>, t: T, opcode: Opcode): EventType
    requires IsEventPacket(k, t, opcode)
  {
    match opcode
    case DrawOpcode => Draw
    case DispatchOpcode => Dispatch
    case BlitOpcode => Blit
    case _ => Sync(GetSyncType(k, t, opcode).value)
  }

  /** What the hierarchy does with a packet once its tracker has seen it: events first. */
  function ActionOf<T>(k: Tracker<T>, t: T, opcode: Opcode): Action {
    if IsEventPacket(k, t, opcode) then IsEvent(GetEventType(k, t, opcode))
    else match opcode
         case StartBinOpcode => StartsBin
         case EndBinOpcode => EndsBin
         case DrawTableOpcode => DrawsTable
         case SetMarkerOpcode(marker) => SetsMarker(marker)
         case _ => OtherAction
  }

  /** A packet without an opcode is never an event. */
  function HeaderOf<T>(k: Tracker<T>, t: T, h: RawHeader): Header {
    match h
    case RawType4 => Type4
    case RawType7(opcode) => Type7(ActionOf(k, t, opcode))
    case RawOther => OtherType
  }

  function Resolved<T>(k: Tracker<T>, t: T, cb: RawCallback): Callback {
    match cb
    case RawSubmitStart => SubmitStart
    case RawSubmitEnd(presents) => SubmitEnd(presents)
    case RawIbStart(ib, index, _) => IbStart(ib, index)
    case RawIbEnd => IbEnd
    case OnRawPacket(p) => OnPacket(Packet(HeaderOf(k, t, p.header), p.parentOf))
  }

  // ---------- the hierarchy pass ----------

  /** The hierarchy and its tracker. */
  datatype HierarchyPass<T> = HierarchyPass(state: State, tracker: T)

  function HierarchyStep<T>(k: Tracker<T>, h: HierarchyPass<T>, cb: RawCallback): HierarchyPass<T> {
    var t := Track(k, h.tracker, cb);
    HierarchyPass(Step(h.state, Resolved(k, t, cb)), t)
  }

  function HierarchyRun<T>(k: Tracker<T>, h: HierarchyPass<T>, cbs: seq<RawCallback>): HierarchyPass<T> {
    if cbs == [] then h else HierarchyStep(k, HierarchyRun(k, h, cbs[..|cbs| - 1]), cbs[|cbs| - 1])
  }

  /** The tracker after a trace, and the trace as a pass with this tracker sees it. */
  function TrackAll<T>(k: Tracker<T>, t: T, cbs: seq<RawCallback>): T {
    if cbs == [] then t else Track(k, TrackAll(k, t, cbs[..|cbs| - 1]), cbs[|cbs| - 1])
  }

  function ResolvedAll<T>(k: Tracker<T>, t: T, cbs: seq<RawCallback>): seq<Callback> {
    if cbs == [] then []
    else ResolvedAll(k, t, cbs[..|cbs| - 1]) + [Resolved(k, TrackAll(k, t, cbs), cbs[|cbs| - 1])]
  }

  /** The hierarchy is the one of the trace that its tracker resolves, so whatever holds after every run
      holds after this one. */
  lemma {:induction false} HierarchyRunIs<T>(k: Tracker<T>, s: State, t: T, cbs: seq<RawCallback>)
    ensures HierarchyRun(k, HierarchyPass(s, t), cbs) ==
      HierarchyPass(Run(s, ResolvedAll(k, t, cbs)), TrackAll(k, t, cbs))
  {
    hide Step, Resolved, Track;
    if cbs != [] {
      var most := cbs[..|cbs| - 1];
      HierarchyRunIs(k, s, t, most);
      RunOne(s, ResolvedAll(k, t, most), Resolved(k, TrackAll(k, t, cbs), cbs[|cbs| - 1]));
    }
  }
}
