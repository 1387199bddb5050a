/** CommandHierarchyCreator itself: nodes, child lists of both topologies, and the parsing state. */
module Pm4Hierarchy {
  import opened Wrappers
  import opened Forests
  import opened Topologies
  import opened Pm4Trace
  import opened Pm4Effects
  import opened Pm4Stacks
  import opened Pm4Causes
  import opened Pm4Events
  import opened Pm4Forest
  import opened Pm4Layout
  import opened Pm4Reach

  class CommandHierarchyCreator {
    var kinds: seq<NodeKind>
    var submitLists: ChildLists   // children recorded so far, for each topology
    var eventLists: ChildLists
    var curSubmit: nat
    var ibStack: seq<nat>
    var ibStarts: seq<nat>
    var newIbStart: bool
    var eventStarts: seq<nat>
    var newEventStart: bool
    var renderMarker: int
    var lastAdded: nat
    var startBin: int
    var drawTable: int
    var ibRanges: map<nat, Range>
    var eventRanges: map<nat, Range>
    var shared: map<nat, seq<nat>>
    var events: seq<nat>
    var numEvents: nat
    var trackingFirstTile: bool
    var filters: Filters
    const flatten: bool
    ghost var rows: seq<Row>

    ghost function View(): State
      reads this
    {
      State(rows, curSubmit, flatten, ibStack, ibStarts, newIbStart, eventStarts, newEventStart, renderMarker,
        lastAdded, startBin, drawTable, ibRanges, eventRanges, shared, events, trackingFirstTile, filters)
    }

    /** The lists of each topology hold the nodes attached in it. */
    ghost predicate Lists()
      reads this`rows, this`kinds, this`submitLists, this`eventLists
    {
      && RowsOk(rows) && |kinds| == |submitLists| == |eventLists| == |rows|
           && (forall i :: 0 <= i < |rows| ==> kinds[i] == rows[i].kind)
      && ListsHold(submitLists, SubmitParents(rows)) && ListsHold(eventLists, EventParents(rows))
    }

    lemma RootExists()
      requires Lists()
      ensures rows != [] && rows[0].kind == RootNode
    {
    }

    /** Between callbacks. */
    ghost predicate Ready()
      reads this
    {
      && Lists() && numEvents == |events|
      && Well(View()) && Attached(View()) && Aligned(View()) && Recorded(View())
    }

    constructor (flatten_: bool)
      ensures Ready() && View() == Start(flatten_)
    {
      kinds, submitLists, eventLists := [RootNode], [[]], [[]];
      curSubmit, ibStack, ibStarts, newIbStart, eventStarts, newEventStart := ROOT, [], [], true, [], true;
      renderMarker, lastAdded, startBin, drawTable := NONE, 0, NONE, NONE;
      ibRanges, eventRanges, shared, events, numEvents := map[], map[], map[], [], 0;
      trackingFirstTile, filters, flatten := false, Filters({}, {}, {}), flatten_;
      rows := [Row(RootNode, NONE, NONE)];
      new;
      StartRecorded(flatten_);
      StartLists();
    }

    /** A node that is nobody's child yet. */
    method AddNode(kind: NodeKind) returns (index: nat)
      requires Lists()
      modifies this`kinds, this`submitLists, this`eventLists, this`rows
      ensures Lists() && index == |old(rows)| && rows == old(rows) + [Row(kind, NONE, NONE)]
      ensures submitLists == old(submitLists) + [[]] && kinds == old(kinds) + [kind]
    {
      NodeAdded(submitLists, eventLists, rows, kind);
      index := |kinds|;
      kinds := kinds + [kind];
      submitLists := submitLists + [[]];
      eventLists := eventLists + [[]];
      rows := rows + [Row(kind, NONE, NONE)];
    }

    method AddSubmitChild(parent: nat, c: nat)
      requires Lists() && parent < c < |rows| && rows[c].submitParent == NONE
      requires rows[parent].kind.SubmitNode? ==> rows[c].kind.IbNode?
      modifies this`submitLists, this`rows
      ensures Lists() && rows == old(rows)[c := old(rows)[c].(submitParent := parent)]
    {
      SubmitChildAdded(submitLists, eventLists, rows, parent, c);
      submitLists := submitLists[parent := submitLists[parent] + [c]];
      rows := rows[c := rows[c].(submitParent := parent)];
    }

    method AddEventChild(parent: nat, c: nat)
      requires Lists() && parent < c < |rows| && rows[c].eventParent == NONE
      modifies this`eventLists, this`rows
      ensures Lists() && rows == old(rows)[c := old(rows)[c].(eventParent := parent)]
    {
      EventChildAdded(submitLists, eventLists, rows, parent, c);
      eventLists := eventLists[parent := eventLists[parent] + [c]];
      rows := rows[c := rows[c].(eventParent := parent)];
    }

    /** A field node under a node in both topologies. */
    method AddField(parent: nat) returns (index: nat)
      requires Lists() && parent < |rows| && !rows[parent].kind.SubmitNode?
      modifies this`kinds, this`submitLists, this`eventLists, this`rows
      ensures Lists() && index == |old(rows)| && rows == old(rows) + [Row(FieldNode, parent, parent)]
    {
      index := AddNode(FieldNode);
      AddSubmitChild(parent, index);
      AddEventChild(parent, index);
    }

    /** A node that only the submit topology, or only the other one, has a place for. */
    method AddUnderSubmit(kind: NodeKind, parent: nat) returns (index: nat)
      requires Lists() && parent < |rows| && kind.IbNode?
      modifies this`kinds, this`submitLists, this`eventLists, this`rows
      ensures Lists() && index == |old(rows)| && rows == old(rows) + [Row(kind, parent, NONE)]
    {
      hide Lists;
      index := AddNode(kind);
      AddSubmitChild(parent, index);
    }

    method AddUnderEvent(kind: NodeKind, parent: nat) returns (index: nat)
      requires Lists() && parent < |rows|
      modifies this`kinds, this`submitLists, this`eventLists, this`rows
      ensures Lists() && index == |old(rows)| && rows == old(rows) + [Row(kind, NONE, parent)]
      ensures submitLists == old(submitLists) + [[]] && kinds == old(kinds) + [kind]
    {
      hide Lists;
      index := AddNode(kind);
      AddEventChild(parent, index);
    }

    method AddSubmit() returns (index: nat)
      requires Lists()
      modifies this`kinds, this`submitLists, this`eventLists, this`rows
      ensures Lists() && index == |old(rows)| && rows == old(rows) + [Row(SubmitNode, ROOT, ROOT)]
    {
      RootExists();
      hide Lists;
      index := AddNode(SubmitNode);
      AddSubmitChild(ROOT, index);
      AddEventChild(ROOT, index);
    }

    method OnSubmitStart()
      requires Lists()
      modifies this`kinds, this`submitLists, this`eventLists, this`rows, this`curSubmit, this`ibStack, this`ibStarts
      modifies this`eventStarts, this`renderMarker, this`newEventStart, this`newIbStart, this`trackingFirstTile
      ensures Lists() && View() == StartSubmit(old(View()))
    {
      hide Lists;
      var index := AddSubmit();
      ResetParsing(index);
    }

    method ResetParsing(submit: nat)
      modifies this`curSubmit, this`ibStack, this`ibStarts, this`eventStarts, this`renderMarker
      modifies this`newEventStart, this`newIbStart, this`trackingFirstTile
      ensures curSubmit == submit && ibStack == ibStarts == eventStarts == [] && renderMarker == NONE
      ensures newEventStart && newIbStart && !trackingFirstTile
    {
      curSubmit := submit;
      ibStack, ibStarts, eventStarts := [], [], [];
      renderMarker, newEventStart, newIbStart, trackingFirstTile := NONE, true, true, false;
    }

    method AddPresents(presents: nat)
      requires Lists()
      modifies this`kinds, this`submitLists, this`eventLists, this`rows
      ensures Lists() && rows == old(rows) + Presents(presents)
      ensures old(submitLists) <= submitLists && old(kinds) <= kinds
    {
      hide Lists;
      RootExists();
      ghost var before := rows;
      for i := 0 to presents
        invariant Lists() && rows == before + Presents(i)
        invariant old(submitLists) <= submitLists && old(kinds) <= kinds
      {
        assert rows[ROOT] == before[ROOT];
        var _ := AddUnderEvent(PresentNode, ROOT);
      }
    }

    /** Sorts the buffers of the submit by their indices and adds its present nodes. */
    method OnSubmitEnd(presents: nat)
      requires Lists() && curSubmit < |rows| && rows[curSubmit].kind.SubmitNode?
      modifies this`kinds, this`submitLists, this`eventLists, this`rows
      ensures Lists() && View() == EndSubmit(old(View()), presents)
      ensures AreIbs(kinds, submitLists[curSubmit]) && InIndexOrder(kinds, submitLists[curSubmit])
    {
      hide Lists, InIndexOrder, AreIbs;
      SortChildren();
      ghost var sorted, before := submitLists[curSubmit], kinds;
      AddPresents(presents);
      assert submitLists[curSubmit] == sorted;
      StillInOrder(before, kinds, sorted);
    }

    method SortChildren()
      requires Lists() && curSubmit < |rows| && rows[curSubmit].kind.SubmitNode?
      modifies this`submitLists
      ensures Lists() && curSubmit < |submitLists|
      ensures AreIbs(kinds, submitLists[curSubmit]) && InIndexOrder(kinds, submitLists[curSubmit])
    {
      SubmitSorted(kinds, submitLists, rows, curSubmit);
      hide ListsHold, RowsOk;
      var sorted := SortIbs(kinds, submitLists[curSubmit], |submitLists[curSubmit]|);
      submitLists := submitLists[curSubmit := sorted];
    }

    /** The innermost open buffer, or the submit; a flattened chain goes to the nearest buffer that is no
        chain. */
    method FindParent(ib: IbType) returns (parent: nat)
      requires Lists() && OpenBuffers(rows, ibStack)
      ensures parent == IbParent(View(), ib)
    {
      parent := curSubmit;
      if ibStack != [] {
        parent := ibStack[|ibStack| - 1];
      }
      if flatten && ib == Chain {
        ghost var innermost := parent;
        var i: nat := |ibStack|;
        while i > 0
          invariant i <= |ibStack| && parent == innermost
          invariant NearestNonChain(rows, ibStack, |ibStack|, innermost) == NearestNonChain(rows, ibStack, i, innermost)
        {
          i := i - 1;
          if kinds[ibStack[i]].ib != Chain {
            parent := ibStack[i];
            return;
          }
        }
      }
    }

    /** The field node that a bin or draw-table buffer gets. */
    method AddCause(ib: IbType)
      requires Lists() && Well(View()) && Caused(View(), IbStart(ib, 0))
      modifies this`kinds, this`submitLists, this`eventLists, this`rows
      ensures Lists() && View() == old(View()).(rows := old(rows) + FieldRows(old(View()), ib))
    {
      hide Lists;
      if ib == BinPrefix || ib == BinCommon {
        var _ := AddField(startBin);
      } else if ib == FixedStrideDrawTable {
        var _ := AddField(drawTable);
      }
    }

    method OnIbStart(ib: IbType, index: nat)
      requires Lists() && Well(View()) && Aligned(View()) && Caused(View(), IbStart(ib, index))
      modifies this`kinds, this`submitLists, this`eventLists, this`rows, this`ibStack, this`newIbStart
      ensures Lists() && View() == StartIb(old(View()), ib, index)
    {
      hide Lists, IbParent, FieldRows, Well, OpenBuffers;
      ParentExists(View(), ib);
      var parent := FindParent(ib);
      AddCause(ib);
      var node := AddUnderSubmit(IbNode(ib, index), parent);
      EnterIb(node);
    }

    method EnterIb(node: nat)
      modifies this`ibStack, this`newIbStart
      ensures View() == old(View()).(ibs := old(ibStack) + [node], newIb := true)
    {
      ibStack := ibStack + [node];
      newIbStart := true;
    }

    method OnIbEnd()
      requires Lists() && Aligned(View()) && Allowed(View(), IbEnd)
      modifies this`ibStack, this`ibStarts, this`newIbStart, this`ibRanges
      ensures Lists() && View() == EndIb(old(View()))
    {
      hide Lists, NoneAfter, IsLast, StartsMatch, TrailingChains, IsChain;
      RecordRange();
      PopChains();
      ibStack := ibStack[..|ibStack| - 1];
    }

    /** Root and range of the packets in the innermost buffer, unless it had none. */
    method RecordRange()
      requires Lists() && Aligned(View()) && ibStack != []
      modifies this`ibStarts, this`newIbStart, this`ibRanges
      ensures Lists() && !newIbStart && |ibStarts| == |ibStack| - 1
      ensures ibStarts == old(if newIbStart then ibStarts else Cut(ibStarts, 1))
      ensures ibRanges == old(if newIbStart then ibRanges
        else ibRanges[Last(ibStack) := Range(Last(ibStarts), lastAdded)])
    {
      hide Lists, NoneAfter, IsLast;
      if newIbStart {
        newIbStart := false;
      } else {
        assert |ibStarts| == |ibStack|;
        ibRanges := ibRanges[ibStack[|ibStack| - 1] := Range(ibStarts[|ibStarts| - 1], lastAdded)];
        ibStarts := ibStarts[..|ibStarts| - 1];
      }
    }

    /** The packet node with its field and register nodes. */
    method AddPacketNode(p: Packet) returns (index: nat)
      requires Lists()
      modifies this`kinds, this`submitLists, this`eventLists, this`rows
      ensures Lists() && index == |old(rows)|
      ensures rows == old(rows) + [Row(PacketNode(p.header), NONE, NONE)] + Extras(p, index)
    {
      hide Lists;
      ghost var before := rows;
      index := AddNode(PacketNode(p.header));
      for k := 0 to |p.parentOf|
        invariant Lists() && rows == before + [Row(PacketNode(p.header), NONE, NONE)] + Extras(p, index)[..k]
      {
        var parent := index + if p.parentOf[k] <= k then p.parentOf[k] else k;
        assert rows[parent] == if parent == index then Row(PacketNode(p.header), NONE, NONE)
          else Extras(p, index)[parent - index - 1];
        var _ := AddField(parent);
        assert Extras(p, index)[..k + 1] == Extras(p, index)[..k] + [Extras(p, index)[k]];
      }
      assert Extras(p, index)[..|p.parentOf|] == Extras(p, index);
    }

    /** The event node, under the current pass or else under the submit, and the range it covers. */
    method AddEventNode(packet: nat, event: EventType)
      requires Lists() && curSubmit < |rows| && ParentOk(renderMarker, |rows|) && eventStarts != []
        && numEvents == |events|
      modifies this`kinds, this`submitLists, this`eventLists, this`rows
      modifies this`events, this`numEvents, this`eventRanges, this`newEventStart, this`eventStarts
      ensures Lists() && numEvents == |events| && View() == AddEvent(old(View()), packet, event)
    {
      hide Lists;
      var parent := if renderMarker == NONE then curSubmit else renderMarker;
      var index := AddUnderEvent(EventNode(numEvents, event), parent);
      RecordEvent(index, packet);
    }

    method RecordEvent(index: nat, packet: nat)
      requires eventStarts != [] && numEvents == |events|
      modifies this`events, this`numEvents, this`eventRanges, this`newEventStart, this`eventStarts
      ensures numEvents == |events|
      ensures View() == old(View()).(events := old(events) + [index], newEvent := true,
        eventRanges := old(eventRanges)[index := Range(Last(old(eventStarts)), packet)],
          eventStarts := Cut(old(eventStarts), 1))
    {
      numEvents := numEvents + 1;
      events := events + [index];
      EndEvent(index, packet);
    }

    /** The range that the event covers, back to where it began. */
    method EndEvent(index: nat, packet: nat)
      requires eventStarts != []
      modifies this`eventRanges, this`newEventStart, this`eventStarts
      ensures eventRanges == old(eventRanges)[index := Range(Last(old(eventStarts)), packet)]
      ensures newEventStart && eventStarts == Cut(old(eventStarts), 1)
    {
      eventRanges := eventRanges[index := Range(eventStarts[|eventStarts| - 1], packet)];
      newEventStart := true;
      eventStarts := eventStarts[..|eventStarts| - 1];
    }

    method EndPass()
      requires Lists() && (renderMarker >= 0 ==> |eventStarts| >= 2)
      modifies this`eventStarts, this`eventRanges
      ensures Lists() && View() == ClosePass(old(View()))
    {
      hide Lists;
      if renderMarker >= 0 {
        eventStarts := eventStarts[..|eventStarts| - 1];
        eventRanges := eventRanges[renderMarker := Range(eventStarts[|eventStarts| - 1], lastAdded)];
        eventStarts := eventStarts[..|eventStarts| - 1];
      }
    }

    method AddToFilters(marker: Marker, node: nat)
      modifies this`filters, this`trackingFirstTile
      ensures filters == Filtered(old(filters), old(trackingFirstTile), marker, node)
      ensures trackingFirstTile == FirstTileAfter(old(trackingFirstTile), marker)
    {
      if marker == BinVisibility {
        trackingFirstTile := true;
        filters := filters.(firstTileOnly := filters.firstTileOnly + {node});
      }
      if marker == BinRenderStart || marker == BinResolve {
        filters := filters.(binningOnly := filters.binningOnly + {node});
        if !trackingFirstTile {
          filters := filters.(firstTileOnly := filters.firstTileOnly + {node});
          filters := filters.(binningAndFirstTile := filters.binningAndFirstTile + {node});
        }
        if trackingFirstTile && marker == BinResolve {
          trackingFirstTile := false;
        }
      }
    }

    method StartPass(packet: nat, marker: Marker)
      requires Lists() && curSubmit < |rows|
      modifies this`kinds, this`submitLists, this`eventLists, this`rows
      modifies this`renderMarker, this`filters, this`trackingFirstTile, this`eventStarts, this`newEventStart
      ensures Lists() && View() == OpenPass(old(View()), packet, marker)
    {
      hide Lists, Filtered;
      var node := AddUnderEvent(PassNode(marker), curSubmit);
      AddToFilters(marker, node);
      EnterPass(node, packet);
    }

    method EnterPass(node: nat, packet: nat)
      modifies this`renderMarker, this`eventStarts, this`newEventStart
      ensures View() == old(View()).(pass := node, eventStarts := old(eventStarts) + [packet], newEvent := true)
    {
      renderMarker := node;
      eventStarts := eventStarts + [packet];
      newEventStart := true;
    }

    /** The packet node, and the ranges that it begins. */
    method BeginPacket(p: Packet) returns (packet: nat)
      requires Lists()
      modifies this`kinds, this`submitLists, this`eventLists, this`rows
      modifies this`eventStarts, this`newEventStart, this`ibStarts, this`newIbStart
      ensures Lists() && packet == |old(rows)| && View() == AddPacket(old(View()), p)
    {
      hide Lists;
      packet := AddPacketNode(p);
      PushStarts(packet);
    }

    /** The packet may be the first of an event, and of a buffer. */
    method PushStarts(packet: nat)
      modifies this`eventStarts, this`newEventStart, this`ibStarts, this`newIbStart
      ensures View() == old(View()).(
        eventStarts := if old(newEventStart) then old(eventStarts) + [packet] else old(eventStarts), newEvent := false,
        ibStarts := if old(newIbStart) then old(ibStarts) + [packet] else old(ibStarts), newIb := false)
    {
      if newEventStart {
        newEventStart := false;
        eventStarts := eventStarts + [packet];
      }
      if newIbStart {
        newIbStart := false;
        ibStarts := ibStarts + [packet];
      }
    }

    method OnMarker(packet: nat, marker: Marker)
      requires Lists() && curSubmit < |rows| && (renderMarker >= 0 ==> |eventStarts| >= 2)
      modifies this`kinds, this`submitLists, this`eventLists, this`rows
      modifies this`renderMarker, this`filters, this`trackingFirstTile, this`eventStarts, this`newEventStart,
        this`eventRanges
      ensures Lists() && View() == Act(old(View()), packet, Type7(SetsMarker(marker)))
    {
      hide Lists, OpenPass, ClosePass;
      if StartsPass(marker) {
        EndPass();
        StartPass(packet, marker);
      }
    }

    method OnAction(packet: nat, header: Header)
      requires Lists() && curSubmit < |rows| && ParentOk(renderMarker, |rows|)
      requires eventStarts != [] && (renderMarker >= 0 ==> |eventStarts| >= 2) && numEvents == |events|
      modifies this`kinds, this`submitLists, this`eventLists, this`rows, this`startBin, this`drawTable
      modifies this`renderMarker, this`filters, this`trackingFirstTile, this`eventStarts, this`newEventStart,
        this`eventRanges
      modifies this`events, this`numEvents
      ensures Lists() && numEvents == |events| && View() == Act(old(View()), packet, header)
    {
      hide Lists, OpenPass, ClosePass, AddEvent;
      if header.Type7? {
        match header.action
        case IsEvent(event) => AddEventNode(packet, event);
        case StartsBin => startBin := packet;
        case EndsBin => startBin := NONE;
        case DrawsTable => drawTable := packet;
        case SetsMarker(marker) => OnMarker(packet, marker);
        case OtherAction =>
      }
    }

    method OnPacket(p: Packet)
      requires Ready() && Allowed(View(), Callback.OnPacket(p))
      modifies this
      ensures Lists() && numEvents == |events| && View() == AfterPacket(old(View()), p)
    {
      hide Lists, Aligned, Recorded, Well, Attached, AddPacket, Act, Allowed, ShareWithPass;
      if p.header.OtherType? {
        return;
      }
      StartsExist(View(), p);
      var packet := BeginPacket(p);
      assert |ibStack| == |ibStarts|;
      OnAction(packet, p.header);
      EndPacket(packet);
    }

    /** The packet becomes a shared child of the current pass. */
    method EndPacket(packet: nat)
      modifies this`shared, this`lastAdded
      ensures View() == ShareWithPass(old(View()), packet).(last := packet)
    {
      if renderMarker >= 0 {
        shared := shared[renderMarker := (if renderMarker in shared then shared[renderMarker] else []) + [packet]];
      }
      lastAdded := packet;
    }

    method Dispatch(cb: Callback)
      requires Ready() && Allowed(View(), cb) && Caused(View(), cb)
      modifies this
      ensures Ready() && View() == Step(old(View()), cb)
    {
      hide Lists, Well, Attached, Aligned, Recorded, StartIb, EndIb, AfterPacket, StartSubmit, EndSubmit;
      StepKeeps(View(), cb);
      match cb
      case SubmitStart => OnSubmitStart();
      case SubmitEnd(presents) => OnSubmitEnd(presents);
      case IbStart(ib, index) => OnIbStart(ib, index);
      case IbEnd => OnIbEnd();
      case OnPacket(p) => OnPacket(p);
    }

    method Process(cbs: seq<Callback>)
      requires Ready() && AllAllowed(View(), cbs) && AllCaused(View(), cbs)
      modifies this
      ensures Ready() && View() == Run(old(View()), cbs)
    {
      hide Lists, Well, Attached, Aligned, Recorded, Step, Allowed, Caused;
      ghost var before := View();
      for i := 0 to |cbs|
        invariant Ready() && View() == Run(before, cbs[..i])
      {
        assert cbs[..i + 1] == cbs[..i] + [cbs[i]];
        assert cbs == cbs[..i + 1] + cbs[i + 1..];
        RunConcat(before, cbs[..i + 1], cbs[i + 1..]);
        RunOne(before, cbs[..i], cbs[i]);
        Dispatch(cbs[i]);
      }
      assert cbs[..|cbs|] == cbs;
    }

    /** Any number of submits that are well formed and in order: the assertions about the stacks and the
        child lists hold throughout. */
    method ProcessSubmits(submits: seq<Submit>)
      requires Ready() && forall k :: 0 <= k < |submits| ==> AllWellFormed(submits[k].buffers)
      requires InOrder(CausesOf(View()), SubmitTraces(submits, |submits|))
      modifies this
      ensures Ready() && View() == Run(old(View()), SubmitTraces(submits, |submits|))
    {
      hide Lists, Well, Attached, Recorded, Aligned, AllWellFormed, AllCaused, AllAllowed, Run, SubmitTrace, InOrder,
        CausesOf;
      ghost var before := View();
      InOrderIff(before, SubmitTraces(submits, |submits|));
      RunNothing(before);
      for k := 0 to |submits|
        invariant Ready() && View() == Run(before, SubmitTraces(submits, k))
      {
        CausedPrefix(before, submits, k + 1, |submits|);
        ghost var cbs := SubmitTrace(submits[k].buffers, submits[k].presents);
        RunConcat(before, SubmitTraces(submits, k), cbs);
        SubmitBalance(View(), submits[k].buffers, submits[k].presents);
        ProcessSubmit(submits[k]);
      }
    }

    method ProcessSubmit(submit: Submit)
      requires Ready() && AllAllowed(View(), SubmitTrace(submit.buffers, submit.presents))
      requires AllCaused(View(), SubmitTrace(submit.buffers, submit.presents))
      modifies this
      ensures Ready() && View() == Run(old(View()), SubmitTrace(submit.buffers, submit.presents))
    {
      hide Lists, Well, Attached, Recorded, Aligned, AllCaused, AllAllowed, Run, SubmitTrace;
      Process(SubmitTrace(submit.buffers, submit.presents));
    }

    /** Both topologies. The children lists are forests in which a node hangs from the parent it was given,
        and they reach the nodes that each topology is for. */
    method CreateTopologies() returns (submits: SharedNodeTopology, all: SharedNodeTopology)
      requires Ready() && |rows| < UINT64_MAX
      ensures fresh(submits) && submits.Valid() && submits.lists == submitLists
      ensures fresh(all) && all.Valid() && all.lists == eventLists
      ensures all.shared == SharedLists(shared, |rows|)
      ensures Gives(submitLists, SubmitParents(rows)) && Gives(eventLists, EventParents(rows))
      ensures forall c: nat :: c < |rows| ==>
        (Rooted(submitLists, c) <==> InSubmits(rows[c].kind)) && (Rooted(eventLists, c) <==> InEvents(rows[c].kind))
    {
      RowsBefore(rows);
      HoldsGives(submitLists, SubmitParents(rows));
      HoldsGives(eventLists, EventParents(rows));
      hide ListsHold, RowsOk, Recorded, Aligned, Well, RowsAttached, Rooted;
      TopologiesReach(rows, submitLists, eventLists);
      submits := CreateTopology(submitLists, seq(|kinds|, _ => []));
      all := CreateTopology(eventLists, SharedLists(shared, |kinds|));
    }

    /** All consecutive chains at the top of the stack. */
    method PopChains()
      requires Lists() && OpenBuffers(rows, ibStack) && |ibStarts| == |ibStack| - 1
      requires TrailingChains(rows, ibStack, |ibStack|) < |ibStack|
      modifies this`ibStack, this`ibStarts
      ensures var k := TrailingChains(rows, old(ibStack), |old(ibStack)|);
        ibStack == Cut(old(ibStack), k) && ibStarts == Cut(old(ibStarts), k) && ibStack != []
    {
      hide ListsHold, RowsOk;
      ghost var ibs, starts := ibStack, ibStarts;
      while kinds[ibStack[|ibStack| - 1]].ib == Chain
        invariant ibStack != [] && |ibStack| <= |ibs| && |ibStarts| == |ibStack| - 1
        invariant ibStack == ibs[..|ibStack|] && ibStarts == starts[..|ibStarts|]
        invariant TrailingChains(rows, ibs, |ibs|) == |ibs| - |ibStack| + TrailingChains(rows, ibs, |ibStack|)
        invariant TrailingChains(rows, ibs, |ibStack|) < |ibStack|
        decreases |ibStack|
      {
        ibStack := ibStack[..|ibStack| - 1];
        ibStarts := ibStarts[..|ibStarts| - 1];
      }
    }
  }

  function SharedLists(shared: map<nat, seq<nat>>, n: nat): (r: ChildLists)
    ensures |r| == n && forall i :: 0 <= i < n ==> r[i] == if i in shared then shared[i] else []
  {
    seq(n, i => if i in shared then shared[i] else [])
  }

  lemma {:induction false} CausedPrefix(s: State, submits: seq<Submit>, n: nat, total: nat)
    requires n <= total <= |submits| && AllCaused(s, SubmitTraces(submits, total))
    ensures AllCaused(s, SubmitTraces(submits, n))
    decreases total
  {
    hide AllCaused, Run, SubmitTrace;
    if n < total {
      RunConcat(s, SubmitTraces(submits, total - 1),
        SubmitTrace(submits[total - 1].buffers, submits[total - 1].presents));
      CausedPrefix(s, submits, n, total - 1);
    }
  }

  lemma StepKeeps(s: State, cb: Callback)
    requires Well(s) && Attached(s) && Aligned(s) && Recorded(s) && Allowed(s, cb) && Caused(s, cb)
    ensures Well(Step(s, cb)) && Attached(Step(s, cb)) && Aligned(Step(s, cb)) && Recorded(Step(s, cb))
  {
    hide Recorded, Well, Attached;
    WellStep(s, cb);
    AttachedStep(s, cb);
    AlignedStep(s, cb);
    RecordedStep(s, cb);
  }

  /** What a packet finds on the stacks once its node is there. */
  lemma StartsExist(s: State, p: Packet)
    requires Aligned(s) && Recorded(s) && Well(s) && Allowed(s, OnPacket(p)) && IsTyped(p)
    ensures var t := AddPacket(s, p);
      && |t.ibs| == |t.ibStarts| && t.eventStarts != [] && (t.pass >= 0 ==> |t.eventStarts| >= 2)
      && t.submit < |t.rows| && ParentOk(t.pass, |t.rows|)
  {
    hide AddPacket;
    AddPacketEffect(s, p);
  }

  lemma ParentExists(s: State, ib: IbType)
    requires Well(s) && OpenBuffers(s.rows, s.ibs)
    ensures IbParent(s, ib) < |s.rows|
    ensures s.startBin != NONE ==> 0 <= s.startBin < |s.rows| && s.rows[s.startBin].kind.PacketNode?
    ensures s.drawTable != NONE ==> 0 <= s.drawTable < |s.rows| && s.rows[s.drawTable].kind.PacketNode?
  {
    NearestIsOpen(s.rows, s.ibs, |s.ibs|, if s.ibs == [] then s.submit else Last(s.ibs));
  }

  lemma StillInOrder(kinds: seq<NodeKind>, more: seq<NodeKind>, list: seq<nat>)
    requires AreIbs(kinds, list) && InIndexOrder(kinds, list) && kinds <= more
    ensures AreIbs(more, list) && InIndexOrder(more, list)
  {
  }

  /** The children of a submit in its topology are buffers, and sorting them keeps them all. */
  lemma {:induction false} SubmitSorted(kinds: seq<NodeKind>, lists: ChildLists, rows: seq<Row>, submit: nat)
    requires RowsOk(rows) && |kinds| == |rows| && (forall i :: 0 <= i < |rows| ==> kinds[i] == rows[i].kind)
    requires ListsHold(lists, SubmitParents(rows)) && submit < |rows| && rows[submit].kind.SubmitNode?
    ensures AreIbs(kinds, lists[submit])
    ensures var sorted := SortIbs(kinds, lists[submit], |lists[submit]|);
      InIndexOrder(kinds, sorted) && ListsHold(lists[submit := sorted], SubmitParents(rows))
  {
    var list := lists[submit];
    assert Holds(list, SubmitParents(rows), submit);
    forall k | 0 <= k < |list|
      ensures list[k] < |kinds| && kinds[list[k]].IbNode?
    {
      assert RowOk(rows, list[k]);
    }
    SortIbsCorrect(kinds, list, |list|);
    assert list[..|list|] == list;
    HoldsReordered(lists, SubmitParents(rows), submit, SortIbs(kinds, list, |list|));
  }

  lemma StartLists()
    ensures RowsOk([Row(RootNode, NONE, NONE)])
    ensures ListsHold([[]], SubmitParents([Row(RootNode, NONE, NONE)]))
      && ListsHold([[]], EventParents([Row(RootNode, NONE, NONE)]))
    ensures forall flatten :: Well(Start(flatten))
  {
  }

  lemma RowsBefore(rows: seq<Row>)
    requires RowsOk(rows)
    ensures ParentsBefore(SubmitParents(rows)) && ParentsBefore(EventParents(rows))
  {
    forall i | 0 <= i < |rows|
      ensures ParentOk(rows[i].submitParent, i) && ParentOk(rows[i].eventParent, i)
    {
      assert RowOk(rows, i);
    }
  }

  lemma NodeAdded(submitLists: ChildLists, eventLists: ChildLists, rows: seq<Row>, kind: NodeKind)
    requires RowsOk(rows) && ListsHold(submitLists, SubmitParents(rows)) && ListsHold(eventLists, EventParents(rows))
    ensures var rows' := rows + [Row(kind, NONE, NONE)];
      && RowsOk(rows')
      && ListsHold(submitLists + [[]], SubmitParents(rows')) && ListsHold(eventLists + [[]], EventParents(rows'))
  {
    var rows' := rows + [Row(kind, NONE, NONE)];
    RowsBefore(rows);
    HoldsNode(submitLists, SubmitParents(rows));
    HoldsNode(eventLists, EventParents(rows));
    assert SubmitParents(rows') == SubmitParents(rows) + [NONE] && EventParents(rows') == EventParents(rows) + [NONE];
    RowsOkGrow(rows, rows');
  }

  lemma RowsOkChild(rows: seq<Row>, rows': seq<Row>, c: nat)
    requires RowsOk(rows) && 0 < c < |rows| && |rows'| == |rows| && RowOk(rows', c)
    requires forall i :: 0 <= i < |rows| ==> rows'[i].kind == rows[i].kind && (i != c ==> rows'[i] == rows[i])
    ensures RowsOk(rows')
  {
    forall i | 0 <= i < |rows'|
      ensures RowOk(rows', i)
    {
      assert RowOk(rows, i);
    }
  }

  lemma SubmitChildAdded(submitLists: ChildLists, eventLists: ChildLists, rows: seq<Row>, parent: nat, c: nat)
    requires RowsOk(rows) && ListsHold(submitLists, SubmitParents(rows)) && ListsHold(eventLists, EventParents(rows))
    requires parent < c < |rows| && rows[c].submitParent == NONE
      && (rows[parent].kind.SubmitNode? ==> rows[c].kind.IbNode?)
    ensures var rows' := rows[c := rows[c].(submitParent := parent)];
      && RowsOk(rows')
      && ListsHold(submitLists[parent := submitLists[parent] + [c]], SubmitParents(rows'))
      && ListsHold(eventLists, EventParents(rows'))
  {
    var rows' := rows[c := rows[c].(submitParent := parent)];
    assert RowOk(rows, c);
    RowsOkChild(rows, rows', c);
    HoldsChild(submitLists, SubmitParents(rows), c, parent);
    assert SubmitParents(rows') == SubmitParents(rows)[c := parent] && EventParents(rows') == EventParents(rows);
  }

  lemma EventChildAdded(submitLists: ChildLists, eventLists: ChildLists, rows: seq<Row>, parent: nat, c: nat)
    requires RowsOk(rows) && ListsHold(submitLists, SubmitParents(rows)) && ListsHold(eventLists, EventParents(rows))
    requires parent < c < |rows| && rows[c].eventParent == NONE
    ensures var rows' := rows[c := rows[c].(eventParent := parent)];
      && RowsOk(rows')
      && ListsHold(submitLists, SubmitParents(rows'))
      && ListsHold(eventLists[parent := eventLists[parent] + [c]], EventParents(rows'))
  {
    var rows' := rows[c := rows[c].(eventParent := parent)];
    assert RowOk(rows, c);
    RowsOkChild(rows, rows', c);
    HoldsChild(eventLists, EventParents(rows), c, parent);
    assert EventParents(rows') == EventParents(rows)[c := parent] && SubmitParents(rows') == SubmitParents(rows);
  }

  /** A capture, from its submits to its topologies. In a tidy one every node hangs from where the nesting of
      the buffers puts it. */
  method CreateTrees(submits: seq<Submit>, flatten: bool)
    returns (bySubmit: SharedNodeTopology, all: SharedNodeTopology)
    requires forall k :: 0 <= k < |submits| ==> AllWellFormed(submits[k].buffers)
    requires InOrder(Causes(false, false), SubmitTraces(submits, |submits|))
    requires |PlanSubmits(submits, |submits|, flatten).rows| < UINT64_MAX
    ensures fresh(bySubmit) && bySubmit.Valid() && fresh(all) && all.Valid()
    ensures var s := Run(Start(flatten), SubmitTraces(submits, |submits|));
      && Gives(bySubmit.lists, SubmitParents(s.rows)) && Gives(all.lists, EventParents(s.rows))
      && all.shared == SharedLists(s.shared, |s.rows|)
    ensures TidySubmits(submits, |submits|) ==>
      var rows := PlanSubmits(submits, |submits|, flatten).rows;
      Gives(bySubmit.lists, SubmitParents(rows)) && Gives(all.lists, EventParents(rows))
  {
    hide Run, SubmitTraces, PlanSubmits, TidySubmits, AllWellFormed, InOrder, Gives, Aligned, Well, Attached,
      Recorded, SubmitParents, EventParents;
    var creator := new CommandHierarchyCreator(flatten);
    CapturePlanned(submits, |submits|, flatten);
    creator.ProcessSubmits(submits);
    bySubmit, all := creator.CreateTopologies();
  }
}
