/** What a packet does to each part of the state. */
module Pm4Effects {
  import opened Pm4Trace

  predicate OpensPass(h: Header) {
    h.Type7? && h.action.SetsMarker? && StartsPass(h.action.marker)
  }

  predicate IsEventHeader(h: Header) {
    h.Type7? && h.action.IsEvent?
  }

  /** The node that a packet makes beside its own. */
  function MadeBy(s: State, header: Header): (r: seq<Row>)
    ensures forall k :: 0 <= k < |r| ==> r[k].kind.EventNode? || r[k].kind.PassNode?
  {
    match header
    case Type7(IsEvent(event)) =>
      [Row(EventNode(|s.events|, event), NONE, if s.pass == NONE then s.submit else s.pass)]
    case Type7(SetsMarker(marker)) =>
      if StartsPass(marker) then [Row(PassNode(marker), NONE, s.submit)] else []
    case _ => []
  }

  /** The nodes made for a packet. */
  function PacketNodes(s: State, p: Packet): (r: seq<Row>)
    ensures r != [] && r[0].kind == PacketNode(p.header)
    ensures forall k :: 0 < k < |r| ==> r[k].kind.FieldNode? || r[k].kind.EventNode? || r[k].kind.PassNode?
  {
    [Row(PacketNode(p.header), NONE, NONE)] + Extras(p, |s.rows|) + MadeBy(s, p.header)
  }

  /** The starts once a packet n has arrived. */
  function Opened(s: State, n: nat): seq<nat> {
    if s.newEvent then s.eventStarts + [n] else s.eventStarts
  }

  function SharedWith(shared: map<nat, seq<nat>>, pass: int, n: nat): map<nat, seq<nat>> {
    if pass < 0 then shared else shared[pass := (if pass in shared then shared[pass] else []) + [n]]
  }

  function BinAfter(bin: int, n: nat, header: Header): int {
    match header
    case Type7(StartsBin) => n
    case Type7(EndsBin) => NONE
    case _ => bin
  }

  function TableAfter(table: int, n: nat, header: Header): int {
    if header == Type7(DrawsTable) then n else table
  }

  /** The starts that are left when the pass is closed, and the ranges with that of the pass. */
  function StartsClosed(pass: int, starts: seq<nat>): seq<nat> {
    if pass < 0 then starts else Cut(Cut(starts, 1), 1)
  }

  function RangesClosed(s: State, starts: seq<nat>): map<nat, Range> {
    if s.pass < 0 then s.eventRanges else s.eventRanges[s.pass := Range(Last(Cut(starts, 1)), s.last)]
  }

  /** Packets leave the open buffers alone once they are there. */
  ghost predicate SameBuffers(s: State, t: State) {
    && t.ibs == s.ibs && t.newIb == s.newIb && t.ibStarts == s.ibStarts && t.ibRanges == s.ibRanges
    && t.flatten == s.flatten && t.submit == s.submit && t.last == s.last
  }

  ghost predicate SameCauses(s: State, t: State) {
    t.startBin == s.startBin && t.drawTable == s.drawTable
  }

  ghost predicate SameFilters(s: State, t: State) {
    t.filters == s.filters && t.firstTile == s.firstTile
  }

  lemma AddPacketEffect(s: State, p: Packet)
    ensures var t, n := AddPacket(s, p), |s.rows|;
      && t.rows == s.rows + ([Row(PacketNode(p.header), NONE, NONE)] + Extras(p, n))
      && t.ibs == s.ibs && !t.newIb && t.ibStarts == (if s.newIb then s.ibStarts + [n] else s.ibStarts)
      && t.ibRanges == s.ibRanges && t.flatten == s.flatten && t.submit == s.submit && t.last == s.last
      && t.pass == s.pass && t.eventStarts == Opened(s, n) && !t.newEvent && t.eventRanges == s.eventRanges
      && t.events == s.events && t.shared == s.shared && SameCauses(s, t) && SameFilters(s, t)
  {
  }

  lemma AddEventEffect(s: State, n: nat, event: EventType)
    ensures var t, v := AddEvent(s, n, event), |s.rows|;
      && t.rows == s.rows + MadeBy(s, Type7(IsEvent(event))) && SameBuffers(s, t)
      && t.pass == s.pass && t.eventStarts == Cut(s.eventStarts, 1) && t.newEvent
      && t.eventRanges == s.eventRanges[v := Range(Last(s.eventStarts), n)] && t.events == s.events + [v]
      && t.shared == s.shared && SameCauses(s, t) && SameFilters(s, t)
  {
  }

  lemma ClosePassEffect(s: State)
    ensures ClosePass(s) ==
      s.(eventStarts := StartsClosed(s.pass, s.eventStarts), eventRanges := RangesClosed(s, s.eventStarts))
  {
  }

  lemma OpenPassEffect(s: State, n: nat, marker: Marker)
    ensures var t := OpenPass(s, n, marker);
      && t.rows == s.rows + [Row(PassNode(marker), NONE, s.submit)] && SameBuffers(s, t)
      && t.pass == |s.rows| && t.eventStarts == s.eventStarts + [n] && t.newEvent && t.eventRanges == s.eventRanges
      && t.events == s.events && t.shared == s.shared && SameCauses(s, t)
      && t.filters == Filtered(s.filters, s.firstTile, marker, |s.rows|)
      && t.firstTile == FirstTileAfter(s.firstTile, marker)
  {
    hide Filtered;
  }

  lemma ShareEffect(s: State, n: nat)
    ensures ShareWithPass(s, n) == s.(shared := SharedWith(s.shared, s.pass, n))
  {
  }

  lemma HeaderCases(s: State, n: nat, header: Header)
    ensures IsEventHeader(header) ==> header == Type7(IsEvent(header.action.event)) && !OpensPass(header)
    ensures OpensPass(header) ==> header == Type7(SetsMarker(header.action.marker))
    ensures OpensPass(header) ==> MadeBy(s, header) == [Row(PassNode(header.action.marker), NONE, s.submit)]
    ensures IsEventHeader(header) || OpensPass(header) ==>
      BinAfter(s.startBin, n, header) == s.startBin && TableAfter(s.drawTable, n, header) == s.drawTable
    ensures !IsEventHeader(header) && !OpensPass(header) ==> MadeBy(s, header) == []
  {
  }

  lemma ActCases(s: State, n: nat, header: Header)
    ensures Act(s, n, header) ==
      if IsEventHeader(header) then AddEvent(s, n, header.action.event)
      else if OpensPass(header) then OpenPass(ClosePass(s), n, header.action.marker)
      else s.(startBin := BinAfter(s.startBin, n, header), drawTable := TableAfter(s.drawTable, n, header))
  {
    hide AddEvent, OpenPass, ClosePass, StartsPass;
  }

  lemma ActEffect(s: State, n: nat, header: Header)
    ensures var t, v := Act(s, n, header), |s.rows|;
      && t.rows == s.rows + MadeBy(s, header) && SameBuffers(s, t) && t.shared == s.shared
      && t.startBin == BinAfter(s.startBin, n, header) && t.drawTable == TableAfter(s.drawTable, n, header)
      && t.pass == (if OpensPass(header) then v else s.pass)
      && t.newEvent == (s.newEvent || OpensPass(header) || IsEventHeader(header))
      && t.events == (if IsEventHeader(header) then s.events + [v] else s.events)
      && t.eventStarts == (if IsEventHeader(header) then Cut(s.eventStarts, 1)
                           else if OpensPass(header) then StartsClosed(s.pass, s.eventStarts) + [n] else s.eventStarts)
      && t.eventRanges == (if IsEventHeader(header) then s.eventRanges[v := Range(Last(s.eventStarts), n)]
                           else if OpensPass(header) then RangesClosed(s, s.eventStarts) else s.eventRanges)
      && t.filters == (if OpensPass(header) then Filtered(s.filters, s.firstTile, header.action.marker, v)
           else s.filters)
      && t.firstTile == if OpensPass(header) then FirstTileAfter(s.firstTile, header.action.marker) else s.firstTile
  {
    hide Act, ClosePass, OpenPass, AddEvent, StartsPass, Filtered, StartsClosed, RangesClosed, FirstTileAfter;
    hide OpensPass, IsEventHeader, BinAfter, TableAfter, MadeBy;
    HeaderCases(s, n, header);
    ActCases(s, n, header);
    if IsEventHeader(header) {
      AddEventEffect(s, n, header.action.event);
    } else if OpensPass(header) {
      ClosePassEffect(s);
      OpenPassEffect(ClosePass(s), n, header.action.marker);
    }
  }

  lemma Untyped(s: State, p: Packet)
    requires !IsTyped(p)
    ensures AfterPacket(s, p) == s
  {
  }

  lemma SameMade(s: State, t: State, header: Header)
    requires t.events == s.events && t.pass == s.pass && t.submit == s.submit
    ensures MadeBy(t, header) == MadeBy(s, header)
  {
  }

  lemma PacketEffect(s: State, p: Packet)
    requires IsTyped(p)
    ensures var t, n, v := AfterPacket(s, p), |s.rows|, |s.rows| + |p.parentOf| + 1;
      && t.rows == s.rows + PacketNodes(s, p)
      && t.ibs == s.ibs && !t.newIb && t.ibStarts == (if s.newIb then s.ibStarts + [n] else s.ibStarts)
      && t.ibRanges == s.ibRanges && t.flatten == s.flatten && t.submit == s.submit && t.last == n
      && t.startBin == BinAfter(s.startBin, n, p.header) && t.drawTable == TableAfter(s.drawTable, n, p.header)
      && t.pass == (if OpensPass(p.header) then v else s.pass) && t.shared == SharedWith(s.shared, t.pass, n)
      && t.newEvent == (OpensPass(p.header) || IsEventHeader(p.header))
      && t.events == (if IsEventHeader(p.header) then s.events + [v] else s.events)
      && t.eventStarts == (if IsEventHeader(p.header) then Cut(Opened(s, n), 1)
                           else if OpensPass(p.header) then StartsClosed(s.pass, Opened(s, n)) + [n] else Opened(s, n))
      && t.eventRanges == (if IsEventHeader(p.header) then s.eventRanges[v := Range(Last(Opened(s, n)), n)]
                           else if OpensPass(p.header) then RangesClosed(s, Opened(s, n)) else s.eventRanges)
      && t.filters == (if OpensPass(p.header) then Filtered(s.filters, s.firstTile, p.header.action.marker, v)
           else s.filters)
      && t.firstTile == if OpensPass(p.header) then FirstTileAfter(s.firstTile, p.header.action.marker) else s.firstTile
  {
    hide AddPacket, Act, ShareWithPass, Filtered, Opened, SharedWith, StartsClosed, FirstTileAfter, BinAfter,
      TableAfter;
    hide OpensPass, IsEventHeader, MadeBy;
    HeaderCases(s, |s.rows|, p.header);
    var a, n := AddPacket(s, p), |s.rows|;
    AddPacketEffect(s, p);
    ActEffect(a, n, p.header);
    ShareEffect(Act(a, n, p.header), n);
    SameMade(s, a, p.header);
  }
}
