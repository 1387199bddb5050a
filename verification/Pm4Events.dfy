/** Events and passes: which packets they cover, and the list of events. */
module Pm4Events {
  import opened Ancestry
  import opened Pm4Trace
  import opened Pm4Effects
  import opened Pm4Stacks

  // ---------- stretches between boundaries ----------

  /** A packet that ends an event or starts a pass. */
  predicate IsBoundary(rows: seq<Row>, x: nat) {
    IsPacket(rows, x) && (IsEventHeader(rows[x].kind.header) || OpensPass(rows[x].kind.header))
  }

  ghost predicate NoBoundary(rows: seq<Row>, x: nat, hi: nat) {
    forall y: nat :: IsBoundary(rows, y) && x <= y ==> hi <= y
  }

  /** Of the packets after node lo and before hi, those from a on are the ones that no boundary follows. */
  ghost predicate Stretch(rows: seq<Row>, lo: nat, hi: nat, a: nat) {
    lo < a && forall x: nat :: IsPacket(rows, x) && lo < x < hi ==> (a <= x <==> NoBoundary(rows, x, hi))
  }

  ghost predicate AllBounded(rows: seq<Row>, lo: nat) {
    forall x: nat :: IsPacket(rows, x) && lo < x ==> !NoBoundary(rows, x, |rows|)
  }

  function PacketsIn(rows: seq<Row>, lo: nat, hi: nat): seq<nat> {
    if hi <= lo then [] else PacketsIn(rows, lo, hi - 1) + if IsPacket(rows, hi - 1) then [hi - 1] else []
  }

  lemma {:induction false} PacketsInAre(rows: seq<Row>, lo: nat, hi: nat)
    ensures var s := PacketsIn(rows, lo, hi);
      (forall x :: x in s <==> lo <= x < hi && IsPacket(rows, x)) && Increasing(s)
  {
    if hi > lo {
      hide Increasing;
      PacketsInAre(rows, lo, hi - 1);
      SnocIncreasing(PacketsIn(rows, lo, hi - 1), hi - 1);
    } else {
      assert Increasing([]);
    }
  }

  lemma {:induction false} PacketsInSame(rows: seq<Row>, more: seq<Row>, lo: nat, hi: nat, end: nat)
    requires hi <= end && forall x: nat :: lo <= x < end ==> (IsPacket(more, x) <==> x < hi && IsPacket(rows, x))
    ensures PacketsIn(rows, lo, hi) == PacketsIn(more, lo, end)
    decreases end
  {
    if end > hi && end > lo {
      PacketsInSame(rows, more, lo, hi, end - 1);
    } else if end > lo {
      PacketsInSame(rows, more, lo, hi - 1, end - 1);
    }
  }

  // ---------- the invariant ----------

  /** The parent of a pass is its submit, and so is the parent of an event outside of passes. */
  function TopOf(rows: seq<Row>, v: nat): int
    requires v < |rows|
  {
    var p := rows[v].eventParent;
    if 0 <= p < |rows| && rows[p].kind.PassNode? then rows[p].eventParent else p
  }

  /** The range of an event: it ends in the event's own packet, the only event packet in it, and goes back
      to the boundary before. */
  ghost predicate EventDone(rows: seq<Row>, v: nat, r: Range) {
    && r.start <= r.end < v < |rows| && rows[v].eventParent < v && IsPacket(rows, r.start) && IsPacket(rows, r.end)
    && rows[v].kind.EventNode? && rows[r.end].kind.header == Type7(IsEvent(rows[v].kind.event))
    && (forall i {:trigger rows[i]} :: r.end < i < v ==> rows[i].kind.FieldNode?)
    && TopOf(rows, v) >= 0 && Stretch(rows, TopOf(rows, v), r.end, r.start)
  }

  ghost predicate EventsDone(rows: seq<Row>, ranges: map<nat, Range>) {
    forall v: nat {:trigger rows[v]} :: v < |rows| && rows[v].kind.EventNode? ==>
      v in ranges && EventDone(rows, v, ranges[v])
  }

  /** The pass m was started by packet a. */
  ghost predicate StartedBy(rows: seq<Row>, m: nat, a: nat) {
    && a < m < |rows| && IsPacket(rows, a)
    && rows[m].kind.PassNode? && rows[a].kind.header == Type7(SetsMarker(rows[m].kind.marker))
    && StartsPass(rows[m].kind.marker)
    && (forall i {:trigger rows[i]} :: a < i < m ==> rows[i].kind.FieldNode?)
  }

  ghost predicate NoPassAfter(rows: seq<Row>, a: nat, end: nat) {
    forall x: nat :: IsPacket(rows, x) && a < x < end ==> !OpensPass(rows[x].kind.header)
  }

  /** The range of a closed pass: it starts in the packet that started the pass, contains no other such
      packet, and its packets are the shared children of the pass. */
  ghost predicate PassDone(rows: seq<Row>, m: nat, r: Range, shared: seq<nat>) {
    && StartedBy(rows, m, r.start) && r.start <= r.end < |rows| && IsPacket(rows, r.end)
    && NoPassAfter(rows, r.start, r.end + 1)
    && shared == PacketsIn(rows, r.start, r.end + 1)
  }

  ghost predicate PassesDone(rows: seq<Row>, ranges: map<nat, Range>, shared: map<nat, seq<nat>>) {
    forall m: nat {:trigger rows[m]} :: m < |rows| && rows[m].kind.PassNode? && m in ranges ==>
      m in shared && PassDone(rows, m, ranges[m], shared[m])
  }

  /** The current pass is still open. */
  ghost predicate InPass(rows: seq<Row>, submit: nat, pass: nat, a: nat, shared: map<nat, seq<nat>>) {
    && StartedBy(rows, pass, a) && rows[pass].eventParent == submit && NoPassAfter(rows, a, |rows|)
    && pass in shared && shared[pass] == PacketsIn(rows, a, |rows|)
  }

  /** No entry before any pass, two inside a pass, and one for an open event. */
  ghost predicate Tracked(s: State) {
    && |s.eventStarts| == (if s.pass < 0 then 0 else 2) + (if s.newEvent then 0 else 1)
    && (s.pass >= 0 ==> InPass(s.rows, s.submit, s.pass, s.eventStarts[1], s.shared))
    && KeysOk(s)
    && (if s.newEvent then AllBounded(s.rows, s.submit)
        else IsPacket(s.rows, Last(s.eventStarts)) && Stretch(s.rows, s.submit, |s.rows|, Last(s.eventStarts)))
  }

  ghost predicate Listed(rows: seq<Row>, events: seq<nat>) {
    && (forall k {:trigger events[k]} :: 0 <= k < |events| ==>
          events[k] < |rows| && rows[events[k]].kind.EventNode? && rows[events[k]].kind.id == k)
    && (forall k, l {:trigger events[k], events[l]} :: 0 <= k < l < |events| ==> events[k] < events[l])
    && (forall v: nat {:trigger rows[v]} :: v < |rows| && rows[v].kind.EventNode? ==>
          rows[v].kind.id < |events| && events[rows[v].kind.id] == v)
  }

  ghost predicate Recorded(s: State) {
    && Tracked(s) && EventsDone(s.rows, s.eventRanges) && PassesDone(s.rows, s.eventRanges, s.shared)
    && Listed(s.rows, s.events) && IsLast(s.rows, s.last)
  }

  // ---------- growing without packets, events and passes ----------

  ghost predicate AddsPlain(rows: seq<Row>, more: seq<Row>) {
    && rows <= more
    && forall i :: |rows| <= i < |more| ==>
         !more[i].kind.PacketNode? && !more[i].kind.EventNode? && !more[i].kind.PassNode?
  }

  lemma SameBoundaries(rows: seq<Row>, more: seq<Row>)
    requires AddsPlain(rows, more)
    ensures forall x: nat :: IsPacket(more, x) <==> IsPacket(rows, x)
    ensures forall x: nat :: IsBoundary(more, x) <==> IsBoundary(rows, x)
  {
    assert forall x: nat :: x < |rows| ==> more[x] == rows[x];
  }

  /** What happened before hi stays as it was. */
  lemma StretchGrow(rows: seq<Row>, more: seq<Row>, lo: nat, hi: nat, a: nat)
    requires rows <= more && hi <= |rows|
    ensures Stretch(rows, lo, hi, a) <==> Stretch(more, lo, hi, a)
  {
    forall x: nat | x < hi
      ensures NoBoundary(rows, x, hi) <==> NoBoundary(more, x, hi)
    {
      NoBoundaryGrow(rows, more, x, hi);
    }
    hide NoBoundary;
    assert forall x: nat :: x < hi ==> (IsPacket(rows, x) <==> IsPacket(more, x));
  }

  lemma NoBoundaryGrow(rows: seq<Row>, more: seq<Row>, x: nat, hi: nat)
    requires rows <= more && hi <= |rows|
    ensures NoBoundary(rows, x, hi) <==> NoBoundary(more, x, hi)
  {
    assert forall y: nat :: y < hi ==> (IsBoundary(rows, y) <==> IsBoundary(more, y));
  }

  lemma EventDoneGrow(rows: seq<Row>, more: seq<Row>, v: nat, r: Range)
    requires rows <= more && EventDone(rows, v, r)
    ensures EventDone(more, v, r)
  {
    StretchGrow(rows, more, TopOf(rows, v), r.end, r.start);
    hide Stretch;
    assert TopOf(more, v) == TopOf(rows, v);
  }

  lemma PassDoneGrow(rows: seq<Row>, more: seq<Row>, m: nat, r: Range, shared: seq<nat>)
    requires rows <= more && PassDone(rows, m, r, shared)
    ensures PassDone(more, m, r, shared)
  {
    PacketsInSame(rows, more, r.start, r.end + 1, r.end + 1);
    assert forall x: nat :: x < |rows| ==> more[x] == rows[x];
  }

  /** Everything recorded about events and passes stays true as nodes are added. */
  lemma RecordsGrow(rows: seq<Row>, more: seq<Row>, ranges: map<nat, Range>, shared: map<nat, seq<nat>>)
    requires rows <= more && EventsDone(rows, ranges) && PassesDone(rows, ranges, shared)
    ensures forall v: nat {:trigger more[v]} :: v < |rows| && more[v].kind.EventNode? ==>
      v in ranges && EventDone(more, v, ranges[v])
    ensures forall m: nat {:trigger more[m]} :: m < |rows| && more[m].kind.PassNode? && m in ranges ==>
      m in shared && PassDone(more, m, ranges[m], shared[m])
  {
    hide EventDone, PassDone;
    forall v: nat | v < |rows| && more[v].kind.EventNode?
      ensures v in ranges && EventDone(more, v, ranges[v])
    {
      assert rows[v] == more[v];
      EventDoneGrow(rows, more, v, ranges[v]);
    }
    forall m: nat | m < |rows| && more[m].kind.PassNode? && m in ranges
      ensures m in shared && PassDone(more, m, ranges[m], shared[m])
    {
      assert rows[m] == more[m];
      PassDoneGrow(rows, more, m, ranges[m], shared[m]);
    }
  }

  lemma InPassGrow(rows: seq<Row>, more: seq<Row>, submit: nat, pass: nat, a: nat, shared: map<nat, seq<nat>>)
    requires AddsPlain(rows, more) && InPass(rows, submit, pass, a, shared)
    ensures InPass(more, submit, pass, a, shared)
  {
    SameBoundaries(rows, more);
    PacketsInSame(rows, more, a, |rows|, |more|);
    assert forall x: nat :: x < |rows| ==> more[x] == rows[x];
  }

  lemma OpenGrow(rows: seq<Row>, more: seq<Row>, lo: nat, a: nat)
    requires AddsPlain(rows, more)
    ensures Stretch(rows, lo, |rows|, a) ==> Stretch(more, lo, |more|, a)
    ensures AllBounded(rows, lo) ==> AllBounded(more, lo)
  {
    SameBoundaries(rows, more);
    forall x: nat | IsPacket(rows, x)
      ensures NoBoundary(more, x, |more|) <==> NoBoundary(rows, x, |rows|)
    {
    }
  }

  lemma ListedGrow(rows: seq<Row>, more: seq<Row>, events: seq<nat>)
    requires rows <= more && (forall i :: |rows| <= i < |more| ==> !more[i].kind.EventNode?) && Listed(rows, events)
    ensures Listed(more, events)
  {
    assert forall x: nat :: x < |rows| ==> more[x] == rows[x];
  }

  /** Callbacks other than packets and submit starts. */
  lemma RecordedGrow(s: State, t: State)
    requires Recorded(s) && AddsPlain(s.rows, t.rows)
    requires t.submit == s.submit && t.eventStarts == s.eventStarts && t.newEvent == s.newEvent && t.pass == s.pass
    requires t.eventRanges == s.eventRanges && t.shared == s.shared && t.events == s.events && t.last == s.last
    ensures Recorded(t)
  {
    hide InPass, Stretch, AllBounded, EventDone, PassDone;
    var rows, more := s.rows, t.rows;
    SameBoundaries(rows, more);
    RecordsGrow(rows, more, s.eventRanges, s.shared);
    ListedGrow(rows, more, s.events);
    OpenGrow(rows, more, s.submit, Last(s.eventStarts));
    if s.pass >= 0 {
      InPassGrow(rows, more, s.submit, s.pass, s.eventStarts[1], s.shared);
    }
  }

  lemma RecordedSubmit(s: State)
    requires Recorded(s)
    ensures Recorded(StartSubmit(s))
  {
    hide InPass, EventDone, PassDone;
    var t := StartSubmit(s);
    assert AddsPlain(s.rows, t.rows);
    SameBoundaries(s.rows, t.rows);
    RecordsGrow(s.rows, t.rows, s.eventRanges, s.shared);
    ListedGrow(s.rows, t.rows, s.events);
  }

  // ---------- packets ----------

  /** A pass that starts with packet n leaves the start before any pass and its own. */
  lemma PassStarts(s: State, n: nat)
    requires s.pass >= NONE && |s.eventStarts| == (if s.pass < 0 then 0 else 2) + (if s.newEvent then 0 else 1)
    ensures StartsClosed(s.pass, Opened(s, n)) == [Opened(s, n)[0]]
    ensures RangesClosed(s, Opened(s, n)) ==
      if s.pass < 0 then s.eventRanges else s.eventRanges[s.pass := Range(s.eventStarts[1], s.last)]
  {
  }

  lemma EventEffect(s: State, p: Packet)
    requires IsEventHeader(p.header)
    ensures var t, n, v := AfterPacket(s, p), |s.rows|, |s.rows| + |p.parentOf| + 1;
      && t.rows == s.rows + PacketNodes(s, p) && t.submit == s.submit && t.last == n && t.pass == s.pass
      && t.events == s.events + [v] && t.eventRanges == s.eventRanges[v := Range(Last(Opened(s, n)), n)]
      && t.shared == SharedWith(s.shared, s.pass, n)
  {
    PacketEffect(s, p);
  }

  lemma PassEffect(s: State, p: Packet)
    requires OpensPass(p.header) && Tracked(s)
    ensures var t, n, v := AfterPacket(s, p), |s.rows|, |s.rows| + |p.parentOf| + 1;
      && t.rows == s.rows + PacketNodes(s, p) && t.submit == s.submit && t.last == n && t.pass == v
      && t.events == s.events && t.shared == SharedWith(s.shared, v, n)
      && t.eventRanges == if s.pass < 0 then s.eventRanges else s.eventRanges[s.pass := Range(s.eventStarts[1], s.last)]
  {
    PacketEffect(s, p);
    PassStarts(s, |s.rows|);
  }

  // ---------- what each kind of packet completes ----------

  lemma OnlyOneMore(rows: seq<Row>, nodes: seq<Row>)
    requires AddsPacket(rows, rows + nodes)
    ensures forall x: nat :: IsPacket(rows + nodes, x) <==> IsPacket(rows, x) || x == |rows|
    ensures forall x: nat :: IsBoundary(rows + nodes, x) ==> x < |rows| ==> IsBoundary(rows, x)
    ensures forall x: nat :: IsBoundary(rows, x) ==> IsBoundary(rows + nodes, x)
  {
    OnePacketMore(rows, rows + nodes);
    assert forall x: nat :: x < |rows| ==> (rows + nodes)[x] == rows[x];
  }

  /** The open event starts at e, also when it is the packet itself that opens it. */
  lemma OpenedStretch(rows: seq<Row>, more: seq<Row>, lo: nat, newEvent: bool, e: nat)
    requires AddsPacket(rows, more) && lo < |rows|
    requires if newEvent then AllBounded(rows, lo) && e == |rows| else IsPacket(rows, e) && Stretch(rows, lo, |rows|, e)
    ensures e <= |rows| && IsPacket(more, e) && Stretch(more, lo, |rows|, e)
  {
    assert more[..|rows|] == rows && more == rows + more[|rows|..];
    OnlyOneMore(rows, more[|rows|..]);
    forall x: nat | IsPacket(rows, x)
      ensures NoBoundary(more, x, |rows|) <==> NoBoundary(rows, x, |rows|)
    {
      NoBoundaryGrow(rows, more, x, |rows|);
    }
  }

  /** A packet that is no boundary continues the stretch. */
  lemma StretchGoesOn(rows: seq<Row>, more: seq<Row>, lo: nat, e: nat)
    requires AddsPacket(rows, more) && !IsBoundary(more, |rows|) && e <= |rows| && Stretch(more, lo, |rows|, e)
    ensures Stretch(more, lo, |more|, e)
  {
    OnePacketMore(rows, more);
    forall x: nat | IsPacket(more, x)
      ensures x < |rows| ==> (NoBoundary(more, x, |more|) <==> NoBoundary(more, x, |rows|))
      ensures x == |rows| ==> NoBoundary(more, x, |more|)
    {
      NoBoundaryPast(rows, more, x);
    }
  }

  lemma NoBoundaryPast(rows: seq<Row>, more: seq<Row>, x: nat)
    requires AddsPacket(rows, more) && !IsBoundary(more, |rows|) && x <= |rows|
    ensures NoBoundary(more, x, |more|) <==> NoBoundary(more, x, |rows|)
    ensures x == |rows| ==> NoBoundary(more, x, |more|)
  {
    OnePacketMore(rows, more);
  }

  /** After a boundary nothing is open. */
  lemma BoundaryBounds(rows: seq<Row>, more: seq<Row>, lo: nat)
    requires AddsPacket(rows, more) && IsBoundary(more, |rows|)
    ensures AllBounded(more, lo)
  {
    OnePacketMore(rows, more);
  }

  lemma PacketsAppend(rows: seq<Row>, more: seq<Row>, a: nat)
    requires AddsPacket(rows, more) && a <= |rows|
    ensures PacketsIn(more, a, |more|) == PacketsIn(rows, a, |rows|) + [|rows|]
  {
    OnePacketMore(rows, more);
    PacketsInSame(rows, more, a, |rows|, |rows|);
    assert PacketsIn(more, a, |rows| + 1) == PacketsIn(rows, a, |rows|) + [|rows|];
    PacketsInSame(more, more, a, |rows| + 1, |more|);
  }

  /** Another packet in the open pass. */
  lemma PassGoesOn(rows: seq<Row>, more: seq<Row>, submit: nat, pass: nat, a: nat, shared: map<nat, seq<nat>>)
    requires InPass(rows, submit, pass, a, shared) && AddsPacket(rows, more) && !OpensPass(more[|rows|].kind.header)
    ensures InPass(more, submit, pass, a, SharedWith(shared, pass, |rows|))
  {
    PacketsAppend(rows, more, a);
    OnePacketMore(rows, more);
    assert forall x: nat :: x < |rows| ==> more[x] == rows[x];
  }

  lemma PassCloses(rows: seq<Row>, submit: nat, pass: nat, a: nat, shared: map<nat, seq<nat>>, last: nat)
    requires InPass(rows, submit, pass, a, shared) && IsLast(rows, last)
    ensures PassDone(rows, pass, Range(a, last), shared[pass])
  {
    PacketsInSame(rows, rows, a, last + 1, |rows|);
  }

  /** The pass that packet |rows| starts. */
  lemma PassOpens(rows: seq<Row>, more: seq<Row>, p: Packet, submit: nat, shared: map<nat, seq<nat>>)
    requires OpensPass(p.header) && AddsPacket(rows, more) && |more| == |rows| + |p.parentOf| + 2
    requires more[|rows|].kind == PacketNode(p.header)
      && more[|more| - 1] == Row(PassNode(p.header.action.marker), NONE, submit)
    requires forall i :: |rows| < i < |more| - 1 ==> more[i].kind.FieldNode?
    requires |more| - 1 !in shared
    ensures InPass(more, submit, |more| - 1, |rows|, SharedWith(shared, |more| - 1, |rows|))
  {
    OnePacketMore(rows, more);
    PacketsAppend(rows, more, |rows|);
  }

  /** The event that packet |rows| ends. */
  lemma EventEnds(rows: seq<Row>, more: seq<Row>, p: Packet, submit: nat, e: nat)
    requires IsEventHeader(p.header) && AddsPacket(rows, more) && |more| == |rows| + |p.parentOf| + 2 && submit < |rows|
    requires more[|rows|].kind == PacketNode(p.header)
    requires more[|more| - 1].kind.EventNode? && more[|more| - 1].kind.event == p.header.action.event
    requires more[|more| - 1].eventParent < |rows| && TopOf(more, |more| - 1) == submit
    requires forall i :: |rows| < i < |more| - 1 ==> more[i].kind.FieldNode?
    requires e <= |rows| && IsPacket(more, e) && Stretch(more, submit, |rows|, e)
    ensures EventDone(more, |more| - 1, Range(e, |rows|))
  {
  }

  /** The shape of the nodes of a packet. */
  lemma NodesShape(s: State, p: Packet)
    requires IsTyped(p)
    ensures var more, n := s.rows + PacketNodes(s, p), |s.rows|;
      && AddsPacket(s.rows, more) && more[n].kind == PacketNode(p.header)
      && |more| == n + |p.parentOf| + 1 + |MadeBy(s, p.header)|
      && (forall i :: n < i <= n + |p.parentOf| ==> more[i].kind.FieldNode?)
      && (MadeBy(s, p.header) != [] ==> |MadeBy(s, p.header)| == 1 && more[|more| - 1] == MadeBy(s, p.header)[0])
  {
    var extras, made := Extras(p, |s.rows|), MadeBy(s, p.header);
    AppendsPacket(s.rows, PacketNodes(s, p));
    var more := s.rows + PacketNodes(s, p);
    assert forall i :: |s.rows| < i <= |s.rows| + |p.parentOf| ==> more[i] == extras[i - |s.rows| - 1];
  }

  // ---------- the invariant over packets ----------

  /** What was recorded before stays recorded when only entries for other nodes are added. */
  lemma RecordsKept(rows: seq<Row>, more: seq<Row>, ranges: map<nat, Range>, ranges': map<nat, Range>,
                    shared: map<nat, seq<nat>>, shared': map<nat, seq<nat>>)
    requires rows <= more && EventsDone(rows, ranges) && PassesDone(rows, ranges, shared)
    requires forall v :: v in ranges ==> v in ranges' && ranges'[v] == ranges[v]
    requires forall v :: v in shared && v in ranges ==> v in shared' && shared'[v] == shared[v]
    requires forall v: nat :: |rows| <= v < |more| && more[v].kind.EventNode? ==>
      v in ranges' && EventDone(more, v, ranges'[v])
    requires forall v: nat :: v < |more| && more[v].kind.PassNode? && v in ranges' && v !in ranges ==>
      v in shared' && PassDone(more, v, ranges'[v], shared'[v])
    requires forall v :: v in ranges ==> v < |rows|
    ensures EventsDone(more, ranges') && PassesDone(more, ranges', shared')
  {
    hide EventDone, PassDone;
    RecordsGrow(rows, more, ranges, shared);
  }

  ghost predicate KeysOk(s: State) {
    && (forall v :: v in s.eventRanges ==> v < |s.rows| && v != s.pass) && (forall v :: v in s.shared ==> v < |s.rows|)
    && s.pass >= NONE && s.submit < |s.rows| && !s.rows[s.submit].kind.PassNode?
  }

  lemma LastPacket(rows: seq<Row>, more: seq<Row>)
    requires AddsPacket(rows, more)
    ensures IsLast(more, |rows|)
  {
    OnePacketMore(rows, more);
  }

  lemma PassNodeOf(rows: seq<Row>, submit: nat, pass: nat, a: nat, shared: map<nat, seq<nat>>)
    requires InPass(rows, submit, pass, a, shared)
    ensures pass < |rows| && a < |rows| && rows[pass].kind.PassNode? && rows[pass].eventParent == submit
      && pass in shared
  {
  }

  lemma RecordedPlain(s: State, p: Packet)
    requires Recorded(s) && IsTyped(p) && !IsEventHeader(p.header) && !OpensPass(p.header)
    ensures Recorded(AfterPacket(s, p))
  {
    hide AfterPacket, PacketNodes, InPass, Stretch, AllBounded, EventDone, PassDone, AddsPacket, EventsDone, PassesDone,
      IsLast;
    PacketEffect(s, p);
    NodesShape(s, p);
    var t, rows, more := AfterPacket(s, p), s.rows, s.rows + PacketNodes(s, p);
    var e := Last(Opened(s, |rows|));
    OpenedStretch(rows, more, s.submit, s.newEvent, e);
    StretchGoesOn(rows, more, s.submit, e);
    if s.pass >= 0 {
      PassNodeOf(rows, s.submit, s.pass, s.eventStarts[1], s.shared);
      PassGoesOn(rows, more, s.submit, s.pass, s.eventStarts[1], s.shared);
    }
    RecordsKept(rows, more, s.eventRanges, t.eventRanges, s.shared, t.shared);
    ListedGrow(rows, more, s.events);
    LastPacket(rows, more);
  }

  lemma ListedSnoc(rows: seq<Row>, more: seq<Row>, events: seq<nat>)
    requires Listed(rows, events) && rows <= more && |rows| < |more|
    requires forall i :: |rows| <= i < |more| - 1 ==> !more[i].kind.EventNode?
    requires more[|more| - 1].kind.EventNode? && more[|more| - 1].kind.id == |events|
    ensures Listed(more, events + [|more| - 1])
  {
    assert forall x: nat :: x < |rows| ==> more[x] == rows[x];
  }

  lemma TrackedEvent(s: State, p: Packet)
    requires Recorded(s) && IsEventHeader(p.header)
    ensures Tracked(AfterPacket(s, p))
  {
    hide AfterPacket, PacketNodes, InPass, Stretch, AllBounded, EventDone, PassDone, AddsPacket, EventsDone, PassesDone,
      IsLast, Listed, StartsClosed, RangesClosed, Filtered, FirstTileAfter, BinAfter, TableAfter;
    PacketEffect(s, p);
    NodesShape(s, p);
    var rows, more := s.rows, s.rows + PacketNodes(s, p);
    BoundaryBounds(rows, more, s.submit);
    if s.pass >= 0 {
      PassNodeOf(rows, s.submit, s.pass, s.eventStarts[1], s.shared);
      PassGoesOn(rows, more, s.submit, s.pass, s.eventStarts[1], s.shared);
    }
  }

  lemma TrackedIs(s: State)
    requires Tracked(s)
    ensures KeysOk(s) && |s.eventStarts| == (if s.pass < 0 then 0 else 2) + (if s.newEvent then 0 else 1)
    ensures s.pass >= 0 ==> InPass(s.rows, s.submit, s.pass, s.eventStarts[1], s.shared)
    ensures var e := Last(Opened(s, |s.rows|));
      if s.newEvent then AllBounded(s.rows, s.submit) && e == |s.rows|
      else IsPacket(s.rows, e) && Stretch(s.rows, s.submit, |s.rows|, e)
  {
  }

  lemma RecordedEvent(s: State, p: Packet)
    requires Recorded(s) && IsEventHeader(p.header)
    ensures Recorded(AfterPacket(s, p))
  {
    hide AfterPacket, PacketNodes, InPass, Stretch, AllBounded, EventDone, PassDone, AddsPacket, EventsDone, PassesDone,
      IsLast, Listed, Tracked;
    TrackedIs(s);
    TrackedEvent(s, p);
    EventEffect(s, p);
    NodesShape(s, p);
    var t, rows, more := AfterPacket(s, p), s.rows, s.rows + PacketNodes(s, p);
    var e := Last(Opened(s, |rows|));
    OpenedStretch(rows, more, s.submit, s.newEvent, e);
    if s.pass >= 0 {
      PassNodeOf(rows, s.submit, s.pass, s.eventStarts[1], s.shared);
    }
    EventEnds(rows, more, p, s.submit, e);
    RecordsKept(rows, more, s.eventRanges, t.eventRanges, s.shared, t.shared);
    ListedSnoc(rows, more, s.events);
    LastPacket(rows, more);
  }

  lemma TrackedPass(s: State, p: Packet)
    requires Recorded(s) && OpensPass(p.header)
    ensures Tracked(AfterPacket(s, p))
  {
    hide AfterPacket, PacketNodes, InPass, Stretch, AllBounded, EventDone, PassDone, AddsPacket, EventsDone, PassesDone,
      IsLast, Listed, StartsClosed, RangesClosed, Filtered, FirstTileAfter, BinAfter, TableAfter;
    PacketEffect(s, p);
    PassStarts(s, |s.rows|);
    NodesShape(s, p);
    var rows, more := s.rows, s.rows + PacketNodes(s, p);
    BoundaryBounds(rows, more, s.submit);
    PassOpens(rows, more, p, s.submit, s.shared);
    if s.pass >= 0 {
      PassNodeOf(rows, s.submit, s.pass, s.eventStarts[1], s.shared);
    }
  }

  lemma RecordedPass(s: State, p: Packet)
    requires Recorded(s) && OpensPass(p.header)
    ensures Recorded(AfterPacket(s, p))
  {
    hide AfterPacket, PacketNodes, InPass, Stretch, AllBounded, EventDone, PassDone, AddsPacket, EventsDone, PassesDone,
      IsLast, Listed, Tracked;
    TrackedIs(s);
    TrackedPass(s, p);
    PassEffect(s, p);
    NodesShape(s, p);
    var t, rows, more := AfterPacket(s, p), s.rows, s.rows + PacketNodes(s, p);
    if s.pass >= 0 {
      PassNodeOf(rows, s.submit, s.pass, s.eventStarts[1], s.shared);
      PassCloses(rows, s.submit, s.pass, s.eventStarts[1], s.shared, s.last);
      PassDoneGrow(rows, more, s.pass, t.eventRanges[s.pass], s.shared[s.pass]);
    }
    RecordsKept(rows, more, s.eventRanges, t.eventRanges, s.shared, t.shared);
    ListedGrow(rows, more, s.events);
    LastPacket(rows, more);
  }

  /** Within a submit, over every trace. */
  lemma RecordedStep(s: State, cb: Callback)
    requires Recorded(s)
    ensures Recorded(Step(s, cb))
  {
    hide Recorded, AfterPacket, StartIb, EndIb;
    match cb
    case SubmitStart => RecordedSubmit(s);
    case SubmitEnd(presents) => RecordedGrow(s, EndSubmit(s, presents));
    case IbStart(ib, index) => RecordedStartIb(s, ib, index);
    case IbEnd => RecordedEndIb(s);
    case OnPacket(p) =>
      if !IsTyped(p) {
        Untyped(s, p);
      } else if IsEventHeader(p.header) {
        RecordedEvent(s, p);
      } else if OpensPass(p.header) {
        RecordedPass(s, p);
      } else {
        RecordedPlain(s, p);
      }
  }

  lemma RecordedStartIb(s: State, ib: IbType, index: nat)
    requires Recorded(s)
    ensures Recorded(StartIb(s, ib, index))
  {
    hide Recorded;
    RecordedGrow(s, StartIb(s, ib, index));
  }

  lemma RecordedEndIb(s: State)
    requires Recorded(s)
    ensures Recorded(EndIb(s))
  {
    hide Recorded;
    RecordedGrow(s, EndIb(s));
  }

  lemma {:induction false} RecordedRun(s: State, cbs: seq<Callback>)
    requires Recorded(s)
    ensures Recorded(Run(s, cbs))
  {
    if cbs != [] {
      hide Recorded, Step;
      RecordedRun(s, cbs[..|cbs| - 1]);
      RecordedStep(Run(s, cbs[..|cbs| - 1]), cbs[|cbs| - 1]);
    }
  }

  lemma StartRecorded(flatten: bool)
    ensures Recorded(Start(flatten)) && Aligned(Start(flatten))
  {
  }

  // ---------- what a reader of the ranges sees ----------

  ghost predicate IsEventNode(s: State, v: nat) {
    v < |s.rows| && s.rows[v].kind.EventNode?
  }

  /** The range of an event holds exactly one event packet, its last, and no packet that starts a pass.
      The packet before it in the submit, if any, is an event packet or starts a pass. */
  lemma EventRange(s: State, v: nat)
    requires Recorded(s) && IsEventNode(s, v)
    ensures v in s.eventRanges && TopOf(s.rows, v) >= 0
    ensures var r := s.eventRanges[v];
      && r.start <= r.end < v && IsPacket(s.rows, r.start) && TopOf(s.rows, v) < r.start
      && (forall x: nat :: IsPacket(s.rows, x) && r.start <= x <= r.end ==>
            !OpensPass(s.rows[x].kind.header) && (IsEventHeader(s.rows[x].kind.header) <==> x == r.end))
      && (forall x: nat :: IsPacket(s.rows, x) && TopOf(s.rows, v) < x < r.start ==>
            exists y: nat :: x <= y < r.start && IsBoundary(s.rows, y))
  {
    var r, top := s.eventRanges[v], TopOf(s.rows, v);
    assert EventDone(s.rows, v, r);
    forall x: nat | IsPacket(s.rows, x) && r.start <= x <= r.end
      ensures !OpensPass(s.rows[x].kind.header) && (IsEventHeader(s.rows[x].kind.header) <==> x == r.end)
    {
      if x < r.end {
        assert NoBoundary(s.rows, x, r.end);
        assert !IsBoundary(s.rows, x);
      }
    }
    forall x: nat | IsPacket(s.rows, x) && top < x < r.start
      ensures exists y: nat :: x <= y < r.start && IsBoundary(s.rows, y)
    {
      assert !NoBoundary(s.rows, x, r.end);
      var y: nat :| IsBoundary(s.rows, y) && x <= y < r.end;
      assert r.start <= y ==> NoBoundary(s.rows, y, r.end);
    }
  }

  /** Event ranges are disjoint and come in the order of their events. */
  lemma EventRangesIncrease(s: State, v: nat, w: nat)
    requires Recorded(s) && IsEventNode(s, v) && IsEventNode(s, w) && v < w
    ensures v in s.eventRanges && w in s.eventRanges && s.eventRanges[v].end < s.eventRanges[w].start
  {
    hide Stretch, Tracked, PassesDone, Listed, IsLast;
    assert EventDone(s.rows, v, s.eventRanges[v]) && EventDone(s.rows, w, s.eventRanges[w]);
    var a, b := s.eventRanges[v].end, s.eventRanges[w];
    assert v < b.end;
    EventRange(s, w);
    assert IsPacket(s.rows, a) && IsEventHeader(s.rows[a].kind.header);
  }

  /** The shared children of a closed pass are the packets in its recorded range, which starts with the
      packet that started the pass and contains no other such packet. */
  lemma PassRange(s: State, m: nat)
    requires Recorded(s) && m < |s.rows| && s.rows[m].kind.PassNode? && m in s.eventRanges
    ensures m in s.shared && Increasing(s.shared[m])
    ensures var r := s.eventRanges[m];
      && r.start in s.shared[m] && r.end in s.shared[m]
      && (forall x :: x in s.shared[m] <==> r.start <= x <= r.end && IsPacket(s.rows, x))
      && (forall x: nat :: IsPacket(s.rows, x) && r.start <= x <= r.end ==>
            (OpensPass(s.rows[x].kind.header) <==> x == r.start))
  {
    var r := s.eventRanges[m];
    assert PassDone(s.rows, m, r, s.shared[m]);
    PacketsInAre(s.rows, r.start, r.end + 1);
  }
}
