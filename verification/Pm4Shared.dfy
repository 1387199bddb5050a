/** Whose shared children the packets of a submit are: the creator keeps one such node for each level of
    buffers. */
module Pm4Shared {
  import opened Wrappers

  /** A submit, one of its packets that called a buffer, or a field or draw-state group node. */
  datatype Holder = OfSubmit | OfPacket(packet: nat) | OfNode(node: nat) | Unset

  /** A buffer. Those of bins, draw tables and draw states have a node of their own for their packets. */
  datatype Block = Block(own: Option<nat>, parts: seq<Part>, next: Option<Block>)

  datatype Part = PacketPart(calls: bool) | NestedPart(block: Block)

  /** holders has the node of each level, called is the last packet that called a buffer, and log has the
      holder of each packet so far. */
  datatype Sharing = Sharing(level: nat, holders: map<nat, Holder>, called: Option<nat>, log: seq<Holder>)

  function At(holders: map<nat, Holder>, level: nat): Holder {
    if level in holders then holders[level] else Unset
  }

  function StartSubmit(s: Sharing): Sharing {
    Sharing(1, s.holders[1 := OfSubmit], None, [])
  }

  /** The node for the packets of a buffer that starts. */
  function HolderOf(own: Option<nat>, called: Option<nat>, otherwise: Holder): Holder {
    match own
    case Some(node) => OfNode(node)
    case None => match called case Some(packet) => OfPacket(packet) case None => otherwise
  }

  function StartBlock(s: Sharing, level: nat, own: Option<nat>): Sharing {
    s.(level := level, holders := s.holders[level := HolderOf(own, s.called, At(s.holders, level))])
  }

  function AddPacket(s: Sharing, calls: bool): Sharing {
    s.(log := s.log + [At(s.holders, s.level)], called := if calls then Some(|s.log|) else s.called)
  }

  /** A continuation stays on the level of the buffer that it continues, and only the last one ends. */
  function RunBlock(s: Sharing, b: Block, level: nat): Sharing
    requires level > 0
    decreases b, |b.parts| + 1
  {
    var t := RunParts(StartBlock(s, level, b.own), b, |b.parts|, level);
    match b.next case None => t.(level := level - 1) case Some(c) => RunBlock(t, c, level)
  }

  function RunParts(s: Sharing, b: Block, n: nat, level: nat): Sharing
    requires n <= |b.parts|
    decreases b, n
  {
    if n == 0 then s
    else
      var t := RunParts(s, b, n - 1, level);
      match b.parts[n - 1]
      case PacketPart(calls) => AddPacket(t, calls)
      case NestedPart(c) => RunBlock(t, c, level + 1)
  }

  // ---------- without levels ----------

  datatype Log = Log(called: Option<nat>, holders: seq<Holder>)

  /** All packets that are directly in a buffer have one holder, which the buffers it calls do not change. */
  function LogBlock(l: Log, b: Block, otherwise: Holder): Log
    decreases b, |b.parts| + 1
  {
    var holder := HolderOf(b.own, l.called, otherwise);
    var m := LogParts(l, b, |b.parts|, holder);
    match b.next case None => m case Some(c) => LogBlock(m, c, holder)
  }

  function LogParts(l: Log, b: Block, n: nat, holder: Holder): Log
    requires n <= |b.parts|
    decreases b, n
  {
    if n == 0 then l
    else
      var m := LogParts(l, b, n - 1, holder);
      match b.parts[n - 1]
      case PacketPart(calls) => Log(if calls then Some(|m.holders|) else m.called, m.holders + [holder])
      case NestedPart(c) => LogBlock(m, c, Unset)
  }

  predicate HasCall(b: Block, n: nat)
    requires n <= |b.parts|
  {
    n > 0 && (b.parts[n - 1] == PacketPart(true) || HasCall(b, n - 1))
  }

  /** A buffer is called by a packet, or has a node of its own. */
  predicate Called(b: Block)
    decreases b, |b.parts| + 1
  {
    CalledParts(b, |b.parts|) && match b.next case None => true case Some(c) => Called(c)
  }

  predicate CalledParts(b: Block, n: nat)
    requires n <= |b.parts|
    decreases b, n
  {
    n == 0 || (CalledParts(b, n - 1) &&
               match b.parts[n - 1] case PacketPart(_) => true
                                    case NestedPart(c) => (c.own.Some? || HasCall(b, n - 1)) && Called(c))
  }

  function LogOf(s: Sharing): Log {
    Log(s.called, s.log)
  }

  ghost predicate SameBelow(before: map<nat, Holder>, after: map<nat, Holder>, level: nat) {
    forall l: nat :: l < level ==> At(after, l) == At(before, l)
  }

  lemma {:induction false} BlockShares(s: Sharing, b: Block, level: nat, otherwise: Holder)
    requires level > 0 && Called(b)
    requires b.own.Some? || s.called.Some? || At(s.holders, level) == otherwise
    ensures var t := RunBlock(s, b, level);
      && LogOf(t) == LogBlock(LogOf(s), b, otherwise) && t.level == level - 1 && SameBelow(s.holders, t.holders, level)
      && (s.called.Some? ==> t.called.Some?)
    decreases b, |b.parts| + 1
  {
    var holder := HolderOf(b.own, s.called, otherwise);
    var s1 := StartBlock(s, level, b.own);
    PartsShare(s1, b, |b.parts|, level, holder);
    if b.next.Some? {
      BlockShares(RunParts(s1, b, |b.parts|, level), b.next.value, level, holder);
    }
  }

  lemma {:induction false} PartsShare(s: Sharing, b: Block, n: nat, level: nat, holder: Holder)
    requires level > 0 && n <= |b.parts| && CalledParts(b, n) && s.level == level && At(s.holders, level) == holder
    ensures var t := RunParts(s, b, n, level);
      && LogOf(t) == LogParts(LogOf(s), b, n, holder) && t.level == level && SameBelow(s.holders, t.holders, level + 1)
      && (s.called.Some? || HasCall(b, n) ==> t.called.Some?)
    decreases b, n
  {
    if n > 0 {
      PartsShare(s, b, n - 1, level, holder);
      var t := RunParts(s, b, n - 1, level);
      match b.parts[n - 1]
      case PacketPart(calls) =>
      case NestedPart(c) => BlockShares(t, c, level + 1, Unset);
    }
  }

  // ---------- the buffers of a submit ----------

  function RunBlocks(s: Sharing, blocks: seq<Block>, n: nat): Sharing
    requires n <= |blocks|
  {
    if n == 0 then s else RunBlock(RunBlocks(s, blocks, n - 1), blocks[n - 1], 1)
  }

  /** Buffers that the submit itself lists have no node of their own. */
  predicate Primary(b: Block) {
    b.own == None && Called(b) && match b.next case None => true case Some(c) => Primary(c)
  }

  /** No packet in the buffer calls another one. */
  predicate NoCalls(b: Block)
    decreases b, |b.parts| + 1
  {
    NoCallsIn(b, |b.parts|) && match b.next case None => true case Some(c) => NoCalls(c)
  }

  predicate NoCallsIn(b: Block, n: nat)
    requires n <= |b.parts|
    decreases b, n
  {
    n == 0 || (NoCallsIn(b, n - 1)
      && match b.parts[n - 1] case PacketPart(calls) => !calls case NestedPart(c) => NoCalls(c))
  }

  lemma {:induction false} CalledIff(l: Log, b: Block, otherwise: Holder)
    ensures LogBlock(l, b, otherwise).called == None <==> l.called == None && NoCalls(b)
    decreases b, |b.parts| + 1
  {
    var holder := HolderOf(b.own, l.called, otherwise);
    CalledPartsIff(l, b, |b.parts|, holder);
    if b.next.Some? {
      CalledIff(LogParts(l, b, |b.parts|, holder), b.next.value, holder);
    }
  }

  lemma {:induction false} CalledPartsIff(l: Log, b: Block, n: nat, holder: Holder)
    requires n <= |b.parts|
    ensures LogParts(l, b, n, holder).called == None <==> l.called == None && NoCallsIn(b, n)
    decreases b, n
  {
    if n > 0 {
      CalledPartsIff(l, b, n - 1, holder);
      match b.parts[n - 1]
      case PacketPart(_) =>
      case NestedPart(c) => CalledIff(LogParts(l, b, n - 1, holder), c, Unset);
    }
  }

  lemma {:induction false} StaysOfSubmit(s: Sharing, b: Block)
    requires Primary(b) && (s.called == None ==> At(s.holders, 1) == OfSubmit)
    ensures var t := RunBlock(s, b, 1); t.called == None ==> At(t.holders, 1) == OfSubmit
    decreases b
  {
    BlockShares(s, b, 1, At(s.holders, 1));
    CalledIff(LogOf(s), b, At(s.holders, 1));
    var s1 := StartBlock(s, 1, b.own);
    PartsShare(s1, b, |b.parts|, 1, At(s1.holders, 1));
    CalledPartsIff(LogOf(s1), b, |b.parts|, At(s1.holders, 1));
    if b.next.Some? {
      StaysOfSubmit(RunParts(s1, b, |b.parts|, 1), b.next.value);
    }
  }

  ghost predicate NoCallsBefore(blocks: seq<Block>, n: nat)
    requires n <= |blocks|
  {
    forall k :: 0 <= k < n ==> NoCalls(blocks[k])
  }

  lemma {:induction false} BeforePrimary(s: Sharing, blocks: seq<Block>, n: nat)
    requires n <= |blocks| && forall k :: 0 <= k < |blocks| ==> Primary(blocks[k])
    ensures var t := RunBlocks(StartSubmit(s), blocks, n);
      (t.called == None <==> NoCallsBefore(blocks, n)) && (t.called == None ==> At(t.holders, 1) == OfSubmit)
  {
    if n > 0 {
      BeforePrimary(s, blocks, n - 1);
      var t := RunBlocks(StartSubmit(s), blocks, n - 1);
      StaysOfSubmit(t, blocks[n - 1]);
      BlockShares(t, blocks[n - 1], 1, At(t.holders, 1));
      CalledIff(LogOf(t), blocks[n - 1], At(t.holders, 1));
    }
  }

  /** The packets of a listed buffer become shared children of the submit exactly if no packet of the
      buffers listed before it called a buffer. Otherwise they go to the last packet that did. */
  lemma PrimaryHolderIff(s: Sharing, blocks: seq<Block>, n: nat)
    requires n < |blocks| && forall k :: 0 <= k < |blocks| ==> Primary(blocks[k])
    ensures var t := RunBlocks(StartSubmit(s), blocks, n);
      var holder := At(StartBlock(t, 1, blocks[n].own).holders, 1);
      && holder == (if t.called.Some? then OfPacket(t.called.value) else OfSubmit)
      && (holder == OfSubmit <==> NoCallsBefore(blocks, n))
      && LogOf(RunBlock(t, blocks[n], 1)) == LogBlock(LogOf(t), blocks[n], holder)
  {
    BeforePrimary(s, blocks, n);
    var t := RunBlocks(StartSubmit(s), blocks, n);
    BlockShares(t, blocks[n], 1, At(StartBlock(t, 1, blocks[n].own).holders, 1));
  }

  /** A submit of two buffers of which the first calls another: the packet of the second one becomes a
      shared child of the packet in the first that made the call. */
  lemma SecondBufferMisses(s: Sharing)
    ensures var called := Block(None, [PacketPart(false)], None);
      var blocks := [Block(None, [PacketPart(true), NestedPart(called)], None), called];
      Primary(blocks[0]) && Primary(blocks[1]) &&
      RunBlocks(StartSubmit(s), blocks, 2).log == [OfSubmit, OfPacket(0), OfPacket(0)]
  {
    var called := Block(None, [PacketPart(false)], None);
    var b := Block(None, [PacketPart(true), NestedPart(called)], None);
    var s0 := StartSubmit(s);
    var s1 := StartBlock(s0, 1, None);
    assert RunParts(s1, b, 0, 1) == s1;
    assert RunParts(s1, b, 1, 1) == AddPacket(s1, true);
    assert CalledParts(called, 0) && CalledParts(called, 1) && Called(called);
    assert HasCall(b, 1) && CalledParts(b, 0) && CalledParts(b, 1) && CalledParts(b, 2);
    var s2 := AddPacket(s1, true);
    OnePacket(s2, called, 2);
    var s3 := RunBlock(s2, called, 2);
    assert RunParts(s1, b, 2, 1) == s3;
    var blocks := [b, called];
    assert RunBlocks(s0, blocks, 0) == s0;
    assert RunBlocks(s0, blocks, 1) == RunBlock(s0, b, 1) == s3.(level := 0);
    OnePacket(RunBlocks(s0, blocks, 1), called, 1);
    assert s3.log == [OfSubmit] + [OfPacket(0)];
  }

  lemma OnePacket(s: Sharing, b: Block, level: nat)
    requires b == Block(None, [PacketPart(false)], None) && level > 0
    ensures var t := RunBlock(s, b, level);
      && t.log == s.log + [HolderOf(None, s.called, At(s.holders, level))] && t.called == s.called
           && t.level == level - 1
  {
    var s1 := StartBlock(s, level, None);
    assert RunParts(s1, b, 0, level) == s1;
    assert RunParts(s1, b, 1, level) == AddPacket(s1, false);
  }

  /** A packet that is directly in a buffer with a node of its own becomes a shared child of this node, whatever
      called buffers before, and else a shared child of the last packet that called one. */
  lemma DirectHolder(s: Sharing, b: Block, level: nat, n: nat, calls: bool)
    requires level > 0 && Called(b) && n < |b.parts| && b.parts[n] == PacketPart(calls)
    ensures var t := RunParts(StartBlock(s, level, b.own), b, n + 1, level);
      && t.log != []
      && (b.own.Some? ==> t.log[|t.log| - 1] == OfNode(b.own.value))
      && (b.own == None && s.called.Some? ==> t.log[|t.log| - 1] == OfPacket(s.called.value))
      && (calls ==> t.called == Some(|t.log| - 1))
  {
    var s1 := StartBlock(s, level, b.own);
    CalledPrefix(b, n, |b.parts|);
    PartsShare(s1, b, n, level, At(s1.holders, level));
  }

  lemma {:induction false} CalledPrefix(b: Block, n: nat, m: nat)
    requires n <= m <= |b.parts| && CalledParts(b, m)
    ensures CalledParts(b, n)
    decreases m
  {
    if n < m {
      CalledPrefix(b, n, m - 1);
    }
  }
}
