/** The captured-memory index: blocks tagged with a submit and a 64-bit address, the byte map they
    denote, and the sorting and compaction that Finalize performs. */
module MemoryBlocks {

  type byte = bv8

  const TWO_64: nat := 0x1_0000_0000_0000_0000

  /** dataPtr is the identity of the heap buffer that holds data. */
  datatype MemoryBlock = MemoryBlock(vaAddr: nat, submitIndex: nat, data: seq<byte>, dataPtr: nat)

  /** 64-bit unsigned addition, for operands below 2^64. */
  function Add64(a: nat, b: nat): nat {
    if a + b < TWO_64 then a + b else a + b - TWO_64
  }

  function Limit(b: MemoryBlock): nat {
    b.vaAddr + |b.data|
  }

  /** The block is non-empty and its range does not wrap around the address space. */
  predicate WellPlaced(b: MemoryBlock) {
    0 < |b.data| && Limit(b) < TWO_64
  }

  ghost predicate AllWellPlaced(blocks: seq<MemoryBlock>) {
    forall i {:trigger WellPlaced(blocks[i])} :: 0 <= i < |blocks| ==> WellPlaced(blocks[i])
  }

  // ---------- the byte map ----------

  /** Submits only separate memory when sameSubmitOnly is set; otherwise memory is flat. */
  predicate InView(b: MemoryBlock, same: bool, submit: nat) {
    same ==> submit == b.submitIndex
  }

  predicate Holds(b: MemoryBlock, same: bool, submit: nat, a: int) {
    InView(b, same, submit) && b.vaAddr <= a < Limit(b)
  }

  ghost predicate Captured(blocks: seq<MemoryBlock>, same: bool, submit: nat, a: int) {
    exists i {:trigger Holds(blocks[i], same, submit, a)} :: 0 <= i < |blocks| && Holds(blocks[i], same, submit, a)
  }

  ghost function ByteAt(blocks: seq<MemoryBlock>, same: bool, submit: nat, a: int): byte
    requires Captured(blocks, same, submit, a)
  {
    var i :| 0 <= i < |blocks| && Holds(blocks[i], same, submit, a);
    blocks[i].data[a - blocks[i].vaAddr]
  }

  /** The captured memory of a submit, as a partial map from addresses to bytes. */
  ghost function ByteMap(blocks: seq<MemoryBlock>, same: bool, submit: nat): imap<int, byte> {
    imap a | Captured(blocks, same, submit, a) :: ByteAt(blocks, same, submit, a)
  }

  /** Every address of [a, a + n) is captured. */
  ghost predicate AllCaptured(blocks: seq<MemoryBlock>, same: bool, submit: nat, a: nat, n: nat) {
    forall k :: a <= k < a + n ==> Captured(blocks, same, submit, k)
  }

  predicate Share(b: MemoryBlock, c: MemoryBlock, same: bool) {
    same ==> b.submitIndex == c.submitIndex
  }

  /** Blocks that share a view come in address order and do not overlap. */
  ghost predicate Ordered(blocks: seq<MemoryBlock>, same: bool) {
    forall i, j {:trigger Share(blocks[i], blocks[j], same)} ::
      0 <= i < j < |blocks| && Share(blocks[i], blocks[j], same) ==> Limit(blocks[i]) <= blocks[j].vaAddr
  }

  /** In an ordered index an address is held by at most one block, so the byte map is that block's byte. */
  lemma ByteAtIs(blocks: seq<MemoryBlock>, same: bool, submit: nat, a: int, i: nat)
    requires Ordered(blocks, same) && i < |blocks| && Holds(blocks[i], same, submit, a)
    ensures Captured(blocks, same, submit, a)
    ensures ByteAt(blocks, same, submit, a) == blocks[i].data[a - blocks[i].vaAddr]
  {
    forall j | 0 <= j < |blocks| && Holds(blocks[j], same, submit, a)
      ensures j == i
    {
      if j < i {
        assert Share(blocks[j], blocks[i], same);
      } else if i < j {
        assert Share(blocks[i], blocks[j], same);
      }
    }
  }

  // ---------- stable sort ----------

  /** The comparison handed to std::stable_sort. */
  predicate Less(x: MemoryBlock, y: MemoryBlock, same: bool) {
    if same then
      if x.submitIndex == y.submitIndex then x.vaAddr < y.vaAddr else x.submitIndex < y.submitIndex
    else
      x.vaAddr < y.vaAddr
  }

  predicate Equivalent(x: MemoryBlock, y: MemoryBlock, same: bool) {
    !Less(x, y, same) && !Less(y, x, same)
  }

  ghost predicate Sorted(s: seq<MemoryBlock>, same: bool) {
    forall i, j {:trigger Less(s[j], s[i], same)} :: 0 <= i < j < |s| ==> !Less(s[j], s[i], same)
  }

  /** The blocks among the first n of s that are equivalent to b, in their order in s. */
  function GroupTo(s: seq<MemoryBlock>, n: nat, b: MemoryBlock, same: bool): seq<MemoryBlock>
    requires n <= |s|
  {
    if n == 0 then []
    else if Equivalent(s[n - 1], b, same) then GroupTo(s, n - 1, b, same) + [s[n - 1]]
    else GroupTo(s, n - 1, b, same)
  }

  function Group(s: seq<MemoryBlock>, b: MemoryBlock, same: bool): seq<MemoryBlock> {
    GroupTo(s, |s|, b, same)
  }

  lemma {:induction false} GroupMembers(s: seq<MemoryBlock>, n: nat, b: MemoryBlock, same: bool)
    requires n <= |s|
    ensures forall x :: x in GroupTo(s, n, b, same) <==> Equivalent(x, b, same) && exists i :: 0 <= i < n && s[i] == x
  {
    if n > 0 {
      GroupMembers(s, n - 1, b, same);
    }
  }

  lemma {:induction false} GroupPrefix(s: seq<MemoryBlock>, t: seq<MemoryBlock>, n: nat, b: MemoryBlock, same: bool)
    requires n <= |s| && n <= |t|
    requires forall i :: 0 <= i < n ==> s[i] == t[i]
    ensures GroupTo(s, n, b, same) == GroupTo(t, n, b, same)
  {
    if n > 0 {
      GroupPrefix(s, t, n - 1, b, same);
    }
  }

  lemma GroupSnoc(s: seq<MemoryBlock>, x: MemoryBlock, b: MemoryBlock, same: bool)
    ensures Group(s + [x], b, same) == if Equivalent(x, b, same) then Group(s, b, same) + [x] else Group(s, b, same)
  {
    GroupPrefix(s + [x], s, |s|, b, same);
  }

  /** Puts b after the last block that it is not less than. */
  function Insert(t: seq<MemoryBlock>, b: MemoryBlock, same: bool): (r: seq<MemoryBlock>)
    ensures |r| == |t| + 1
  {
    if t == [] || !Less(b, t[|t| - 1], same) then t + [b]
    else Insert(t[..|t| - 1], b, same) + [t[|t| - 1]]
  }

  function SortTo(s: seq<MemoryBlock>, n: nat, same: bool): (r: seq<MemoryBlock>)
    requires n <= |s|
    ensures |r| == n
  {
    if n == 0 then [] else Insert(SortTo(s, n - 1, same), s[n - 1], same)
  }

  function StableSort(s: seq<MemoryBlock>, same: bool): (r: seq<MemoryBlock>)
    ensures |r| == |s|
  {
    SortTo(s, |s|, same)
  }

  lemma {:induction false} InsertElements(t: seq<MemoryBlock>, b: MemoryBlock, same: bool)
    ensures forall x :: x in Insert(t, b, same) <==> x == b || x in t
  {
    if t == [] || !Less(b, t[|t| - 1], same) {
    } else {
      InsertElements(t[..|t| - 1], b, same);
      assert t == t[..|t| - 1] + [t[|t| - 1]];
    }
  }

  lemma {:induction false} SortToElements(s: seq<MemoryBlock>, n: nat, same: bool)
    requires n <= |s|
    ensures forall x :: x in SortTo(s, n, same) <==> exists i :: 0 <= i < n && s[i] == x
  {
    if n > 0 {
      hide Insert;
      SortToElements(s, n - 1, same);
      InsertElements(SortTo(s, n - 1, same), s[n - 1], same);
    }
  }

  lemma SortKeepsElements(s: seq<MemoryBlock>, same: bool)
    ensures forall x :: x in StableSort(s, same) <==> x in s
  {
    SortToElements(s, |s|, same);
  }

  lemma {:induction false} InsertSorted(t: seq<MemoryBlock>, b: MemoryBlock, same: bool)
    requires Sorted(t, same)
    ensures Sorted(Insert(t, b, same), same)
  {
    var n := |t| - 1;
    if t == [] {
    } else if !Less(b, t[n], same) {
      forall i | 0 <= i < |t|
        ensures !Less(b, t[i], same)
      {
        assert i < n ==> !Less(t[n], t[i], same);
      }
    } else {
      var rest := t[..n];
      forall i, j | 0 <= i < j < n
        ensures !Less(rest[j], rest[i], same)
      {
        assert !Less(t[j], t[i], same);
      }
      InsertSorted(rest, b, same);
      InsertElements(rest, b, same);
      var u := Insert(rest, b, same);
      forall i | 0 <= i < |u|
        ensures !Less(t[n], u[i], same)
      {
        assert u[i] in u;
        if u[i] != b {
          var k :| 0 <= k < n && rest[k] == u[i];
          assert !Less(t[n], t[k], same);
        }
      }
      forall i, j | 0 <= i < j < |u + [t[n]]|
        ensures !Less((u + [t[n]])[j], (u + [t[n]])[i], same)
      {
        assert j < |u| ==> !Less(u[j], u[i], same);
      }
    }
  }

  lemma {:induction false} InsertGroup(t: seq<MemoryBlock>, b: MemoryBlock, c: MemoryBlock, same: bool)
    ensures Group(Insert(t, b, same), c, same) == Group(t + [b], c, same)
  {
    if t == [] || !Less(b, t[|t| - 1], same) {
    } else {
      hide GroupTo, Group;
      var rest, last := t[..|t| - 1], t[|t| - 1];
      InsertGroup(rest, b, c, same);
      GroupSnoc(Insert(rest, b, same), last, c, same);
      assert t == rest + [last];
      SnocsCommute(rest, b, last, c, same);
    }
  }

  lemma SnocsCommute(t: seq<MemoryBlock>, b: MemoryBlock, last: MemoryBlock, c: MemoryBlock, same: bool)
    requires Less(b, last, same)
    ensures Group(t + [last] + [b], c, same) ==
      if Equivalent(last, c, same) then Group(t + [b], c, same) + [last] else Group(t + [b], c, same)
  {
    hide GroupTo, Group;
    GroupSnoc(t, b, c, same);
    GroupSnoc(t, last, c, same);
    GroupSnoc(t + [last], b, c, same);
  }

  lemma {:induction false} SortToCorrect(s: seq<MemoryBlock>, n: nat, c: MemoryBlock, same: bool)
    requires n <= |s|
    ensures Sorted(SortTo(s, n, same), same)
    ensures Group(SortTo(s, n, same), c, same) == GroupTo(s, n, c, same)
  {
    if n > 0 {
      hide Insert, Sorted, Equivalent;
      SortToCorrect(s, n - 1, c, same);
      InsertSorted(SortTo(s, n - 1, same), s[n - 1], same);
      InsertGroup(SortTo(s, n - 1, same), s[n - 1], c, same);
      GroupSnoc(SortTo(s, n - 1, same), s[n - 1], c, same);
    }
  }

  /** The two properties that define a stable sort: the result is sorted, and equivalent blocks keep
      the order in which they were added. */
  lemma StableSortCorrect(s: seq<MemoryBlock>, same: bool)
    ensures Sorted(StableSort(s, same), same)
    ensures forall c :: Group(StableSort(s, same), c, same) == Group(s, c, same)
  {
    hide SortTo, Sorted, GroupTo;
    forall c
      ensures Sorted(StableSort(s, same), same) && Group(StableSort(s, same), c, same) == Group(s, c, same)
    {
      SortToCorrect(s, |s|, c, same);
    }
    SortToCorrect(s, |s|, MemoryBlock(0, 0, [], 0), same);
  }

  lemma StableSortWellPlaced(s: seq<MemoryBlock>, same: bool)
    requires AllWellPlaced(s)
    ensures AllWellPlaced(StableSort(s, same))
  {
    SortKeepsElements(s, same);
    forall i | 0 <= i < |s|
      ensures WellPlaced(StableSort(s, same)[i])
    {
      assert StableSort(s, same)[i] in s;
    }
  }

  // ---------- compaction ----------

  /** State of the loop that drops re-captured blocks: temp_memory_blocks, the freed buffers, and the
      address, submit and size of the block visited last (kept or not). */
  datatype Pass = Pass(kept: seq<MemoryBlock>, freed: multiset<nat>, prevAddr: nat, prevSubmit: nat, prevSize: nat)

  function Visit(p: Pass, b: MemoryBlock): (r: Pass)
    requires p.kept == [] ==> p.prevAddr == p.prevSize == 0
    ensures r.kept != []
  {
    var next := p.(prevAddr := b.vaAddr, prevSubmit := b.submitIndex, prevSize := |b.data|);
    if b.submitIndex != p.prevSubmit || b.vaAddr >= Add64(p.prevAddr, p.prevSize) then
      next.(kept := p.kept + [b])
    else
      var last := p.kept[|p.kept| - 1];
      if |b.data| >= |last.data| then
        next.(kept := p.kept[..|p.kept| - 1] + [b], freed := p.freed + multiset{last.dataPtr})
      else
        next.(freed := p.freed + multiset{b.dataPtr})
  }

  /** The pass after the first n blocks. */
  function CompactTo(s: seq<MemoryBlock>, n: nat): (p: Pass)
    requires n <= |s|
    ensures p.kept == [] ==> n == 0 && p.prevAddr == p.prevSize == 0
    ensures n > 0 ==>
      p.prevAddr == s[n - 1].vaAddr && p.prevSubmit == s[n - 1].submitIndex && p.prevSize == |s[n - 1].data|
  {
    if n == 0 then Pass([], multiset{}, 0, 0, 0) else Visit(CompactTo(s, n - 1), s[n - 1])
  }

  function Compact(s: seq<MemoryBlock>): Pass {
    CompactTo(s, |s|)
  }

  /** The heap buffers behind the first n blocks. */
  function BuffersTo(s: seq<MemoryBlock>, n: nat): multiset<nat>
    requires n <= |s|
  {
    if n == 0 then multiset{} else BuffersTo(s, n - 1) + multiset{s[n - 1].dataPtr}
  }

  function Buffers(s: seq<MemoryBlock>): multiset<nat> {
    BuffersTo(s, |s|)
  }

  lemma {:induction false} SamePrefix(s: seq<MemoryBlock>, t: seq<MemoryBlock>, n: nat)
    requires n <= |s| && n <= |t|
    requires forall i :: 0 <= i < n ==> s[i] == t[i]
    ensures BuffersTo(s, n) == BuffersTo(t, n)
  {
    if n > 0 {
      SamePrefix(s, t, n - 1);
    }
  }

  lemma BuffersSnoc(s: seq<MemoryBlock>, b: MemoryBlock)
    ensures Buffers(s + [b]) == Buffers(s) + multiset{b.dataPtr}
  {
    SamePrefix(s + [b], s, |s|);
  }

  lemma {:induction false} InsertBuffers(t: seq<MemoryBlock>, b: MemoryBlock, same: bool)
    ensures Buffers(Insert(t, b, same)) == Buffers(t) + multiset{b.dataPtr}
  {
    if t == [] || !Less(b, t[|t| - 1], same) {
      BuffersSnoc(t, b);
    } else {
      hide BuffersTo, Buffers;
      var rest, last := t[..|t| - 1], t[|t| - 1];
      InsertBuffers(rest, b, same);
      BuffersSnoc(Insert(rest, b, same), last);
      BuffersSnoc(rest, last);
      assert t == rest + [last];
    }
  }

  lemma {:induction false} SortKeepsBuffersTo(s: seq<MemoryBlock>, n: nat, same: bool)
    requires n <= |s|
    ensures Buffers(SortTo(s, n, same)) == BuffersTo(s, n)
  {
    if n > 0 {
      hide Insert, Buffers;
      SortKeepsBuffersTo(s, n - 1, same);
      InsertBuffers(SortTo(s, n - 1, same), s[n - 1], same);
    }
  }

  lemma SortKeepsBuffers(s: seq<MemoryBlock>, same: bool)
    ensures Buffers(StableSort(s, same)) == Buffers(s)
  {
    SortKeepsBuffersTo(s, |s|, same);
  }

  lemma BuffersReplaceLast(s: seq<MemoryBlock>, b: MemoryBlock)
    requires s != []
    ensures Buffers(s[..|s| - 1] + [b]) + multiset{s[|s| - 1].dataPtr} == Buffers(s) + multiset{b.dataPtr}
  {
    var rest, last := s[..|s| - 1], s[|s| - 1];
    assert s == rest + [last];
    BuffersSnoc(rest, last);
    BuffersSnoc(rest, b);
  }

  /** The buffers a pass answers for: those of the kept blocks and those it gave back. */
  ghost function Owned(p: Pass): multiset<nat> {
    Buffers(p.kept) + p.freed
  }

  lemma VisitConserves(p: Pass, b: MemoryBlock)
    requires p.kept == [] ==> p.prevAddr == p.prevSize == 0
    ensures Owned(Visit(p, b)) == Owned(p) + multiset{b.dataPtr}
  {
    if b.submitIndex != p.prevSubmit || b.vaAddr >= Add64(p.prevAddr, p.prevSize) {
      BuffersSnoc(p.kept, b);
    } else if |b.data| >= |p.kept[|p.kept| - 1].data| {
      BuffersReplaceLast(p.kept, b);
      Exchange(Buffers(p.kept[..|p.kept| - 1] + [b]), multiset{p.kept[|p.kept| - 1].dataPtr}, Buffers(p.kept),
        multiset{b.dataPtr}, p.freed);
    }
  }

  lemma Exchange(a: multiset<nat>, x: multiset<nat>, b: multiset<nat>, y: multiset<nat>, f: multiset<nat>)
    requires a + x == b + y
    ensures a + (f + x) == b + f + y
  {
    assert a + (f + x) == (a + x) + f;
  }

  lemma {:induction false} KeptOrFreedTo(s: seq<MemoryBlock>, n: nat)
    requires n <= |s|
    ensures Owned(CompactTo(s, n)) == BuffersTo(s, n)
  {
    if n > 0 {
      hide Visit, Owned;
      KeptOrFreedTo(s, n - 1);
      VisitConserves(CompactTo(s, n - 1), s[n - 1]);
    }
  }

  /** Conservation, for every input: each buffer ends up either kept once or freed once. */
  lemma EveryBufferKeptOrFreed(s: seq<MemoryBlock>)
    ensures Buffers(Compact(s).kept) + Compact(s).freed == Buffers(s)
  {
    KeptOrFreedTo(s, |s|);
  }

  /** Block i of s is the last-added among the largest of its group. */
  ghost predicate Winner(s: seq<MemoryBlock>, i: nat) {
    i < |s| &&
    forall j :: 0 <= j < |s| && Equivalent(s[j], s[i], true) ==>
      |s[j].data| <= |s[i].data| && (i < j ==> |s[j].data| < |s[i].data|)
  }

  /** What the loop asserts of a block c visited right after b: if it starts before the end of b, it
      starts exactly where b starts. */
  predicate MayFollow(b: MemoryBlock, c: MemoryBlock) {
    b.submitIndex == c.submitIndex && c.vaAddr < Limit(b) ==> c.vaAddr == b.vaAddr
  }

  ghost predicate AssertionsHold(s: seq<MemoryBlock>) {
    forall i, j :: 0 <= i < j < |s| && j == i + 1 ==> MayFollow(s[i], s[j])
  }

  /** Two blocks of one submit are either disjoint or start at the same address. */
  predicate Compatible(x: MemoryBlock, y: MemoryBlock) {
    x.submitIndex == y.submitIndex ==>
      Limit(x) <= y.vaAddr || Limit(y) <= x.vaAddr || x.vaAddr == y.vaAddr
  }

  ghost predicate DisjointOrSameStart(s: seq<MemoryBlock>) {
    forall x, y :: x in s && y in s ==> Compatible(x, y)
  }

  /** kept lists blocks of s that are winners; idx gives their positions. */
  ghost predicate AreWinners(s: seq<MemoryBlock>, kept: seq<MemoryBlock>, idx: seq<nat>) {
    |idx| == |kept| && forall j :: 0 <= j < |idx| ==> Winner(s, idx[j]) && kept[j] == s[idx[j]]
  }

  ghost predicate Increasing(kept: seq<MemoryBlock>) {
    forall j, k :: 0 <= j < k < |kept| ==> Less(kept[j], kept[k], true)
  }

  ghost predicate Represented(b: MemoryBlock, kept: seq<MemoryBlock>) {
    exists j :: 0 <= j < |kept| && Equivalent(b, kept[j], true)
  }

  ghost predicate AllRepresented(s: seq<MemoryBlock>, kept: seq<MemoryBlock>) {
    forall i :: 0 <= i < |s| ==> Represented(s[i], kept)
  }

  /** kept holds winners only, in order, one for each group of s. */
  ghost predicate Picks(s: seq<MemoryBlock>, kept: seq<MemoryBlock>, idx: seq<nat>) {
    AreWinners(s, kept, idx) && Increasing(kept) && AllRepresented(s, kept)
  }

  ghost predicate AllLess(t: seq<MemoryBlock>, b: MemoryBlock) {
    forall i :: 0 <= i < |t| ==> Less(t[i], b, true)
  }

  ghost predicate EndsIn(kept: seq<MemoryBlock>, b: MemoryBlock) {
    kept != [] && Equivalent(kept[|kept| - 1], b, true)
  }

  lemma LastIsGreatest(s: seq<MemoryBlock>, n: nat)
    requires Sorted(s, true) && 0 < n < |s|
    ensures !Less(s[n], s[n - 1], true)
    ensures Less(s[n - 1], s[n], true) ==> AllLess(s[..n], s[n])
  {
    forall i | 0 <= i < n
      ensures Less(s[n - 1], s[n], true) ==> Less(s[..n][i], s[n], true)
    {
      assert i < n - 1 ==> !Less(s[n - 1], s[i], true);
    }
  }

  lemma CompactStep(s: seq<MemoryBlock>, n: nat)
    requires 0 < n <= |s|
    ensures CompactTo(s, n) == Visit(CompactTo(s, n - 1), s[n - 1])
  {
    hide Visit;
  }

  lemma {:induction false} PicksTo(s: seq<MemoryBlock>, n: nat) returns (idx: seq<nat>)
    requires Sorted(s, true) && AllWellPlaced(s) && AssertionsHold(s) && 0 < n <= |s|
    ensures Picks(s[..n], CompactTo(s, n).kept, idx)
    ensures EndsIn(CompactTo(s, n).kept, s[n - 1])
  {
    hide Picks, CompactTo, Visit;
    CompactStep(s, n);
    if n == 1 {
      idx := [0];
      FirstPick(s, s[0]);
    } else {
      hide EndsIn;
      var prior := PicksTo(s, n - 1);
      LastIsGreatest(s, n - 1);
      assert WellPlaced(s[n - 2]) && MayFollow(s[n - 2], s[n - 1]);
      idx := PickStep(s[..n - 1], s[n - 2], s[n - 1], CompactTo(s, n - 1), prior);
      assert s[..n] == s[..n - 1] + [s[n - 1]];
    }
  }

  lemma CompactPicksWinners(s: seq<MemoryBlock>) returns (idx: seq<nat>)
    requires Sorted(s, true) && AllWellPlaced(s) && AssertionsHold(s)
    ensures Picks(s, Compact(s).kept, idx)
  {
    if s == [] {
      idx := [];
    } else {
      hide Picks, CompactTo;
      idx := PicksTo(s, |s|);
      assert s[..|s|] == s;
    }
  }

  lemma FirstPick(s: seq<MemoryBlock>, b: MemoryBlock)
    requires s != [] && s[0] == b
    ensures Picks(s[..1], [b], [0]) && Visit(CompactTo(s, 0), b).kept == [b]
  {
    assert s[..1] == [b];
    RepresentedBy(b, [b], 0);
  }

  lemma PickStep(t: seq<MemoryBlock>, last: MemoryBlock, b: MemoryBlock, p: Pass, prior: seq<nat>)
    returns (idx: seq<nat>)
    requires Picks(t, p.kept, prior) && EndsIn(p.kept, last)
    requires p.prevAddr == last.vaAddr && p.prevSubmit == last.submitIndex && p.prevSize == |last.data|
    requires WellPlaced(last) && MayFollow(last, b) && !Less(b, last, true)
    requires Less(last, b, true) ==> AllLess(t, b)
    ensures Picks(t + [b], Visit(p, b).kept, idx)
    ensures EndsIn(Visit(p, b).kept, b)
  {
    hide Visit, Picks;
    if Less(last, b, true) {
      VisitNew(p, last, b);
      NewGroup(t, b, p.kept, prior);
      idx := prior + [|t|];
    } else {
      VisitAgain(p, last, b);
      if |b.data| >= |p.kept[|p.kept| - 1].data| {
        PicksSize(t, p.kept, prior);
        ReplaceLast(t, b, p.kept, prior);
        idx := prior[..|prior| - 1] + [|t|];
      } else {
        KeepLast(t, b, p.kept, prior);
        idx := prior;
      }
    }
  }

  lemma PicksSize(s: seq<MemoryBlock>, kept: seq<MemoryBlock>, idx: seq<nat>)
    requires Picks(s, kept, idx)
    ensures |idx| == |kept|
  {
  }

  lemma VisitNew(p: Pass, last: MemoryBlock, b: MemoryBlock)
    requires p.kept != [] && p.prevAddr == last.vaAddr && p.prevSubmit == last.submitIndex && p.prevSize == |last.data|
    requires WellPlaced(last) && MayFollow(last, b) && Less(last, b, true)
    ensures Visit(p, b).kept == p.kept + [b]
  {
  }

  lemma VisitAgain(p: Pass, last: MemoryBlock, b: MemoryBlock)
    requires p.prevAddr == last.vaAddr && p.prevSubmit == last.submitIndex && p.prevSize == |last.data|
    requires WellPlaced(last) && Equivalent(last, b, true) && EndsIn(p.kept, last)
    ensures Visit(p, b).kept ==
      if |b.data| >= |p.kept[|p.kept| - 1].data| then p.kept[..|p.kept| - 1] + [b] else p.kept
    ensures EndsIn(p.kept, b)
  {
  }

  lemma NewGroup(t: seq<MemoryBlock>, b: MemoryBlock, kept: seq<MemoryBlock>, idx: seq<nat>)
    requires AllLess(t, b) && Picks(t, kept, idx)
    ensures Picks(t + [b], kept + [b], idx + [|t|])
  {
    hide Represented;
    var s, kept', idx' := t + [b], kept + [b], idx + [|t|];
    RepresentedBy(b, kept', |kept|);
    RepresentedAfter(t, b, kept, kept');
    assert Winner(s, |t|);
    forall j | 0 <= j < |idx|
      ensures Winner(s, idx[j]) && kept[j] == s[idx[j]] && Less(kept[j], b, true)
    {
      assert Winner(t, idx[j]);
      WinnerStays(t, b, idx[j]);
    }
    assert AreWinners(s, kept', idx');
    assert Increasing(kept');
  }

  lemma WinnerStays(t: seq<MemoryBlock>, b: MemoryBlock, i: nat)
    requires Winner(t, i)
    requires Equivalent(b, t[i], true) ==> |b.data| < |t[i].data|
    ensures Winner(t + [b], i)
  {
  }

  lemma RepresentedBy(b: MemoryBlock, kept: seq<MemoryBlock>, j: nat)
    requires j < |kept| && Equivalent(b, kept[j], true)
    ensures Represented(b, kept)
  {
  }

  lemma RepresentedAfter(t: seq<MemoryBlock>, b: MemoryBlock, kept: seq<MemoryBlock>, kept': seq<MemoryBlock>)
    requires AllRepresented(t, kept) && Represented(b, kept')
    requires |kept| <= |kept'| && forall j :: 0 <= j < |kept| ==> Equivalent(kept[j], kept'[j], true)
    ensures AllRepresented(t + [b], kept')
  {
    forall i | 0 <= i < |t|
      ensures Represented(t[i], kept')
    {
      var j :| 0 <= j < |kept| && Equivalent(t[i], kept[j], true);
      assert Equivalent(t[i], kept'[j], true);
    }
  }

  lemma ReplaceLast(t: seq<MemoryBlock>, b: MemoryBlock, kept: seq<MemoryBlock>, idx: seq<nat>)
    requires Picks(t, kept, idx) && kept != [] && Equivalent(kept[|kept| - 1], b, true)
    requires |b.data| >= |kept[|kept| - 1].data|
    ensures Picks(t + [b], kept[..|kept| - 1] + [b], idx[..|idx| - 1] + [|t|])
  {
    var s, k := t + [b], |kept| - 1;
    var kept', idx' := kept[..k] + [b], idx[..k] + [|t|];
    hide Represented;
    RepresentedBy(b, kept', k);
    RepresentedAfter(t, b, kept, kept');
    forall j | 0 <= j < k
      ensures Winner(s, idx'[j])
    {
      assert Less(kept[j], kept[k], true);
      WinnerStays(t, b, idx[j]);
    }
    assert Winner(s, |t|) by {
      assert Winner(t, idx[k]);
    }
  }

  lemma KeepLast(t: seq<MemoryBlock>, b: MemoryBlock, kept: seq<MemoryBlock>, idx: seq<nat>)
    requires Picks(t, kept, idx) && kept != [] && Equivalent(kept[|kept| - 1], b, true)
    requires |b.data| < |kept[|kept| - 1].data|
    ensures Picks(t + [b], kept, idx)
  {
    var s, k := t + [b], |kept| - 1;
    hide Represented;
    RepresentedBy(b, kept, k);
    RepresentedAfter(t, b, kept, kept);
    forall j | 0 <= j < |idx|
      ensures Winner(s, idx[j])
    {
      if j < k {
        assert Less(kept[j], kept[k], true);
      }
      WinnerStays(t, b, idx[j]);
    }
  }

  // ---------- when the loop's assertions hold and its result is ordered ----------

  predicate FitsInMemory(b: MemoryBlock) {
    Limit(b) < TWO_64
  }

  ghost predicate AllFit(blocks: seq<MemoryBlock>) {
    forall i {:trigger FitsInMemory(blocks[i])} :: 0 <= i < |blocks| ==> FitsInMemory(blocks[i])
  }

  /** An empty block that comes after a non-empty one comes last. */
  ghost predicate EmptyComesLast(g: seq<MemoryBlock>) {
    forall i, j {:trigger g[i], g[j]} :: 0 <= i < j < |g| && g[i].data != [] && g[j].data == [] ==> j == |g| - 1
  }

  /** So it is among the blocks captured at each address of each submit, in the order they were added. */
  ghost predicate EmptiesComeLast(s: seq<MemoryBlock>) {
    forall x {:trigger Group(s, x, true)} :: x in s ==> EmptyComesLast(Group(s, x, true))
  }

  /** Good input, as a caller can check it. */
  ghost predicate Mergeable(s: seq<MemoryBlock>) {
    DisjointOrSameStart(s) && EmptiesComeLast(s)
  }

  /** A kept block that starts where b starts and is no smaller. */
  ghost predicate CoveredBy(b: MemoryBlock, kept: seq<MemoryBlock>) {
    exists j :: 0 <= j < |kept| && Equivalent(b, kept[j], true) && |b.data| <= |kept[j].data|
  }

  ghost predicate AllCovered(t: seq<MemoryBlock>, kept: seq<MemoryBlock>) {
    forall i {:trigger CoveredBy(t[i], kept)} :: 0 <= i < |t| ==> CoveredBy(t[i], kept)
  }

  /** Everything kept was given, what was given is covered, and the last of each start together. */
  ghost predicate Keeps(t: seq<MemoryBlock>, kept: seq<MemoryBlock>, last: MemoryBlock) {
    && (forall j :: 0 <= j < |kept| ==> kept[j] in t) && AllCovered(t, kept) && Sorted(kept, true) && EndsIn(kept, last)
  }

  lemma CoveredAfter(t: seq<MemoryBlock>, b: MemoryBlock, kept: seq<MemoryBlock>, kept': seq<MemoryBlock>)
    requires AllCovered(t, kept) && CoveredBy(b, kept') && |kept| <= |kept'|
    requires forall j :: 0 <= j < |kept| ==> Equivalent(kept[j], kept'[j], true) && |kept[j].data| <= |kept'[j].data|
    ensures AllCovered(t + [b], kept')
  {
    forall i | 0 <= i < |t + [b]|
      ensures CoveredBy((t + [b])[i], kept')
    {
      if i < |t| {
        assert CoveredBy(t[i], kept);
        var j :| 0 <= j < |kept| && Equivalent(t[i], kept[j], true) && |t[i].data| <= |kept[j].data|;
        assert Equivalent(t[i], kept'[j], true) && |t[i].data| <= |kept'[j].data|;
      }
    }
  }

  lemma SelfCovered(b: MemoryBlock, kept: seq<MemoryBlock>, j: nat)
    requires j < |kept| && Equivalent(b, kept[j], true) && |b.data| <= |kept[j].data|
    ensures CoveredBy(b, kept)
  {
  }

  lemma SortedSnoc(kept: seq<MemoryBlock>, last: MemoryBlock, b: MemoryBlock)
    requires Sorted(kept, true) && EndsIn(kept, last) && !Less(b, last, true)
    ensures Sorted(kept + [b], true)
  {
    forall i, j | 0 <= i < j < |kept + [b]|
      ensures !Less((kept + [b])[j], (kept + [b])[i], true)
    {
      assert i < j < |kept| ==> !Less(kept[j], kept[i], true);
      assert i < |kept| - 1 ==> !Less(kept[|kept| - 1], kept[i], true);
    }
  }

  /** What a step of the loop keeps, given that its assertion holds. */
  lemma KeepsStep(t: seq<MemoryBlock>, last: MemoryBlock, b: MemoryBlock, p: Pass)
    requires Keeps(t, p.kept, last) && FitsInMemory(last) && MayFollow(last, b) && !Less(b, last, true)
    requires p.prevAddr == last.vaAddr && p.prevSubmit == last.submitIndex && p.prevSize == |last.data|
    ensures Keeps(t + [b], Visit(p, b).kept, b)
  {
    hide CoveredBy;
    var kept, kept' := p.kept, Visit(p, b).kept;
    var m := |kept| - 1;
    if b.submitIndex != last.submitIndex || b.vaAddr >= Limit(last) {
      assert kept' == kept + [b];
      SortedSnoc(kept, last, b);
      SelfCovered(b, kept', |kept|);
      CoveredAfter(t, b, kept, kept');
    } else if |b.data| >= |kept[m].data| {
      assert kept' == kept[..m] + [b];
      assert forall i :: 0 <= i < m ==> !Less(kept[m], kept[i], true);
      SelfCovered(b, kept', m);
      CoveredAfter(t, b, kept, kept');
    } else {
      SelfCovered(b, kept, m);
      CoveredAfter(t, b, kept, kept);
    }
  }

  /** Adding a block at the end spoils nothing that was spoiled before, and nothing that another block
      could repair. */
  lemma MergeablePrefix(t: seq<MemoryBlock>, b: MemoryBlock)
    requires Mergeable(t + [b])
    ensures Mergeable(t)
  {
    hide GroupTo;
    forall x, y | x in t && y in t
      ensures Compatible(x, y)
    {
      assert x in t + [b] && y in t + [b];
    }
    forall x | x in t
      ensures EmptyComesLast(Group(t, x, true))
    {
      assert x in t + [b];
      GroupSnoc(t, b, x, true);
      var g, h := Group(t, x, true), Group(t + [b], x, true);
      assert EmptyComesLast(h);
      assert forall i :: 0 <= i < |g| ==> h[i] == g[i];
    }
  }

  lemma AssertionsPrefix(t: seq<MemoryBlock>, last: MemoryBlock, b: MemoryBlock)
    requires t != [] && t[|t| - 1] == last
    ensures AssertionsHold(t + [b]) <==> AssertionsHold(t) && MayFollow(last, b)
  {
    var s := t + [b];
    if AssertionsHold(s) {
      assert MayFollow(s[|t| - 1], s[|t|]);
      forall i, j | 0 <= i < j < |t| && j == i + 1
        ensures MayFollow(t[i], t[j])
      {
        assert MayFollow(s[i], s[j]);
      }
    }
  }

  /** The result was ordered before the step if it is ordered after it. */
  lemma OrderedBefore(t: seq<MemoryBlock>, last: MemoryBlock, b: MemoryBlock, p: Pass)
    requires Keeps(t, p.kept, last) && FitsInMemory(last) && MayFollow(last, b)
    requires p.prevAddr == last.vaAddr && p.prevSubmit == last.submitIndex && p.prevSize == |last.data|
    requires Ordered(Visit(p, b).kept, true)
    ensures Ordered(p.kept, true)
  {
    hide CoveredBy, Sorted;
    var kept, kept' := p.kept, Visit(p, b).kept;
    forall i, j | 0 <= i < j < |kept| && Share(kept[i], kept[j], true)
      ensures Limit(kept[i]) <= kept[j].vaAddr
    {
      assert kept'[i] == kept[i];
      assert Share(kept'[i], kept'[j], true);
    }
  }

  /** Whether the block after last keeps the result ordered: exactly if it is mergeable with what was given. */
  ghost predicate GoesOn(last: MemoryBlock, b: MemoryBlock, p: Pass)
    requires p.kept != []
  {
    MayFollow(last, b) && Ordered(Visit(p, b).kept, true)
  }

  ghost predicate StepReady(t: seq<MemoryBlock>, last: MemoryBlock, b: MemoryBlock, p: Pass) {
    && t != [] && t[|t| - 1] == last && Keeps(t, p.kept, last) && Ordered(p.kept, true) && Mergeable(t)
    && FitsInMemory(last) && !Less(b, last, true) && (forall x :: x in t ==> !Less(last, x, true))
    && p.prevAddr == last.vaAddr && p.prevSubmit == last.submitIndex && p.prevSize == |last.data|
  }

  /** A block at a new address or of a new submit. */
  lemma StepElsewhere(t: seq<MemoryBlock>, last: MemoryBlock, b: MemoryBlock, p: Pass)
    requires StepReady(t, last, b, p) && Less(last, b, true)
    ensures p.kept != [] && (GoesOn(last, b, p) <==> Mergeable(t + [b]))
  {
    NewGroupMergeable(t, last, b);
    hide EmptiesComeLast, Sorted, Group;
    if MayFollow(last, b) {
      assert Visit(p, b).kept == p.kept + [b];
      if Ordered(p.kept + [b], true) {
        forall x | x in t
          ensures Compatible(x, b)
        {
          CoverDisjoint(t, p.kept, b, x);
        }
      } else {
        OrderedSnocIff(p.kept, b);
        var i :| 0 <= i < |p.kept| && Share(p.kept[i], b, true) && Limit(p.kept[i]) > b.vaAddr;
        assert p.kept[i] in t && !Compatible(p.kept[i], b);
      }
    } else {
      assert last in t && last in t + [b] && b in t + [b] && !Compatible(last, b);
    }
  }

  lemma NewGroupMergeable(t: seq<MemoryBlock>, last: MemoryBlock, b: MemoryBlock)
    requires Mergeable(t) && Less(last, b, true) && forall x :: x in t ==> !Less(last, x, true)
    ensures Mergeable(t + [b]) <==> forall x :: x in t ==> Compatible(x, b)
  {
    hide GroupTo;
    var s := t + [b];
    if forall x :: x in t ==> Compatible(x, b) {
      forall x | x in s
        ensures EmptyComesLast(Group(s, x, true))
      {
        GroupSnoc(t, b, x, true);
        if x == b {
          GroupMembers(t, |t|, b, true);
          assert forall y :: y in Group(t, b, true) ==> y in t && Equivalent(y, b, true);
          NoMembers(Group(t, b, true));
        } else {
          assert x in t && EmptyComesLast(Group(t, x, true));
        }
      }
    } else {
      var x :| x in t && !Compatible(x, b);
      assert x in s && b in s;
    }
  }

  lemma NoMembers(g: seq<MemoryBlock>)
    ensures (forall y :: y in g ==> false) ==> g == []
  {
    if g != [] {
      assert g[0] in g;
    }
  }

  lemma CoverDisjoint(t: seq<MemoryBlock>, kept: seq<MemoryBlock>, b: MemoryBlock, x: MemoryBlock)
    requires x in t && AllCovered(t, kept) && Ordered(kept, true) && Ordered(kept + [b], true)
    ensures Compatible(x, b)
  {
    var i :| 0 <= i < |t| && t[i] == x;
    assert CoveredBy(t[i], kept);
    var j :| 0 <= j < |kept| && Equivalent(x, kept[j], true) && |x.data| <= |kept[j].data|;
    OrderedSnocIff(kept, b);
    assert Share(kept[j], b, true) ==> Limit(kept[j]) <= b.vaAddr;
  }

  lemma OrderedSnocIff(kept: seq<MemoryBlock>, b: MemoryBlock)
    requires Ordered(kept, true)
    ensures Ordered(kept + [b], true) <==>
      forall i {:trigger Share(kept[i], b, true)} :: 0 <= i < |kept| && Share(kept[i], b, true) ==>
        Limit(kept[i]) <= b.vaAddr
  {
    var s := kept + [b];
    if Ordered(s, true) {
      forall i | 0 <= i < |kept| && Share(kept[i], b, true)
        ensures Limit(kept[i]) <= b.vaAddr
      {
        assert Share(s[i], s[|kept|], true);
      }
    }
    if forall i :: 0 <= i < |kept| && Share(kept[i], b, true) ==> Limit(kept[i]) <= b.vaAddr {
      forall i, j | 0 <= i < j < |s| && Share(s[i], s[j], true)
        ensures Limit(s[i]) <= s[j].vaAddr
      {
        if j < |kept| {
          assert Share(kept[i], kept[j], true);
        }
      }
    }
  }

  /** A block that starts where the one before starts. */
  lemma StepAgain(t: seq<MemoryBlock>, last: MemoryBlock, b: MemoryBlock, p: Pass)
    requires StepReady(t, last, b, p) && Equivalent(last, b, true)
    ensures p.kept != [] && (GoesOn(last, b, p) <==> Mergeable(t + [b]))
  {
    SameGroupMergeable(t, last, b);
    var kept, m := p.kept, |p.kept| - 1;
    hide EmptiesComeLast, Sorted, Group, CoveredBy;
    if last.data == [] {
      assert Visit(p, b).kept == kept + [b];
      OrderedSnocIff(kept, b);
      if kept[m].data == [] {
        NothingThere(t, kept, last);
        assert forall i :: 0 <= i < m && Share(kept[i], kept[m], true) ==> Limit(kept[i]) <= kept[m].vaAddr;
      } else {
        assert kept[m] in t && Equivalent(kept[m], last, true) && Share(kept[m], b, true);
      }
    } else {
      var kept' := Visit(p, b).kept;
      forall i, j | 0 <= i < j < |kept'| && Share(kept'[i], kept'[j], true)
        ensures Limit(kept'[i]) <= kept'[j].vaAddr
      {
        assert kept'[i] == kept[i];
        assert Share(kept[i], kept[j], true);
      }
    }
  }

  /** The group that a block at the same address joins. */
  lemma GroupJoined(t: seq<MemoryBlock>, last: MemoryBlock, b: MemoryBlock)
    requires t != [] && t[|t| - 1] == last && Equivalent(last, b, true)
    ensures var g := Group(t, last, true);
      && g != [] && g[|g| - 1] == last && Group(t + [b], b, true) == g + [b]
      && forall x :: x in g <==> x in t && Equivalent(x, last, true)
  {
    hide GroupTo;
    LastOfGroup(t, last);
    GroupMembers(t, |t|, last, true);
    SameGroup(t, last, b);
    GroupSnoc(t, b, b, true);
  }

  lemma JoinsTooLate(t: seq<MemoryBlock>, last: MemoryBlock, b: MemoryBlock, x: MemoryBlock)
    requires t != [] && t[|t| - 1] == last && Equivalent(last, b, true) && last.data == []
    requires x in t && Equivalent(x, last, true) && x.data != []
    ensures !EmptiesComeLast(t + [b])
  {
    hide Equivalent, Group;
    GroupJoined(t, last, b);
    var g := Group(t, last, true);
    assert x in g;
    var i :| 0 <= i < |g| && g[i] == x;
    assert i < |g| - 1 && (g + [b])[i] == x && (g + [b])[|g| - 1] == last;
    assert !EmptyComesLast(g + [b]) && b in t + [b];
  }

  lemma JoinsInTime(t: seq<MemoryBlock>, last: MemoryBlock, b: MemoryBlock)
    requires t != [] && t[|t| - 1] == last && EmptiesComeLast(t) && Equivalent(last, b, true)
    requires last.data == [] ==> forall x :: x in t && Equivalent(x, last, true) ==> x.data == []
    ensures EmptiesComeLast(t + [b])
  {
    hide GroupTo, EmptyComesLast;
    GroupJoined(t, last, b);
    JoinsGroup(Group(t, last, true), last, b);
    forall x | x in t + [b]
      ensures EmptyComesLast(Group(t + [b], x, true))
    {
      GroupSnoc(t, b, x, true);
      if Equivalent(b, x, true) {
        SameGroup(t + [b], b, x);
      }
    }
  }

  /** Whether an empty or non-empty block may join the group of the block before it. */
  lemma SameGroupMergeable(t: seq<MemoryBlock>, last: MemoryBlock, b: MemoryBlock)
    requires t != [] && t[|t| - 1] == last && Mergeable(t) && Equivalent(last, b, true)
    requires forall x :: x in t ==> !Less(last, x, true)
    ensures Mergeable(t + [b]) <==>
      (last.data == [] ==> forall x :: x in t && Equivalent(x, last, true) ==> x.data == [])
  {
    hide EmptiesComeLast;
    forall x | x in t
      ensures Compatible(x, b)
    {
      assert last in t && Compatible(x, last);
    }
    if last.data == [] && exists x :: x in t && Equivalent(x, last, true) && x.data != [] {
      var x :| x in t && Equivalent(x, last, true) && x.data != [];
      JoinsTooLate(t, last, b, x);
    } else {
      JoinsInTime(t, last, b);
    }
  }

  lemma JoinsGroup(g: seq<MemoryBlock>, last: MemoryBlock, b: MemoryBlock)
    requires g != [] && g[|g| - 1] == last && EmptyComesLast(g)
    requires last.data == [] ==> forall x :: x in g ==> x.data == []
    ensures EmptyComesLast(g + [b])
  {
    forall i, j | 0 <= i < j < |g|
      ensures g[i].data == [] || g[j].data != []
    {
      assert g[i] in g;
    }
  }

  lemma {:induction false} SameGroupTo(t: seq<MemoryBlock>, n: nat, x: MemoryBlock, y: MemoryBlock)
    requires n <= |t| && Equivalent(x, y, true)
    ensures GroupTo(t, n, x, true) == GroupTo(t, n, y, true)
  {
    if n > 0 {
      SameGroupTo(t, n - 1, x, y);
    }
  }

  lemma SameGroup(t: seq<MemoryBlock>, x: MemoryBlock, y: MemoryBlock)
    requires Equivalent(x, y, true)
    ensures Group(t, x, true) == Group(t, y, true)
  {
    SameGroupTo(t, |t|, x, y);
  }

  lemma LastOfGroup(t: seq<MemoryBlock>, last: MemoryBlock)
    requires t != [] && t[|t| - 1] == last
    ensures var g := Group(t, last, true); g != [] && g[|g| - 1] == last
  {
  }

  /** If the last kept block is empty, everything given at its address is. */
  lemma NothingThere(t: seq<MemoryBlock>, kept: seq<MemoryBlock>, last: MemoryBlock)
    requires AllCovered(t, kept) && EndsIn(kept, last) && Ordered(kept, true) && kept[|kept| - 1].data == []
    ensures forall x :: x in t && Equivalent(x, last, true) ==> x.data == []
  {
    forall x | x in t && Equivalent(x, last, true)
      ensures x.data == []
    {
      var i :| 0 <= i < |t| && t[i] == x;
      assert CoveredBy(t[i], kept);
      var j :| 0 <= j < |kept| && Equivalent(x, kept[j], true) && |x.data| <= |kept[j].data|;
      if j < |kept| - 1 {
        assert Share(kept[j], kept[|kept| - 1], true);
      }
    }
  }

  ghost predicate PassesTo(s: seq<MemoryBlock>, n: nat)
    requires n <= |s|
  {
    AssertionsHold(s[..n]) && Ordered(CompactTo(s, n).kept, true)
  }

  lemma {:induction false} CompactToIff(s: seq<MemoryBlock>, n: nat)
    requires Sorted(s, true) && AllFit(s) && n <= |s|
    ensures PassesTo(s, n) <==> Mergeable(s[..n])
    ensures n > 0 && AssertionsHold(s[..n]) ==> Keeps(s[..n], CompactTo(s, n).kept, s[n - 1])
  {
    hide Mergeable, Keeps, CompactTo, Visit, AssertionsHold, Ordered;
    if n <= 1 {
      FirstPasses(s, n);
    } else {
      var t, last, b, p := s[..n - 1], s[n - 2], s[n - 1], CompactTo(s, n - 1);
      assert s[..n] == t + [b] && FitsInMemory(last);
      CompactStep(s, n);
      CompactToIff(s, n - 1);
      AssertionsPrefix(t, last, b);
      LastIsLast(s, n - 1);
      if AssertionsHold(t) && MayFollow(last, b) {
        KeepsStep(t, last, b, p);
        if Ordered(Visit(p, b).kept, true) {
          OrderedBefore(t, last, b, p);
        }
      }
      if Mergeable(t + [b]) {
        MergeablePrefix(t, b);
      }
      if PassesTo(s, n - 1) {
        if Less(last, b, true) {
          StepElsewhere(t, last, b, p);
        } else {
          StepAgain(t, last, b, p);
        }
      }
    }
  }

  lemma LastIsLast(s: seq<MemoryBlock>, n: nat)
    requires Sorted(s, true) && 0 < n < |s|
    ensures !Less(s[n], s[n - 1], true) && forall x :: x in s[..n] ==> !Less(s[n - 1], x, true)
  {
    forall x | x in s[..n]
      ensures !Less(s[n - 1], x, true)
    {
      var i :| 0 <= i < n && s[i] == x;
      assert i < n - 1 ==> !Less(s[n - 1], s[i], true);
    }
  }

  lemma FirstPasses(s: seq<MemoryBlock>, n: nat)
    requires n <= 1 && n <= |s|
    ensures PassesTo(s, n) && Mergeable(s[..n])
    ensures n > 0 ==> Keeps(s[..n], CompactTo(s, n).kept, s[n - 1])
  {
    if n == 1 {
      var b := s[0];
      assert s[..1] == [b] && CompactTo(s, 0) == Pass([], multiset{}, 0, 0, 0) && CompactTo(s, 1).kept == [b];
      SelfCovered(b, [b], 0);
      forall x | x in [b]
        ensures EmptyComesLast(Group([b], x, true))
      {
        GroupSnoc([], b, x, true);
        assert [] + [b] == [b];
      }
    }
  }

  /** Exactly when the loop's assertions pass and its result is ordered and disjoint: when the blocks of
      each submit are pairwise disjoint or start together, and among those that start together an empty
      block that comes after a non-empty one comes last. */
  lemma CompactOrderedIff(s: seq<MemoryBlock>)
    requires Sorted(s, true) && AllFit(s)
    ensures AssertionsHold(s) && Ordered(Compact(s).kept, true) <==> Mergeable(s)
    ensures AssertionsHold(s) ==> Sorted(Compact(s).kept, true)
  {
    hide Mergeable, CompactTo;
    CompactToIff(s, |s|);
    assert s[..|s|] == s;
    if s == [] {
      NothingKept(s);
    }
  }

  lemma NothingKept(s: seq<MemoryBlock>)
    ensures s == [] ==> Compact(s).kept == []
  {
  }

  /** Without empty blocks only the overlaps matter. */
  lemma WellPlacedMergeable(s: seq<MemoryBlock>)
    requires AllWellPlaced(s)
    ensures AllFit(s) && (Mergeable(s) <==> DisjointOrSameStart(s))
  {
    forall i | 0 <= i < |s|
      ensures FitsInMemory(s[i])
    {
      assert WellPlaced(s[i]);
    }
    forall x | x in s
      ensures EmptyComesLast(Group(s, x, true))
    {
      GroupMembers(s, |s|, x, true);
      var g := Group(s, x, true);
      forall j | 0 <= j < |g|
        ensures g[j].data != []
      {
        assert g[j] in g;
        var i :| 0 <= i < |s| && s[i] == g[j];
        assert WellPlaced(s[i]);
      }
    }
  }

  lemma SubmitsDisjoint(s: seq<MemoryBlock>)
    requires Sorted(s, true) && AllWellPlaced(s) && DisjointOrSameStart(s)
    ensures AssertionsHold(s) && Ordered(Compact(s).kept, true)
  {
    hide *;
    WellPlacedMergeable(s);
    CompactOrderedIff(s);
  }

  /** The adjacent check that the loop asserts is too weak on its own: these blocks pass it, yet the
      result overlaps. */
  lemma AdjacentCheckTooWeak()
    ensures exists s :: Sorted(s, true) && AllWellPlaced(s) && AssertionsHold(s) && !Ordered(Compact(s).kept, true)
  {
    var d: seq<byte> := [0, 0, 0, 0];
    var a, b, c := MemoryBlock(0, 0, d, 1), MemoryBlock(0, 0, d[..1], 2), MemoryBlock(2, 0, d[..1], 3);
    var s := [a, b, c];
    assert s[0] == a && s[1] == b && s[2] == c;
    assert AssertionsHold(s);
    assert Sorted(s, true);
    WellPlacedMergeable(s);
    CompactOrderedIff(s);
    assert a in s && c in s && !Compatible(a, c);
  }

  /** Empty blocks can make the compaction keep two overlapping blocks: one between two blocks that start
      together resets the size that the next one is compared with. */
  lemma EmptyBlockBreaksCompaction()
    ensures exists s ::
      Sorted(s, true) && AssertionsHold(s) && DisjointOrSameStart(s) && !Ordered(Compact(s).kept, true)
  {
    var a, z, b := MemoryBlock(0, 0, [0], 1), MemoryBlock(0, 0, [], 2), MemoryBlock(0, 0, [0, 0], 3);
    var s := [a, z, b];
    assert CompactTo(s, 1).kept == [a];
    assert CompactTo(s, 2).kept == [a];
    assert Compact(s).kept == [a] + [b];
    var kept := Compact(s).kept;
    assert Share(kept[0], kept[1], true) && Limit(kept[0]) > kept[1].vaAddr;
    assert Sorted(s, true) && AssertionsHold(s) && DisjointOrSameStart(s);
  }

  /** The block chosen out of a group: the largest, and the last-added among equals. */
  function LastLargest(g: seq<MemoryBlock>): (b: MemoryBlock)
    requires g != []
    ensures b in g && forall x :: x in g ==> |x.data| <= |b.data|
  {
    if |g| == 1 then g[0]
    else
      var r := LastLargest(g[..|g| - 1]);
      var last := g[|g| - 1];
      if |last.data| >= |r.data| then last else r
  }

  /** What LastLargest picks depends on the order only through ties: of a winner's group, it is the winner. */
  lemma {:induction false} WinnerIsLastLargest(s: seq<MemoryBlock>, i: nat, n: nat)
    requires Winner(s, i) && i < n <= |s|
    ensures var g := GroupTo(s, n, s[i], true); g != [] && LastLargest(g) == s[i]
  {
    var before, last := GroupTo(s, n - 1, s[i], true), s[n - 1];
    if i < n - 1 {
      WinnerIsLastLargest(s, i, n - 1);
    } else {
      GroupMembers(s, n - 1, s[i], true);
    }
    if Equivalent(last, s[i], true) {
      SnocLastLargest(before, last);
      if i == n - 1 && before != [] {
        var k :| 0 <= k < n - 1 && s[k] == LastLargest(before);
        assert Equivalent(s[k], s[i], true);
      }
    }
  }

  lemma SnocLastLargest(g: seq<MemoryBlock>, b: MemoryBlock)
    ensures LastLargest(g + [b]) == if g != [] && |b.data| < |LastLargest(g).data| then LastLargest(g) else b
  {
    assert (g + [b])[..|g|] == g;
  }

  // ---------- what Finalize leaves behind ----------

  lemma SameCoverage(s: seq<MemoryBlock>, t: seq<MemoryBlock>, same: bool, submit: nat, a: int)
    requires forall x :: x in s ==> x in t
    requires Captured(s, same, submit, a)
    ensures Captured(t, same, submit, a)
  {
    var i :| 0 <= i < |s| && Holds(s[i], same, submit, a);
    assert s[i] in t;
  }

  ghost function Compacted(added: seq<MemoryBlock>): seq<MemoryBlock> {
    Compact(StableSort(added, true)).kept
  }

  /** The block of added's group of b that compaction keeps. */
  ghost predicate IsLastLargest(added: seq<MemoryBlock>, b: MemoryBlock) {
    b in added && Group(added, b, true) != [] && b == LastLargest(Group(added, b, true))
  }

  lemma WinnerWasAdded(added: seq<MemoryBlock>, i: nat)
    requires i < |added| && Winner(StableSort(added, true), i)
    ensures IsLastLargest(added, StableSort(added, true)[i])
  {
    hide StableSort, GroupTo, LastLargest;
    var s := StableSort(added, true);
    StableSortCorrect(added, true);
    SortKeepsElements(added, true);
    WinnerIsLastLargest(s, i, |s|);
    assert Group(s, s[i], true) == Group(added, s[i], true);
    assert s[i] in s;
  }

  lemma CompactedPicks(added: seq<MemoryBlock>) returns (idx: seq<nat>)
    requires AllWellPlaced(added) && DisjointOrSameStart(added)
    ensures Picks(StableSort(added, true), Compacted(added), idx) && Ordered(Compacted(added), true)
    ensures AllWellPlaced(StableSort(added, true))
  {
    hide StableSort, Picks, CompactTo;
    var s := StableSort(added, true);
    StableSortCorrect(added, true);
    SortKeepsElements(added, true);
    StableSortWellPlaced(added, true);
    SubmitsDisjoint(s);
    idx := CompactPicksWinners(s);
  }

  /** For every submit and address, exactly one block stays: the last-added among the largest blocks
      captured there. The result is ordered and disjoint within each submit. */
  lemma FinalizeKeepsLastLargest(added: seq<MemoryBlock>)
    requires AllWellPlaced(added) && DisjointOrSameStart(added)
    ensures Ordered(Compacted(added), true) && Increasing(Compacted(added)) && AllWellPlaced(Compacted(added))
    ensures forall b :: b in Compacted(added) ==> IsLastLargest(added, b)
    ensures AllRepresented(added, Compacted(added))
  {
    hide StableSort, IsLastLargest, Compacted, Represented;
    var idx := CompactedPicks(added);
    var s, kept := StableSort(added, true), Compacted(added);
    forall j | 0 <= j < |kept|
      ensures WellPlaced(kept[j]) && IsLastLargest(added, kept[j])
    {
      WinnerWasAdded(added, idx[j]);
      assert kept[j] == s[idx[j]] && WellPlaced(s[idx[j]]);
    }
    SortKeepsElements(added, true);
    forall i | 0 <= i < |added|
      ensures Represented(added[i], kept)
    {
      assert added[i] in s;
    }
  }

  lemma SortKeepsMergeable(added: seq<MemoryBlock>)
    ensures AllFit(added) <==> AllFit(StableSort(added, true))
    ensures Mergeable(added) <==> Mergeable(StableSort(added, true))
  {
    hide StableSort, GroupTo, EmptyComesLast;
    var s := StableSort(added, true);
    StableSortCorrect(added, true);
    SortKeepsElements(added, true);
    assert forall x {:trigger Group(s, x, true)} :: Group(s, x, true) == Group(added, x, true);
    FitElements(added, s);
    FitElements(s, added);
  }

  lemma FitElements(s: seq<MemoryBlock>, t: seq<MemoryBlock>)
    requires forall x :: x in t ==> x in s
    ensures AllFit(s) ==> AllFit(t)
  {
    if AllFit(s) {
      forall i | 0 <= i < |t|
        ensures FitsInMemory(t[i])
      {
        assert t[i] in s;
        var j :| 0 <= j < |s| && s[j] == t[i];
        assert FitsInMemory(s[j]);
      }
    }
  }

  /** Exactly when Finalize's assertion never fails and its result is ordered and disjoint. */
  lemma FinalizeOrderedIff(added: seq<MemoryBlock>)
    requires AllFit(added)
    ensures AssertionsHold(StableSort(added, true)) && Ordered(Compacted(added), true) <==> Mergeable(added)
  {
    hide StableSort, Mergeable, AllFit, CompactTo;
    StableSortCorrect(added, true);
    SortKeepsMergeable(added);
    CompactOrderedIff(StableSort(added, true));
  }

  /** The sanity check that a debug build makes after the loop: within a submit, a block starts no earlier
      than the one before it ends. */
  ghost predicate SanityHolds(kept: seq<MemoryBlock>) {
    forall i, j :: 0 <= i < j < |kept| && j == i + 1 && kept[i].submitIndex == kept[j].submitIndex ==>
      Limit(kept[i]) <= kept[j].vaAddr
  }

  lemma {:induction false} SanityReaches(kept: seq<MemoryBlock>, i: nat, j: nat)
    requires SanityHolds(kept) && Sorted(kept, true) && i < j < |kept| && kept[i].submitIndex == kept[j].submitIndex
    ensures Limit(kept[i]) <= kept[j].vaAddr
    decreases j
  {
    if i < j - 1 {
      assert !Less(kept[j], kept[j - 1], true) && !Less(kept[j - 1], kept[i], true);
      SanityReaches(kept, i, j - 1);
    }
  }

  /** Exactly when a debug build accepts the blocks. */
  lemma FinalizeAssertsIff(added: seq<MemoryBlock>)
    requires AllFit(added)
    ensures AssertionsHold(StableSort(added, true)) && SanityHolds(Compacted(added)) <==> Mergeable(added)
  {
    var s := StableSort(added, true);
    StableSortCorrect(added, true);
    SortKeepsMergeable(added);
    CompactOrderedIff(s);
    hide StableSort, Mergeable, AllFit, CompactTo, AssertionsHold;
    var kept := Compacted(added);
    if AssertionsHold(s) && SanityHolds(kept) {
      forall i, j | 0 <= i < j < |kept| && Share(kept[i], kept[j], true)
        ensures Limit(kept[i]) <= kept[j].vaAddr
      {
        SanityReaches(kept, i, j);
      }
    } else if Ordered(kept, true) {
      assert forall i, j :: 0 <= i < j < |kept| && kept[i].submitIndex == kept[j].submitIndex ==>
        Share(kept[i], kept[j], true);
    }
  }

  // ---------- flat memory ----------

  /** x, added before y, ends where y starts or earlier, or the other way round if y is sorted first. */
  predicate Apart(x: MemoryBlock, y: MemoryBlock) {
    if Less(y, x, false) then Limit(y) <= x.vaAddr else Limit(x) <= y.vaAddr
  }

  /** No overlap at all, whatever the submit: the assumption behind flat memory. */
  ghost predicate PairwiseApart(s: seq<MemoryBlock>, n: nat)
    requires n <= |s|
  {
    forall i, j {:trigger Apart(s[i], s[j])} :: 0 <= i < j < n ==> Apart(s[i], s[j])
  }

  lemma FlatSnoc(t: seq<MemoryBlock>, b: MemoryBlock)
    ensures Ordered(t + [b], false) <==> Ordered(t, false) && forall x :: x in t ==> Limit(x) <= b.vaAddr
  {
    var u := t + [b];
    if Ordered(u, false) {
      forall i | 0 <= i < |t|
        ensures Limit(t[i]) <= b.vaAddr
      {
        assert Share(u[i], u[|t|], false);
      }
      forall i, j | 0 <= i < j < |t|
        ensures Limit(t[i]) <= t[j].vaAddr
      {
        assert Share(u[i], u[j], false);
      }
    }
    if Ordered(t, false) && forall x :: x in t ==> Limit(x) <= b.vaAddr {
      forall i, j | 0 <= i < j < |u|
        ensures Limit(u[i]) <= u[j].vaAddr
      {
        assert u[i] in t;
        assert j < |t| ==> Share(t[i], t[j], false);
      }
    }
  }

  lemma {:induction false} InsertOrdered(t: seq<MemoryBlock>, b: MemoryBlock)
    requires Sorted(t, false)
    ensures Ordered(Insert(t, b, false), false) <==> Ordered(t, false) && forall x :: x in t ==> Apart(x, b)
  {
    hide Ordered;
    if t == [] || !Less(b, t[|t| - 1], false) {
      FlatSnoc(t, b);
      forall x | x in t
        ensures !Less(b, x, false)
      {
        var i :| 0 <= i < |t| && t[i] == x;
        assert i < |t| - 1 ==> !Less(t[|t| - 1], t[i], false);
      }
    } else {
      var rest, last := t[..|t| - 1], t[|t| - 1];
      assert t == rest + [last];
      InsertOrdered(rest, b);
      InsertElements(rest, b, false);
      FlatSnoc(Insert(rest, b, false), last);
      FlatSnoc(rest, last);
      assert last in t && forall x :: x in t <==> x in rest || x == last;
      assert Insert(t, b, false) == Insert(rest, b, false) + [last];
    }
  }

  lemma {:induction false} SortToOrdered(s: seq<MemoryBlock>, n: nat)
    requires n <= |s|
    ensures Ordered(SortTo(s, n, false), false) <==> PairwiseApart(s, n)
  {
    if n > 0 {
      hide Insert, Ordered, Sorted, PairwiseApart, GroupTo, Apart;
      SortToOrdered(s, n - 1);
      SortToCorrect(s, n - 1, s[n - 1], false);
      InsertOrdered(SortTo(s, n - 1, false), s[n - 1]);
      AllApart(s, n - 1, SortTo(s, n - 1, false), s[n - 1]);
      ApartStep(s, n);
    } else {
      assert Ordered([], false);
    }
  }

  /** The first n blocks, sorted to t. */
  lemma AllApart(s: seq<MemoryBlock>, n: nat, t: seq<MemoryBlock>, b: MemoryBlock)
    requires n <= |s| && t == SortTo(s, n, false)
    ensures (forall x :: x in t ==> Apart(x, b)) <==> forall i :: 0 <= i < n ==> Apart(s[i], b)
  {
    hide Apart, SortTo;
    SortToElements(s, n, false);
    if forall x :: x in t ==> Apart(x, b) {
      forall i | 0 <= i < n
        ensures Apart(s[i], b)
      {
        assert s[i] in t;
      }
    }
  }

  lemma ApartStep(s: seq<MemoryBlock>, n: nat)
    requires 0 < n <= |s|
    ensures PairwiseApart(s, n) <==> PairwiseApart(s, n - 1) && forall i :: 0 <= i < n - 1 ==> Apart(s[i], s[n - 1])
  {
    hide Apart;
    assert PairwiseApart(s, n) ==> forall i :: 0 <= i < n - 1 ==> Apart(s[i], s[n - 1]);
  }

  /** Exactly when sorting without regard to submits leaves no overlap. */
  lemma FlatOrderedIff(added: seq<MemoryBlock>)
    ensures Ordered(StableSort(added, false), false) <==> PairwiseApart(added, |added|)
  {
    SortToOrdered(added, |added|);
  }

  /** For blocks of one submit the debug check of flat memory finds every overlap. */
  lemma FlatAssertsIff(added: seq<MemoryBlock>)
    requires AllFit(added)
    requires forall i, j :: 0 <= i < j < |added| ==> added[i].submitIndex == added[j].submitIndex
    ensures SanityHolds(StableSort(added, false)) <==> PairwiseApart(added, |added|)
  {
    var s := StableSort(added, false);
    StableSortCorrect(added, false);
    SortKeepsElements(added, false);
    FlatOrderedIff(added);
    hide StableSort, PairwiseApart;
    forall i, j | 0 <= i < j < |s|
      ensures s[i].submitIndex == s[j].submitIndex && !Less(s[j], s[i], true)
    {
      assert s[i] in added && s[j] in added && !Less(s[j], s[i], false);
    }
    if SanityHolds(s) {
      forall i, j | 0 <= i < j < |s|
        ensures Limit(s[i]) <= s[j].vaAddr
      {
        SanityReaches(s, i, j);
      }
    }
    if Ordered(s, false) {
      OrderedIsSane(s);
    }
  }

  lemma OrderedIsSane(s: seq<MemoryBlock>)
    requires Ordered(s, false)
    ensures SanityHolds(s)
  {
    assert forall i, j :: 0 <= i < j < |s| ==> Share(s[i], s[j], false);
  }

  /** Blocks of different submits that overlap pass it. */
  lemma FlatCheckTooWeak()
    ensures exists added :: SanityHolds(StableSort(added, false)) && !Ordered(StableSort(added, false), false)
  {
    var a, b := MemoryBlock(0, 0, [0, 0], 0), MemoryBlock(1, 1, [0], 1);
    var added := [a, b];
    assert SortTo(added, 0, false) == [] && SortTo(added, 1, false) == [a] && SortTo(added, 2, false) == [a, b];
    assert !Apart(added[0], added[1]);
    FlatOrderedIff(added);
  }

  /** Dropping blocks never drops an address. */
  lemma FinalizeKeepsCoverage(added: seq<MemoryBlock>, submit: nat, a: int)
    requires AllWellPlaced(added) && DisjointOrSameStart(added)
    ensures Captured(Compacted(added), true, submit, a) <==> Captured(added, true, submit, a)
  {
    FinalizeKeepsLastLargest(added);
    var kept := Compacted(added);
    if Captured(kept, true, submit, a) {
      SameCoverage(kept, added, true, submit, a);
    }
    if Captured(added, true, submit, a) {
      var i :| 0 <= i < |added| && Holds(added[i], true, submit, a);
      assert Represented(added[i], kept);
      var j :| 0 <= j < |kept| && Equivalent(added[i], kept[j], true);
      GroupMembers(added, |added|, kept[j], true);
      assert added[i] in Group(added, kept[j], true);
      assert kept[j] in kept;
      assert Holds(kept[j], true, submit, a);
    }
  }

  // ---------- what is read off the order ----------

  /** With submits the blocks come by submit and then by address, without by address alone, and those that
      are alike in this come in the order they were added. */
  lemma SortedBySubmit(s: seq<MemoryBlock>, same: bool, i: nat, j: nat)
    requires Sorted(s, same) && i < j < |s|
    ensures same ==> s[i].submitIndex <= s[j].submitIndex
    ensures same && s[i].submitIndex == s[j].submitIndex ==> s[i].vaAddr <= s[j].vaAddr
    ensures !same ==> s[i].vaAddr <= s[j].vaAddr
  {
    assert !Less(s[j], s[i], same);
  }

  lemma EquivalentIff(x: MemoryBlock, y: MemoryBlock, same: bool)
    ensures Equivalent(x, y, same) <==> x.vaAddr == y.vaAddr && (same ==> x.submitIndex == y.submitIndex)
  {
  }

  /** Memory that was captured for another submit is there exactly if submits do not matter. */
  lemma CapturedIff(blocks: seq<MemoryBlock>, same: bool, submit: nat, a: int)
    ensures Captured(blocks, same, submit, a) <==>
      exists i :: 0 <= i < |blocks| && (same ==> blocks[i].submitIndex == submit) &&
        blocks[i].vaAddr <= a < blocks[i].vaAddr + |blocks[i].data|
  {
    if exists i :: 0 <= i < |blocks| && (same ==> blocks[i].submitIndex == submit) &&
         blocks[i].vaAddr <= a < blocks[i].vaAddr + |blocks[i].data| {
      var i :| 0 <= i < |blocks| && (same ==> blocks[i].submitIndex == submit) &&
        blocks[i].vaAddr <= a < blocks[i].vaAddr + |blocks[i].data|;
      assert Holds(blocks[i], same, submit, a);
    }
  }
}
