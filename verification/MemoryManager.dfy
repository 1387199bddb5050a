/** MemoryManager: loading, finalizing and querying the captured memory. */
module MemoryManagement {
  import opened Wrappers
  import opened MemoryBlocks

  const MAX_BLOCKS: nat := 0x1_0000_0000

  ghost function Range(lo: int, hi: int): (r: set<int>)
    ensures forall k :: k in r <==> lo <= k < hi
    ensures lo <= hi ==> |r| == hi - lo
    decreases hi - lo
  {
    if hi <= lo then {} else Range(lo, hi - 1) + {hi - 1}
  }

  /** A set of addresses inside [va, va + size) is all of it exactly when it has size elements. */
  lemma FullRange(s: set<int>, va: int, size: nat)
    requires s <= Range(va, va + size)
    ensures |s| <= size
    ensures |s| == size <==> s == Range(va, va + size)
  {
    var rest := Range(va, va + size) - s;
    assert Range(va, va + size) == s + rest;
    assert |Range(va, va + size)| == |s| + |rest|;
  }

  /** Some block at index i or later holds address a. */
  ghost predicate HeldFrom(blocks: seq<MemoryBlock>, same: bool, submit: nat, i: int, a: int) {
    exists j {:trigger Holds(blocks[j], same, submit, a)} :: 0 <= i <= j < |blocks| && Holds(blocks[j], same, submit, a)
  }

  /** What the load must guarantee for queries to be meaningful. */
  ghost predicate Acceptable(added: seq<MemoryBlock>, same: bool) {
    && AllFit(added)
    && |added| < MAX_BLOCKS
    && (if same then Mergeable(added) else PairwiseApart(added, |added|))
  }

  /** The index after Finalize, and the buffers it gives back. */
  ghost function Finalized(added: seq<MemoryBlock>, same: bool): seq<MemoryBlock> {
    if same then Compacted(added) else StableSort(added, false)
  }

  ghost function Discarded(added: seq<MemoryBlock>, same: bool): multiset<nat> {
    if same then Compact(StableSort(added, true)).freed else multiset{}
  }

  /** What the callback of GetMemoryOfUnknownSizeViaCallback is handed. */
  datatype Chunk = Chunk(addr: nat, bytes: seq<byte>)

  function TotalLength(chunks: seq<Chunk>): nat {
    if chunks == [] then 0 else TotalLength(chunks[..|chunks| - 1]) + |chunks[|chunks| - 1].bytes|
  }

  /** First address after the chunks. */
  function ChunksEnd(chunks: seq<Chunk>, va: nat): nat {
    if chunks == [] then va else chunks[|chunks| - 1].addr + |chunks[|chunks| - 1].bytes|
  }

  predicate Follows(c: Chunk, d: Chunk) {
    d.addr == c.addr + |c.bytes|
  }

  /** The chunks start at va and each one starts where the one before it stops. */
  ghost predicate Adjacent(chunks: seq<Chunk>, va: nat) {
    && (chunks != [] ==> chunks[0].addr == va)
    && forall i, j {:trigger Follows(chunks[i], chunks[j])} :: 0 <= i < j < |chunks| && j == i + 1 ==>
         Follows(chunks[i], chunks[j])
  }

  /** Adjacent chunks reach as far as their lengths add up. */
  lemma {:induction false} AdjacentReach(chunks: seq<Chunk>, va: nat)
    requires Adjacent(chunks, va)
    ensures ChunksEnd(chunks, va) == va + TotalLength(chunks)
  {
    if |chunks| > 1 {
      var rest := chunks[..|chunks| - 1];
      forall i, j | 0 <= i < j < |rest| && j == i + 1
        ensures Follows(rest[i], rest[j])
      {
        assert Follows(chunks[i], chunks[j]);
      }
      AdjacentReach(rest, va);
      assert Follows(chunks[|chunks| - 2], chunks[|chunks| - 1]);
    } else if |chunks| == 1 {
      assert TotalLength(chunks[..0]) == 0;
    }
  }

  /** Chunk c hands out exactly what the byte map holds there. */
  ghost predicate IsCaptured(c: Chunk, blocks: seq<MemoryBlock>, same: bool, submit: nat) {
    forall a :: c.addr <= a < c.addr + |c.bytes| ==>
      Captured(blocks, same, submit, a) && c.bytes[a - c.addr] == ByteAt(blocks, same, submit, a)
  }

  ghost predicate ByteMapChunks(chunks: seq<Chunk>, blocks: seq<MemoryBlock>, same: bool, submit: nat) {
    forall c :: c in chunks ==> IsCaptured(c, blocks, same, submit)
  }

  /** The callback wanted more after every chunk but possibly the last. */
  ghost predicate AcceptedBefore(chunks: seq<Chunk>, accept: seq<Chunk> -> bool) {
    forall j {:trigger chunks[..j]} :: 0 < j < |chunks| ==> accept(chunks[..j])
  }

  /** n is the greatest length such that all of [va, va + n) is captured. */
  ghost predicate IsMaxRun(blocks: seq<MemoryBlock>, same: bool, submit: nat, va: nat, n: nat) {
    AllCaptured(blocks, same, submit, va, n) && !Captured(blocks, same, submit, va + n)
  }

  /** The first size bytes of the buffer are the captured ones, where captured; the rest is untouched. */
  ghost predicate Answered(buffer: seq<byte>, before: seq<byte>, bytes: imap<int, byte>, va: nat, size: nat) {
    && |buffer| == |before|
    && forall a :: va <= a < va + |buffer| ==>
         buffer[a - va] == if a < va + size && a in bytes then bytes[a] else before[a - va]
  }

  /** buffer with piece copied over it at offset dst. */
  function Spliced(buffer: seq<byte>, dst: nat, piece: seq<byte>): seq<byte>
    requires dst + |piece| <= |buffer|
  {
    buffer[..dst] + piece + buffer[dst + |piece|..]
  }

  class MemoryManager {
    var blocks: seq<MemoryBlock>
    var sameSubmitOnly: bool
    var lastUsed: Option<nat>      // index of the block used by the previous retrieval
    ghost var freed: multiset<nat> // buffers given back

    ghost predicate Valid()
      reads this
    {
      && AllFit(blocks)
      && Ordered(blocks, sameSubmitOnly)
      && |blocks| < MAX_BLOCKS
      && (lastUsed.Some? ==> lastUsed.value < |blocks|)
    }

    constructor ()
      ensures blocks == [] && sameSubmitOnly && lastUsed == None && freed == multiset{}
    {
      blocks := [];
      sameSubmitOnly := true;
      lastUsed := None;
      freed := multiset{};
    }

    method AddMemoryBlock(submit: nat, va: nat, data: seq<byte>, ptr: nat)
      modifies this`blocks
      ensures blocks == old(blocks) + [MemoryBlock(va, submit, data, ptr)]
    {
      blocks := blocks + [MemoryBlock(va, submit, data, ptr)];
    }

    method Finalize(same: bool)
      requires lastUsed == None
      modifies this
      ensures sameSubmitOnly == same && lastUsed == None
      ensures blocks == Finalized(old(blocks), same)
      ensures freed == old(freed) + Discarded(old(blocks), same)
      ensures Acceptable(old(blocks), same) ==> Valid()
    {
      ghost var added := blocks;
      sameSubmitOnly := same;
      blocks := StableSort(blocks, same);
      if sameSubmitOnly {
        ghost var gone;
        blocks, gone := DropOverlaps(blocks);
        freed := freed + gone;
      }
      if Acceptable(added, same) {
        FinalizedIsValid(added, same);
      }
    }

    /** The loop of Finalize: later captures of the same address replace earlier, smaller ones. */
    static method DropOverlaps(blocks: seq<MemoryBlock>) returns (temp: seq<MemoryBlock>, ghost gone: multiset<nat>)
      ensures temp == Compact(blocks).kept && gone == Compact(blocks).freed
    {
      temp, gone := [], multiset{};
      var prevAddr: nat, prevSubmit: nat, prevSize: nat := 0, 0, 0;
      for i := 0 to |blocks|
        invariant CompactTo(blocks, i) == Pass(temp, gone, prevAddr, prevSubmit, prevSize)
        invariant temp == [] ==> i == 0
      {
        var block := blocks[i];
        if block.submitIndex != prevSubmit {
          prevSubmit := block.submitIndex;
          temp := temp + [block];
        } else if block.vaAddr >= Add64(prevAddr, prevSize) {
          temp := temp + [block];
        } else {
          var back := temp[|temp| - 1];
          if |block.data| >= |back.data| {
            gone := gone + multiset{back.dataPtr};
            temp := temp[..|temp| - 1] + [block];
          } else {
            gone := gone + multiset{block.dataPtr};
          }
        }
        prevAddr := block.vaAddr;
        prevSize := |block.data|;
      }
    }

    /** Copies [va, va + size) into the buffer. For size > 0 the answer and the bytes depend on the byte
        map alone, whatever the cached block. */
    method RetrieveMemoryData(buffer: array<byte>, submit: nat, va: nat, size: nat) returns (ok: bool)
      requires Valid() && size <= buffer.Length && va + size < TWO_64
      modifies this`lastUsed, buffer
      ensures Valid()
      ensures size > 0 ==> (ok <==> AllCaptured(blocks, sameSubmitOnly, submit, va, size))
      ensures Answered(buffer[..], old(buffer[..]), ByteMap(blocks, sameSubmitOnly, submit), va, size)
      ensures size == 0 ==> (ok <==> ZeroSizeAnswer(blocks, sameSubmitOnly, old(lastUsed), submit, va))
    {
      if lastUsed.Some? {
        var block := blocks[lastUsed.value];
        var blockEnd, end := Add64(block.vaAddr, |block.data|), Add64(va, size);
        assert FitsInMemory(block);
        var validSubmit := if sameSubmitOnly then submit == block.submitIndex else true;
        var encompasses := block.vaAddr <= va && end <= blockEnd;
        if validSubmit && encompasses {
          forall k | va <= k < va + size
            ensures Captured(blocks, sameSubmitOnly, submit, k)
            ensures ByteAt(blocks, sameSubmitOnly, submit, k) == block.data[k - block.vaAddr]
          {
            ByteAtIs(blocks, sameSubmitOnly, submit, k, lastUsed.value);
          }
          forall k | 0 <= k < size {
            buffer[k] := block.data[va - block.vaAddr + k];
          }
          return true;
        }
      }
      ok := ScanBlocks(buffer, submit, va, size);
    }

    /** The backwards scan that copies every overlapping piece. */
    method ScanBlocks(buffer: array<byte>, submit: nat, va: nat, size: nat) returns (ok: bool)
      requires Valid() && size <= buffer.Length && va + size < TWO_64
      modifies this`lastUsed, buffer
      ensures Valid()
      ensures size > 0 ==> (ok <==> AllCaptured(blocks, sameSubmitOnly, submit, va, size))
      ensures Answered(buffer[..], old(buffer[..]), ByteMap(blocks, sameSubmitOnly, submit), va, size)
      ensures size == 0 ==> (ok <==> Straddled(blocks, sameSubmitOnly, submit, va))
    {
      hide Written, Scanned, AllCaptured, Answered;
      var blocks, same := this.blocks, sameSubmitOnly;
      var amountCopied := 0;
      ghost var done: set<int> := {};
      ghost var before, bytes := buffer[..], ByteMap(blocks, same, submit);
      var i := |blocks| - 1;
      ScanStart(before, blocks, same, submit, va, size);
      while i != -1
        invariant -1 <= i < |blocks| && this.blocks == blocks && sameSubmitOnly == same
        invariant lastUsed.Some? ==> lastUsed.value < |blocks|
        invariant amountCopied == |done| && (size > 0 ==> amountCopied < size)
        invariant size == 0 ==> NoneStraddles(blocks, same, submit, va, i + 1)
        invariant Scanned(blocks, same, submit, va, size, i + 1, done)
        invariant Written(buffer[..], before, bytes, va, done)
      {
        var block := blocks[i];
        var blockEnd, end := Add64(block.vaAddr, |block.data|), Add64(va, size);
        assert FitsInMemory(block);
        var validSubmit := if same then submit == block.submitIndex else true;
        var overlaps := va < blockEnd && block.vaAddr < end;
        if validSubmit && overlaps {
          lastUsed := Some(i);
          var n;
          n, done := CopyOverlap(buffer, blocks, same, submit, va, size, i, before, bytes, done);
          amountCopied := amountCopied + n;
          if amountCopied == size {
            AllWritten(buffer[..], before, blocks, same, submit, va, size, i, done);
            assert size == 0 ==> StrictlyInside(block, same, submit, va);
            return true;
          }
        } else {
          NothingNew(blocks, same, submit, va, size, i, done);
        }
        assert size == 0 ==> !StrictlyInside(block, same, submit, va);
        i := i - 1;
      }
      ScanEnd(buffer[..], before, blocks, same, submit, va, size, done);
      return false;
    }

    /** Copies the part of block i that the request overlaps. */
    static method CopyOverlap(buffer: array<byte>, blocks: seq<MemoryBlock>, same: bool, submit: nat, va: nat,
                              size: nat, i: nat, ghost before: seq<byte>, ghost bytes: imap<int, byte>,
                              ghost done: set<int>)
      returns (n: nat, ghost done': set<int>)
      requires AllFit(blocks) && Ordered(blocks, same) && size <= buffer.Length && va + size < TWO_64
      requires i < |blocks| && InView(blocks[i], same, submit) && va < Limit(blocks[i]) && blocks[i].vaAddr < va + size
      requires bytes == ByteMap(blocks, same, submit) && Scanned(blocks, same, submit, va, size, i + 1, done)
      requires Written(buffer[..], before, bytes, va, done)
      modifies buffer
      ensures |done'| == |done| + n <= size
      ensures Scanned(blocks, same, submit, va, size, i, done')
      ensures Written(buffer[..], before, bytes, va, done')
    {
      var block := blocks[i];
      assert FitsInMemory(block);
      var blockEnd, end := Add64(block.vaAddr, |block.data|), Add64(va, size);
      var maxStart := if va < block.vaAddr then block.vaAddr else va;
      var minEnd := if end < blockEnd then end else blockEnd;
      var src, dst := maxStart - block.vaAddr, maxStart - va;
      n := minEnd - maxStart;
      ghost var soFar := buffer[..];
      CopyPiece(buffer, dst, block.data[src..src + n]);
      done' := NewPiece(blocks, same, submit, va, size, i, done, va + dst, n);
      OverlapWrites(buffer[..], soFar, before, bytes, blocks, same, submit, va, i, done, done', dst, src, n);
    }

    static method CopyPiece(buffer: array<byte>, dst: nat, piece: seq<byte>)
      requires dst + |piece| <= buffer.Length
      modifies buffer
      ensures buffer[..] == Spliced(old(buffer[..]), dst, piece)
    {
      forall k | dst <= k < dst + |piece| {
        buffer[k] := piece[k - dst];
      }
    }

    method GetMaxContiguousSize(submit: nat, va: nat) returns (n: nat)
      requires Valid()
      ensures IsMaxRun(blocks, sameSubmitOnly, submit, va, n)
    {
      var blocks, same := this.blocks, sameSubmitOnly;
      var cur: nat := va;
      ghost var last: nat := 0;
      for i := 0 to |blocks|
        invariant Walked(blocks, same, submit, va, i, cur, last)
      {
        var block := blocks[i];
        var validSubmit := if same then submit == block.submitIndex else true;
        assert FitsInMemory(block);
        if validSubmit {
          if cur == va {
            var blockEnd := Add64(block.vaAddr, |block.data|);
            if block.vaAddr <= va && va < blockEnd {
              WalkOn(blocks, same, submit, va, i, cur, last);
              cur, last := blockEnd, i;
            } else {
              WalkPast(blocks, same, submit, va, i, cur, last);
            }
          } else if cur == block.vaAddr {
            WalkOn(blocks, same, submit, va, i, cur, last);
            cur, last := Add64(block.vaAddr, |block.data|), i;
          } else {
            GapAt(blocks, same, submit, va, i, cur, last);
            return cur - va;
          }
        } else {
          WalkPast(blocks, same, submit, va, i, cur, last);
        }
      }
      return cur - va;
    }

    method IsValid(submit: nat, addr: nat, size: nat) returns (r: bool)
      requires Valid()
      ensures r <==> AllCaptured(blocks, sameSubmitOnly, submit, addr, size)
    {
      var maxSize := GetMaxContiguousSize(submit, addr);
      return maxSize >= size;
    }

    /** accept is the callback: whether it wants more after the chunks it has seen. */
    method GetMemoryOfUnknownSizeViaCallback(submit: nat, va: nat, accept: seq<Chunk> -> bool)
      returns (r: bool, chunks: seq<Chunk>)
      requires Valid()
      ensures r
      ensures Adjacent(chunks, va) && ByteMapChunks(chunks, blocks, sameSubmitOnly, submit)
      // They stop right after a refused chunk, and otherwise where captured memory stops.
      ensures AcceptedBefore(chunks, accept)
      ensures chunks == [] || accept(chunks) ==> IsMaxRun(blocks, sameSubmitOnly, submit, va, TotalLength(chunks))
    {
      var blocks, same := this.blocks, sameSubmitOnly;
      chunks := [];
      var cur: nat := va;
      ghost var last: nat := 0;
      for i := 0 to |blocks|
        invariant Walked(blocks, same, submit, va, i, cur, last)
        invariant HandedOut(chunks, va, cur, accept, blocks, same, submit)
      {
        var block := blocks[i];
        var validSubmit := if same then submit == block.submitIndex else true;
        assert FitsInMemory(block);
        if validSubmit {
          if cur == va {
            var blockEnd := Add64(block.vaAddr, |block.data|);
            if block.vaAddr <= va && va < blockEnd {
              var chunk := Chunk(va, block.data[va - block.vaAddr..]);
              HandOver(chunks, va, cur, accept, blocks, same, submit, i, chunk);
              chunks := chunks + [chunk];
              if !accept(chunks) {
                break;
              }
              WalkOn(blocks, same, submit, va, i, cur, last);
              cur, last := blockEnd, i;
            } else {
              WalkPast(blocks, same, submit, va, i, cur, last);
            }
          } else if cur == block.vaAddr {
            var chunk := Chunk(cur, block.data);
            HandOver(chunks, va, cur, accept, blocks, same, submit, i, chunk);
            chunks := chunks + [chunk];
            if !accept(chunks) {
              break;
            }
            WalkOn(blocks, same, submit, va, i, cur, last);
            cur, last := Add64(block.vaAddr, |block.data|), i;
          } else {
            GapAt(blocks, same, submit, va, i, cur, last);
            break;
          }
        } else {
          WalkPast(blocks, same, submit, va, i, cur, last);
        }
      }
      AdjacentReach(chunks, va);
      return true, chunks;
    }
  }

  // ---------- lemmas about the index ----------

  lemma FinalizeConserves(added: seq<MemoryBlock>, same: bool)
    ensures Buffers(Finalized(added, same)) + Discarded(added, same) == Buffers(added)
  {
    SortKeepsBuffers(added, same);
    if same {
      EveryBufferKeptOrFreed(StableSort(added, true));
    }
  }

  /** Acceptable input gives an ordered and disjoint index. */
  lemma FinalizedIsValid(added: seq<MemoryBlock>, same: bool)
    requires Acceptable(added, same)
    ensures AllFit(Finalized(added, same)) && Ordered(Finalized(added, same), same)
    ensures |Finalized(added, same)| < MAX_BLOCKS
  {
    hide StableSort, Mergeable, AllFit, Ordered, CompactTo;
    SortKeepsElements(added, same);
    FitElements(added, StableSort(added, same));
    if same {
      FinalizeOrderedIff(added);
      CompactKeepsSome(StableSort(added, true), |added|);
      FitElements(StableSort(added, true), Compacted(added));
    } else {
      FlatOrderedIff(added);
    }
  }

  lemma VisitKeepsAtMostOneMore(p: Pass, b: MemoryBlock)
    requires p.kept == [] ==> p.prevAddr == p.prevSize == 0
    ensures |Visit(p, b).kept| <= |p.kept| + 1 && forall x :: x in Visit(p, b).kept ==> x in p.kept || x == b
  {
  }

  lemma {:induction false} CompactKeepsSome(s: seq<MemoryBlock>, n: nat)
    requires n <= |s|
    ensures |CompactTo(s, n).kept| <= n && forall x :: x in CompactTo(s, n).kept ==> x in s
  {
    hide Visit;
    if n > 0 {
      CompactKeepsSome(s, n - 1);
      VisitKeepsAtMostOneMore(CompactTo(s, n - 1), s[n - 1]);
    }
  }

  lemma HeldFromStep(blocks: seq<MemoryBlock>, same: bool, submit: nat, i: nat)
    requires i < |blocks|
    ensures forall k :: HeldFrom(blocks, same, submit, i, k) <==>
      Holds(blocks[i], same, submit, k) || HeldFrom(blocks, same, submit, i + 1, k)
  {
    forall k
      ensures HeldFrom(blocks, same, submit, i, k) <==>
        Holds(blocks[i], same, submit, k) || HeldFrom(blocks, same, submit, i + 1, k)
    {
      if HeldFrom(blocks, same, submit, i, k) {
        var j :| i <= j < |blocks| && Holds(blocks[j], same, submit, k);
        assert j == i || HeldFrom(blocks, same, submit, i + 1, k);
      }
    }
  }

  lemma OneHolder(blocks: seq<MemoryBlock>, same: bool, submit: nat, i: nat, a: int)
    requires Ordered(blocks, same) && i < |blocks| && Holds(blocks[i], same, submit, a)
    ensures !HeldFrom(blocks, same, submit, i + 1, a)
  {
    forall j | i < j < |blocks|
      ensures !Holds(blocks[j], same, submit, a)
    {
      assert Share(blocks[i], blocks[j], same) || !InView(blocks[j], same, submit);
    }
  }

  /** State of the two contiguity walks before block i: all of [va, cur) is captured; until a block
      holds va, cur stays there; afterwards cur is the end of block last, and no earlier block in view
      ends later. */
  ghost predicate Walked(blocks: seq<MemoryBlock>, same: bool, submit: nat, va: nat, i: nat, cur: nat, last: nat) {
    && va <= cur && i <= |blocks| && AllCaptured(blocks, same, submit, va, cur - va)
    && (cur == va ==> forall j :: 0 <= j < i ==> !Holds(blocks[j], same, submit, va))
    && (cur > va ==>
          && last < i && InView(blocks[last], same, submit) && Limit(blocks[last]) == cur
          && forall j :: 0 <= j < i && InView(blocks[j], same, submit) ==> Limit(blocks[j]) <= cur)
  }

  lemma WalkOn(blocks: seq<MemoryBlock>, same: bool, submit: nat, va: nat, i: nat, cur: nat, last: nat)
    requires Walked(blocks, same, submit, va, i, cur, last) && Ordered(blocks, same) && AllFit(blocks)
    requires i < |blocks| && InView(blocks[i], same, submit)
    requires if cur == va then blocks[i].vaAddr <= va < Limit(blocks[i]) else blocks[i].vaAddr == cur
    ensures Walked(blocks, same, submit, va, i + 1, Limit(blocks[i]), i)
  {
    var end := Limit(blocks[i]);
    assert FitsInMemory(blocks[i]);
    forall k | va <= k < end
      ensures Captured(blocks, same, submit, k)
    {
      if k >= cur {
        assert Holds(blocks[i], same, submit, k);
      }
    }
    forall j | 0 <= j < i && InView(blocks[j], same, submit)
      ensures Limit(blocks[j]) <= end
    {
      assert Share(blocks[j], blocks[i], same);
    }
  }

  lemma WalkPast(blocks: seq<MemoryBlock>, same: bool, submit: nat, va: nat, i: nat, cur: nat, last: nat)
    requires Walked(blocks, same, submit, va, i, cur, last) && i < |blocks|
    requires !InView(blocks[i], same, submit) || (cur == va && !Holds(blocks[i], same, submit, va))
    ensures Walked(blocks, same, submit, va, i + 1, cur, last)
  {
  }

  /** cur ends block last, and the next block in view starts elsewhere: nothing holds cur. */
  lemma GapAt(blocks: seq<MemoryBlock>, same: bool, submit: nat, va: nat, i: nat, cur: nat, last: nat)
    requires Walked(blocks, same, submit, va, i, cur, last) && Ordered(blocks, same) && AllFit(blocks)
    requires i < |blocks| && InView(blocks[i], same, submit) && cur > va && blocks[i].vaAddr != cur
    ensures !Captured(blocks, same, submit, cur)
  {
    assert Share(blocks[last], blocks[i], same);
    assert FitsInMemory(blocks[i]);
    forall j | i < j < |blocks| && InView(blocks[j], same, submit)
      ensures blocks[j].vaAddr > cur
    {
      assert Share(blocks[i], blocks[j], same);
    }
  }

  /** The chunks cover [va, cur), and the callback wanted more after each of them. */
  ghost predicate HandedOut(chunks: seq<Chunk>, va: nat, cur: nat, accept: seq<Chunk> -> bool,
                            blocks: seq<MemoryBlock>, same: bool, submit: nat)
  {
    && va <= cur == ChunksEnd(chunks, va) && (cur == va <==> chunks == [])
    && Adjacent(chunks, va) && ByteMapChunks(chunks, blocks, same, submit)
    && AcceptedBefore(chunks, accept) && (chunks == [] || accept(chunks))
  }

  lemma HandOver(chunks: seq<Chunk>, va: nat, cur: nat, accept: seq<Chunk> -> bool,
                 blocks: seq<MemoryBlock>, same: bool, submit: nat, i: nat, c: Chunk)
    requires HandedOut(chunks, va, cur, accept, blocks, same, submit)
    requires Ordered(blocks, same) && i < |blocks| && InView(blocks[i], same, submit)
    requires blocks[i].vaAddr <= cur <= Limit(blocks[i]) && (cur == va ==> cur < Limit(blocks[i]))
      && c == Chunk(cur, blocks[i].data[cur - blocks[i].vaAddr..])
    ensures Adjacent(chunks + [c], va) && ByteMapChunks(chunks + [c], blocks, same, submit)
    ensures AcceptedBefore(chunks + [c], accept)
    ensures accept(chunks + [c]) ==> HandedOut(chunks + [c], va, Limit(blocks[i]), accept, blocks, same, submit)
  {
    var r := chunks + [c];
    forall j | 0 < j <= |chunks|
      ensures accept(r[..j])
    {
      assert r[..j] == chunks[..j];
      assert chunks[..|chunks|] == chunks;
    }
    forall i, j | 0 <= i < j < |r| && j == i + 1
      ensures Follows(r[i], r[j])
    {
      assert j < |chunks| ==> Follows(chunks[i], chunks[j]);
    }
    ChunkIsByteMap(blocks, same, submit, i, c);
  }

  lemma ChunkIsByteMap(blocks: seq<MemoryBlock>, same: bool, submit: nat, i: nat, c: Chunk)
    requires Ordered(blocks, same) && i < |blocks| && InView(blocks[i], same, submit)
    requires blocks[i].vaAddr <= c.addr <= Limit(blocks[i]) && c.bytes == blocks[i].data[c.addr - blocks[i].vaAddr..]
    ensures IsCaptured(c, blocks, same, submit)
  {
    forall a | c.addr <= a < c.addr + |c.bytes|
      ensures Captured(blocks, same, submit, a) && c.bytes[a - c.addr] == ByteAt(blocks, same, submit, a)
    {
      ByteAtIs(blocks, same, submit, a, i);
    }
  }

  /** done is the set of requested addresses held by block i or a later one. */
  ghost predicate Scanned(blocks: seq<MemoryBlock>, same: bool, submit: nat, va: nat, size: nat, i: nat,
                          done: set<int>) {
    forall k :: k in done <==> va <= k < va + size && HeldFrom(blocks, same, submit, i, k)
  }

  lemma NothingNew(blocks: seq<MemoryBlock>, same: bool, submit: nat, va: nat, size: nat, i: nat, done: set<int>)
    requires i < |blocks| && Scanned(blocks, same, submit, va, size, i + 1, done)
    requires !(InView(blocks[i], same, submit) && va < Limit(blocks[i]) && blocks[i].vaAddr < va + size)
    ensures Scanned(blocks, same, submit, va, size, i, done)
  {
    HeldFromStep(blocks, same, submit, i);
  }

  /** done' is done and the n addresses from lo. */
  ghost predicate Extends(done': set<int>, done: set<int>, lo: int, n: nat) {
    forall k :: k in done' <==> k in done || lo <= k < lo + n
  }

  /** The piece of block i inside the request is new to a scan that has seen the later blocks. */
  lemma NewPiece(blocks: seq<MemoryBlock>, same: bool, submit: nat, va: nat, size: nat, i: nat, done: set<int>, lo: nat,
                 n: nat)
    returns (done': set<int>)
    requires Ordered(blocks, same) && i < |blocks| && InView(blocks[i], same, submit)
    requires Scanned(blocks, same, submit, va, size, i + 1, done)
    requires lo == if va < blocks[i].vaAddr then blocks[i].vaAddr else va
    requires lo + n == if va + size < Limit(blocks[i]) then va + size else Limit(blocks[i])
    ensures |done'| == |done| + n
    ensures |done'| <= size
    ensures Extends(done', done, lo, n)
    ensures Scanned(blocks, same, submit, va, size, i, done')
  {
    done' := done + Range(lo, lo + n);
    PieceIsNew(blocks, same, submit, va, size, i, done, lo, n);
    ScanStep(blocks, same, submit, va, size, i, done, done', lo, n);
    ScannedInside(blocks, same, submit, va, size, i, done');
  }

  lemma ScanStep(blocks: seq<MemoryBlock>, same: bool, submit: nat, va: nat, size: nat, i: nat, done: set<int>,
                 done': set<int>, lo: nat, n: nat)
    requires i < |blocks| && InView(blocks[i], same, submit) && Extends(done', done, lo, n)
    requires Scanned(blocks, same, submit, va, size, i + 1, done)
    requires lo == if va < blocks[i].vaAddr then blocks[i].vaAddr else va
    requires lo + n == if va + size < Limit(blocks[i]) then va + size else Limit(blocks[i])
    ensures Scanned(blocks, same, submit, va, size, i, done')
  {
    HeldFromStep(blocks, same, submit, i);
  }

  lemma ScannedInside(blocks: seq<MemoryBlock>, same: bool, submit: nat, va: nat, size: nat, i: nat, done: set<int>)
    requires Scanned(blocks, same, submit, va, size, i, done)
    ensures |done| <= size
    ensures |done| == size <==> done == Range(va, va + size)
  {
    FullRange(done, va, size);
  }

  lemma PieceIsNew(blocks: seq<MemoryBlock>, same: bool, submit: nat, va: nat, size: nat, i: nat, done: set<int>,
                   lo: nat, n: nat)
    requires Ordered(blocks, same) && i < |blocks| && InView(blocks[i], same, submit)
    requires Scanned(blocks, same, submit, va, size, i + 1, done)
    requires blocks[i].vaAddr <= lo && lo + n <= Limit(blocks[i])
    ensures |done + Range(lo, lo + n)| == |done| + n
  {
    forall k | k in Range(lo, lo + n)
      ensures k !in done
    {
      OneHolder(blocks, same, submit, i, k);
    }
    assert done * Range(lo, lo + n) == {};
  }

  /** The buffer holds the byte map at the addresses in done and is as before elsewhere. */
  ghost predicate Written(buffer: seq<byte>, before: seq<byte>, bytes: imap<int, byte>, va: nat, done: set<int>) {
    && |buffer| == |before|
    && (forall a :: a in done ==> a in bytes)
    && forall a :: va <= a < va + |buffer| ==> buffer[a - va] == if a in done then bytes[a] else before[a - va]
  }

  lemma PieceBytes(blocks: seq<MemoryBlock>, same: bool, submit: nat, i: nat, src: nat, lo: nat, piece: seq<byte>,
                   bytes: imap<int, byte>)
    requires Ordered(blocks, same) && i < |blocks| && InView(blocks[i], same, submit)
    requires lo == blocks[i].vaAddr + src && src + |piece| <= |blocks[i].data|
    requires piece == blocks[i].data[src..src + |piece|] && bytes == ByteMap(blocks, same, submit)
    ensures forall a :: lo <= a < lo + |piece| ==> (a in bytes && bytes[a] == piece[a - lo])
  {
    forall a | lo <= a < lo + |piece|
      ensures Captured(blocks, same, submit, a) && ByteAt(blocks, same, submit, a) == piece[a - lo]
    {
      ByteAtIs(blocks, same, submit, a, i);
    }
  }

  lemma WritePiece(buffer: seq<byte>, soFar: seq<byte>, before: seq<byte>, bytes: imap<int, byte>, va: nat,
                   done: set<int>, done': set<int>, dst: nat, piece: seq<byte>)
    requires Written(soFar, before, bytes, va, done) && dst + |piece| <= |soFar| && buffer == Spliced(soFar, dst, piece)
    requires Extends(done', done, va + dst, |piece|)
    requires forall a :: va + dst <= a < va + dst + |piece| ==> (a in bytes && bytes[a] == piece[a - (va + dst)])
    ensures Written(buffer, before, bytes, va, done')
  {
    forall a | va <= a < va + |buffer|
      ensures buffer[a - va] == if a in done' then bytes[a] else before[a - va]
    {
      if va + dst <= a < va + dst + |piece| {
        assert buffer[a - va] == piece[a - (va + dst)];
      } else {
        assert buffer[a - va] == soFar[a - va];
      }
    }
  }

  lemma OverlapWrites(buffer: seq<byte>, soFar: seq<byte>, before: seq<byte>, bytes: imap<int, byte>,
                      blocks: seq<MemoryBlock>, same: bool, submit: nat, va: nat, i: nat, done: set<int>,
                      done': set<int>, dst: nat, src: nat, n: nat)
    requires Ordered(blocks, same) && i < |blocks| && InView(blocks[i], same, submit) && dst + n <= |soFar|
    requires bytes == ByteMap(blocks, same, submit) && Written(soFar, before, bytes, va, done)
    requires va + dst == blocks[i].vaAddr + src && src + n <= |blocks[i].data|
    requires buffer == Spliced(soFar, dst, blocks[i].data[src..src + n]) && Extends(done', done, va + dst, n)
    ensures Written(buffer, before, bytes, va, done')
  {
    var piece := blocks[i].data[src..src + n];
    PieceBytes(blocks, same, submit, i, src, va + dst, piece, bytes);
    WritePiece(buffer, soFar, before, bytes, va, done, done', dst, piece);
  }

  lemma AllWritten(buffer: seq<byte>, before: seq<byte>, blocks: seq<MemoryBlock>, same: bool, submit: nat,
                   va: nat, size: nat, i: nat, done: set<int>)
    requires Scanned(blocks, same, submit, va, size, i, done)
    requires |done| == size && Written(buffer, before, ByteMap(blocks, same, submit), va, done)
    ensures AllCaptured(blocks, same, submit, va, size)
    ensures Answered(buffer, before, ByteMap(blocks, same, submit), va, size)
  {
    FullRange(done, va, size);
    forall k | va <= k < va + size
      ensures Captured(blocks, same, submit, k) && k in done
    {
      assert k in Range(va, va + size);
    }
    forall a | va <= a < va + |buffer|
      ensures a in done <==> a < va + size
    {
    }
  }

  lemma ScanStart(before: seq<byte>, blocks: seq<MemoryBlock>, same: bool, submit: nat, va: nat, size: nat)
    ensures Scanned(blocks, same, submit, va, size, |blocks|, {})
    ensures Written(before, before, ByteMap(blocks, same, submit), va, {})
  {
  }

  lemma HeldIsCaptured(blocks: seq<MemoryBlock>, same: bool, submit: nat, k: int)
    ensures HeldFrom(blocks, same, submit, 0, k) <==> Captured(blocks, same, submit, k)
  {
    if Captured(blocks, same, submit, k) {
      var i :| 0 <= i < |blocks| && Holds(blocks[i], same, submit, k);
      assert HeldFrom(blocks, same, submit, 0, k);
    }
  }

  lemma ScanEnd(buffer: seq<byte>, before: seq<byte>, blocks: seq<MemoryBlock>, same: bool, submit: nat, va: nat,
                size: nat, done: set<int>)
    requires Scanned(blocks, same, submit, va, size, 0, done)
    requires Written(buffer, before, ByteMap(blocks, same, submit), va, done)
    ensures AllCaptured(blocks, same, submit, va, size) ==> |done| == size
    ensures Answered(buffer, before, ByteMap(blocks, same, submit), va, size)
  {
    hide HeldFrom, Captured;
    forall k
      ensures k in done <==> va <= k < va + size && Captured(blocks, same, submit, k)
    {
      HeldIsCaptured(blocks, same, submit, k);
    }
    FullRange(done, va, size);
    if AllCaptured(blocks, same, submit, va, size) {
      assert forall k :: k in Range(va, va + size) ==> k in done;
      assert done == Range(va, va + size);
    }
  }

  // ---------- requests of size 0 ----------

  predicate StrictlyInside(b: MemoryBlock, same: bool, submit: nat, va: nat) {
    InView(b, same, submit) && b.vaAddr < va < Limit(b)
  }

  ghost predicate NoneStraddles(blocks: seq<MemoryBlock>, same: bool, submit: nat, va: nat, i: int) {
    forall j {:trigger StrictlyInside(blocks[j], same, submit, va)} :: 0 <= i <= j < |blocks| ==>
      !StrictlyInside(blocks[j], same, submit, va)
  }

  ghost predicate Straddled(blocks: seq<MemoryBlock>, same: bool, submit: nat, va: nat) {
    exists i :: 0 <= i < |blocks| && StrictlyInside(blocks[i], same, submit, va)
  }

  ghost predicate OnEdge(blocks: seq<MemoryBlock>, same: bool, submit: nat, va: nat) {
    exists i :: 0 <= i < |blocks| && InView(blocks[i], same, submit)
      && (va == blocks[i].vaAddr || va == Limit(blocks[i]))
  }

  /** The answer to a request of size 0: the cached path and the scan test different bounds. */
  ghost predicate ZeroSizeAnswer(blocks: seq<MemoryBlock>, same: bool, cache: Option<nat>, submit: nat, va: nat)
    requires cache.Some? ==> cache.value < |blocks|
  {
    || (cache.Some? && InView(blocks[cache.value], same, submit)
      && blocks[cache.value].vaAddr <= va <= Limit(blocks[cache.value]))
    || Straddled(blocks, same, submit, va)
  }

  /** Exactly when a request of size 0 is answered the same whatever is cached. */
  lemma ZeroSizeIgnoresCacheIff(blocks: seq<MemoryBlock>, same: bool, submit: nat, va: nat)
    ensures (forall c: Option<nat> :: (c.Some? ==> c.value < |blocks|) ==>
               (ZeroSizeAnswer(blocks, same, c, submit, va) <==> ZeroSizeAnswer(blocks, same, None, submit, va)))
       <==> (Straddled(blocks, same, submit, va) || !OnEdge(blocks, same, submit, va))
  {
    if OnEdge(blocks, same, submit, va) {
      var i :| 0 <= i < |blocks| && InView(blocks[i], same, submit)
        && (va == blocks[i].vaAddr || va == Limit(blocks[i]));
      assert ZeroSizeAnswer(blocks, same, Some(i), submit, va);
    } else {
      forall c: Option<nat> | c.Some? && c.value < |blocks| && ZeroSizeAnswer(blocks, same, c, submit, va)
        ensures Straddled(blocks, same, submit, va)
      {
        var b := blocks[c.value];
        assert StrictlyInside(b, same, submit, va) || Straddled(blocks, same, submit, va);
      }
    }
  }

  /** A request of size 0 at the start of the only block succeeds exactly if the block was used last. */
  lemma ZeroSizeUsesCache()
    ensures var blocks := [MemoryBlock(0, 0, [0], 0)];
      AllFit(blocks) && Ordered(blocks, true) &&
      ZeroSizeAnswer(blocks, true, Some(0), 0, 0) && !ZeroSizeAnswer(blocks, true, None, 0, 0)
  {
  }
}
