/** Pm4CaptureData::LoadAdrenoRdFile: memory blocks and submits from the sections of an RD file. */
module RdLoader {
  import opened Wrappers
  import opened MemoryBlocks
  import opened MemoryManagement
  import opened RdSections

  /** The bytes before the first zero byte. */
  function CString(s: string): string {
    if s == [] || s[0] == '\0' then [] else [s[0]] + CString(s[1..])
  }

  predicate IsSystemProcess(name: string)
    requires name != []
  {
    CString(name) == "fdperf" || CString(name) == "chrome" || CString(name) == "surfaceflinger" || name[0] == 'X'
  }

  // ---------- what the sections say ----------

  /** The address and size last announced before section i. */
  function Announced(ss: seq<Section>, i: nat): (nat, nat)
    requires i <= |ss|
  {
    if i == 0 then (UINT64_MAX, UINT32_MAX)
    else if ss[i - 1].GpuAddr? then (ss[i - 1].addr, ss[i - 1].size)
    else Announced(ss, i - 1)
  }

  /** Commands at section i come from a system process. */
  predicate Skips(ss: seq<Section>, i: nat)
    requires i <= |ss|
  {
    i > 0 && if ss[i - 1].Cmd? then ss[i - 1].name != [] && IsSystemProcess(ss[i - 1].name) else Skips(ss, i - 1)
  }

  /** Memory has been announced since the last command stream. */
  predicate Pending(ss: seq<Section>, i: nat)
    requires i <= |ss|
  {
    i > 0 && (ss[i - 1].GpuAddr? || (!ss[i - 1].CmdStreamAddr? && Pending(ss, i - 1)))
  }

  predicate OpensSubmit(ss: seq<Section>, i: nat)
    requires i < |ss|
  {
    ss[i].CmdStreamAddr? && Pending(ss, i)
  }

  /** Submits created by the first n sections. */
  function NumSubmits(ss: seq<Section>, n: nat): nat
    requires n <= |ss|
  {
    if n == 0 then 0 else NumSubmits(ss, n - 1) + if OpensSubmit(ss, n - 1) then 1 else 0
  }

  /** What is wrong with section i. */
  function Failure(ss: seq<Section>, i: nat): LoadResult
    requires i < |ss|
  {
    match ss[i]
    case BufferContents(data) =>
      if |data| != Announced(ss, i).1 then CorruptData else if data == [] then FileIoError else Success
    case Cmd(name) => if name == [] then FileIoError else Success
    case _ => Success
  }

  /** The command streams of the first n sections, in file order. */
  function Streams(ss: seq<Section>, n: nat): seq<Ib>
    requires n <= |ss|
  {
    if n == 0 then [] else Streams(ss, n - 1) + StreamAt(ss, n - 1)
  }

  function StreamAt(ss: seq<Section>, i: nat): seq<Ib>
    requires i < |ss|
  {
    if ss[i].CmdStreamAddr? then [Ib(ss[i].addr, ss[i].size, Skips(ss, i))] else []
  }

  /** Those of one submit. */
  function StreamsOf(ss: seq<Section>, n: nat, submit: nat): seq<Ib>
    requires n <= |ss|
  {
    if n == 0 then [] else StreamsOf(ss, n - 1, submit) + if NumSubmits(ss, n) == submit + 1 then StreamAt(ss, n - 1)
      else []
  }

  /** The memory blocks of the first n sections: each at the address announced last, and for the submit
      that is created next. A block is identified by its section. */
  function Blocks(ss: seq<Section>, n: nat): seq<MemoryBlock>
    requires n <= |ss|
  {
    if n == 0 then []
    else Blocks(ss, n - 1) +
         if ss[n - 1].BufferContents? then
           [MemoryBlock(Announced(ss, n - 1).0, NumSubmits(ss, n - 1), ss[n - 1].data, n - 1)]
         else []
  }

  ghost predicate AllLoad(ss: seq<Section>, n: nat)
    requires n <= |ss|
  {
    forall i {:trigger Failure(ss, i)} :: 0 <= i < n ==> Failure(ss, i) == Success
  }

  /** Where loading stops: at the first section that fails. */
  ghost predicate StopsAt(ss: seq<Section>, n: nat, result: LoadResult)
    requires n <= |ss|
  {
    AllLoad(ss, n) && result == if n < |ss| then Failure(ss, n) else Success
  }

  /** The source asserts that a command stream without announced memory has a submit to join. */
  ghost predicate HasSubmits(ss: seq<Section>, n: nat)
    requires n <= |ss|
  {
    forall i {:trigger OpensSubmit(ss, i)} :: 0 <= i < n && ss[i].CmdStreamAddr? && !OpensSubmit(ss, i) ==>
      NumSubmits(ss, i) > 0
  }

  /** The submits hold the command streams, grouped. */
  ghost predicate SubmitsAre(ss: seq<Section>, n: nat, submits: seq<seq<Ib>>)
    requires n <= |ss|
  {
    |submits| == NumSubmits(ss, n) && forall k :: 0 <= k < |submits| ==> submits[k] == StreamsOf(ss, n, k)
  }

  // ---------- the loader ----------

  class Pm4CaptureData {
    var submits: seq<seq<Ib>>
    const memory: MemoryManager

    constructor ()
      ensures submits == [] && fresh(memory) && memory.blocks == [] && memory.lastUsed == None
        && memory.freed == multiset{}
    {
      submits := [];
      memory := new MemoryManager();
    }

    /** The file says the memory blocks of a submit come before it. */
    method LoadMemoryBlock(addr: nat, size: nat, data: seq<byte>, ptr: nat) returns (ok: bool)
      requires size == |data|
      modifies memory`blocks
      ensures ok == (size > 0)
      ensures memory.blocks == old(memory.blocks) + if ok then [MemoryBlock(addr, |submits|, data, ptr)] else []
    {
      if size == 0 {
        return false;
      }
      memory.AddMemoryBlock(|submits|, addr, data, ptr);
      return true;
    }

    method LoadCmdStream(addr: nat, size: nat, createNewSubmit: bool, skip: bool)
      requires createNewSubmit || submits != []
      modifies this`submits
      ensures submits ==
        if createNewSubmit then old(submits) + [[Ib(addr, size, skip)]]
        else old(submits)[|old(submits)| - 1 := old(submits)[|old(submits)| - 1] + [Ib(addr, size, skip)]]
    {
      var ib := Ib(addr, size, skip);
      if createNewSubmit {
        submits := submits + [[ib]];
      } else {
        var last := |submits| - 1;
        submits := submits[last := submits[last] + [ib]];
      }
    }

    /** Loads sections up to the first that fails. A complete load finalizes the memory index. */
    method LoadAdrenoRdFile(ss: seq<Section>) returns (result: LoadResult, ghost n: nat)
      requires submits == [] && memory.blocks == [] && memory.lastUsed == None
      requires forall k :: 0 <= k <= |ss| && AllLoad(ss, k) ==> HasSubmits(ss, k)
      modifies this`submits, memory
      ensures n <= |ss| && StopsAt(ss, n, result) && (result == Success <==> n == |ss|)
      ensures SubmitsAre(ss, n, submits) && AreStreams(ss, n, submits)
      ensures memory.blocks == if result == Success then Finalized(Blocks(ss, n), true) else Blocks(ss, n)
      ensures memory.freed == old(memory.freed) + if result == Success then Discarded(Blocks(ss, n), true)
        else multiset{}
      ensures memory.lastUsed == None && (result == Success ==> memory.sameSubmitOnly)
      ensures result == Success && Acceptable(Blocks(ss, n), true) ==> memory.Valid()
    {
      hide SubmitsAre, AreStreams, IsSystemProcess, Finalized, Discarded, Acceptable;
      FirstSubmits(ss);
      var curAddr, curSize, isNewSubmit, skip := UINT64_MAX, UINT32_MAX, false, false;
      for i := 0 to |ss|
        invariant AllLoad(ss, i)
        invariant (curAddr, curSize) == Announced(ss, i) && isNewSubmit == Pending(ss, i) && skip == Skips(ss, i)
        invariant SubmitsAre(ss, i, submits)
        invariant memory.blocks == Blocks(ss, i) && memory.freed == old(memory.freed) && memory.lastUsed == None
      {
        SubmitsStep(ss, i, submits);
        match ss[i]
        case GpuAddr(addr, size) =>
          curAddr, curSize, isNewSubmit := addr, size, true;
        case CmdStreamAddr(addr, size) =>
          assert AllLoad(ss, i + 1) && HasSubmits(ss, i + 1);
          assert OpensSubmit(ss, i) <==> isNewSubmit;
          LoadCmdStream(addr, size, isNewSubmit, skip);
          isNewSubmit := false;
        case BufferContents(data) =>
          if |data| != curSize {
            SubmitsRead(ss, i, submits);
            return CorruptData, i;
          }
          var ok := LoadMemoryBlock(curAddr, curSize, data, i);
          if !ok {
            SubmitsRead(ss, i, submits);
            return FileIoError, i;
          }
        case Cmd(name) =>
          skip := false;
          if name == [] {
            SubmitsRead(ss, i, submits);
            return FileIoError, i;
          }
          skip := IsSystemProcess(name);
        case OtherSection =>
      }
      memory.Finalize(true);
      SubmitsRead(ss, |ss|, submits);
      return Success, |ss|;
    }
  }

  lemma FirstSubmits(ss: seq<Section>)
    ensures SubmitsAre(ss, 0, [])
  {
  }

  lemma SubmitsStep(ss: seq<Section>, i: nat, submits: seq<seq<Ib>>)
    requires i < |ss| && SubmitsAre(ss, i, submits)
    ensures |submits| == NumSubmits(ss, i)
    ensures !ss[i].CmdStreamAddr? ==> SubmitsAre(ss, i + 1, submits)
    ensures OpensSubmit(ss, i) ==> SubmitsAre(ss, i + 1, submits + [[Ib(ss[i].addr, ss[i].size, Skips(ss, i))]])
    ensures ss[i].CmdStreamAddr? && !OpensSubmit(ss, i) && submits != [] ==>
      var last := |submits| - 1;
      SubmitsAre(ss, i + 1, submits[last := submits[last] + [Ib(ss[i].addr, ss[i].size, Skips(ss, i))]])
  {
    hide StreamsOf, Skips, Pending;
    StreamsStep(ss, i);
    NoStreamsYet(ss, i, NumSubmits(ss, i));
  }

  lemma StreamsStep(ss: seq<Section>, i: nat)
    requires i < |ss|
    ensures forall k :: 0 <= k < NumSubmits(ss, i + 1) ==>
      StreamsOf(ss, i + 1, k) == StreamsOf(ss, i, k) + if k + 1 == NumSubmits(ss, i + 1) then StreamAt(ss, i) else []
  {
  }

  /** A submit that does not exist yet has no streams. */
  lemma {:induction false} NoStreamsYet(ss: seq<Section>, n: nat, submit: nat)
    requires n <= |ss| && submit >= NumSubmits(ss, n)
    ensures StreamsOf(ss, n, submit) == []
  {
    if n > 0 {
      NoStreamsYet(ss, n - 1, submit);
    }
  }

  // ---------- lemmas about what is loaded ----------

  lemma {:induction false} JoinedSame(before: seq<seq<Ib>>, after: seq<seq<Ib>>, n: nat)
    requires n <= |before| && n <= |after| && forall k :: 0 <= k < n ==> after[k] == before[k]
    ensures Joined(after, n) == Joined(before, n)
  {
    if n > 0 {
      JoinedSame(before, after, n - 1);
    }
  }

  /** The lists of the first k submits, as they are after n sections. */
  function Lists(ss: seq<Section>, n: nat, k: nat): seq<seq<Ib>>
    requires n <= |ss|
  {
    seq(k, i requires 0 <= i < k => StreamsOf(ss, n, i))
  }

  /** Joined together, the lists of all submits are the command streams in file order, and none is empty. */
  lemma SubmitsAreLists(ss: seq<Section>, n: nat, submits: seq<seq<Ib>>)
    requires n <= |ss| && HasSubmits(ss, n) && SubmitsAre(ss, n, submits)
    ensures Joined(submits, |submits|) == Streams(ss, n) && forall k :: 0 <= k < |submits| ==> submits[k] != []
  {
    ListsJoin(ss, n);
    assert submits == Lists(ss, n, NumSubmits(ss, n));
    forall k | 0 <= k < |submits|
      ensures submits[k] != []
    {
      SubmitHasStream(ss, n, k);
    }
  }

  lemma {:induction false} ListsJoin(ss: seq<Section>, n: nat)
    requires n <= |ss| && HasSubmits(ss, n)
    ensures Joined(Lists(ss, n, NumSubmits(ss, n)), NumSubmits(ss, n)) == Streams(ss, n)
  {
    hide StreamsOf, StreamAt;
    if n > 0 {
      ListsJoin(ss, n - 1);
      StreamsStep(ss, n - 1);
      var last := NumSubmits(ss, n) - 1;
      if last >= 0 {
        NoStreamsYet(ss, n - 1, NumSubmits(ss, n - 1));
        ListsStep(Lists(ss, n - 1, NumSubmits(ss, n - 1)), Lists(ss, n, last + 1), StreamAt(ss, n - 1));
      } else {
        NoStreamHere(ss, n);
      }
    }
  }

  lemma NoStreamHere(ss: seq<Section>, n: nat)
    requires 0 < n <= |ss| && HasSubmits(ss, n) && NumSubmits(ss, n) == 0
    ensures StreamAt(ss, n - 1) == []
  {
    assert OpensSubmit(ss, n - 1) || !OpensSubmit(ss, n - 1);
  }

  /** Appending to the last list, which may be new. */
  lemma ListsStep(before: seq<seq<Ib>>, after: seq<seq<Ib>>, more: seq<Ib>)
    requires after != [] && |after| - 1 <= |before| <= |after|
    requires forall k :: 0 <= k < |after| - 1 ==> after[k] == before[k]
    requires after[|after| - 1] == (if |before| == |after| then before[|after| - 1] else []) + more
    ensures Joined(after, |after|) == Joined(before, |before|) + more
  {
    hide Joined;
    var last := |after| - 1;
    JoinedSame(before, after, last);
    JoinedStep(after, last);
    if |before| == |after| {
      JoinedStep(before, last);
      Associative(Joined(before, last), before[last], more);
    } else {
      assert [] + more == more;
    }
  }

  lemma JoinedStep(lists: seq<seq<Ib>>, n: nat)
    requires n < |lists|
    ensures Joined(lists, n + 1) == Joined(lists, n) + lists[n]
  {
  }

  lemma Associative(a: seq<Ib>, b: seq<Ib>, c: seq<Ib>)
    ensures a + (b + c) == a + b + c
  {
  }

  /** No submit is empty. */
  lemma {:induction false} SubmitHasStream(ss: seq<Section>, n: nat, submit: nat)
    requires n <= |ss| && submit < NumSubmits(ss, n)
    ensures StreamsOf(ss, n, submit) != []
  {
    if submit < NumSubmits(ss, n - 1) {
      SubmitHasStream(ss, n - 1, submit);
    }
  }

  lemma {:induction false} NumSubmitsSame(ss: seq<Section>, i: nat, j: nat)
    requires i <= j <= |ss| && forall k :: i <= k < j ==> !OpensSubmit(ss, k)
    ensures NumSubmits(ss, i) == NumSubmits(ss, j)
  {
    if i < j {
      NumSubmitsSame(ss, i, j - 1);
    }
  }

  /** A block carries the index of the first submit created after it. */
  lemma {:induction false} BlockAt(ss: seq<Section>, n: nat, k: nat)
    requires n <= |ss| && k < |Blocks(ss, n)|
    ensures var b := Blocks(ss, n)[k];
      && b.dataPtr < n && ss[b.dataPtr].BufferContents? && b.data == ss[b.dataPtr].data
      && (forall g :: AnnouncerOf(ss, g, b.dataPtr) ==> b.vaAddr == ss[g].addr)
      && b.submitIndex == OpenersBefore(ss, b.dataPtr)
      && forall j ::
           b.dataPtr < j < |ss| && OpensSubmit(ss, j) && (forall l :: b.dataPtr < l < j ==> !OpensSubmit(ss, l)) ==>
           NumSubmits(ss, j) == b.submitIndex
  {
    if k < |Blocks(ss, n - 1)| {
      BlockAt(ss, n - 1, k);
    } else {
      var i := n - 1;
      AnnouncedIs(ss, i);
      SubmitsOpened(ss, i);
      forall j | i < j < |ss| && OpensSubmit(ss, j) && forall l :: i < l < j ==> !OpensSubmit(ss, l)
        ensures NumSubmits(ss, j) == NumSubmits(ss, i)
      {
        NumSubmitsSame(ss, i, j);
      }
    }
  }

  /** Every buffer section that loads becomes one block, and none of them is empty. */
  lemma {:induction false} BlocksLoad(ss: seq<Section>, n: nat)
    requires n <= |ss| && AllLoad(ss, n)
    ensures forall k :: 0 <= k < |Blocks(ss, n)| ==> Blocks(ss, n)[k].data != []
    ensures forall k, l :: 0 <= k < l < |Blocks(ss, n)| ==> Blocks(ss, n)[k].dataPtr < Blocks(ss, n)[l].dataPtr < n
    ensures forall k :: 0 <= k < |Blocks(ss, n)| ==> Blocks(ss, n)[k].dataPtr < n
    ensures forall i :: 0 <= i < n && ss[i].BufferContents? ==>
      exists k :: 0 <= k < |Blocks(ss, n)| && Blocks(ss, n)[k].dataPtr == i
  {
    if n > 0 {
      BlocksLoad(ss, n - 1);
      assert Failure(ss, n - 1) == Success;
      var t, s := Blocks(ss, n - 1), Blocks(ss, n);
      assert forall k :: 0 <= k < |t| ==> s[k] == t[k];
      forall i | 0 <= i < n && ss[i].BufferContents?
        ensures exists k :: 0 <= k < |s| && s[k].dataPtr == i
      {
        if i < n - 1 {
          var k :| 0 <= k < |t| && t[k].dataPtr == i;
          assert s[k].dataPtr == i;
        } else {
          assert s[|s| - 1].dataPtr == i;
        }
      }
    }
  }

  /** Once memory has been announced, it is pending or a submit has taken it. */
  lemma {:induction false} AnnouncedBefore(ss: seq<Section>, g: nat, i: nat)
    requires g < i <= |ss| && ss[g].GpuAddr?
    ensures Pending(ss, i) || NumSubmits(ss, i) > 0
  {
    if g < i - 1 {
      AnnouncedBefore(ss, g, i - 1);
    }
  }

  lemma {:induction false} PendingNeedsMemory(ss: seq<Section>, i: nat)
    requires i <= |ss| && (Pending(ss, i) || NumSubmits(ss, i) > 0)
    ensures exists g :: 0 <= g < i && ss[g].GpuAddr?
  {
    if ss[i - 1].GpuAddr? {
    } else {
      PendingNeedsMemory(ss, i - 1);
    }
  }

  /** The source's assertion holds for a file exactly if some memory is announced before its first
      command stream. */
  lemma HasSubmitsIff(ss: seq<Section>, n: nat)
    requires n <= |ss|
    ensures HasSubmits(ss, n) <==>
      forall i :: 0 <= i < n && ss[i].CmdStreamAddr? ==> exists g :: 0 <= g < i && ss[g].GpuAddr?
  {
    if HasSubmits(ss, n) {
      forall i | 0 <= i < n && ss[i].CmdStreamAddr?
        ensures exists g :: 0 <= g < i && ss[g].GpuAddr?
      {
        assert OpensSubmit(ss, i) || !OpensSubmit(ss, i);
        PendingNeedsMemory(ss, i);
      }
    }
    if forall i :: 0 <= i < n && ss[i].CmdStreamAddr? ==> exists g :: 0 <= g < i && ss[g].GpuAddr? {
      forall i | 0 <= i < n && ss[i].CmdStreamAddr? && !OpensSubmit(ss, i)
        ensures NumSubmits(ss, i) > 0
      {
        var g :| 0 <= g < i && ss[g].GpuAddr?;
        AnnouncedBefore(ss, g, i);
      }
    }
  }

  /** A file that starts with a command stream. */
  lemma NoSubmitToJoin()
    ensures var ss := [CmdStreamAddr(0, 0)]; AllLoad(ss, 1) && !HasSubmits(ss, 1)
  {
    var ss := [CmdStreamAddr(0, 0)];
    assert !OpensSubmit(ss, 0) && NumSubmits(ss, 0) == 0;
  }

  // ---------- the same, read off the sections ----------

  lemma {:induction false} CStringEnds(s: string)
    ensures EndsAt(s, |CString(s)|) && CString(s) == s[..|CString(s)|]
  {
    if s != [] && s[0] != '\0' {
      CStringEnds(s[1..]);
      var e := |CString(s[1..])|;
      assert forall k :: 0 < k < e + 1 ==> s[k] == s[1..][k - 1];
      assert s[..e + 1] == [s[0]] + s[1..][..e];
    }
  }

  lemma CStringIs(s: string, text: string)
    ensures CString(s) == text <==> IsCString(s, text)
  {
    CStringEnds(s);
    if IsCString(s, text) {
      var e :| EndsAt(s, e) && s[..e] == text;
      assert e == |CString(s)|;
    }
  }

  lemma {:induction false} SkipsIff(ss: seq<Section>, i: nat)
    requires i <= |ss|
    ensures Skips(ss, i) <==> IsSkipped(ss, i)
  {
    if i > 0 {
      if ss[i - 1].Cmd? {
        var name := ss[i - 1].name;
        CStringIs(name, "fdperf");
        CStringIs(name, "chrome");
        CStringIs(name, "surfaceflinger");
        EmptyName();
        assert CommandOf(ss, i - 1, i) && forall j :: CommandOf(ss, j, i) ==> j == i - 1;
      } else {
        SkipsIff(ss, i - 1);
        assert forall j :: CommandOf(ss, j, i) <==> CommandOf(ss, j, i - 1);
      }
    }
  }

  lemma EmptyName()
    ensures !OfSystem("")
  {
    assert forall text :: IsCString("", text) ==> text == "";
  }

  lemma {:induction false} PendingIff(ss: seq<Section>, i: nat)
    requires i <= |ss|
    ensures Pending(ss, i) <==> AnnouncedSince(ss, i)
  {
    if i > 0 {
      PendingIff(ss, i - 1);
      if ss[i - 1].GpuAddr? {
        assert AnnouncedSince(ss, i);
      } else if !ss[i - 1].CmdStreamAddr? && AnnouncedSince(ss, i - 1) {
        var g :| 0 <= g < i - 1 && ss[g].GpuAddr? && forall l :: g < l < i - 1 ==> !ss[l].CmdStreamAddr?;
        assert forall l :: g < l < i ==> !ss[l].CmdStreamAddr?;
      }
    }
  }

  lemma {:induction false} AnnouncedIs(ss: seq<Section>, i: nat)
    requires i <= |ss|
    ensures forall g :: AnnouncerOf(ss, g, i) ==> Announced(ss, i) == (ss[g].addr, ss[g].size)
    ensures (forall g :: !AnnouncerOf(ss, g, i)) ==> Announced(ss, i) == (UINT64_MAX, UINT32_MAX)
  {
    if i > 0 {
      if ss[i - 1].GpuAddr? {
        assert AnnouncerOf(ss, i - 1, i);
      } else {
        var m := i - 1;
        AnnouncedIs(ss, m);
        assert forall g :: AnnouncerOf(ss, g, i) <==> AnnouncerOf(ss, g, m);
        if exists g :: AnnouncerOf(ss, g, m) {
          var g :| AnnouncerOf(ss, g, m);
          assert AnnouncerOf(ss, g, i);
        }
      }
    }
  }

  lemma {:induction false} SubmitsOpened(ss: seq<Section>, n: nat)
    requires n <= |ss|
    ensures NumSubmits(ss, n) == OpenersBefore(ss, n) && |Streams(ss, n)| == StreamsBefore(ss, n)
  {
    if n > 0 {
      SubmitsOpened(ss, n - 1);
      PendingIff(ss, n - 1);
    }
  }

  lemma {:induction false} StreamsHave(ss: seq<Section>, n: nat, i: nat)
    requires i < n <= |ss| && ss[i].CmdStreamAddr?
    ensures StreamsBefore(ss, i) < |Streams(ss, n)| == StreamsBefore(ss, n)
    ensures Streams(ss, n)[StreamsBefore(ss, i)] == Ib(ss[i].addr, ss[i].size, Skips(ss, i))
  {
    SubmitsOpened(ss, n);
    SubmitsOpened(ss, n - 1);
    if i < n - 1 {
      StreamsHave(ss, n - 1, i);
    }
  }

  /** Stream i is among those of submit k. */
  ghost predicate IsIn(lists: seq<seq<Ib>>, at: nat, k: int) {
    0 <= k < |lists| && |Joined(lists, k)| <= at < |Joined(lists, k + 1)|
  }

  lemma {:induction false} StreamIsIn(ss: seq<Section>, n: nat, i: nat)
    requires i < n <= |ss| && HasSubmits(ss, n) && ss[i].CmdStreamAddr?
    ensures IsIn(Lists(ss, n, NumSubmits(ss, n)), StreamsBefore(ss, i), NumSubmits(ss, i + 1) - 1)
  {
    hide Streams, StreamAt, Joined, IsIn, Extends, NumSubmits, Lists;
    var m := n - 1;
    var before, after := Lists(ss, m, NumSubmits(ss, m)), Lists(ss, n, NumSubmits(ss, n));
    ListsExtend(ss, m);
    if i < m {
      StreamIsIn(ss, m, i);
      StaysIn(before, after, StreamAt(ss, m), StreamsBefore(ss, i), NumSubmits(ss, i + 1) - 1);
    } else {
      ListsJoin(ss, m);
      SubmitsOpened(ss, m);
      IsLastIn(before, after, StreamAt(ss, m));
    }
  }

  lemma ListsExtend(ss: seq<Section>, m: nat)
    requires m < |ss| && HasSubmits(ss, m + 1)
    ensures HasSubmits(ss, m) && |Lists(ss, m, NumSubmits(ss, m))| == NumSubmits(ss, m)
    ensures var before, after := Lists(ss, m, NumSubmits(ss, m)), Lists(ss, m + 1, NumSubmits(ss, m + 1));
      && Extends(before, after, StreamAt(ss, m)) && |after| == NumSubmits(ss, m + 1)
      && (ss[m].CmdStreamAddr? ==> after != [] && StreamAt(ss, m) != [])
  {
    hide StreamsOf;
    StreamsStep(ss, m);
    NoStreamsYet(ss, m, NumSubmits(ss, m));
    assert OpensSubmit(ss, m) || !OpensSubmit(ss, m);
  }

  /** after is before with more at its end, perhaps as a new list. */
  ghost predicate Extends(before: seq<seq<Ib>>, after: seq<seq<Ib>>, more: seq<Ib>) {
    && |after| - 1 <= |before| <= |after|
    && (forall k :: 0 <= k < |after| - 1 ==> after[k] == before[k])
    && (after != [] ==> after[|after| - 1] == (if |before| == |after| then before[|after| - 1] else []) + more)
  }

  lemma StaysIn(before: seq<seq<Ib>>, after: seq<seq<Ib>>, more: seq<Ib>, at: nat, k: int)
    requires Extends(before, after, more) && IsIn(before, at, k)
    ensures IsIn(after, at, k)
  {
    JoinedSame(before, after, k);
    JoinedStep(before, k);
    JoinedStep(after, k);
  }

  lemma IsLastIn(before: seq<seq<Ib>>, after: seq<seq<Ib>>, more: seq<Ib>)
    requires Extends(before, after, more) && after != [] && more != []
    ensures IsIn(after, |Joined(before, |before|)|, |after| - 1)
  {
    var last := |after| - 1;
    JoinedSame(before, after, last);
    JoinedStep(after, last);
    if |before| == |after| {
      JoinedStep(before, last);
    }
  }

  /** The loader's submits, read off the sections. */
  lemma SubmitsRead(ss: seq<Section>, n: nat, submits: seq<seq<Ib>>)
    requires n <= |ss| && HasSubmits(ss, n) && SubmitsAre(ss, n, submits)
    ensures AreStreams(ss, n, submits)
  {
    hide Streams, StreamsOf, Joined, HasSubmits;
    SubmitsAreLists(ss, n, submits);
    SubmitsOpened(ss, n);
    assert submits == Lists(ss, n, NumSubmits(ss, n));
    forall i | 0 <= i < n && ss[i].CmdStreamAddr?
      ensures var all, at, k := Joined(submits, |submits|), StreamsBefore(ss, i), OpenersBefore(ss, i + 1) - 1;
        && at < |all| && all[at].addr == ss[i].addr && all[at].size == ss[i].size
        && (all[at].skip <==> IsSkipped(ss, i))
        && 0 <= k < |submits| && |Joined(submits, k)| <= at < |Joined(submits, k + 1)|
    {
      StreamsHave(ss, n, i);
      StreamIsIn(ss, n, i);
      SubmitsOpened(ss, i + 1);
      SkipsIff(ss, i);
    }
  }

  lemma FailureIs(ss: seq<Section>, i: nat)
    requires i < |ss|
    ensures Failure(ss, i) == CorruptData <==> IsCorrupt(ss, i)
    ensures Failure(ss, i) == FileIoError <==> IsUnreadable(ss, i)
  {
    AnnouncedIs(ss, i);
    if exists g :: AnnouncerOf(ss, g, i) {
      var g :| AnnouncerOf(ss, g, i);
      assert forall h :: AnnouncerOf(ss, h, i) ==> h == g;
    }
  }
}
