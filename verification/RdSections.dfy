/** The sections of an RD file, and what they say about its command streams. */
module RdSections {
  import opened Wrappers
  import opened MemoryBlocks

  datatype Section =
    | GpuAddr(addr: nat, size: nat)
    | CmdStreamAddr(addr: nat, size: nat)
    | BufferContents(data: seq<byte>)
    | Cmd(name: string)
    | OtherSection

  datatype Ib = Ib(addr: nat, size: nat, skip: bool)

  datatype LoadResult = Success | CorruptData | FileIoError

  const UINT32_MAX: nat := 0xFFFF_FFFF

  // ---------- commands ----------

  /** The name up to position e is all that comes before its first zero byte. */
  predicate EndsAt(name: string, e: int) {
    0 <= e <= |name| && (e < |name| ==> name[e] == '\0') && forall k :: 0 <= k < e ==> name[k] != '\0'
  }

  ghost predicate IsCString(name: string, text: string) {
    exists e :: EndsAt(name, e) && name[..e] == text
  }

  /** The process is one of the system's. */
  ghost predicate OfSystem(name: string) {
    || (name != [] && name[0] == 'X')
    || IsCString(name, "fdperf") || IsCString(name, "chrome") || IsCString(name, "surfaceflinger")
  }

  /** Section j has the command that section i belongs to. */
  predicate CommandOf(ss: seq<Section>, j: int, i: nat) {
    0 <= j < i <= |ss| && ss[j].Cmd? && forall l :: j < l < i ==> !ss[l].Cmd?
  }

  ghost predicate IsSkipped(ss: seq<Section>, i: nat) {
    exists j :: CommandOf(ss, j, i) && OfSystem(ss[j].name)
  }

  // ---------- memory ----------

  /** Section g announced the memory that section i is about. */
  predicate AnnouncerOf(ss: seq<Section>, g: int, i: nat) {
    0 <= g < i <= |ss| && ss[g].GpuAddr? && forall l :: g < l < i ==> !ss[l].GpuAddr?
  }

  /** Some memory was announced since the last command stream before section i. */
  ghost predicate AnnouncedSince(ss: seq<Section>, i: nat)
    requires i <= |ss|
  {
    exists g :: 0 <= g < i && ss[g].GpuAddr? && forall l :: g < l < i ==> !ss[l].CmdStreamAddr?
  }

  /** A buffer whose contents do not have the announced size. */
  ghost predicate IsCorrupt(ss: seq<Section>, i: nat)
    requires i < |ss|
  {
    && ss[i].BufferContents?
    && if exists g :: AnnouncerOf(ss, g, i) then exists g :: AnnouncerOf(ss, g, i) && |ss[i].data| != ss[g].size
       else |ss[i].data| != UINT32_MAX
  }

  /** Nothing can be read where there is nothing to read. */
  ghost predicate IsUnreadable(ss: seq<Section>, i: nat)
    requires i < |ss|
  {
    match ss[i]
    case BufferContents(data) => data == [] && !IsCorrupt(ss, i)
    case Cmd(name) => name == []
    case _ => false
  }

  // ---------- command streams ----------

  function StreamsBefore(ss: seq<Section>, n: nat): nat
    requires n <= |ss|
  {
    if n == 0 then 0 else StreamsBefore(ss, n - 1) + if ss[n - 1].CmdStreamAddr? then 1 else 0
  }

  /** The command streams that memory was announced for. */
  ghost function OpenersBefore(ss: seq<Section>, n: nat): nat
    requires n <= |ss|
  {
    if n == 0 then 0
    else OpenersBefore(ss, n - 1) + if ss[n - 1].CmdStreamAddr? && AnnouncedSince(ss, n - 1) then 1 else 0
  }

  /** The first n lists, joined. */
  function Joined(lists: seq<seq<Ib>>, n: nat): seq<Ib>
    requires n <= |lists|
  {
    if n == 0 then [] else Joined(lists, n - 1) + lists[n - 1]
  }

  /** The submits have the command streams in file order. A stream is in the submit of the last stream, up
      to itself, that memory was announced for, and is skipped if its command is one of the system's. */
  ghost predicate AreStreams(ss: seq<Section>, n: nat, submits: seq<seq<Ib>>)
    requires n <= |ss|
  {
    && |submits| == OpenersBefore(ss, n) && |Joined(submits, |submits|)| == StreamsBefore(ss, n)
    && forall i {:trigger ss[i]} :: 0 <= i < n && ss[i].CmdStreamAddr? ==>
         var all, at, k := Joined(submits, |submits|), StreamsBefore(ss, i), OpenersBefore(ss, i + 1) - 1;
         && at < |all| && all[at].addr == ss[i].addr && all[at].size == ss[i].size
         && (all[at].skip <==> IsSkipped(ss, i))
         && 0 <= k < |submits| && |Joined(submits, k)| <= at < |Joined(submits, k + 1)|
  }
}
