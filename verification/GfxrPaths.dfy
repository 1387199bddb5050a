/** Which captures the GFXR builder numbers in preorder, decided from the command names and the submits
    alone. The builder numbers in preorder as long as it hangs each node from the path to the last node. */
module GfxrPaths {
  import opened GfxrRows
  import opened GfxrHierarchy
  import opened GfxrNames

  /** What lies on the path to the last node. */
  datatype Path = Path(
    submit: bool,      // the submit node does
    buffer: bool,      // what commands outside of labels and passes hang from does
    atRoot: bool,      // which is the root, as no command buffer has begun
    labels: seq<bool>, // open brackets: labels, or render passes
    brackets: bool,    // they do
    ordered: bool,     // every node was hung from the path
    inside: bool)      // no command was hung from the root

  function Under(a: Path, onPath: bool): Path {
    a.(ordered := a.ordered && onPath)
  }

  /** Below the command buffer the open brackets leave the path, and below the root the submit does. */
  function UnderBuffer(a: Path): Path {
    Under(a, a.buffer).(submit := a.submit && !a.atRoot, brackets := a.labels == [], inside := a.inside && !a.atRoot)
  }

  function UnderTop(a: Path): Path {
    if a.labels == [] then UnderBuffer(a) else Under(a, a.brackets)
  }

  function Push(a: Path, isLabel: bool): Path {
    a.(labels := a.labels + [isLabel], brackets := true)
  }

  function Pop(a: Path): Path {
    if a.labels == [] then a else a.(labels := a.labels[..|a.labels| - 1])
  }

  function AfterName(a: Path, name: string): Path {
    match Classify(name)
    case BeginBuffer => Under(a, a.submit).(buffer := true, atRoot := false, brackets := a.labels == [])
    case EndBuffer => UnderBuffer(a)
    case BeginLabel => Push(UnderTop(a), true)
    case EndLabel => if a.labels != [] && a.labels[|a.labels| - 1] then Pop(a) else a
    case Draw => UnderTop(a)
    case BeginPass => Push(UnderTop(a), false)
    case EndPass => Pop(UnderTop(a))
    case Plain(_) => UnderTop(a)
  }

  function PathCommands(a: Path, cs: seq<Command>, n: nat): Path
    requires n <= |cs|
  {
    if n == 0 then a else AfterName(PathCommands(a, cs, n - 1), cs[n - 1].name)
  }

  function PathList(a: Path, cs: seq<Command>): Path {
    PathCommands(a, cs, |cs|).(labels := [], brackets := true)
  }

  function PathHandles(a: Path, c: Capture, s: Submit, n: nat): Path
    requires n <= |s.handles| && forall k :: 0 <= k < |s.handles| ==> s.handles[k] in c.buffers
  {
    if n == 0 then a else PathList(PathHandles(a, c, s, n - 1), c.buffers[s.handles[n - 1]])
  }

  /** A submit hangs from the root, so an earlier command buffer is off the path. */
  function PathStart(a: Path): Path {
    a.(submit := true, buffer := a.atRoot)
  }

  function PathSubmits(c: Capture, n: nat): Path
    requires n <= |c.submits| && Complete(c)
  {
    if n == 0 then Path(false, true, true, [], true, true, true)
    else
      var s := c.submits[n - 1];
      PathHandles(PathList(PathStart(PathSubmits(c, n - 1)), s.noneCommands), c, s, |s.handles|)
  }

  /** Every node of the capture is hung from the path to the node before. */
  predicate KeepsPath(c: Capture)
    requires Complete(c)
  {
    PathSubmits(c, |c.submits|).ordered
  }

  /** No command comes before the first command buffer. */
  predicate StaysInside(c: Capture)
    requires Complete(c)
  {
    PathSubmits(c, |c.submits|).inside
  }

  // ---------- bracketed command buffers ----------

  /** Nothing, or Begin, then a body with no Begin, and End at most as the last command. */
  predicate IsBracketed(cs: seq<Command>) {
    && (cs != [] ==> IsBeginBuffer(cs[0].name))
    && forall i :: 0 < i < |cs| ==> !IsBeginBuffer(cs[i].name) && (IsEndBuffer(cs[i].name) ==> i == |cs| - 1)
  }

  ghost predicate WellFormed(c: Capture) {
    && Complete(c)
    && (forall i :: 0 <= i < |c.submits| ==> c.submits[i].noneCommands == [])
    && forall h :: h in c.buffers ==> IsBracketed(c.buffers[h])
  }

  /** Between command buffers. */
  predicate Between(a: Path) {
    a.submit && a.ordered && a.inside && a.labels == [] && a.brackets
  }

  /** Inside one. */
  predicate Within(a: Path) {
    a.submit && a.buffer && !a.atRoot && a.brackets && a.ordered && a.inside
  }

  lemma {:induction false} BodyStays(a: Path, cs: seq<Command>, n: nat)
    requires Between(a) && IsBracketed(cs) && 0 < n <= |cs|
    requires n == |cs| ==> !IsEndBuffer(cs[n - 1].name)
    ensures Within(PathCommands(a, cs, n))
  {
    hide Classify, IsBeginBuffer, IsEndBuffer;
    Classifies(cs[n - 1].name);
    if n == 1 {
      assert PathCommands(a, cs, 0) == a;
    } else {
      BodyStays(a, cs, n - 1);
    }
  }

  lemma ListStays(a: Path, cs: seq<Command>)
    requires Between(a) && IsBracketed(cs)
    ensures Between(PathList(a, cs))
  {
    hide Classify, IsBeginBuffer, IsEndBuffer;
    var n := |cs|;
    if n > 0 {
      Classifies(cs[n - 1].name);
    }
    if n > 0 && IsEndBuffer(cs[n - 1].name) {
      BodyStays(a, cs, n - 1);
    } else if n > 0 {
      BodyStays(a, cs, n);
    }
  }

  lemma {:induction false} HandlesStay(a: Path, c: Capture, s: Submit, n: nat)
    requires Between(a) && WellFormed(c) && n <= |s.handles|
    requires forall k :: 0 <= k < |s.handles| ==> s.handles[k] in c.buffers
    ensures Between(PathHandles(a, c, s, n))
  {
    if n > 0 {
      HandlesStay(a, c, s, n - 1);
      ListStays(PathHandles(a, c, s, n - 1), c.buffers[s.handles[n - 1]]);
    }
  }

  lemma {:induction false} SubmitsStay(c: Capture, n: nat)
    requires WellFormed(c) && n <= |c.submits|
    ensures var a := PathSubmits(c, n); a.ordered && a.inside && a.labels == [] && a.brackets
  {
    if n > 0 {
      hide PathCommands, IsBracketed;
      SubmitsStay(c, n - 1);
      var s, a := c.submits[n - 1], PathStart(PathSubmits(c, n - 1));
      assert s.noneCommands == [];
      NoCommands(a);
      HandlesStay(PathList(a, s.noneCommands), c, s, |s.handles|);
    }
  }

  lemma NoCommands(a: Path)
    requires a.labels == [] && a.brackets
    ensures PathList(a, []) == a
  {
  }

  /** Captures of bracketed command buffers keep to the path. */
  lemma WellFormedKeepsPath(c: Capture)
    requires WellFormed(c)
    ensures KeepsPath(c) && StaysInside(c)
  {
    SubmitsStay(c, |c.submits|);
  }
}
