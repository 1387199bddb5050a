/** The enable masks of a state tracker: which shaders a register write is for. */
module Pm4Masks {
  import opened Wrappers
  import opened Pm4Trace
  import opened Pm4Stacks
  import opened Pm4Tracker

  datatype Masks = Masks(current: nat, saved: seq<nat>)

  function Push(m: Masks, mask: nat): Masks {
    Masks(mask, m.saved + [m.current])
  }

  function Pop(m: Masks): Masks {
    if m.saved == [] then m else Masks(m.saved[|m.saved| - 1], m.saved[..|m.saved| - 1])
  }

  /** Resetting the tracker for the next submit leaves its masks alone. */
  function MaskTracker(): Tracker<Masks> {
    Tracker((m: Masks) => m, (m: Masks, p: RawPacket) => m, Push, Pop, (m: Masks) => None)
  }

  function After(m: Masks, cbs: seq<RawCallback>): Masks {
    TrackAll(MaskTracker(), m, cbs)
  }

  /** Every end callback has something to pop. */
  predicate NeverEmpty(m: Masks, cbs: seq<RawCallback>) {
    cbs == [] ||
    (NeverEmpty(m, cbs[..|cbs| - 1]) && (cbs[|cbs| - 1].RawIbEnd? ==> After(m, cbs[..|cbs| - 1]).saved != []))
  }

  lemma {:induction false} AfterConcat(m: Masks, before: seq<RawCallback>, after: seq<RawCallback>)
    ensures After(m, before + after) == After(After(m, before), after)
    ensures NeverEmpty(m, before + after) <==> NeverEmpty(m, before) && NeverEmpty(After(m, before), after)
  {
    hide Track, MaskTracker;
    if after == [] {
      assert before + after == before;
    } else {
      AfterConcat(m, before, after[..|after| - 1]);
      assert (before + after)[..|before + after| - 1] == before + after[..|after| - 1];
    }
  }

  // ---------- traces of starts and ends ----------

  predicate SameShape(raw: RawCallback, cb: Callback) {
    (raw.RawIbStart? <==> cb.IbStart?) && (raw.RawIbEnd? <==> cb.IbEnd?)
  }

  /** Buffers start and end in the raw trace where they do in the other. */
  ghost predicate Shaped(cbs: seq<RawCallback>, trace: seq<Callback>) {
    |cbs| == |trace| && forall i {:trigger SameShape(cbs[i], trace[i])} :: 0 <= i < |cbs| ==>
      SameShape(cbs[i], trace[i])
  }

  /** So do they in a trace as any pass sees it. */
  lemma {:induction false} ResolvedIsShaped<T>(k: Tracker<T>, t: T, cbs: seq<RawCallback>)
    ensures Shaped(cbs, ResolvedAll(k, t, cbs))
  {
    if cbs != [] {
      ResolvedIsShaped(k, t, cbs[..|cbs| - 1]);
      var trace := ResolvedAll(k, t, cbs);
      forall i | 0 <= i < |cbs|
        ensures SameShape(cbs[i], trace[i])
      {
        assert i < |cbs| - 1 ==> SameShape(cbs[..|cbs| - 1][i], ResolvedAll(k, t, cbs[..|cbs| - 1])[i]);
      }
    }
  }

  lemma ShapedSplit(cbs: seq<RawCallback>, before: seq<Callback>, after: seq<Callback>)
    requires Shaped(cbs, before + after)
    ensures |before| <= |cbs| && cbs == cbs[..|before|] + cbs[|before|..]
    ensures Shaped(cbs[..|before|], before) && Shaped(cbs[|before|..], after)
  {
    forall i | 0 <= i < |before|
      ensures SameShape(cbs[i], before[i])
    {
      assert SameShape(cbs[i], (before + after)[i]);
    }
    forall i | 0 <= i < |after|
      ensures SameShape(cbs[|before|..][i], after[i])
    {
      assert SameShape(cbs[|before| + i], (before + after)[|before| + i]);
    }
  }

  // ---------- a chain of buffers ends only once ----------

  /** The continuations in a buffer, however they are reported. */
  function Continuations(b: Buffer): nat
    decreases b, |b.items| + 1
  {
    ItemContinuations(b, |b.items|) + match b.next case Ends => 0 case ChainsTo(c) => 1 + Continuations(c)
  }

  function ItemContinuations(b: Buffer, n: nat): nat
    requires n <= |b.items|
    decreases b, n
  {
    if n == 0 then 0
    else ItemContinuations(b, n - 1) + match b.items[n - 1] case Emit(_) => 0 case Enter(c) => Continuations(c)
  }

  /** n masks more are saved than before, the first of them the mask from before. Without any, nothing has
      changed. */
  ghost predicate Leaves(m: Masks, r: Masks, n: nat) {
    && |r.saved| == |m.saved| + n && m.saved <= r.saved
    && (if n == 0 then r == m else r.saved[|m.saved|] == m.current)
  }

  lemma LeavesBoth(m: Masks, r: Masks, t: Masks, n: nat, k: nat)
    requires Leaves(m, r, n) && Leaves(r, t, k)
    ensures Leaves(m, t, n + k)
  {
    if n > 0 {
      assert t.saved[|m.saved|] == r.saved[|m.saved|];
    }
  }

  lemma AfterOne(m: Masks, cb: RawCallback)
    ensures After(m, [cb]) == Track(MaskTracker(), m, cb)
    ensures NeverEmpty(m, [cb]) <==> (cb.RawIbEnd? ==> m.saved != [])
  {
    assert [cb][..0] == [];
    assert After(m, []) == m && NeverEmpty(m, []);
  }

  lemma StartPushes(m: Masks, cb: RawCallback)
    requires cb.RawIbStart?
    ensures After(m, [cb]) == Push(m, cb.enableMask) && NeverEmpty(m, [cb])
  {
    AfterOne(m, cb);
  }

  /** Callbacks that neither start nor end a buffer. */
  lemma NeitherKeepsMasks(m: Masks, cb: Callback, cbs: seq<RawCallback>)
    requires !cb.IbStart? && !cb.IbEnd? && Shaped(cbs, [cb])
    ensures After(m, cbs) == m && NeverEmpty(m, cbs)
  {
    assert SameShape(cbs[0], [cb][0]);
    assert cbs == [cbs[0]];
    AfterOne(m, cbs[0]);
  }

  /** The end of a buffer that was entered with the given mask, and of whose items n masks are left. */
  lemma EndPops(m: Masks, mask: nat, r: Masks, cbs: seq<RawCallback>, n: nat)
    requires Leaves(Push(m, mask), r, n) && Shaped(cbs, [IbEnd])
    ensures NeverEmpty(r, cbs) && Leaves(m, After(r, cbs), n)
    ensures n == 0 ==> After(r, cbs) == m
    ensures n == 1 ==> After(r, cbs).current == mask
  {
    assert SameShape(cbs[0], [IbEnd][0]);
    assert cbs == [cbs[0]];
    AfterOne(r, cbs[0]);
    assert r.saved[|m.saved|] == Push(m, mask).saved[|m.saved|];
  }

  lemma ChainLeaves(m: Masks, mask: nat, r: Masks, t: Masks, n: nat, k: nat)
    requires Leaves(Push(m, mask), r, n) && Leaves(r, t, k)
    ensures Leaves(m, t, n + 1 + k)
  {
    assert t.saved[|m.saved|] == r.saved[|m.saved|] == Push(m, mask).saved[|m.saved|];
  }

  function LastTrace(b: Buffer): seq<Callback> {
    match b.next case Ends => [IbEnd] case ChainsTo(c) => Trace(c)
  }

  lemma BufferParts(b: Buffer, cbs: seq<RawCallback>) returns (items: seq<RawCallback>, last: seq<RawCallback>)
    requires Shaped(cbs, Trace(b))
    ensures cbs != [] && cbs == [cbs[0]] + items + last && cbs[0].RawIbStart?
    ensures Shaped(items, ItemTraces(b, |b.items|)) && Shaped(last, LastTrace(b))
  {
    var start := [IbStart(b.ib, b.index)];
    var trace := ItemTraces(b, |b.items|);
    assert Trace(b) == start + (trace + LastTrace(b));
    ShapedSplit(cbs, start, trace + LastTrace(b));
    assert SameShape(cbs[0], Trace(b)[0]);
    items, last := cbs[1..][..|trace|], cbs[1..][|trace|..];
    ShapedSplit(cbs[1..], trace, LastTrace(b));
  }

  lemma AfterParts(m: Masks, start: RawCallback, items: seq<RawCallback>, last: seq<RawCallback>)
    requires start.RawIbStart?
    ensures var m1 := Push(m, start.enableMask); var m2 := After(m1, items);
      && After(m, [start] + items + last) == After(m2, last)
      && (NeverEmpty(m1, items) && NeverEmpty(m2, last) ==> NeverEmpty(m, [start] + items + last))
  {
    StartPushes(m, start);
    AfterConcat(m, [start], items);
    AfterConcat(m, [start] + items, last);
  }

  lemma LeavesIff(m: Masks, r: Masks, n: nat)
    requires Leaves(m, r, n)
    ensures r == m <==> n == 0
  {
  }

  /** Each continuation leaves one mask more on the stack, so the masks are restored after a buffer exactly
      if nothing in it is continued. */
  lemma {:induction false} BufferMasks(b: Buffer, m: Masks, cbs: seq<RawCallback>)
    requires Shaped(cbs, Trace(b))
    ensures NeverEmpty(m, cbs) && Leaves(m, After(m, cbs), Continuations(b))
    ensures After(m, cbs) == m <==> Continuations(b) == 0
    decreases b, |b.items| + 1
  {
    hide Shaped, Leaves, After, NeverEmpty, Trace, ItemTraces, ItemContinuations, MaskTracker;
    var items, last := BufferParts(b, cbs);
    var mask, n := cbs[0].enableMask, ItemContinuations(b, |b.items|);
    AfterParts(m, cbs[0], items, last);
    var m1 := Push(m, mask);
    ItemMasks(b, |b.items|, m1, items);
    var m2 := After(m1, items);
    match b.next {
      case Ends =>
        EndPops(m, mask, m2, last, n);
      case ChainsTo(c) =>
        BufferMasks(c, m2, last);
        ChainLeaves(m, mask, m2, After(m2, last), n, Continuations(c));
    }
    LeavesIff(m, After(m, cbs), Continuations(b));
  }

  lemma {:induction false} ItemMasks(b: Buffer, n: nat, m: Masks, cbs: seq<RawCallback>)
    requires n <= |b.items| && Shaped(cbs, ItemTraces(b, n))
    ensures NeverEmpty(m, cbs) && Leaves(m, After(m, cbs), ItemContinuations(b, n))
    decreases b, n
  {
    hide SameShape, Leaves, Track, MaskTracker, Trace, Continuations;
    if n == 0 {
      LeavesNothing(m);
    } else {
      var before, after := ItemTraces(b, n - 1), ItemTrace(b, n - 1);
      ShapedSplit(cbs, before, after);
      var k := |before|;
      ItemMasks(b, n - 1, m, cbs[..k]);
      AfterConcat(m, cbs[..k], cbs[k..]);
      var r := After(m, cbs[..k]);
      match b.items[n - 1]
      case Emit(p) =>
        NeitherKeepsMasks(r, OnPacket(p), cbs[k..]);
      case Enter(c) =>
        BufferMasks(c, r, cbs[k..]);
        LeavesBoth(m, r, After(r, cbs[k..]), ItemContinuations(b, n - 1), Continuations(c));
    }
  }

  lemma LeavesNothing(m: Masks)
    ensures Leaves(m, m, 0)
  {
  }

  /** A buffer that is continued once, with no other continuation in it, leaves its own mask in force. */
  lemma ContinuedMaskStays(b: Buffer, m: Masks, cbs: seq<RawCallback>)
    requires Shaped(cbs, Trace(b)) && b.next.ChainsTo? && Continuations(b) == 1
    ensures cbs != [] && cbs[0].RawIbStart? && After(m, cbs) == Masks(cbs[0].enableMask, m.saved + [m.current])
  {
    hide Shaped, After, NeverEmpty, Trace, ItemTraces, MaskTracker;
    var items, last := BufferParts(b, cbs);
    AfterParts(m, cbs[0], items, last);
    var m1 := Push(m, cbs[0].enableMask);
    ItemMasks(b, |b.items|, m1, items);
    assert After(m1, items) == m1;
    BufferMasks(b.next.buffer, m1, last);
  }

  // ---------- submits ----------

  function TotalContinuations(buffers: seq<Buffer>, n: nat): nat
    requires n <= |buffers|
  {
    if n == 0 then 0 else TotalContinuations(buffers, n - 1) + Continuations(buffers[n - 1])
  }

  lemma {:induction false} BuffersMasks(buffers: seq<Buffer>, n: nat, m: Masks, cbs: seq<RawCallback>)
    requires n <= |buffers| && Shaped(cbs, Traces(buffers, n))
    ensures NeverEmpty(m, cbs) && Leaves(m, After(m, cbs), TotalContinuations(buffers, n))
  {
    hide SameShape, Leaves, Track, MaskTracker, Trace, Continuations;
    if n == 0 {
      LeavesNothing(m);
    } else {
      var before, after := Traces(buffers, n - 1), Trace(buffers[n - 1]);
      ShapedSplit(cbs, before, after);
      var k := |before|;
      BuffersMasks(buffers, n - 1, m, cbs[..k]);
      AfterConcat(m, cbs[..k], cbs[k..]);
      var r := After(m, cbs[..k]);
      BufferMasks(buffers[n - 1], r, cbs[k..]);
      LeavesBoth(m, r, After(r, cbs[k..]), TotalContinuations(buffers, n - 1), Continuations(buffers[n - 1]));
    }
  }

  /** The next submit starts with the masks that this one started with exactly if it had no continuation:
      the reset in between does not restore them. */
  lemma {:induction false} SubmitMasks(buffers: seq<Buffer>, presents: nat, m: Masks, cbs: seq<RawCallback>)
    requires Shaped(cbs, SubmitTrace(buffers, presents))
    ensures NeverEmpty(m, cbs) && Leaves(m, After(m, cbs), TotalContinuations(buffers, |buffers|))
    ensures After(m, cbs) == m <==> TotalContinuations(buffers, |buffers|) == 0
  {
    hide NeverEmpty, Leaves, Traces, After;
    var inside := Traces(buffers, |buffers|);
    ShapedSplit(cbs, [SubmitStart] + inside, [SubmitEnd(presents)]);
    var k := 1 + |inside|;
    ShapedSplit(cbs[..k], [SubmitStart], inside);
    var start, middle, end := cbs[..k][..1], cbs[..k][1..], cbs[k..];
    NeitherKeepsMasks(m, SubmitStart, start);
    BuffersMasks(buffers, |buffers|, m, middle);
    var r := After(m, middle);
    NeitherKeepsMasks(r, SubmitEnd(presents), end);
    AfterConcat(m, start, middle);
    AfterConcat(m, cbs[..k], end);
    LeavesIff(m, r, TotalContinuations(buffers, |buffers|));
  }
}
