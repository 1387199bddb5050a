/** Which passes have a recorded range, over every trace. */
module Pm4Ranges {
  import opened Pm4Trace
  import opened Pm4Effects
  import opened Pm4Stacks
  import opened Pm4Events

  predicate IsPassOf(rows: seq<Row>, m: nat, submit: int) {
    m < |rows| && rows[m].kind.PassNode? && rows[m].eventParent == submit
  }

  /** Another pass of the same submit comes after m. */
  ghost predicate HasNextPass(rows: seq<Row>, m: nat)
    requires m < |rows|
  {
    exists n: nat :: m < n && IsPassOf(rows, n, rows[m].eventParent)
  }

  /** A pass has a range exactly if it has been closed by the next one. The current pass is the last one of
      the submit. */
  ghost predicate Ranged(s: State) {
    && s.submit < |s.rows| && (forall v :: v in s.eventRanges ==> v < |s.rows|)
    && (forall m: nat {:trigger s.rows[m]} :: m < |s.rows| && s.rows[m].kind.PassNode? ==>
          s.rows[m].eventParent <= s.submit && (m in s.eventRanges <==> HasNextPass(s.rows, m)))
    && (if s.pass < 0 then forall m: nat :: !IsPassOf(s.rows, m, s.submit)
        else IsPassOf(s.rows, s.pass, s.submit) && forall m: nat :: IsPassOf(s.rows, m, s.submit) ==> m <= s.pass)
  }

  lemma SamePasses(rows: seq<Row>, more: seq<Row>)
    requires rows <= more && forall i :: |rows| <= i < |more| ==> !more[i].kind.PassNode?
    ensures forall m: nat, submit :: IsPassOf(more, m, submit) <==> IsPassOf(rows, m, submit)
    ensures forall m: nat {:trigger more[m]} :: m < |rows| ==>
      more[m] == rows[m] && (HasNextPass(more, m) <==> HasNextPass(rows, m))
  {
    assert forall m: nat :: m < |rows| ==> more[m] == rows[m];
    forall m: nat, submit
      ensures IsPassOf(more, m, submit) <==> IsPassOf(rows, m, submit)
    {
    }
    forall m: nat | m < |rows|
      ensures HasNextPass(more, m) <==> HasNextPass(rows, m)
    {
      if HasNextPass(more, m) {
        var n: nat :| m < n && IsPassOf(more, n, more[m].eventParent);
        assert IsPassOf(rows, n, rows[m].eventParent);
      }
      if HasNextPass(rows, m) {
        var n: nat :| m < n && IsPassOf(rows, n, rows[m].eventParent);
        assert IsPassOf(more, n, more[m].eventParent);
      }
    }
  }

  /** Ranges may be added for other nodes. */
  lemma RangedGrow(s: State, t: State)
    requires Ranged(s) && s.rows <= t.rows && forall i :: |s.rows| <= i < |t.rows| ==> !t.rows[i].kind.PassNode?
    requires t.submit == s.submit && t.pass == s.pass
    requires forall v :: v in t.eventRanges <==> v in s.eventRanges || (|s.rows| <= v < |t.rows| && v in t.eventRanges)
    ensures Ranged(t)
  {
    SamePasses(s.rows, t.rows);
    hide HasNextPass, IsPassOf;
  }

  lemma RangedSubmit(s: State)
    requires Ranged(s)
    ensures Ranged(StartSubmit(s))
  {
    var t := StartSubmit(s);
    SamePasses(s.rows, t.rows);
    hide HasNextPass;
    assert t.rows[|s.rows|].kind == SubmitNode;
    forall m: nat
      ensures !IsPassOf(t.rows, m, t.submit)
    {
      assert m < |s.rows| ==> t.rows[m] == s.rows[m];
    }
  }

  /** A new pass closes the one before it. */
  lemma RangedPass(s: State, t: State)
    requires Ranged(s) && s.rows <= t.rows && |s.rows| < |t.rows| && t.submit == s.submit
    requires t.rows[|t.rows| - 1].kind.PassNode? && t.rows[|t.rows| - 1].eventParent == s.submit
    requires forall i :: |s.rows| <= i < |t.rows| - 1 ==> !t.rows[i].kind.PassNode?
    requires t.pass == |t.rows| - 1
    requires forall v :: v in t.eventRanges <==> v in s.eventRanges || (v == s.pass && s.pass >= 0)
    ensures Ranged(t)
  {
    var n, most := |t.rows| - 1, t.rows[..|t.rows| - 1];
    SamePasses(s.rows, most);
    assert forall i :: 0 <= i < n ==> most[i] == t.rows[i];
    assert IsPassOf(t.rows, n, s.submit);
    assert forall m: nat, submit :: m < n ==> (IsPassOf(t.rows, m, submit) <==> IsPassOf(s.rows, m, submit));
    forall m: nat | m < |s.rows| && s.rows[m].kind.PassNode?
      ensures m in t.eventRanges <==> HasNextPass(t.rows, m)
    {
      if s.rows[m].eventParent == s.submit {
        assert IsPassOf(s.rows, m, s.submit) && HasNextPass(t.rows, m);
        if m != s.pass {
          assert IsPassOf(s.rows, s.pass, s.rows[m].eventParent) && HasNextPass(s.rows, m);
        }
      } else {
        assert HasNextPass(t.rows, m) <==> HasNextPass(s.rows, m);
      }
    }
    assert !HasNextPass(t.rows, n);
  }

  lemma RangedPacket(s: State, p: Packet)
    requires Ranged(s) && Tracked(s) && IsTyped(p)
    ensures Ranged(AfterPacket(s, p))
  {
    hide AfterPacket, PacketNodes, Tracked, Ranged;
    var t := AfterPacket(s, p);
    NodesShape(s, p);
    RangedIs(s);
    if OpensPass(p.header) {
      PassEffect(s, p);
      RangedPass(s, t);
    } else {
      PacketEffect(s, p);
      RangedGrow(s, t);
    }
  }

  lemma RangedIs(s: State)
    requires Ranged(s)
    ensures forall v :: v in s.eventRanges ==> v < |s.rows|
  {
  }

  lemma RangedStep(s: State, cb: Callback)
    requires Ranged(s) && Recorded(s)
    ensures Ranged(Step(s, cb))
  {
    hide AfterPacket, Ranged, Recorded, StartIb, EndIb, EndSubmit, StartSubmit;
    match cb
    case SubmitStart => RangedSubmit(s);
    case OnPacket(p) =>
      if IsTyped(p) {
        RecordedTracked(s);
        RangedPacket(s, p);
      } else {
        Untyped(s, p);
      }
    case _ => RangedOther(s, cb);
  }

  lemma RecordedTracked(s: State)
    requires Recorded(s)
    ensures Tracked(s)
  {
  }

  lemma RangedOther(s: State, cb: Callback)
    requires Ranged(s) && !cb.SubmitStart? && !cb.OnPacket?
    ensures Ranged(Step(s, cb))
  {
    hide Ranged;
    RangedGrow(s, Step(s, cb));
  }

  /** In every trace a pass has a recorded range exactly if another pass of its submit comes after it. */
  lemma {:induction false} RangedRun(flatten: bool, cbs: seq<Callback>)
    ensures Ranged(Run(Start(flatten), cbs))
  {
    if cbs != [] {
      hide Step, Ranged, Recorded;
      var most := cbs[..|cbs| - 1];
      RangedRun(flatten, most);
      StartRecorded(flatten);
      RecordedRun(Start(flatten), most);
      RangedStep(Run(Start(flatten), most), cbs[|cbs| - 1]);
    }
  }
}
