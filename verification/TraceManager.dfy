/** AndroidTraceManager: the steps that run under its lock, in any interleaving. */
module TraceManagement {

  const TWO_32: nat := 0x1_0000_0000

  datatype TraceState = Idle | Triggered | Tracing | Finished | Unknown

  /** The guarded state, the frame counters, and whether the driver is capturing. */
  datatype Manager = Manager(state: TraceState, capturing: bool, frame: nat, start: nat, numFrames: nat)

  /** A trigger; the two later steps of a trace by duration; and the two steps of a new frame. */
  datatype Step = Trigger | StartDuration | StopDuration | CountFrame | CheckFrame

  function Elapsed(m: Manager): nat {
    (m.frame - m.start) % TWO_32
  }

  function Do(m: Manager, step: Step): Manager {
    match step
    case Trigger => m.(state := Triggered)
    case StartDuration => m.(state := Tracing, capturing := true)
    case StopDuration => m.(state := Finished, capturing := false)
    case CountFrame => m.(frame := (m.frame + 1) % TWO_32)
    case CheckFrame =>
      if m.state == Triggered then m.(state := Tracing, capturing := true, start := m.frame)
      else if m.state == Tracing && Elapsed(m) >= m.numFrames then m.(state := Finished, capturing := false)
      else m
  }

  function Run(m: Manager, steps: seq<Step>): Manager {
    if steps == [] then m else Do(Run(m, steps[..|steps| - 1]), steps[|steps| - 1])
  }

  /** Capturing while tracing, and not before or after. A trigger during a trace leaves it running. */
  predicate Matches(m: Manager) {
    (m.state == Tracing ==> m.capturing) && (m.state == Idle || m.state == Finished ==> !m.capturing)
  }

  lemma {:induction false} AlwaysMatches(m: Manager, steps: seq<Step>)
    requires Matches(m)
    ensures Matches(Run(m, steps))
  {
    if steps != [] {
      AlwaysMatches(m, steps[..|steps| - 1]);
    }
  }

  function Frames(n: nat): seq<Step> {
    if n == 0 then [] else Frames(n - 1) + [CountFrame, CheckFrame]
  }

  /** Counting on, and counting back, past the wrap-around. */
  lemma NextFrame(f: nat, n: nat)
    requires n > 0
    ensures ((f + n - 1) % TWO_32 + 1) % TWO_32 == (f + n) % TWO_32
  {
    assert f + n - 1 == (f + n - 1) / TWO_32 * TWO_32 + (f + n - 1) % TWO_32;
    Shift((f + n - 1) % TWO_32 + 1, (f + n - 1) / TWO_32);
  }

  lemma Shift(x: nat, k: nat)
    ensures (k * TWO_32 + x) % TWO_32 == x % TWO_32
  {
    if k > 0 {
      Shift(x, k - 1);
    }
  }

  lemma ElapsedIs(f: nat, n: nat)
    requires f < TWO_32 && 0 < n <= TWO_32
    ensures ((f + n) % TWO_32 - (f + 1) % TWO_32) % TWO_32 == n - 1
  {
  }

  lemma RunFrame(m: Manager, n: nat)
    requires n > 0
    ensures Run(m, Frames(n)) == Do(Do(Run(m, Frames(n - 1)), CountFrame), CheckFrame)
  {
    assert Frames(n)[..|Frames(n)| - 1] == Frames(n - 1) + [CountFrame];
    assert (Frames(n - 1) + [CountFrame])[..|Frames(n - 1)|] == Frames(n - 1);
  }

  /** What n frames after a trigger have made of the manager: it captures for the requested number of
      frames, but for one frame at least. */
  ghost predicate Traced(m: Manager, n: nat, r: Manager) {
    var length := if m.numFrames == 0 then 1 else m.numFrames;
    && r.frame == (m.frame + n) % TWO_32 && r.numFrames == m.numFrames
    && (if n == 0 then r == m
        else if n <= length then r.state == Tracing && r.capturing && r.start == (m.frame + 1) % TWO_32
        else r.state == Finished && !r.capturing)
  }

  lemma FrameStep(m: Manager, n: nat, r: Manager)
    requires n > 0 && m.state == Triggered && m.frame < TWO_32 && m.numFrames < TWO_32 && Traced(m, n - 1, r)
    ensures Traced(m, n, Do(Do(r, CountFrame), CheckFrame))
  {
    NextFrame(m.frame, n);
    if n <= TWO_32 {
      ElapsedIs(m.frame, n);
    }
  }

  /** A trace by frame that nothing interferes with captures from the next frame on, also when the frame
      counter wraps around. */
  lemma {:induction false} TraceByFrame(m: Manager, n: nat)
    requires m.state == Triggered && m.frame < TWO_32 && m.numFrames < TWO_32
    ensures Traced(m, n, Run(m, Frames(n)))
  {
    if n > 0 {
      TraceByFrame(m, n - 1);
      RunFrame(m, n);
      FrameStep(m, n, Run(m, Frames(n - 1)));
    }
  }

  class AndroidTraceManager {
    var state: TraceState
    var frameNum: nat
    var startFrame: nat
    var numFramesToTrace: nat
    var capturing: bool

    function View(): Manager
      reads this
    {
      Manager(state, capturing, frameNum, startFrame, numFramesToTrace)
    }

    constructor (numFrames: nat)
      ensures View() == Manager(Idle, false, 0, 0, numFrames)
    {
      state, capturing, frameNum, startFrame, numFramesToTrace := Idle, false, 0, 0, numFrames;
    }

    method TriggerTrace()
      modifies this`state
      ensures View() == Do(old(View()), Trigger)
    {
      state := Triggered;
    }

    method StartTraceByDuration()
      modifies this`state, this`capturing
      ensures View() == Do(old(View()), StartDuration)
    {
      capturing := true;
      state := Tracing;
    }

    method StopTraceByDuration()
      modifies this`state, this`capturing
      ensures View() == Do(old(View()), StopDuration)
    {
      capturing := false;
      state := Finished;
    }

    /** The counter is incremented outside of the lock. */
    method OnNewFrame()
      requires frameNum < TWO_32 && startFrame < TWO_32
      modifies this
      ensures View() == Do(Do(old(View()), CountFrame), CheckFrame)
    {
      frameNum := (frameNum + 1) % TWO_32;
      if state == Triggered {
        capturing := true;
        state := Tracing;
        startFrame := frameNum;
      } else if state == Tracing && (frameNum + TWO_32 - startFrame) % TWO_32 >= numFramesToTrace {
        capturing := false;
        state := Finished;
      }
    }
  }

  lemma {:induction false} RunAfter(m: Manager, first: Step, steps: seq<Step>)
    ensures Run(m, [first] + steps) == Run(Do(m, first), steps)
  {
    if steps == [] {
      assert [first] + steps == [first] && [first][..0] == [];
      assert Run(m, []) == m;
    } else {
      RunAfter(m, first, steps[..|steps| - 1]);
      assert ([first] + steps)[..|steps|] == [first] + steps[..|steps| - 1];
    }
  }

  /** A trigger in any state starts such a trace. Without frames, a trace by duration captures from its start
      to its end. */
  lemma TriggerTraces(m: Manager, n: nat)
    requires m.frame < TWO_32 && m.numFrames < TWO_32
    ensures Traced(m.(state := Triggered), n, Run(m, [Trigger] + Frames(n)))
    ensures Run(m, [Trigger] + [StartDuration]) == m.(state := Tracing, capturing := true)
    ensures Run(m, [Trigger] + [StartDuration, StopDuration]) == m.(state := Finished, capturing := false)
  {
    RunAfter(m, Trigger, Frames(n));
    TraceByFrame(m.(state := Triggered), n);
    RunAfter(m, Trigger, [StartDuration]);
    RunAfter(m, Trigger, [StartDuration, StopDuration]);
    var t := m.(state := Triggered);
    assert [StartDuration] == [StartDuration] + [] && [StartDuration, StopDuration] == [StartDuration] + [StopDuration];
    RunAfter(t, StartDuration, []);
    RunAfter(t, StartDuration, [StopDuration]);
    assert [StopDuration] == [StopDuration] + [];
    RunAfter(Do(t, StartDuration), StopDuration, []);
  }
}
