/** Bin and draw-table buffers come after the packets that cause them, decided from a trace alone. */
module Pm4Causes {
  import opened Pm4Trace
  import opened Pm4Effects

  /** A bin is open: its start packet has come and its end packet has not. A draw table has come. */
  datatype Causes = Causes(bin: bool, table: bool)

  function After(c: Causes, cb: Callback): Causes {
    match cb
    case OnPacket(Packet(Type7(StartsBin), _)) => c.(bin := true)
    case OnPacket(Packet(Type7(EndsBin), _)) => c.(bin := false)
    case OnPacket(Packet(Type7(DrawsTable), _)) => c.(table := true)
    case _ => c
  }

  function AfterAll(c: Causes, cbs: seq<Callback>): Causes {
    if cbs == [] then c else After(AfterAll(c, cbs[..|cbs| - 1]), cbs[|cbs| - 1])
  }

  predicate HasCause(c: Causes, cb: Callback) {
    cb.IbStart? && NeedsField(cb.ib) ==> if cb.ib == FixedStrideDrawTable then c.table else c.bin
  }

  /** Every bin buffer starts while a bin is open, and every draw-table buffer after a draw table. */
  predicate InOrder(c: Causes, cbs: seq<Callback>) {
    cbs == [] || (InOrder(c, cbs[..|cbs| - 1]) && HasCause(AfterAll(c, cbs[..|cbs| - 1]), cbs[|cbs| - 1]))
  }

  function CausesOf(s: State): Causes {
    Causes(s.startBin != NONE, s.drawTable != NONE)
  }

  lemma CausesStep(s: State, cb: Callback)
    ensures CausesOf(Step(s, cb)) == After(CausesOf(s), cb)
  {
    hide AfterPacket;
    match cb
    case OnPacket(p) =>
      if IsTyped(p) {
        PacketEffect(s, p);
      } else {
        Untyped(s, p);
      }
    case _ =>
  }

  lemma {:induction false} CausesRun(s: State, cbs: seq<Callback>)
    ensures CausesOf(Run(s, cbs)) == AfterAll(CausesOf(s), cbs)
  {
    hide Step, After;
    if cbs != [] {
      CausesRun(s, cbs[..|cbs| - 1]);
      CausesStep(Run(s, cbs[..|cbs| - 1]), cbs[|cbs| - 1]);
    }
  }

  /** The run finds the packets it needs exactly if the trace is in order. */
  lemma {:induction false} InOrderIff(s: State, cbs: seq<Callback>)
    ensures AllCaused(s, cbs) <==> InOrder(CausesOf(s), cbs)
  {
    hide Step, After;
    if cbs != [] {
      InOrderIff(s, cbs[..|cbs| - 1]);
      CausesRun(s, cbs[..|cbs| - 1]);
    }
  }
}
