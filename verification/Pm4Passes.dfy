/** The hierarchy creator with its state tracker, as the emulator calls it. */
module Pm4Passes {
  import opened Pm4Trace
  import opened Pm4Tracker
  import opened Pm4Hierarchy

  class TrackedCreator<T(!new)> {
    const creator: CommandHierarchyCreator
    var tracker: T
    const k: Tracker<T>

    ghost function View(): HierarchyPass<T>
      reads this, creator
    {
      HierarchyPass(creator.View(), tracker)
    }

    constructor (flatten: bool, k_: Tracker<T>, start: T)
      ensures k == k_ && fresh(creator) && creator.Ready() && View() == HierarchyPass(Start(flatten), start)
    {
      creator := new CommandHierarchyCreator(flatten);
      tracker, k := start, k_;
    }

    /** The tracker first, and then the hierarchy with what the tracker says. */
    method Dispatch(cb: RawCallback)
      requires creator.Ready()
      requires var seen := Resolved(k, Track(k, tracker, cb), cb);
        Allowed(creator.View(), seen) && Caused(creator.View(), seen)
      modifies this`tracker, creator
      ensures creator.Ready() && View() == HierarchyStep(k, old(View()), cb)
    {
      hide Allowed, Caused, Step, Resolved, Track;
      tracker := Track(k, tracker, cb);
      creator.Dispatch(Resolved(k, tracker, cb));
    }
  }
}
