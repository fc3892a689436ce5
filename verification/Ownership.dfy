/** Ownership of one native child while it is being reaped (worker/native.rs).

    A child is handed from its slot to a reaper task, which waits for it uninterrupted. The caller
    may be dropped while it waits for the task, the wait may fail, and the task may be aborted. */
module Ownership {
  import opened Wrappers

  /** The reaper task. `Lost` keeps the number of the child only to account for it. */
  datatype Reaper = Waiting(child: nat) | Lost(child: nat)

  /** The pair of owners that `Process` and `Preparation` both carry. */
  datatype Native = Native(child: Option<nat>, reaping: Option<Reaper>)

  /** How awaiting the reaper task ends. */
  datatype Wait = Exited | WaitFailed | TaskAborted

  datatype Reap = Done | ReapFailed | TaskFailed

  function Spawned(child: nat): Native {
    Native(Some(child), None)
  }

  /** The children a pair of owners still holds. */
  function Held(n: Native): set<nat> {
    (if n.child.Some? then {n.child.value} else {}) + (if n.reaping.Some? then {n.reaping.value.child} else {})
  }

  /** A child has one owner: never the slot and the reaper at once. */
  predicate Single(n: Native) {
    n.child.None? || n.reaping.None?
  }

  /** Kill the child and hand it to a reaper task, unless one already has it. */
  function BeginReap(n: Native): (n': Native)
    ensures Held(n') == Held(n) && (Single(n) ==> Single(n'))
    ensures Single(n) ==> n'.child.None?
  {
    if n.reaping.None? && n.child.Some? then Native(None, Some(Waiting(n.child.value))) else n
  }

  /** What the caller finds once the task it awaited ended in `wait`. */
  function FinishReap(n: Native, wait: Wait): (r: (Native, Reap))
    ensures Single(n) && n.child.None? ==>
              Single(r.0) && (if r.1 == Done then Held(r.0) == {} else Held(r.0) == Held(n))
  {
    match n.reaping
    case None => (n, Done)
    case Some(Lost(_)) => (n, TaskFailed)
    case Some(Waiting(c)) =>
      match wait
      case Exited => (n.(reaping := None), Done)
      case WaitFailed => (Native(Some(c), None), ReapFailed)
      case TaskAborted => (n.(reaping := Some(Lost(c))), TaskFailed)
  }

  /** Something that happens to the owners of one child. `Abandon` is a caller dropped between
      beginning and finishing. */
  datatype Event = Begin | Finish(wait: Wait) | Abandon

  function Apply(n: Native, e: Event): Native {
    match e
    case Begin => BeginReap(n)
    case Finish(wait) => FinishReap(BeginReap(n), wait).0
    case Abandon => BeginReap(n)
  }

  function ApplyAll(n: Native, events: seq<Event>): Native {
    if events == [] then n else Apply(ApplyAll(n, events[..|events| - 1]), events[|events| - 1])
  }

  /** Whether some wait in the history both reached the reaper task and saw the child exit. */
  ghost predicate ReapedBy(n: Native, events: seq<Event>) {
    exists i | 0 <= i < |events| ::
      events[i] == Finish(Exited) && BeginReap(ApplyAll(n, events[..i])).reaping.Some? &&
      BeginReap(ApplyAll(n, events[..i])).reaping.value.Waiting?
  }

  /** Through every history of failed, abandoned and repeated cleanups a child has exactly one
      owner until a wait has really seen it exit, and from then on it has none. */
  lemma {:induction false} OneOwnerUntilReaped(child: nat, events: seq<Event>)
    ensures var n := ApplyAll(Spawned(child), events);
            && Single(n)
            && Held(n) == if ReapedBy(Spawned(child), events) then {} else {child}
    decreases |events|
  {
    var n := ApplyAll(Spawned(child), events);
    if events != [] {
      var front := events[..|events| - 1];
      OneOwnerUntilReaped(child, front);
      assert forall i | 0 <= i < |front| :: front[..i] == events[..i];
      if ReapedBy(Spawned(child), front) {
        var i :| 0 <= i < |front| && front[i] == Finish(Exited) &&
          BeginReap(ApplyAll(Spawned(child), front[..i])).reaping.Some? &&
          BeginReap(ApplyAll(Spawned(child), front[..i])).reaping.value.Waiting?;
        assert events[i] == front[i] && events[..i] == front[..i];
        assert ReapedBy(Spawned(child), events);
      } else {
        assert events[..|events| - 1] == front;
        forall i | 0 <= i < |events| && i != |events| - 1 && events[i] == Finish(Exited)
          ensures BeginReap(ApplyAll(Spawned(child), events[..i])).reaping.None? ||
                  BeginReap(ApplyAll(Spawned(child), events[..i])).reaping.value.Lost?
        {
          assert front[i] == events[i];
        }
      }
    }
  }
}
