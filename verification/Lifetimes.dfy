/** The supervisor as the manager sees it: what `ManagerModel` takes for granted of a supervisor that
    closes is what `Supervisor` proves of the actor behind it. */
module Lifetimes {
  import opened Wrappers
  import opened Supervisor
  import M = ManagerModel
  import W = Wire
  import R = ReplayWindow

  /** An actor's share in the manager's book. */
  ghost function Face(a: Actor, cleanupFailed: bool): M.Supervisor reads a {
    M.Supervisor(a.closed, cleanupFailed, a.spawned, a.reaped, a.cache.Some?)
  }

  /** An actor that is closed has released everything, as the manager's machine requires of a step that
      closes a supervisor; until then it never counts as reaped what it did not spawn. */
  lemma ClosedActorsAreReleased(a: Actor, cleanupFailed: bool)
    requires a.Conserved()
    ensures a.closed ==> M.Released(Face(a, cleanupFailed))
    ensures a.reaped <= a.spawned
  {
  }

  /** A supervisor from the moment it is built to the moment it gives up or closes. */
  method Life(plan: Plan, now: nat, commands: seq<Command>, retries: nat) returns (a: Actor)
    ensures fresh(a) && a.Conserved() && W.Orderly(a.traffic)
    ensures forall operation: nat :: R.Count(W.Operations(a.traffic), operation) <= 2
    ensures a.closed ==> M.Released(Face(a, false))
  {
    a := new Actor(plan, now);
    a.Run(commands, retries);
    ClosedActorsAreReleased(a, false);
  }
}
