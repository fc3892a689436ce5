/** The supervisor of one persistent worker (worker/actor.rs over worker/native.rs).

    `Actor` has the fields of the source's actor, and beside them a record, for the proofs only, of
    every child it spawned, every frame it began and every reply it recorded. Whatever the world
    decides (whether a spawn succeeds, what a wait reports, how an exchange ends) is chosen freely.
    Every `await` is a call of `Suspend`, at which time passes and the stop signal may arrive, and
    which demands that every child is accounted for at that very moment. */
module Supervisor {
  import opened Wrappers
  import opened Ownership
  import opened ReplayWindow
  import W = Wire

  const BACKOFF: nat := 300_000

  /** The parts of a plan the supervisor decides by, times in milliseconds. */
  datatype Plan = Plan(
    preparationSteps: nat,
    recipeSteps: Option<nat>,     // a cache recipe, if there is one
    idleEnabled: bool,            // an idle timeout and a configured idle backend
    idleTimeout: nat)

  /** A worker process: its owners, and whether its stderr task is still to be joined. */
  datatype Process = Process(id: nat, native: Native, stderr: bool)

  /** How a cache session found its scope. */
  datatype Found = Hit | Legacy | Miss

  /** How a preparation command ended: its output was drained within the limit and in time, its end
      was seen, and it reported success. */
  datatype CommandEnd = CommandEnd(drained: bool, seen: bool, success: bool)

  const SUCCEEDED := CommandEnd(true, true, true)

  predicate AllSucceeded(ends: seq<CommandEnd>) {
    forall end | end in ends :: end == SUCCEEDED
  }

  datatype Cleaned = Clean | Retained | Dropped
  datatype Started = Finished(outcome: Outcome) | Elapsed

  /** How an exchange with a running worker ends. */
  datatype Exchange = Replied(ok: bool, body: string) | Broke | TimedOut | StopSeen

  function BrokenBy(x: Exchange): Reason {
    match x
    case Replied(_, _) => RemoteFailed
    case Broke => ExchangeFailed
    case TimedOut => RequestTimeout
    case StopSeen => Canceled
  }

  datatype AttemptEnd = Ended(outcome: Outcome) | Again(reason: Reason)

  datatype Command = Tick | Start | Request(request: Request, deadline: nat, abandoned: bool)

  lemma RepeatTwice(s: seq<nat>, operation: nat, n: nat, m: nat)
    ensures s + Repeat(operation, n) + Repeat(operation, m) == s + Repeat(operation, n + m)
  {
  }

  ghost function ProcessHolds(process: Option<Process>): set<nat> {
    if process.Some? then Held(process.value.native) else {}
  }

  ghost function PreparationHolds(preparation: Option<Native>): set<nat> {
    if preparation.Some? then Held(preparation.value) else {}
  }

  /** Every child ever spawned is held by the process slot, held by the preparation slot, or reaped,
      and only one of these. The cache session, with its lock and staging directory, is there as
      long as any command it started is. A closed supervisor holds nothing. */
  ghost predicate Custody(
    process: Option<Process>, preparation: Option<Native>, cache: Option<Found>, closed: bool,
    born: nat, spawned: set<nat>, reaped: set<nat>, cacheChildren: set<nat>)
  {
    && (process.Some? ==> Single(process.value.native) && Held(process.value.native) <= {process.value.id})
    && (preparation.Some? ==> Single(preparation.value))
    && spawned == ProcessHolds(process) + PreparationHolds(preparation) + reaped
    && ProcessHolds(process) !! PreparationHolds(preparation)
    && ProcessHolds(process) !! reaped
    && PreparationHolds(preparation) !! reaped
    && (forall c | c in spawned :: c < born)
    && (process.Some? ==> process.value.id < born)
    && cacheChildren <= PreparationHolds(preparation) + reaped
    && (cache.None? ==> cacheChildren <= reaped)
    && (closed ==> process.None? && preparation.None? && cache.None?)
  }

  ghost predicate Traffic(traffic: W.Traffic, process: Option<Process>, born: nat) {
    && W.Orderly(traffic)
    && W.Below(traffic, born)
    && (process.Some? ==> W.Below(traffic, process.value.id + 1))
  }

  /** Traffic is orderly, and a supervisor that finished preparing holds nothing of it. */
  ghost predicate Pace(
    prepared: Option<bool>, preparation: Option<Native>, cache: Option<Found>,
    traffic: W.Traffic, process: Option<Process>, running: bool, born: nat)
  {
    && (prepared == Some(true) ==> preparation.None? && cache.None?)
    && Traffic(traffic, process, born)
    && (running ==> process.Some? && process.value.native == Spawned(process.value.id))
  }

  ghost function Write(t: W.Traffic, process: nat, operation: nat): (t': W.Traffic)
    requires W.Orderly(t) && W.MaySend(t, process, operation)
    ensures W.Orderly(t') && W.Below(t', process + 1)
    ensures W.Operations(t') == W.Operations(t) + Repeat(operation, 1)
    ensures W.Outstanding(t', process) == {operation}
  {
    W.Extend(t, W.Sent(process, operation));
    assert Repeat(operation, 1) == [operation];
    t + [W.Sent(process, operation)]
  }

  ghost function Settle(t: W.Traffic, process: nat, operation: nat): (t': W.Traffic)
    requires W.Orderly(t) && W.Below(t, process + 1) && W.Outstanding(t, process) == {operation}
    ensures W.Orderly(t') && W.Below(t', process + 1)
    ensures W.Operations(t') == W.Operations(t) && W.Outstanding(t', process) == {}
  {
    W.Extend(t, W.Answered(process, operation));
    t + [W.Answered(process, operation)]
  }

  class Actor {
    const plan: Plan
    // the source's fields
    var process: Option<Process>
    var preparation: Option<Native>
    var cache: Option<Found>
    var prepared: Option<bool>
    var running: bool
    var lastUsed: nat
    var retryAfter: Option<nat>
    var replies: map<nat, Entry>
    var highest: nat
    var stop: bool
    var closed: bool
    // the world
    var now: nat
    var born: nat
    // the record
    ghost var spawned: set<nat>
    ghost var reaped: set<nat>
    ghost var cacheChildren: set<nat>
    ghost var publications: nat
    ghost var traffic: W.Traffic
    ghost var log: map<nat, Entry>

    ghost function HeldByProcess(): set<nat> reads this {
      ProcessHolds(process)
    }

    ghost function HeldByPreparation(): set<nat> reads this {
      PreparationHolds(preparation)
    }

    ghost predicate Conserved() reads this {
      Custody(process, preparation, cache, closed, born, spawned, reaped, cacheChildren)
    }

    ghost predicate Paced() reads this {
      Pace(prepared, preparation, cache, traffic, process, running, born)
    }

    /** Besides, a worker that counts as running owes nothing. */
    ghost predicate Settled() reads this {
      Paced() && (running ==> W.Outstanding(traffic, process.value.id) == {})
    }

    ghost function View(): Ledger reads this {
      Ledger(replies, highest, log, W.Operations(traffic))
    }

    ghost predicate Valid() reads this {
      Conserved() && Settled() && Consistent(View())
    }

    constructor (plan: Plan, now: nat)
      ensures Valid() && this.plan == plan && View() == EMPTY && spawned == {} && !closed && !stop
      ensures prepared == None && process == None && cache == None && preparation == None
      ensures publications == 0 && traffic == []
    {
      this.plan := plan;
      process, preparation, cache, prepared := None, None, None, None;
      running, stop, closed := false, false, false;
      lastUsed, this.now, retryAfter := now, now, None;
      replies, highest := map[], 0;
      born := 0;
      spawned, reaped, cacheChildren, publications := {}, {}, {}, 0;
      traffic, log := [], map[];
    }

    // -------------------------------------------------------------- the world

    /** Reading the clock. */
    method Now() returns (t: nat)
      modifies this`now
      ensures old(now) <= now == t
    {
      var passed: nat :| 0 <= passed;
      now := now + passed;
      t := now;
    }

    /** Reading the stop signal, which is never taken back. */
    method StopRequested() returns (b: bool)
      modifies this`stop
      ensures old(stop) ==> stop
      ensures b == stop
    {
      var arrived: bool := *;
      stop := stop || arrived;
      b := stop;
    }

    /** A suspension point. Every child must be accounted for here. */
    method Suspend()
      requires Conserved()
      modifies this`now, this`stop
      ensures now >= old(now) && (old(stop) ==> stop)
      ensures Conserved()
    {
      var passed: nat :| 0 <= passed;
      var arrived: bool := *;
      now := now + passed;
      stop := stop || arrived;
    }

    // -------------------------------------------------------------- cleanup

    /** Reap the preparation child. On failure it is still held. */
    method ReapPreparation() returns (r: Reap)
      requires Conserved() && preparation.Some?
      modifies this`preparation, this`reaped, this`now, this`stop
      ensures Conserved() && preparation.Some?
      ensures now >= old(now) && (old(stop) ==> stop)
      ensures r == Reap.Done ==> HeldByPreparation() == {} && reaped == old(reaped + HeldByPreparation())
      ensures r != Reap.Done ==>
                HeldByPreparation() == old(HeldByPreparation()) != {} && reaped == old(reaped)
    {
      preparation := Some(BeginReap(preparation.value));
      Suspend();
      var wait: Wait := *;
      ghost var held := HeldByPreparation();
      var (native, result) := FinishReap(preparation.value, wait);
      preparation := Some(native);
      r := result;
      if r == Reap.Done {
        reaped := reaped + held;
      }
    }

    /** Reap the worker process and join its stderr task. When the caller may be dropped it can be
        dropped at either wait. */
    method ReapProcess(droppable: bool) returns (r: Cleaned)
      requires Conserved() && process.Some? && !running
      modifies this`process, this`reaped, this`now, this`stop
      ensures Conserved() && process.Some? && process.value.id == old(process.value.id)
      ensures now >= old(now) && (old(stop) ==> stop)
      ensures r == Clean ==> HeldByProcess() == {}
      ensures r == Retained ==> HeldByProcess() == old(HeldByProcess()) != {}
      ensures r == Dropped ==> droppable
    {
      process := Some(process.value.(native := BeginReap(process.value.native)));
      Suspend();
      var dropped: bool := *;
      if droppable && dropped {
        return Dropped;
      }
      var wait: Wait := *;
      ghost var held := HeldByProcess();
      var (native, result) := FinishReap(process.value.native, wait);
      process := Some(process.value.(native := native));
      if result != Reap.Done {
        return Retained;
      }
      reaped := reaped + held;
      if process.value.stderr {
        Suspend();
        dropped := *;
        if droppable && dropped {
          return Dropped;
        }
      }
      process := Some(process.value.(stderr := false));
      return Clean;
    }

    /** Empty the process slot once its child is reaped. */
    method ReleaseProcess(droppable: bool) returns (r: Cleaned)
      requires Conserved() && !running
      modifies this`process, this`reaped, this`now, this`stop
      ensures Conserved()
      ensures now >= old(now) && (old(stop) ==> stop)
      ensures r == Clean ==> process.None?
      ensures r == Retained ==> HeldByProcess() != {}
      ensures r == Dropped ==> droppable
      ensures process.Some? ==> old(process).Some? && process.value.id == old(process).value.id
    {
      if process.Some? {
        var reap := ReapProcess(droppable);
        if reap != Clean {
          return reap;
        }
      }
      process := None;
      return Clean;
    }

    /** Let go of everything, in the source's order: preparation, cache session, worker process. It
        succeeds only with every child reaped and the session released; otherwise what could not be
        released is still held. */
    method Cleanup(droppable: bool) returns (r: Cleaned)
      requires Conserved()
      modifies this`process, this`preparation, this`cache, this`running, this`reaped, this`now, this`stop
      ensures Conserved() && !running
      ensures old(Paced()) ==> Settled()
      ensures now >= old(now) && (old(stop) ==> stop)
      ensures r == Clean ==> process.None? && preparation.None? && cache.None? && reaped == spawned
      ensures r == Retained ==> HeldByPreparation() != {} || cache.Some? || HeldByProcess() != {}
      ensures r == Dropped ==> droppable
      ensures process.Some? ==> old(process).Some? && process.value.id == old(process).value.id
      ensures old(preparation).None? ==> preparation.None?
      ensures old(cache).None? ==> cache.None?
    {
      running := false;
      if preparation.Some? {
        var reap := ReapPreparation();
        if reap != Reap.Done {
          return Retained;
        }
      }
      preparation := None;
      if cache.Some? {
        var released: bool := *;
        if !released {
          return Retained;
        }
      }
      cache := None;
      r := ReleaseProcess(droppable);
    }

    // -------------------------------------------------------------- preparation

    /** Spawn a preparation command into the empty slot. */
    method SpawnPreparation(underCache: bool) returns (ok: bool)
      requires Conserved() && preparation.None? && !closed
      requires underCache ==> cache.Some?
      modifies this`preparation, this`born, this`spawned, this`cacheChildren
      ensures Conserved()
      ensures ok <==> preparation.Some?
      ensures born == old(born) + if ok then 1 else 0
      ensures !underCache ==> cacheChildren == old(cacheChildren)
      ensures !ok ==> spawned == old(spawned)
    {
      ok := *;
      if ok {
        preparation := Some(Spawned(born));
        spawned := spawned + {born};
        if underCache {
          cacheChildren := cacheChildren + {born};
        }
        born := born + 1;
      }
    }

    /** Run a command to its end. Draining and waiting each give way to a stop signal that is already
        there. A failed wait is cleaned up at once. */
    method Execute() returns (ok: bool, ghost end: CommandEnd)
      requires Conserved() && preparation.Some?
      modifies this`preparation, this`reaped, this`now, this`stop
      ensures Conserved() && preparation.Some?
      ensures ok ==> end == SUCCEEDED
      ensures !ok && HeldByPreparation() == {} ==> end != SUCCEEDED
      ensures old(stop) ==> !ok
      ensures now >= old(now) && (old(stop) ==> stop)
    {
      var stopped := stop;
      Suspend();
      var drained: bool := *;
      drained := drained && !stopped;
      stopped := stop;
      Suspend();
      var waited: bool := *;
      waited := waited && !stopped;
      if !waited {
        var reap := ReapPreparation();
        if reap != Reap.Done {
          return false, CommandEnd(drained, false, false);
        }
      }
      var success: bool := *;
      return drained && waited && success, CommandEnd(drained, waited, success);
    }

    /** One preparation command: spawn, execute, reap. The slot is emptied only after the reap. */
    method Step(underCache: bool) returns (ok: bool, ghost end: CommandEnd)
      requires Conserved() && preparation.None? && !closed
      requires underCache ==> cache.Some?
      modifies this`preparation, this`born, this`spawned, this`cacheChildren, this`reaped, this`now, this`stop
      ensures Conserved()
      ensures now >= old(now) && (old(stop) ==> stop) && born >= old(born)
      ensures ok ==> preparation.None? && born == old(born) + 1 && end == SUCCEEDED
      ensures old(stop) ==> !ok
      ensures !underCache ==> cacheChildren == old(cacheChildren)
    {
      end := CommandEnd(false, false, false);
      var spawned' := SpawnPreparation(underCache);
      if !spawned' {
        ok := false;
        return;
      }
      var result;
      result, end := Execute();
      var reap := ReapPreparation();
      ok := result && reap == Reap.Done;
      if reap == Reap.Done {
        preparation := None;
      }
    }

    /** Publication is reached only with every command of the session reaped. */
    method Publish() returns (ok: bool)
      requires Conserved() && cache.Some? && cacheChildren <= reaped
      modifies this`publications
      ensures publications == old(publications) + if ok then 1 else 0
    {
      ok := *;
      if ok {
        publications := publications + 1;
      }
    }

    method ProvisionCache(steps: nat, deadline: nat) returns (ok: bool, ghost ends: seq<CommandEnd>)
      requires Conserved() && cache.Some? && preparation.None? && !closed && publications == 0
      modifies this`preparation, this`born, this`spawned, this`cacheChildren, this`reaped, this`now,
               this`stop, this`publications
      ensures Conserved()
      ensures now >= old(now) && (old(stop) ==> stop) && born >= old(born)
      ensures publications == 1 ==> ok && preparation.None? && cacheChildren <= reaped && cache == Some(Miss)
      ensures publications == 1 ==> born == old(born) + steps == old(born) + |ends| && AllSucceeded(ends)
      ensures cache == Some(Miss) && ok ==> publications == 1
      ensures cache != Some(Miss) ==> born == old(born) && publications == 0
      ensures publications <= 1
      ensures old(stop) && cache == Some(Miss) && steps > 0 ==> spawned == old(spawned)
    {
      ends := [];
      ok := false;
      match cache.value {
        case Legacy =>
          ok := *;
          return;
        case Hit =>
          ok := true;
          return;
        case Miss =>
      }
      var installed: bool := *;
      if !installed {
        return;
      }
      for i := 0 to steps
        invariant !ok && |ends| == i && AllSucceeded(ends)
        invariant Conserved() && preparation.None? && cacheChildren <= reaped && publications == 0
        invariant now >= old(now) && (old(stop) ==> stop) && born == old(born) + i
        invariant old(stop) ==> i == 0 && spawned == old(spawned)
      {
        var canceled := StopRequested();
        if canceled {
          return;
        }
        var t := Now();
        if t >= deadline {
          return;
        }
        var bound: bool := *;
        if !bound {
          return;
        }
        var stepped, end := Step(true);
        if !stepped {
          return;
        }
        ends := ends + [end];
        assert cacheChildren <= reaped;
      }
      var canceled := StopRequested();
      if canceled {
        return;
      }
      var t := Now();
      if t >= deadline {
        return;
      }
      ok := Publish();
    }

    method PrepareCache() returns (ok: bool)
      requires Conserved() && cache.None? && preparation.None? && !closed && publications == 0
      modifies this`preparation, this`cache, this`born, this`spawned, this`cacheChildren, this`reaped,
               this`now, this`stop, this`publications
      ensures Conserved()
      ensures now >= old(now) && (old(stop) ==> stop) && born >= old(born)
      ensures ok ==> preparation.None? && cache.None?
      ensures publications <= 1
    {
      if plan.recipeSteps.None? {
        return true;
      }
      Suspend();
      var acquired: bool := *;
      if !acquired {
        return false;
      }
      var found: Found := *;
      cache := Some(found);
      var deadline: nat :| 0 <= deadline;
      var result, _ := ProvisionCache(plan.recipeSteps.value, deadline);
      if preparation.Some? {
        var reap := ReapPreparation();
        if reap != Reap.Done {
          return false;
        }
      }
      preparation := None;
      var released: bool := *;
      if !released {
        return false;
      }
      cache := None;
      return result;
    }

    /** The one preparation of a supervisor's life. It completes only with nothing left held. */
    method Prepare() returns (ok: bool, ghost ends: seq<CommandEnd>)
      requires Valid() && prepared.None? && process.None? && cache.None? && preparation.None? && !closed
      requires publications == 0
      modifies this
      ensures Valid() && process.None?
      ensures View() == old(View()) && !closed
      ensures prepared == Some(ok)
      ensures ok ==> preparation.None? && cache.None? && reaped == spawned
      ensures ok ==> |ends| == plan.preparationSteps && AllSucceeded(ends)
    {
      ends := [];
      ok := PrepareCache();
      var steps := 0;
      if ok {
        var installed: bool := *;
        ok := installed;
      }
      while ok && steps < plan.preparationSteps
        invariant Conserved() && Settled() && prepared.None? && process.None? && !closed && !running
        invariant ok ==> preparation.None? && cache.None?
        invariant steps <= plan.preparationSteps && (ok ==> |ends| == steps && AllSucceeded(ends))
        invariant traffic == old(traffic) && replies == old(replies) && highest == old(highest) && log == old(log)
        decreases plan.preparationSteps - steps, ok
      {
        ghost var end;
        ok, end := Step(false);
        ends := ends + [end];
        steps := steps + 1;
      }
      if ok {
        var canceled := StopRequested();
        ok := !canceled;
      }
      prepared := Some(ok);
    }

    // -------------------------------------------------------------- starting

    function IsIdle(): bool reads this {
      plan.idleEnabled && now >= lastUsed + plan.idleTimeout
    }

    /** Whether the child still runs: never once it is being reaped. */
    method IsAlive() returns (alive: bool)
      requires process.Some?
      ensures alive ==> process.value.native.child.Some? && process.value.native.reaping.None?
    {
      var runs: bool := *;
      alive := process.value.native.reaping.None? && process.value.native.child.Some? && runs;
    }

    /** A new worker process in the empty slot, younger than any before it and owing nothing. */
    method SpawnProcess()
      requires Conserved() && Settled() && process.None? && !closed
      modifies this`process, this`born, this`spawned
      ensures Conserved() && Settled()
      ensures process == Some(Process(old(born), Spawned(old(born)), true))
      ensures born == old(born) + 1 && spawned == old(spawned) + {old(born)}
      ensures W.Outstanding(traffic, old(born)) == {} && W.SentTo(traffic, old(born)) == {}
    {
      process := Some(Process(born, Spawned(born), true));
      spawned := spawned + {born};
      born := born + 1;
      W.NeverSent(traffic, process.value.id);
    }

    /** After a startup that failed for `reason`: clean up, and once that is done begin the back-off. */
    method BackOff(droppable: bool, reason: Reason) returns (r: Started)
      requires Conserved() && Paced()
      modifies this`process, this`preparation, this`cache, this`running, this`reaped, this`now, this`stop,
               this`retryAfter
      ensures Conserved() && Settled()
      ensures now >= old(now) && (old(stop) ==> stop)
      ensures r in {Finished(Failed(reason)), Finished(Failed(CleanupFailed)), Elapsed}
      ensures r.Elapsed? ==> droppable
      ensures process.Some? ==> old(process).Some? && process.value.id == old(process).value.id
      ensures r == Finished(Failed(reason)) && reason != CleanupFailed ==>
                process.None? && retryAfter.Some? && old(now) + BACKOFF <= retryAfter.value <= now + BACKOFF
    {
      var cleaned := Cleanup(droppable);
      if cleaned != Clean {
        return if cleaned == Dropped then Elapsed else Finished(Failed(CleanupFailed));
      }
      var t := Now();
      retryAfter := Some(t + BACKOFF);
      return Finished(Failed(reason));
    }

    /** Spawn a worker, if the system lets us, and wait for its handshake. */
    method SpawnAndShake(droppable: bool) returns (result: Result<(), Reason>, dropped: bool)
      requires Conserved() && Settled() && process.None? && !closed
      modifies this`process, this`born, this`spawned, this`now, this`stop
      ensures Conserved() && Settled()
      ensures now >= old(now) && (old(stop) ==> stop) && born >= old(born)
      ensures result == Err(SpawnFailed) ==> process.None? && spawned == old(spawned)
      ensures result != Err(SpawnFailed) || dropped ==>
                process == Some(Process(old(born), Spawned(old(born)), true)) &&
                spawned == old(spawned) + {old(born)} && W.Outstanding(traffic, old(born)) == {}
      ensures result.Err? ==> result.error in {SpawnFailed, Canceled, HandshakeTimeout, HandshakeFailed}
      ensures dropped ==> droppable
    {
      result, dropped := Err(SpawnFailed), false;
      var spawn: bool := *;
      if spawn {
        SpawnProcess();
        Suspend(); // the handshake
        result := Handshake();
        dropped := *;
        dropped := droppable && dropped;
      }
    }

    /** Spawn a worker into the empty slot and shake hands with it. Only a handshake that ends in
        time and without a stop signal makes it a running worker; otherwise it is cleaned up, and
        once it is, the back-off begins. */
    method Launch(droppable: bool) returns (r: Started)
      requires Conserved() && Settled() && process.None? && prepared == Some(true) && !closed
      modifies this`process, this`preparation, this`cache, this`running, this`reaped, this`now, this`stop,
               this`born, this`spawned, this`lastUsed, this`retryAfter
      ensures Conserved() && Settled()
      ensures now >= old(now) && (old(stop) ==> stop) && born >= old(born)
      ensures r == Finished(Complete) ==> running && retryAfter.None? && old(now) <= lastUsed <= now
      ensures r.Finished? && r != Finished(Complete) ==>
                r.outcome.Failed? && r.outcome.reason in
                {SpawnFailed, Canceled, HandshakeTimeout, HandshakeFailed, CleanupFailed}
      ensures r == Finished(Failed(SpawnFailed)) ==> spawned == old(spawned)
      ensures r == Finished(Complete) ==> spawned == old(spawned) + {old(born)}
      ensures r.Elapsed? ==> droppable
      ensures process.Some? ==> process.value.id >= old(born)
      ensures spawned == old(spawned) || spawned == old(spawned) + {old(born)}
      ensures r.Finished? && r.outcome.Failed? && r.outcome.reason != CleanupFailed ==>
                process.None? && retryAfter.Some? && old(now) + BACKOFF <= retryAfter.value <= now + BACKOFF
    {
      var result, dropped := SpawnAndShake(droppable);
      if dropped {
        return Elapsed;
      }
      var stopped := StopRequested();
      if result.Ok? && !stopped {
        lastUsed := Now();
        retryAfter := None;
        running := true;
        return Finished(Complete);
      }
      r := BackOff(droppable, if result.Err? then result.error else Canceled);
    }

    /** How a handshake ends: the stop signal comes first, then the startup deadline. */
    method Handshake() returns (r: Result<(), Reason>)
      ensures stop ==> r == Err(Canceled)
      ensures r.Err? ==> r.error in {Canceled, HandshakeTimeout, HandshakeFailed}
    {
      if stop {
        return Err(Canceled);
      }
      var late: bool := *;
      if late {
        return Err(HandshakeTimeout);
      }
      var ready: bool := *;
      return if ready then Ok(()) else Err(HandshakeFailed);
    }

    /** Keep the running worker if it is still alive and not idle for too long; otherwise empty the
        slot. Nothing is returned when the slot is empty and a worker may be launched. */
    method Refresh(droppable: bool) returns (r: Option<Started>)
      requires Conserved() && Settled() && !closed
      modifies this`process, this`preparation, this`cache, this`running, this`reaped, this`now, this`stop
      ensures Conserved() && Settled()
      ensures now >= old(now) && (old(stop) ==> stop)
      ensures r.None? ==> process.None?
      ensures r == Some(Finished(Complete)) ==> running
      ensures r in {None, Some(Elapsed), Some(Finished(Complete)), Some(Finished(Failed(CleanupFailed)))}
      ensures r == Some(Elapsed) ==> droppable
      ensures old(IsIdle()) ==> r != Some(Finished(Complete))
      ensures process.Some? ==> old(process).Some? && process.value.id == old(process).value.id
    {
      if IsIdle() {
        var cleaned := Cleanup(droppable);
        if cleaned != Clean {
          return Some(if cleaned == Dropped then Elapsed else Finished(Failed(CleanupFailed)));
        }
      }
      if process.Some? {
        var alive := IsAlive();
        if running && alive {
          return Some(Finished(Complete));
        }
        var cleaned := Cleanup(droppable);
        if cleaned != Clean {
          return Some(if cleaned == Dropped then Elapsed else Finished(Failed(CleanupFailed)));
        }
      }
      return None;
    }

    /** The back-off of a failed startup, then the launch. */
    method LaunchUnlessBackingOff(droppable: bool) returns (r: Started)
      requires Conserved() && Settled() && process.None? && prepared == Some(true) && !closed
      modifies this`process, this`preparation, this`cache, this`running, this`reaped, this`now, this`stop,
               this`born, this`spawned, this`lastUsed, this`retryAfter
      ensures Conserved() && Settled()
      ensures now >= old(now) && (old(stop) ==> stop) && born >= old(born)
      ensures r == Finished(Complete) ==> running
      ensures r.Finished? && r != Finished(Complete) ==> r.outcome.Failed?
      ensures r.Elapsed? ==> droppable
      ensures process.Some? ==> process.value.id >= old(born)
      ensures r == Finished(Failed(StartupBackoff)) ==>
                spawned == old(spawned) && old(retryAfter).Some? && old(now) < old(retryAfter).value
      ensures spawned == old(spawned) || spawned == old(spawned) + {old(born)}
      ensures spawned != old(spawned) && old(retryAfter).Some? ==> now >= old(retryAfter).value
      ensures r.Finished? && r.outcome.Failed? && r.outcome.reason !in {CleanupFailed, StartupBackoff} ==>
                retryAfter.Some? && old(now) + BACKOFF <= retryAfter.value <= now + BACKOFF
    {
      var t := Now();
      if retryAfter.Some? && t < retryAfter.value {
        return Finished(Failed(StartupBackoff));
      }
      r := Launch(droppable);
    }

    /** Make sure a worker runs. When it reports completion there is a running worker that owes
        nothing. A new process is spawned only into an empty slot, only without a stop signal, and
        never during the back-off of a failed startup. */
    method Start(droppable: bool) returns (r: Started)
      requires Conserved() && Settled() && !closed
      modifies this`process, this`preparation, this`cache, this`running, this`reaped, this`now, this`stop,
               this`born, this`spawned, this`lastUsed, this`retryAfter
      ensures Conserved() && Settled()
      ensures now >= old(now) && (old(stop) ==> stop) && born >= old(born)
      ensures r == Finished(Complete) ==> running
      ensures r.Finished? ==> r.outcome in {Complete, Outcome.Closed} || r.outcome.Failed?
      ensures r.Elapsed? ==> droppable
      ensures process.Some? ==>
                process.value.id >= old(born) || (old(process).Some? && process.value.id == old(process).value.id)
      ensures old(stop) ==> r == Finished(Outcome.Closed) && spawned == old(spawned)
      ensures old(prepared) != Some(true) ==> spawned == old(spawned)
      ensures r == Finished(Outcome.Closed) ==> stop
      ensures r == Finished(Failed(StartupBackoff)) ==>
                spawned == old(spawned) && old(retryAfter).Some? && old(now) < old(retryAfter).value
      ensures spawned == old(spawned) || spawned == old(spawned) + {old(born)}
      ensures spawned != old(spawned) && old(retryAfter).Some? ==> now >= old(retryAfter).value
      ensures spawned != old(spawned) && r.Finished? && r.outcome.Failed? && r.outcome.reason != CleanupFailed ==>
                retryAfter.Some? && old(now) + BACKOFF <= retryAfter.value <= now + BACKOFF
    {
      var stopped := StopRequested();
      if stopped {
        return Finished(Outcome.Closed);
      }
      if prepared != Some(true) {
        return Finished(Failed(PrepareFailed));
      }
      var _ := Now();
      var kept := Refresh(droppable);
      if kept.Some? {
        return kept.value;
      }
      r := LaunchUnlessBackingOff(droppable);
    }

    // -------------------------------------------------------------- requests

    /** One exchange with the running worker. A stop signal seen first leaves it unattempted. From
        the moment the write begins the frame counts as sent, whatever becomes of it, and only the
        matching reply settles it. */
    method ExchangeOnce(operation: nat) returns (x: Exchange, attempted: bool, ghost frames: nat)
      requires Conserved() && Settled() && running && operation !in W.SentTo(traffic, process.value.id)
      modifies this`traffic, this`now, this`stop
      ensures Conserved() && Paced()
      ensures now >= old(now) && (old(stop) ==> stop)
      ensures old(stop) ==> x.StopSeen? && !attempted
      ensures x.Replied? ==> Settled() && attempted && frames == 1
      ensures frames <= 1 && (frames == 1 ==> attempted)
      ensures x.StopSeen? && !attempted ==> Settled()
      ensures W.Operations(traffic) == W.Operations(old(traffic)) + Repeat(operation, frames)
    {
      frames := 0;
      attempted := false;
      var stopped := StopRequested();
      if stopped {
        x := StopSeen;
        return;
      }
      attempted := true;
      var encoded: bool := *;
      if !encoded {
        x := Broke;
        return;
      }
      ghost var id := process.value.id;
      frames := 1;
      traffic := Write(traffic, id, operation);
      Suspend();
      if stop {
        x := StopSeen;
        return;
      }
      x := *;
      if x.Replied? {
        traffic := Settle(traffic, id, operation);
      } else if x.StopSeen? {
        x := Broke;
      }
    }

    /** An exchange with the running worker, and the cleanup after one that did not end in an
        acceptable reply. */
    method Converse(operation: nat, last: bool)
      returns (a: AttemptEnd, tried: bool, ghost begun: nat, ghost x: Exchange)
      requires Conserved() && Settled() && running && operation !in W.SentTo(traffic, process.value.id)
      modifies this`process, this`preparation, this`cache, this`running, this`reaped, this`now, this`stop,
               this`lastUsed, this`traffic
      ensures Conserved() && Settled()
      ensures now >= old(now) && (old(stop) ==> stop)
      ensures begun <= 1 && (begun == 1 ==> tried)
      ensures W.Operations(traffic) == W.Operations(old(traffic)) + Repeat(operation, begun)
      ensures a.Ended? ==> !a.outcome.Expired? && (a.outcome.Response? ==> begun == 1)
      ensures a.Ended? && a.outcome.Response? && a.outcome.ok ==> lastUsed >= old(now)
      ensures a.Again? ==> process.None? && (last ==> a.reason != RemoteFailed)
      ensures if x.Replied? && (x.ok || last) then a == Ended(Response(x.ok, x.body))
              else a in {Again(BrokenBy(x)), Ended(Failed(CleanupFailed))}
    {
      var end;
      end, tried, begun := ExchangeOnce(operation);
      x := end;
      if end.Replied? && (end.ok || last) {
        if end.ok {
          lastUsed := Now();
        }
        a := Ended(Response(end.ok, end.body));
        return;
      }
      var cleaned := Cleanup(false);
      a := if cleaned == Clean then Again(BrokenBy(end)) else Ended(Failed(CleanupFailed));
    }

    /** One attempt at a request number: start a worker if need be, exchange, and clean up after an
        exchange that did not end in an acceptable reply. `Again` means a second attempt may follow,
        with the slot empty. */
    method Attempt(operation: nat, last: bool) returns (a: AttemptEnd, tried: bool, ghost begun: nat)
      requires Conserved() && Settled() && !closed
      requires process.Some? ==> operation !in W.SentTo(traffic, process.value.id)
      modifies this`process, this`preparation, this`cache, this`running, this`reaped, this`now, this`stop,
               this`born, this`spawned, this`lastUsed, this`retryAfter, this`traffic
      ensures Conserved() && Settled()
      ensures now >= old(now) && (old(stop) ==> stop)
      ensures begun <= 1 && (begun == 1 ==> tried)
      ensures W.Operations(traffic) == W.Operations(old(traffic)) + Repeat(operation, begun)
      ensures old(stop) ==> a.Ended? && !tried && spawned == old(spawned)
      ensures a.Ended? ==> !a.outcome.Expired? && (a.outcome.Response? ==> begun == 1 && (a.outcome.ok || last))
      ensures a.Ended? && a.outcome.Response? && a.outcome.ok ==> lastUsed >= old(now)
      ensures a.Again? ==> process.None? && (last ==> a.reason != RemoteFailed)
    {
      ghost var known, bound := process, born;
      tried, begun := false, 0;
      var started := Start(true);
      if started.Elapsed? {
        var cleaned := Cleanup(false);
        a := Ended(Failed(if cleaned == Clean then RequestTimeout else CleanupFailed));
        return;
      }
      if started.outcome != Complete {
        a := Ended(started.outcome);
        return;
      }
      if known.None? || process.value.id != known.value.id {
        W.NeverSent(traffic, process.value.id);
      }
      ghost var end;
      a, tried, begun, end := Converse(operation, last);
    }

    /** Serve one request number that was never written before, over at most two attempts. */
    method DispatchRequest(operation: nat, deadline: nat)
      returns (outcome: Outcome, attempted: bool, ghost frames: nat)
      requires Conserved() && Settled() && !closed && operation !in W.Operations(traffic)
      modifies this`process, this`preparation, this`cache, this`running, this`reaped, this`now, this`stop,
               this`born, this`spawned, this`lastUsed, this`retryAfter, this`traffic
      ensures Conserved() && Settled()
      ensures now >= old(now) && (old(stop) ==> stop)
      ensures Possible(Dispatch(outcome, attempted, frames))
      ensures W.Operations(traffic) == W.Operations(old(traffic)) + Repeat(operation, frames)
      ensures old(stop) ==> !attempted && spawned == old(spawned)
      ensures outcome.Response? ==> attempted && frames > 0
    {
      attempted, frames := false, 0;
      var t := Now();
      if t >= deadline {
        outcome := Failed(RequestTimeout);
        return;
      }
      outcome := Failed(ReplayWindow.WorkerClosed);
      W.SentNowhere(traffic, operation);
      for attempt := 0 to 2
        invariant Conserved() && Settled()
        invariant now >= old(now) && (old(stop) ==> stop)
        invariant attempt == 0 ==> traffic == old(traffic) && spawned == old(spawned)
        invariant attempt == 1 ==> process.None?
        invariant outcome.Failed?
        invariant frames <= attempt && (frames > 0 ==> attempted)
        invariant W.Operations(traffic) == W.Operations(old(traffic)) + Repeat(operation, frames)
        invariant old(stop) ==> attempt == 0 && !attempted
      {
        var a, tried, begun := Attempt(operation, attempt == 1);
        attempted := attempted || tried;
        RepeatTwice(W.Operations(old(traffic)), operation, frames, begun);
        frames := frames + begun;
        if a.Ended? {
          outcome := a.outcome;
          break;
        }
        outcome := Failed(a.reason);
        var stopped := StopRequested();
        t := Now();
        if stopped || t >= deadline {
          break;
        }
      }
    }

    /** Remember an attempted request's outcome, forgetting what has fallen out of the window. */
    method Remember(request: Request, outcome: Outcome)
      modifies this`highest, this`replies, this`log
      ensures highest == if old(highest) < request.operation then request.operation else old(highest)
      ensures replies == Above(old(replies), Bound(highest))[request.operation := Entry(request, outcome)]
      ensures log == old(log)[request.operation := Entry(request, outcome)]
    {
      highest := if highest < request.operation then request.operation else highest;
      replies := Above(replies, Bound(highest));
      replies := replies[request.operation := Entry(request, outcome)];
      log := log[request.operation := Entry(request, outcome)];
    }

    /** Dispatch a request, and remember its outcome if it was attempted. */
    method DispatchAndRecord(request: Request, deadline: nat) returns (r: Outcome, ghost d: Dispatch)
      requires Conserved() && Settled() && !closed && request.operation !in W.Operations(traffic)
      modifies this`process, this`preparation, this`cache, this`running, this`reaped, this`now, this`stop,
               this`born, this`spawned, this`lastUsed, this`retryAfter, this`traffic,
               this`highest, this`replies, this`log
      ensures Conserved() && Settled()
      ensures View() == Record(old(View()), request, d) && d.outcome == r && Possible(d)
      ensures old(stop) ==> spawned == old(spawned) && View() == old(View())
      ensures now >= old(now) && (old(stop) ==> stop)
    {
      ghost var l := View();
      var attempted;
      ghost var frames;
      r, attempted, frames := DispatchRequest(request.operation, deadline);
      d := Dispatch(r, attempted, frames);
      if attempted {
        Remember(request, r);
      } else {
        assert l.sent + Repeat(request.operation, 0) == l.sent;
      }
    }

    /** A request taken from the queue: answered from the window, expired, or dispatched and then
        recorded if it was attempted. */
    method HandleRequest(request: Request, deadline: nat) returns (r: Outcome, ghost late: bool, ghost d: Dispatch)
      requires Valid() && !closed
      modifies this
      ensures Valid() && !closed
      ensures (View(), r) == Handle(old(View()), request, late, d) && Possible(d)
      ensures old(now) >= deadline ==> late
      ensures late ==> now >= deadline && spawned == old(spawned)
      ensures old(stop) ==> spawned == old(spawned) && View() == old(View())
      ensures now >= old(now) && (old(stop) ==> stop) && prepared == old(prepared)
    {
      ghost var l := View();
      late, d := false, Dispatch(Failed(RequestTimeout), false, 0);
      var t := Now();
      if t >= deadline {
        late := true;
        return Failed(RequestTimeout), late, d;
      }
      if request.operation in replies {
        return Replay(replies[request.operation], request), late, d;
      }
      if request.operation <= Bound(highest) {
        return Expired, late, d;
      }
      assert request.operation !in l.log;
      r, d := DispatchAndRecord(request, deadline);
      HandleKeepsConsistent(l, request, late, d);
    }

    // -------------------------------------------------------------- the supervisor's life

    /** One timer tick: whatever is unusable or left from a failed preparation is cleaned up. */
    method Supervise() returns (ghost alive: bool)
      requires Valid() && !closed
      modifies this`process, this`preparation, this`cache, this`running, this`reaped, this`now, this`stop
      ensures Valid() && !closed && now >= old(now) && (old(stop) ==> stop)
      ensures old(process).Some? && !alive ==>
                !running && (process.None? || HeldByProcess() != {} || HeldByPreparation() != {} || cache.Some?)
      ensures alive && prepared == Some(true) ==> process == old(process) && running == old(running)
    {
      var lives := false;
      if process.Some? {
        lives := IsAlive();
      }
      alive := lives;
      var unusable := process.Some? && !lives;
      var failedPreparation := prepared != Some(true) && (preparation.Some? || cache.Some?);
      if unusable || failedPreparation {
        var _ := Cleanup(false);
      }
    }

    /** One command taken from the queue, and the arrival it was, if it was one. */
    method ServeOne(command: Command) returns (ghost arrivals: seq<Arrival>)
      requires Valid() && !closed
      modifies this
      ensures Valid() && !closed
      ensures |arrivals| <= 1 && PossibleRun(arrivals) && View() == After(old(View()), arrivals)
    {
      arrivals := [];
      match command {
        case Tick =>
          var _ := Supervise();
        case Start =>
          var _ := Start(false);
        case Request(request, deadline, abandoned) =>
          if !abandoned {
            var _, late, d := HandleRequest(request, deadline);
            arrivals := [Arrival(request, late, d)];
          }
      }
    }

    /** The command loop, until the stop signal is seen or the queue is gone. The requests it took
        are a run of the replay window, in the order it took them. */
    method Serve(commands: seq<Command>) returns (ghost run: seq<Arrival>)
      requires Valid() && !closed
      modifies this
      ensures Valid() && !closed
      ensures PossibleRun(run) && View() == After(old(View()), run)
      ensures old(stop) ==> run == [] && spawned == old(spawned) && traffic == old(traffic)
    {
      run := [];
      for i := 0 to |commands|
        invariant Valid() && !closed
        invariant PossibleRun(run) && View() == After(old(View()), run)
        invariant old(stop) ==> stop && run == [] && spawned == old(spawned) && traffic == old(traffic)
      {
        Suspend();
        if stop {
          break;
        }
        var arrivals := ServeOne(commands[i]);
        AfterAppended(old(View()), run, arrivals);
        run := run + arrivals;
      }
    }

    /** The closing loop, given up here after `retries` rounds: only a cleanup that reaped every
        child and released the cache session lets the supervisor close. It starts from any
        suspension point, so also after a panic. */
    method Close(retries: nat)
      requires Conserved() && !closed
      modifies this`process, this`preparation, this`cache, this`running, this`reaped, this`now, this`stop, this`closed
      ensures Conserved()
      ensures closed ==> reaped == spawned && process.None? && preparation.None? && cache.None?
    {
      for i := 0 to retries
        invariant Conserved() && !closed
      {
        var cleaned := Cleanup(false);
        if cleaned == Clean {
          Suspend();
          var removed: bool := *;
          if removed {
            closed := true;
            return;
          }
        }
        Suspend();
      }
    }

    /** A supervisor from birth on: prepare, serve, close. Over the whole of it at most two frames
        are begun for any operation number, no reply can be stale, every child is accounted for,
        and it is closed only when every child it ever spawned has been reaped and the cache session
        is released. */
    method Run(commands: seq<Command>, retries: nat)
      requires Valid() && prepared.None? && process.None? && cache.None? && preparation.None? && !closed
      requires publications == 0 && View() == EMPTY && traffic == []
      modifies this
      ensures Conserved() && W.Orderly(traffic)
      ensures forall operation: nat :: Count(W.Operations(traffic), operation) <= 2
      ensures closed ==> reaped == spawned && process.None? && preparation.None? && cache.None?
    {
      var _, _ := Prepare();
      var run := Serve(commands);
      forall operation: nat ensures Count(W.Operations(traffic), operation) <= 2 {
        AtMostTwoFrames(run, operation);
      }
      Close(retries);
    }
  }
}
