/** The worker manager's code (worker/mod.rs). Every stretch under the book's lock is one step of the
    machine in `ManagerModel`. Wherever the source awaits, other callers, the clock and the
    supervisors may take any number of steps (`Suspend`). */
module Manager {
  import opened Wrappers
  import opened Handles
  import M = ManagerModel

  type Slot = M.Slot
  type Supervisor = M.Supervisor
  type Outcome = M.Outcome

  /** What other steps can do to a caller that waits: they go onward, and nobody but its own caller
      ends a shutdown. */
  lemma OthersLeaveAShutdownAlone(b: M.Book, e: M.Event, b': M.Book, call: nat)
    requires M.Inv(b) && M.Next(b, e, b') && call in b.barriers
    requires e != M.EndShutdown(call) && e != M.FailShutdown(call)
    ensures M.Onward(b, b') && call in b'.barriers && b'.barriers[call] == b.barriers[call]
  {
    M.NextGoesOnward(b, e, b');
  }

  lemma ClosedStays(b: M.Book, b': M.Book, h: string)
    requires M.IsClosed(b, h) && M.Onward(b, b')
    ensures M.IsClosed(b', h)
  {
  }

  ghost predicate AllClosed(b: M.Book, handles: set<string>) {
    forall h | h in handles :: M.IsClosed(b, h)
  }

  lemma AllClosedStay(b: M.Book, b': M.Book, handles: set<string>)
    requires M.Onward(b, b') && AllClosed(b, handles)
    ensures AllClosed(b', handles)
  {
  }

  /** The slots while the stop signal is being given: all but `rest` have it. */
  ghost predicate Signaled(before: map<string, Slot>, slots: map<string, Slot>, rest: set<string>) {
    && slots.Keys == before.Keys && rest <= slots.Keys
    && (forall h | h in rest :: slots[h] == before[h])
    && (forall h | h in slots && h !in rest :: slots[h] == before[h].(stop := true))
  }

  /** The supervisors while old cleanup failures are being cleared: all but those in `rest` are. */
  ghost predicate Clearing(
    slots: set<string>, before: map<string, Supervisor>, supervisors: map<string, Supervisor>, rest: set<string>)
  {
    && supervisors.Keys == before.Keys
    && (forall h | h in supervisors && (h in rest || h !in slots) :: supervisors[h] == before[h])
    && (forall h | h in supervisors && h in slots && h !in rest ::
          supervisors[h] == before[h].(cleanupFailed := false))
  }

  lemma SignaledOne(before: map<string, Slot>, slots: map<string, Slot>, rest: set<string>, h: string)
    requires Signaled(before, slots, rest) && h in rest
    ensures Signaled(before, slots[h := slots[h].(stop := true)], rest - {h})
  {
  }

  lemma AllSignaled(b: M.Book, slots: map<string, Slot>, supervisors: map<string, Supervisor>)
    requires Signaled(b.slots, slots, {}) && Clearing(b.slots.Keys, b.supervisors, supervisors, {})
    ensures slots == M.Stopped(b.slots) && supervisors == M.Cleared(b)
  {
    forall h | h in supervisors ensures supervisors[h] == M.Cleared(b)[h] {
    }
  }

  class WorkerManager {
    const nonce: string
    var issued: nat
    var terminal: bool
    var slots: map<string, Slot>
    var supervisors: map<string, Supervisor>
    var now: nat
    ghost var barriers: map<nat, set<string>>
    ghost var completed: bool

    ghost function View(): M.Book reads this {
      M.Book(nonce, issued, terminal, slots, supervisors, now, barriers, completed)
    }

    ghost predicate Valid() reads this {
      M.Inv(View())
    }

    constructor (nonce: string, now: nat)
      ensures Valid() && View() == M.Fresh(nonce, now)
    {
      this.nonce, this.now := nonce, now;
      issued, terminal, slots, supervisors := 0, false, map[], map[];
      barriers, completed := map[], false;
    }

    /** An await, at which the others take any number of steps. Callers know this contract alone: it
        is what `ManagerModel.RunGoesOnward` and `OthersLeaveAShutdownAlone` prove of every such
        stretch. The body is the stretch in which nothing happens. */
    method Suspend(ghost mine: set<nat>)
      requires Valid()
      modifies this
      ensures Valid() && M.Onward(old(View()), View())
      ensures forall call | call in mine && call in old(barriers) ::
                call in barriers && barriers[call] == old(barriers)[call]
    {
    }

    method Closed(h: string) returns (closed: bool)
      ensures closed == M.IsClosed(View(), h)
    {
      closed := h in supervisors && supervisors[h].closed;
    }

    method Expired(slot: Slot) returns (expired: bool)
      ensures expired == M.Expired(View(), slot)
    {
      expired := slot.plan.None? && now - slot.reservedAt >= M.RESERVATION_LIFETIME;
    }

    method Missing(h: string) returns (o: Outcome)
      ensures o == if Known(h, nonce, issued) then M.ClosedHandle else M.UnknownHandle
    {
      o := M.UnknownHandle;
      var rest := StripPrefix(h, nonce + ":");
      if rest.Some? {
        var n := ParseU64(rest.value);
        if n.Some? && n.value > 0 && n.value <= issued {
          o := M.ClosedHandle;
        }
      }
    }

    // -------------------------------------------------------------- reserve

    /** Throw out the slots of closed workers and of reservations that ran out. */
    method Retain()
      modifies this`slots
      ensures slots == M.Survivors(old(View()))
    {
      var rest := slots.Keys;
      while rest != {}
        invariant rest <= slots.Keys <= old(slots).Keys
        invariant forall h | h in slots :: slots[h] == old(slots)[h]
        invariant forall h | h in old(slots) && h !in rest ::
                    h in slots <==> !M.IsClosed(old(View()), h) && !M.Expired(old(View()), old(slots)[h])
        decreases |rest|
      {
        var h :| h in rest;
        rest := rest - {h};
        var closed := Closed(h);
        var expired := Expired(slots[h]);
        if closed || expired {
          slots := slots - {h};
        }
      }
    }

    method Reserve() returns (r: Result<string, Outcome>)
      requires Valid()
      modifies this`slots, this`issued
      ensures Valid() && (View(), r) == M.Reserve(old(View()))
      ensures M.Next(old(View()), M.DoReserve, View())
    {
      M.ReserveKeepsInv(View());
      if terminal {
        return Err(M.ManagerShutdown);
      }
      Retain();
      assert View() == old(View()).(slots := M.Survivors(old(View())));
      if |slots| >= M.CAPACITY {
        return Err(M.WorkerCapacity);
      }
      if issued == U64_MAX {
        return Err(M.IdentityExhausted);
      }
      var h := Issue();
      return Ok(h);
    }

    /** Give out the next number, and a slot to its handle. */
    method Issue() returns (h: string)
      modifies this`slots, this`issued
      ensures issued == old(issued) + 1 && h == Handle(nonce, issued)
      ensures slots == old(slots)[h := M.Slot(now, None, false)]
    {
      issued := issued + 1;
      h := Handle(nonce, issued);
      slots := slots[h := M.Slot(now, None, false)];
    }

    // -------------------------------------------------------------- prepare, start, request, status

    /** The critical section of prepare: it starts the one supervisor a slot ever gets. */
    method Prepare(h: string, plan: string) returns (o: Option<Outcome>)
      requires Valid()
      modifies this`slots, this`supervisors
      ensures Valid() && (View(), o) == M.Prepare(old(View()), h, plan)
      ensures M.Next(old(View()), M.DoPrepare(h, plan), View())
    {
      M.PrepareKeepsInv(View(), h, plan);
      if terminal {
        return Some(M.ManagerShutdown);
      }
      if h !in slots {
        var missing := Missing(h);
        return Some(missing);
      }
      var slot := slots[h];
      var closed := Closed(h);
      if closed || slot.stop {
        return Some(M.ClosedHandle);
      }
      if slot.plan.Some? {
        return if slot.plan.value != plan then Some(M.PlanConflict) else None;
      }
      if now - slot.reservedAt >= M.RESERVATION_LIFETIME {
        return Some(M.ReservationExpired);
      }
      slots := slots[h := slot.(plan := Some(plan))];
      supervisors := supervisors[h := M.NEWBORN];
      return None;
    }

    /** Admission of a start or a request to its worker's queue. */
    method Submit(h: string) returns (o: Option<Outcome>)
      requires Valid()
      ensures o == M.Submit(View(), h) || (o == Some(M.WorkerQueue) && M.Submit(View(), h) == None)
      ensures o == None ==> !terminal && h in M.Live(View()) && !slots[h].stop
    {
      if terminal {
        return Some(M.ManagerShutdown);
      }
      if h !in slots {
        var missing := Missing(h);
        return Some(missing);
      }
      var expired := Expired(slots[h]);
      if expired {
        return Some(M.ReservationExpired);
      }
      var closed := Closed(h);
      if slots[h].stop || closed {
        return Some(M.ClosedHandle);
      }
      if slots[h].plan.None? {
        return Some(M.NotPrepared);
      }
      var room: bool := *;
      return if room then None else Some(M.WorkerQueue);
    }

    /** A request looks its plan up first, and is submitted under a second lock. A retired handle is
        told so whatever happens between the two. */
    method Request(h: string) returns (o: Option<Outcome>)
      requires Valid()
      modifies this
      ensures Valid() && M.Onward(old(View()), View())
      ensures o == None ==> !terminal && h in M.Live(View()) && !slots[h].stop
      ensures h in M.Issued(nonce, old(issued)) && h !in old(slots) ==> o == Some(M.ClosedHandle)
      ensures h in M.Issued(nonce, old(issued)) ==> o != Some(M.UnknownHandle)
    {
      if h in M.Issued(nonce, issued) {
        M.IssuedIsKnown(nonce, issued, h);
      }
      if h !in slots {
        var missing := Missing(h);
        return Some(missing);
      }
      var expired := Expired(slots[h]);
      if expired {
        return Some(M.ReservationExpired);
      }
      if slots[h].plan.None? {
        return Some(M.NotPrepared);
      }
      Suspend({});
      M.IssuedGrows(nonce, old(issued), issued);
      if h in M.Issued(nonce, issued) {
        M.IssuedIsKnown(nonce, issued, h);
      }
      o := Submit(h);
    }

    /** Status answers for every slot that has not run out, and calls every other issued handle
        closed. */
    method Status(h: string) returns (r: Result<Slot, Outcome>)
      requires Valid()
      ensures r.Ok? <==> h in slots && !M.Expired(View(), slots[h])
      ensures r.Ok? ==> r.value == slots[h]
      ensures r.Err? ==> r.error == M.Missing(View(), h)
      ensures h in M.Issued(nonce, issued) && r.Err? ==> r.error == M.ClosedHandle
    {
      if h in slots {
        var expired := Expired(slots[h]);
        if !expired {
          return Ok(slots[h]);
        }
      }
      if h in M.Issued(nonce, issued) {
        M.IssuedIsKnown(nonce, issued, h);
      }
      var missing := Missing(h);
      return Err(missing);
    }

    // -------------------------------------------------------------- stop

    /** Wait for one supervisor, looking at most `patience` times: `Some(true)` says it is closed and
        `Some(false)` that its cleanup failed. */
    method WaitClosed(h: string, patience: nat, ghost mine: set<nat>) returns (closed: Option<bool>)
      requires Valid() && h in supervisors
      modifies this
      ensures Valid() && M.Onward(old(View()), View())
      ensures h in supervisors && (closed == Some(true) ==> M.IsClosed(View(), h))
      ensures forall call | call in mine && call in old(barriers) ::
                call in barriers && barriers[call] == old(barriers)[call]
    {
      for i := 0 to patience
        invariant Valid() && M.Onward(old(View()), View()) && h in supervisors
        invariant forall call | call in mine && call in old(barriers) ::
                    call in barriers && barriers[call] == old(barriers)[call]
      {
        ghost var b := View();
        Suspend(mine);
        M.OnwardComposes(old(View()), b, View());
        if supervisors[h].closed {
          return Some(true);
        }
        if supervisors[h].cleanupFailed {
          return Some(false);
        }
      }
      return None;
    }

    /** The first critical section of stop. */
    method BeginStop(h: string) returns (o: Option<Outcome>)
      requires Valid()
      modifies this`slots, this`supervisors
      ensures Valid() && (View(), o) == M.StopBegin(old(View()), h)
      ensures M.Next(old(View()), M.BeginStop(h), View()) && M.Onward(old(View()), View())
    {
      M.StopKeepsInv(View(), h);
      M.StopGoesOnward(View(), h);
      if h !in slots {
        var missing := Missing(h);
        return Some(missing);
      }
      if h in supervisors {
        supervisors := supervisors[h := supervisors[h].(cleanupFailed := false)];
      }
      if slots[h].plan.None? {
        slots := slots - {h};
        return Some(M.Complete);
      }
      slots := slots[h := slots[h].(stop := true)];
      return None;
    }

    /** The last critical section of stop, once the lock is had again. */
    method EndStop(h: string)
      requires Valid() && M.IsClosed(View(), h)
      modifies this
      ensures Valid() && M.Onward(old(View()), View())
      ensures h !in slots && M.IsClosed(View(), h)
    {
      Suspend({});
      ghost var locked := View();
      ClosedStays(old(View()), locked, h);
      slots := slots - {h};
      assert M.Next(locked, M.EndStop(h), View());
      M.NextKeepsInv(locked, M.EndStop(h), View());
      M.NextGoesOnward(locked, M.EndStop(h), View());
      M.OnwardComposes(old(View()), locked, View());
    }

    /** Wait for a worker that was told to stop, and take its slot away. */
    method FinishStop(h: string, patience: nat) returns (o: Option<Outcome>)
      requires Valid() && h in supervisors
      modifies this
      ensures Valid() && M.Onward(old(View()), View())
      ensures o in {None, Some(M.Complete), Some(M.CleanupFailed)}
      ensures h in supervisors && (o == Some(M.Complete) ==> h !in slots && supervisors[h].closed)
    {
      var closed := WaitClosed(h, patience, {});
      if closed != Some(true) {
        return if closed == None then None else Some(M.CleanupFailed);
      }
      ghost var waited := View();
      EndStop(h);
      M.OnwardComposes(old(View()), waited, View());
      return Some(M.Complete);
    }

    /** Stop one worker. Completion means that its supervisor, if it ever had one, is closed, and
        that its slot is gone; a failed cleanup means that an unclosed supervisor keeps its slot.
        `None` is a caller that is still waiting. */
    method Stop(h: string, patience: nat) returns (o: Option<Outcome>)
      requires Valid()
      modifies this
      ensures Valid() && M.Onward(old(View()), View())
      ensures h !in old(slots) ==> o == Some(M.Missing(old(View()), h))
      ensures h in old(slots) ==> o in {None, Some(M.Complete), Some(M.CleanupFailed)}
      ensures o == Some(M.Complete) ==> h !in slots && (h in supervisors ==> supervisors[h].closed)
      ensures o == Some(M.CleanupFailed) ==> h in supervisors && (supervisors[h].closed || h in slots)
      ensures o == None && h in slots ==> slots[h].stop
    {
      o := BeginStop(h);
      if o.Some? {
        return;
      }
      ghost var begun := View();
      o := FinishStop(h, patience);
      M.OnwardComposes(old(View()), begun, View());
    }

    // -------------------------------------------------------------- shutdown

    /** The first critical section of shutdown: refuse all new work, tell every worker to stop, and
        collect those that have a supervisor to wait for. */
    method BeginShutdown(ghost call: nat) returns (waiting: seq<string>)
      requires Valid() && call !in barriers
      modifies this`terminal, this`slots, this`supervisors, this`barriers
      ensures Valid() && View() == M.ShutdownBegin(old(View()), call)
      ensures M.Next(old(View()), M.BeginShutdown(call), View()) && M.Onward(old(View()), View())
      ensures forall h :: h in waiting <==> h in M.Prepared(old(View()))
    {
      M.ShutdownKeepsInv(View(), call);
      M.ShutdownGoesOnward(View(), call);
      waiting := SignalAll();
      AllSignaled(old(View()), slots, supervisors);
      terminal := true;
      barriers := barriers[call := M.Prepared(old(View()))];
    }

    method SignalAll() returns (waiting: seq<string>)
      modifies this`slots, this`supervisors
      ensures Signaled(old(slots), slots, {})
      ensures Clearing(old(slots).Keys, old(supervisors), supervisors, {})
      ensures forall h :: h in waiting <==> h in old(slots) && old(slots)[h].plan.Some?
    {
      waiting := [];
      var rest := slots.Keys;
      while rest != {}
        invariant Signaled(old(slots), slots, rest)
        invariant Clearing(old(slots).Keys, old(supervisors), supervisors, rest)
        invariant forall h :: h in waiting <==> h in old(slots) && h !in rest && old(slots)[h].plan.Some?
        decreases |rest|
      {
        var h :| h in rest;
        SignaledOne(old(slots), slots, rest, h);
        rest := rest - {h};
        Signal(h);
        if slots[h].plan.Some? {
          waiting := waiting + [h];
        }
      }
    }

    /** Tell one worker to stop, and forget a cleanup that failed before. */
    method Signal(h: string)
      requires h in slots
      modifies this`slots, this`supervisors
      ensures slots == old(slots)[h := old(slots)[h].(stop := true)]
      ensures supervisors == if h in old(supervisors)
                             then old(supervisors)[h := old(supervisors)[h].(cleanupFailed := false)]
                             else old(supervisors)
    {
      if h in supervisors {
        supervisors := supervisors[h := supervisors[h].(cleanupFailed := false)];
      }
      slots := slots[h := slots[h].(stop := true)];
    }

    /** Wait for the collected supervisors one after the other. Every one of them is waited for even
        after one has failed. */
    method AwaitAll(waiting: seq<string>, patience: nat, ghost call: nat) returns (complete: Option<bool>)
      requires Valid() && (forall h | h in waiting :: h in supervisors) && call in barriers
      modifies this
      ensures Valid() && M.Onward(old(View()), View())
      ensures call in barriers && barriers[call] == old(barriers)[call]
      ensures complete == Some(true) ==> forall h | h in waiting :: M.IsClosed(View(), h)
    {
      var all := true;
      ghost var done: set<string> := {};
      for i := 0 to |waiting|
        invariant Valid() && M.Onward(old(View()), View())
        invariant call in barriers && barriers[call] == old(barriers)[call]
        invariant forall k | 0 <= k < i :: waiting[k] in done
        invariant all ==> AllClosed(View(), done)
      {
        ghost var b := View();
        assert waiting[i] in waiting;
        var closed := WaitClosed(waiting[i], patience, {call});
        M.OnwardComposes(old(View()), b, View());
        if closed == None {
          return None;
        }
        if all {
          AllClosedStay(b, View(), done);
        }
        all := all && closed.value;
        done := done + {waiting[i]};
      }
      return Some(all);
    }

    /** The last critical section of shutdown, once the lock is had again. */
    method EndShutdown(ghost call: nat)
      requires Valid() && call in barriers && forall h | h in barriers[call] :: M.IsClosed(View(), h)
      modifies this
      ensures Valid() && M.Onward(old(View()), View())
      ensures terminal && slots == map[] && M.AllClosed(supervisors) && completed
    {
      Suspend({call});
      ghost var locked := View();
      AllClosedStay(old(View()), locked, barriers[call]);
      M.EndShutdownKeepsInv(locked, call);
      slots := map[];
      barriers := barriers - {call};
      completed := true;
      assert M.Next(locked, M.EndShutdown(call), View());
      M.NextGoesOnward(locked, M.EndShutdown(call), View());
      M.OnwardComposes(old(View()), locked, View());
    }

    /** A shutdown that reports a failed cleanup ends without effect; another may follow. */
    method FailShutdown(ghost call: nat)
      requires Valid() && call in barriers
      modifies this`barriers
      ensures Valid() && M.Onward(old(View()), View())
    {
      barriers := barriers - {call};
      M.NextKeepsInv(old(View()), M.FailShutdown(call), View());
      M.NextGoesOnward(old(View()), M.FailShutdown(call), View());
    }

    /** What a shutdown does after its first critical section. */
    method FinishShutdown(waiting: seq<string>, patience: nat, ghost call: nat) returns (o: Option<Outcome>)
      requires Valid() && call in barriers && forall h :: h in waiting <==> h in barriers[call]
      requires forall h | h in waiting :: h in supervisors
      modifies this
      ensures Valid() && M.Onward(old(View()), View())
      ensures o in {None, Some(M.Complete), Some(M.CleanupFailed)}
      ensures o == Some(M.Complete) ==> slots == map[] && M.AllClosed(supervisors) && completed
    {
      var complete := AwaitAll(waiting, patience, call);
      if complete == None {
        return None;
      }
      ghost var waited := View();
      if complete == Some(true) {
        EndShutdown(call);
      } else {
        FailShutdown(call);
      }
      M.OnwardComposes(old(View()), waited, View());
      return Some(if complete == Some(true) then M.Complete else M.CleanupFailed);
    }

    /** The terminal barrier. Completion means that no slot is left and that every supervisor this
        manager ever started is closed. `None` is a caller that is still waiting. */
    method Shutdown(patience: nat, ghost call: nat) returns (o: Option<Outcome>)
      requires Valid() && call !in barriers
      modifies this
      ensures Valid() && M.Onward(old(View()), View()) && terminal
      ensures o in {None, Some(M.Complete), Some(M.CleanupFailed)}
      ensures o == Some(M.Complete) ==> slots == map[] && M.AllClosed(supervisors) && completed
      ensures o == Some(M.Complete) ==> forall h | h in supervisors :: M.Released(supervisors[h])
    {
      var waiting := BeginShutdown(call);
      ghost var begun := View();
      o := FinishShutdown(waiting, patience, call);
      M.OnwardComposes(old(View()), begun, View());
    }
  }
}
