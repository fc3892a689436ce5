/** The worker manager (worker/mod.rs) as a machine whose steps are its critical sections, interleaved
    with each other, with the clock, and with the supervisors it started. */
module ManagerModel {
  import opened Wrappers
  import opened Handles
  import opened Sets

  const CAPACITY: nat := 16
  const RESERVATION_LIFETIME: nat := 30_000

  /** A slot of the book. A slot has a command queue exactly when it has a plan. */
  datatype Slot = Slot(reservedAt: nat, plan: Option<string>, stop: bool)

  /** A supervisor: what it shares with its slot, and, for the record, every child it ever spawned,
      those it has reaped, and whether it holds a cache session. */
  datatype Supervisor = Supervisor(
    closed: bool, cleanupFailed: bool, spawned: set<nat>, reaped: set<nat>, session: bool)

  const NEWBORN := Supervisor(false, false, {}, {}, false)

  /** Everything it ever had is gone. */
  predicate Released(s: Supervisor) {
    s.reaped == s.spawned && !s.session
  }

  /** What work on native processes may make of a supervisor that has not closed. */
  predicate Worked(s: Supervisor, s': Supervisor) {
    && !s.closed && !s'.closed && s'.cleanupFailed == s.cleanupFailed
    && s.spawned <= s'.spawned && s.reaped <= s'.reaped <= s'.spawned
  }

  datatype Outcome =
    | Complete | ClosedHandle | ManagerShutdown | ReservationExpired | WorkerCapacity
    | IdentityExhausted | PlanConflict | NotPrepared | WorkerQueue | UnknownHandle | CleanupFailed

  /** Answers that say a handle is retired. */
  predicate SaysClosed(o: Outcome) {
    o.ClosedHandle? || o.ManagerShutdown? || o.ReservationExpired?
  }

  datatype Book = Book(
    nonce: string,
    issued: nat,
    terminal: bool,
    slots: map<string, Slot>,
    supervisors: map<string, Supervisor>,  // every supervisor ever started
    now: nat,
    barriers: map<nat, set<string>>,       // for each shutdown under way, whom it waits for
    completed: bool)                       // whether any shutdown has reported completion

  function Fresh(nonce: string, now: nat): Book {
    Book(nonce, 0, false, map[], map[], now, map[], false)
  }

  predicate IsClosed(b: Book, h: string) {
    h in b.supervisors && b.supervisors[h].closed
  }

  predicate Expired(b: Book, s: Slot) {
    s.plan.None? && b.now >= s.reservedAt + RESERVATION_LIFETIME
  }

  /** The slots a reservation keeps: everything but closed workers and idle expired reservations. */
  function Survivors(b: Book): map<string, Slot> {
    map h | h in b.slots && !IsClosed(b, h) && !Expired(b, b.slots[h]) :: b.slots[h]
  }

  function Missing(b: Book, h: string): Outcome {
    if Known(h, b.nonce, b.issued) then ClosedHandle else UnknownHandle
  }

  function Reserve(b: Book): (Book, Result<string, Outcome>) {
    if b.terminal then (b, Err(ManagerShutdown))
    else
      var kept := b.(slots := Survivors(b));
      if |kept.slots| >= CAPACITY then (kept, Err(WorkerCapacity))
      else if b.issued >= U64_MAX then (kept, Err(IdentityExhausted))
      else
        var h := Handle(b.nonce, b.issued + 1);
        (kept.(issued := b.issued + 1, slots := kept.slots[h := Slot(b.now, None, false)]), Ok(h))
  }

  /** The critical section of prepare. No outcome means it goes on to wait for the preparation. */
  function Prepare(b: Book, h: string, plan: string): (Book, Option<Outcome>) {
    if b.terminal then (b, Some(ManagerShutdown))
    else if h !in b.slots then (b, Some(Missing(b, h)))
    else
      var slot := b.slots[h];
      if IsClosed(b, h) || slot.stop then (b, Some(ClosedHandle))
      else if slot.plan.Some? then (b, if slot.plan.value != plan then Some(PlanConflict) else None)
      else if Expired(b, slot) then (b, Some(ReservationExpired))
      else (b.(slots := b.slots[h := slot.(plan := Some(plan))],
               supervisors := b.supervisors[h := NEWBORN]), None)
  }

  /** The admission check of start and request. No outcome means the command is queued. */
  function Submit(b: Book, h: string): Option<Outcome> {
    if b.terminal then Some(ManagerShutdown)
    else if h !in b.slots then Some(Missing(b, h))
    else
      var slot := b.slots[h];
      if Expired(b, slot) then Some(ReservationExpired)
      else if slot.stop || IsClosed(b, h) then Some(ClosedHandle)
      else if slot.plan.None? then Some(NotPrepared) else None
  }

  /** The first critical section of stop. No outcome means it goes on to wait for the supervisor. */
  function StopBegin(b: Book, h: string): (Book, Option<Outcome>) {
    if h !in b.slots then (b, Some(Missing(b, h)))
    else if b.slots[h].plan.None? then (b.(slots := b.slots - {h}), Some(Complete))
    else
      (b.(slots := b.slots[h := b.slots[h].(stop := true)],
          supervisors := if h in b.supervisors then b.supervisors[h := b.supervisors[h].(cleanupFailed := false)]
                         else b.supervisors), None)
  }

  function Stopped(slots: map<string, Slot>): map<string, Slot> {
    map h | h in slots :: slots[h].(stop := true)
  }

  function Prepared(b: Book): set<string> {
    set h | h in b.slots && b.slots[h].plan.Some?
  }

  function Cleared(b: Book): map<string, Supervisor> {
    map h | h in b.supervisors ::
      if h in b.slots then b.supervisors[h].(cleanupFailed := false) else b.supervisors[h]
  }

  function ShutdownBegin(b: Book, call: nat): Book {
    b.(terminal := true, slots := Stopped(b.slots), supervisors := Cleared(b),
       barriers := b.barriers[call := Prepared(b)])
  }

  datatype Event =
    | Tick(now: nat)
    | DoReserve
    | DoPrepare(handle: string, plan: string)
    | Work(handle: string, after: Supervisor) // a supervisor acts on native processes
    | CleanupFails(handle: string)
    | Close(handle: string)
    | BeginStop(handle: string)
    | EndStop(handle: string)
    | BeginShutdown(call: nat)
    | EndShutdown(call: nat)
    | FailShutdown(call: nat)

  ghost predicate Next(b: Book, e: Event, b': Book) {
    match e
    case Tick(now) => b.now <= now && b' == b.(now := now)
    case DoReserve => b' == Reserve(b).0
    case DoPrepare(h, plan) => b' == Prepare(b, h, plan).0
    case Work(h, after) =>
      && h in b.supervisors && Worked(b.supervisors[h], after)
      && b' == b.(supervisors := b.supervisors[h := after])
    case CleanupFails(h) =>
      && h in b.supervisors && !b.supervisors[h].closed
      && b' == b.(supervisors := b.supervisors[h := b.supervisors[h].(cleanupFailed := true)])
    case Close(h) =>
      && h in b.supervisors && !b.supervisors[h].closed && Released(b.supervisors[h])
      && b' == b.(supervisors := b.supervisors[h := b.supervisors[h].(closed := true)])
    case BeginStop(h) => b' == StopBegin(b, h).0
    case EndStop(h) => IsClosed(b, h) && b' == b.(slots := b.slots - {h})
    case BeginShutdown(call) => call !in b.barriers && b' == ShutdownBegin(b, call)
    case EndShutdown(call) =>
      && call in b.barriers && (forall h | h in b.barriers[call] :: IsClosed(b, h))
      && b' == b.(slots := map[], barriers := b.barriers - {call}, completed := true)
    case FailShutdown(call) =>
      && call in b.barriers && b' == b.(barriers := b.barriers - {call})
  }

  // ---------------------------------------------------------------- the invariant

  /** The handles issued so far. */
  function Issued(nonce: string, issued: nat): set<string> {
    if issued == 0 then {} else Issued(nonce, issued - 1) + {Handle(nonce, issued)}
  }

  lemma {:induction false} IssuedGrows(nonce: string, issued: nat, later: nat)
    requires issued <= later
    ensures Issued(nonce, issued) <= Issued(nonce, later)
    decreases later
  {
    if issued < later {
      IssuedGrows(nonce, issued, later - 1);
    }
  }

  /** An issued handle is known, and one that is yet to be issued is not among the issued ones. */
  lemma {:induction false} IssuedIff(nonce: string, issued: nat, n: nat)
    requires 0 < n <= U64_MAX && issued <= U64_MAX
    ensures Handle(nonce, n) in Issued(nonce, issued) <==> n <= issued
  {
    if issued > 0 {
      IssuedIff(nonce, issued - 1, n);
      if Handle(nonce, n) == Handle(nonce, issued) {
        HandlesAreDistinct(nonce, n, issued);
      }
    }
  }

  lemma {:induction false} IssuedIsKnown(nonce: string, issued: nat, h: string)
    requires h in Issued(nonce, issued) && issued <= U64_MAX
    ensures Known(h, nonce, issued)
  {
    if h == Handle(nonce, issued) {
      HandleIsKnownOnceIssued(nonce, issued, issued);
    } else {
      IssuedIsKnown(nonce, issued - 1, h);
    }
  }

  /** A slot with a plan is exactly a slot whose supervisor was started. */
  predicate Paired(slots: map<string, Slot>, supervisors: map<string, Supervisor>) {
    forall h | h in slots :: slots[h].plan.Some? <==> h in supervisors
  }

  /** Every unclosed supervisor still has its slot. */
  predicate Slotted(slots: map<string, Slot>, supervisors: map<string, Supervisor>) {
    forall h | h in supervisors :: supervisors[h].closed || h in slots
  }

  predicate ClosedAreReleased(supervisors: map<string, Supervisor>) {
    forall h | h in supervisors && supervisors[h].closed :: Released(supervisors[h])
  }

  predicate AllClosed(supervisors: map<string, Supervisor>) {
    forall h | h in supervisors :: supervisors[h].closed
  }

  predicate Covers(waiting: set<string>, supervisors: map<string, Supervisor>) {
    forall h | h in supervisors :: supervisors[h].closed || h in waiting
  }

  /** Every shutdown under way waits for all supervisors that are not yet closed. */
  predicate Guarded(b: Book) {
    && (forall call | call in b.barriers :: b.terminal && Covers(b.barriers[call], b.supervisors))
    && (b.completed ==> b.terminal && b.slots == map[] && AllClosed(b.supervisors))
  }

  predicate Inv(b: Book) {
    && b.issued <= U64_MAX
    && |b.slots| <= CAPACITY
    && b.slots.Keys <= Issued(b.nonce, b.issued)
    && b.supervisors.Keys <= Issued(b.nonce, b.issued)
    && Paired(b.slots, b.supervisors)
    && Slotted(b.slots, b.supervisors)
    && ClosedAreReleased(b.supervisors)
    && Guarded(b)
  }

  /** What a step that only shrinks or rewrites existing slots has to respect. */
  lemma KeepsInv(b: Book, b': Book)
    requires Inv(b) && b'.nonce == b.nonce && b'.issued == b.issued
    requires b'.slots.Keys <= b.slots.Keys
    requires b'.supervisors.Keys <= b.supervisors.Keys + b.slots.Keys
    requires Paired(b'.slots, b'.supervisors) && Slotted(b'.slots, b'.supervisors) && Guarded(b')
    requires ClosedAreReleased(b'.supervisors)
    ensures Inv(b')
  {
    SubsetSize(b'.slots.Keys, b.slots.Keys);
  }

  lemma AddingKeepsInv(b: Book, b': Book, h: string, slot: Slot)
    requires Inv(b) && !b.terminal && |b.slots| < CAPACITY && slot.plan.None?
    requires b' == b.(issued := b'.issued, slots := b.slots[h := slot]) && b.issued <= b'.issued <= U64_MAX
    requires h in Issued(b.nonce, b'.issued) - Issued(b.nonce, b.issued)
    ensures Inv(b')
  {
    IssuedGrows(b.nonce, b.issued, b'.issued);
    assert b'.slots.Keys == b.slots.Keys + {h};
    assert Paired(b'.slots, b.supervisors);
    assert Guarded(b');
  }

  lemma RetainKeepsInv(b: Book)
    requires Inv(b)
    ensures Inv(b.(slots := Survivors(b)))
  {
    var kept := b.(slots := Survivors(b));
    assert Paired(kept.slots, kept.supervisors);
    assert Guarded(kept);
    KeepsInv(b, kept);
  }

  lemma ReserveKeepsInv(b: Book)
    requires Inv(b)
    ensures Inv(Reserve(b).0)
  {
    var (b', answer) := Reserve(b);
    RetainKeepsInv(b);
    if answer.Ok? {
      IssuedIff(b.nonce, b.issued, b.issued + 1);
      AddingKeepsInv(b.(slots := Survivors(b)), b', answer.value, Slot(b.now, None, false));
    }
  }

  lemma PrepareKeepsInv(b: Book, h: string, plan: string)
    requires Inv(b)
    ensures Inv(Prepare(b, h, plan).0)
  {
    var b' := Prepare(b, h, plan).0;
    if b' != b {
      assert b.barriers == map[] by {
        if call :| call in b.barriers {}
      }
      KeepsInv(b, b');
    }
  }

  lemma StopKeepsInv(b: Book, h: string)
    requires Inv(b)
    ensures Inv(StopBegin(b, h).0)
  {
    var b' := StopBegin(b, h).0;
    assert forall call | call in b.barriers :: Covers(b.barriers[call], b'.supervisors) by {
      forall call | call in b.barriers ensures Covers(b.barriers[call], b'.supervisors) {
        assert Covers(b.barriers[call], b.supervisors);
      }
    }
    KeepsInv(b, b');
  }

  lemma ShutdownKeepsInv(b: Book, call: nat)
    requires Inv(b) && call !in b.barriers
    ensures Inv(ShutdownBegin(b, call))
  {
    var b' := ShutdownBegin(b, call);
    assert Covers(Prepared(b), b'.supervisors) by {
      forall h | h in b'.supervisors && !b'.supervisors[h].closed ensures h in Prepared(b) {
        assert h in b.slots;
      }
    }
    forall c | c in b'.barriers ensures Covers(b'.barriers[c], b'.supervisors) {
      if c != call { assert Covers(b.barriers[c], b.supervisors); }
    }
    if b.completed { assert b'.slots == map[]; }
    KeepsInv(b, b');
  }

  lemma SupervisorKeepsInv(b: Book, h: string, s: Supervisor)
    requires Inv(b) && h in b.supervisors && !b.supervisors[h].closed && (s.closed ==> Released(s))
    ensures Inv(b.(supervisors := b.supervisors[h := s]))
  {
    var b' := b.(supervisors := b.supervisors[h := s]);
    forall c | c in b'.barriers ensures Covers(b'.barriers[c], b'.supervisors) {
      assert Covers(b.barriers[c], b.supervisors);
    }
    KeepsInv(b, b');
  }

  lemma EndShutdownKeepsInv(b: Book, call: nat)
    requires Inv(b) && call in b.barriers && forall h | h in b.barriers[call] :: IsClosed(b, h)
    ensures AllClosed(b.supervisors)
    ensures Inv(b.(slots := map[], barriers := b.barriers - {call}, completed := true))
  {
    assert Covers(b.barriers[call], b.supervisors);
    KeepsInv(b, b.(slots := map[], barriers := b.barriers - {call}, completed := true));
  }

  lemma NextKeepsInv(b: Book, e: Event, b': Book)
    requires Inv(b) && Next(b, e, b')
    ensures Inv(b')
  {
    match e
    case DoReserve => ReserveKeepsInv(b);
    case DoPrepare(h, plan) => PrepareKeepsInv(b, h, plan);
    case Work(h, after) => SupervisorKeepsInv(b, h, after);
    case CleanupFails(h) => SupervisorKeepsInv(b, h, b.supervisors[h].(cleanupFailed := true));
    case Close(h) => SupervisorKeepsInv(b, h, b.supervisors[h].(closed := true));
    case BeginStop(h) => StopKeepsInv(b, h);
    case BeginShutdown(call) => ShutdownKeepsInv(b, call);
    case EndShutdown(call) => EndShutdownKeepsInv(b, call);
    case _ => KeepsInv(b, b');
  }

  // ---------------------------------------------------------------- what one step changes

  /** A retired handle gets no slot back, and no supervisor is started for it. */
  predicate Retired(b: Book, b': Book) {
    forall h | h in Issued(b.nonce, b.issued) && h !in b.slots ::
      h !in b'.slots && (h in b'.supervisors ==> h in b.supervisors)
  }

  /** What a slot keeps while it stands: its age, a plan once given, and having expired. */
  predicate SameSlot(s: Slot, s': Slot) {
    s'.reservedAt == s.reservedAt && (s.plan.Some? ==> s'.plan == s.plan) && (s.stop ==> s'.stop)
  }

  predicate SlotsKept(b: Book, b': Book) {
    && (forall h | h in b.slots && h in b'.slots :: SameSlot(b.slots[h], b'.slots[h]))
    && (forall h | h in b.slots && h in b'.slots && Expired(b, b.slots[h]) :: Expired(b', b'.slots[h]))
  }

  /** Supervisors are never forgotten, replaced or reopened. */
  predicate SupervisorsKept(b: Book, b': Book) {
    forall h | h in b.supervisors :: h in b'.supervisors && (b.supervisors[h].closed ==> b'.supervisors[h].closed)
  }

  /** What holds between a state and any later one. */
  predicate Onward(b: Book, b': Book) {
    && b'.nonce == b.nonce && b.issued <= b'.issued && b.now <= b'.now
    && (b.terminal ==> b'.terminal && b'.issued == b.issued && b'.supervisors.Keys == b.supervisors.Keys
                       && b'.slots.Keys <= b.slots.Keys)
    && (b.completed ==> b'.completed && b'.supervisors == b.supervisors)
    && Retired(b, b') && SlotsKept(b, b') && SupervisorsKept(b, b')
  }

  lemma ReserveGoesOnward(b: Book)
    requires Inv(b)
    ensures Onward(b, Reserve(b).0)
  {
    if b.issued < U64_MAX {
      IssuedIff(b.nonce, b.issued, b.issued + 1);
    }
  }

  lemma ShutdownGoesOnward(b: Book, call: nat)
    requires Inv(b)
    ensures Onward(b, ShutdownBegin(b, call))
  {
    var b' := ShutdownBegin(b, call);
    assert b'.slots.Keys == b.slots.Keys;
    assert b'.supervisors.Keys == b.supervisors.Keys;
    if b.completed {
      assert b'.supervisors == b.supervisors;
    }
  }

  lemma PrepareGoesOnward(b: Book, h: string, plan: string)
    requires Inv(b)
    ensures Onward(b, Prepare(b, h, plan).0)
  {
  }

  lemma StopGoesOnward(b: Book, h: string)
    requires Inv(b)
    ensures Onward(b, StopBegin(b, h).0)
  {
  }

  lemma SupervisorGoesOnward(b: Book, h: string, s: Supervisor)
    requires Inv(b) && h in b.supervisors && !b.supervisors[h].closed
    ensures Onward(b, b.(supervisors := b.supervisors[h := s]))
  {
    assert !b.completed;
  }

  lemma RemovalGoesOnward(b: Book, b': Book)
    requires Inv(b) && b'.slots.Keys <= b.slots.Keys && (forall h | h in b'.slots :: b'.slots[h] == b.slots[h])
    requires b.now <= b'.now && b'.nonce == b.nonce && b'.issued == b.issued && b'.supervisors == b.supervisors
    requires b'.terminal == b.terminal && (b.completed ==> b'.completed)
    ensures Onward(b, b')
  {
  }

  lemma NextGoesOnward(b: Book, e: Event, b': Book)
    requires Inv(b) && Next(b, e, b')
    ensures Onward(b, b')
  {
    match e
    case DoReserve => ReserveGoesOnward(b);
    case DoPrepare(h, plan) => PrepareGoesOnward(b, h, plan);
    case Work(h, after) => SupervisorGoesOnward(b, h, after);
    case CleanupFails(h) => SupervisorGoesOnward(b, h, b.supervisors[h].(cleanupFailed := true));
    case Close(h) => SupervisorGoesOnward(b, h, b.supervisors[h].(closed := true));
    case BeginStop(h) => StopGoesOnward(b, h);
    case BeginShutdown(call) => ShutdownGoesOnward(b, call);
    case _ => RemovalGoesOnward(b, b');
  }

  lemma StaysOnward(b: Book)
    ensures Onward(b, b)
  {
  }

  lemma OnwardComposes(a: Book, b: Book, c: Book)
    requires Inv(a) && Onward(a, b) && Onward(b, c)
    ensures Onward(a, c)
  {
    IssuedGrows(a.nonce, a.issued, b.issued);
  }

  // ---------------------------------------------------------------- runs

  /** The first `k` steps are steps of the machine. */
  ghost predicate Steps(s: seq<Book>, e: seq<Event>, k: nat)
    requires k <= |e| < |s|
  {
    k == 0 || (Steps(s, e, k - 1) && Next(s[k - 1], e[k - 1], s[k]))
  }

  ghost predicate Run(s: seq<Book>, e: seq<Event>) {
    |s| == |e| + 1 && s[0] == Fresh(s[0].nonce, s[0].now) && Steps(s, e, |e|)
  }

  lemma {:induction false} StepAt(s: seq<Book>, e: seq<Event>, k: nat, i: nat)
    requires i < k <= |e| < |s| && Steps(s, e, k)
    ensures Next(s[i], e[i], s[i + 1])
  {
    if i < k - 1 {
      StepAt(s, e, k - 1, i);
    }
  }

  lemma {:induction false} RunKeepsInv(s: seq<Book>, e: seq<Event>, i: nat)
    requires Run(s, e) && i < |s|
    ensures Inv(s[i])
  {
    if i > 0 {
      RunKeepsInv(s, e, i - 1);
      StepAt(s, e, |e|, i - 1);
      NextKeepsInv(s[i - 1], e[i - 1], s[i]);
    }
  }

  lemma StepGoesOnward(s: seq<Book>, e: seq<Event>, i: nat)
    requires Run(s, e) && i < |e|
    ensures Inv(s[i]) && Onward(s[i], s[i + 1])
  {
    RunKeepsInv(s, e, i);
    StepAt(s, e, |e|, i);
    NextGoesOnward(s[i], e[i], s[i + 1]);
  }

  lemma {:induction false} RunGoesOnward(s: seq<Book>, e: seq<Event>, i: nat, j: nat)
    requires Run(s, e) && i <= j < |s|
    ensures Onward(s[i], s[j])
    decreases j
  {
    if i == j {
      StaysOnward(s[i]);
    } else {
      RunKeepsInv(s, e, i);
      RunGoesOnward(s, e, i, j - 1);
      StepGoesOnward(s, e, j - 1);
      OnwardComposes(s[i], s[j - 1], s[j]);
    }
  }

  function Live(b: Book): set<string> {
    set h | h in b.supervisors && !b.supervisors[h].closed
  }

  /** In every reachable state each unclosed supervisor has its slot, with a plan, and there are at
      most sixteen of them. */
  lemma LiveSupervisorsAreBounded(s: seq<Book>, e: seq<Event>, i: nat)
    requires Run(s, e) && i < |s|
    ensures Live(s[i]) <= Prepared(s[i])
    ensures |Live(s[i])| <= CAPACITY
  {
    RunKeepsInv(s, e, i);
    SubsetSize(Live(s[i]), s[i].slots.Keys);
  }

  /** The handle a reservation returns has no slot and no supervisor anywhere in the past, and was
      unknown until then. */
  lemma ReservedHandleIsNew(s: seq<Book>, e: seq<Event>, i: nat, j: nat)
    requires Run(s, e) && i <= j < |s| && Reserve(s[j]).1.Ok?
    ensures var h := Reserve(s[j]).1.value;
      && h !in s[i].slots && h !in s[i].supervisors && Missing(s[i], h) == UnknownHandle
      && h in Reserve(s[j]).0.slots && Missing(Reserve(s[j]).0, h) == ClosedHandle
  {
    RunKeepsInv(s, e, i);
    RunGoesOnward(s, e, i, j);
    var n := s[j].issued + 1;
    IssuedIff(s[i].nonce, s[i].issued, n);
    HandleIsKnownOnceIssued(s[i].nonce, n, s[i].issued);
    HandleIsKnownOnceIssued(s[i].nonce, n, n);
  }

  /** A handle that was issued and has lost its slot stays out of the book for good: no supervisor is
      started for it, the one it had is closed and stays so, and prepare, start, request, stop and
      status all answer that it is closed. */
  lemma RetiredHandlesStayClosed(s: seq<Book>, e: seq<Event>, i: nat, j: nat, n: nat, plan: string)
    requires Run(s, e) && i <= j < |s| && 0 < n <= s[i].issued
    requires Handle(s[i].nonce, n) !in s[i].slots
    ensures var h := Handle(s[i].nonce, n);
      && h !in s[j].slots
      && (h in s[j].supervisors <==> h in s[i].supervisors)
      && (h in s[j].supervisors ==> s[j].supervisors[h].closed)
      && Missing(s[j], h) == ClosedHandle
      && Prepare(s[j], h, plan).1.Some? && SaysClosed(Prepare(s[j], h, plan).1.value)
      && Submit(s[j], h).Some? && SaysClosed(Submit(s[j], h).value)
      && StopBegin(s[j], h) == (s[j], Some(ClosedHandle))
  {
    RunKeepsInv(s, e, i);
    RunKeepsInv(s, e, j);
    RunGoesOnward(s, e, i, j);
    IssuedIff(s[i].nonce, s[i].issued, n);
    HandleIsKnownOnceIssued(s[i].nonce, n, s[j].issued);
  }

  /** A handle gets its slot once, when it is issued, and is answered Unknown only before that. */
  lemma IssuedHandlesAreNeverUnknown(s: seq<Book>, e: seq<Event>, i: nat, n: nat)
    requires Run(s, e) && i < |s| && 0 < n <= U64_MAX
    ensures Missing(s[i], Handle(s[i].nonce, n)) == (if n <= s[i].issued then ClosedHandle else UnknownHandle)
    ensures s[i].issued < n ==> Handle(s[i].nonce, n) !in s[i].slots && Handle(s[i].nonce, n) !in s[i].supervisors
  {
    RunKeepsInv(s, e, i);
    HandleIsKnownOnceIssued(s[i].nonce, n, s[i].issued);
    IssuedIff(s[i].nonce, s[i].issued, n);
  }

  /** Issued, never prepared, and too old to be prepared if the slot still stands. */
  predicate Lapsed(b: Book, h: string) {
    && h in Issued(b.nonce, b.issued) && h !in b.supervisors
    && (h in b.slots ==> Expired(b, b.slots[h]))
  }

  lemma LapsedStays(b: Book, e: Event, b': Book, h: string)
    requires Inv(b) && Next(b, e, b') && Lapsed(b, h)
    ensures Lapsed(b', h)
  {
    NextGoesOnward(b, e, b');
    IssuedGrows(b.nonce, b.issued, b'.issued);
    assert h !in b'.supervisors by {
      if e.DoPrepare? && e.handle == h && h in b.slots {
        assert Prepare(b, h, e.plan).0 == b;
      }
    }
  }

  /** A reservation that has expired unprepared never gets a plan or a supervisor. */
  lemma {:induction false} ExpiredReservationsNeverStart(s: seq<Book>, e: seq<Event>, i: nat, j: nat, h: string)
    requires Run(s, e) && i <= j < |s| && h in s[i].slots && Expired(s[i], s[i].slots[h])
    ensures Lapsed(s[j], h)
    decreases j
  {
    if i < j {
      ExpiredReservationsNeverStart(s, e, i, j - 1, h);
      RunKeepsInv(s, e, j - 1);
      StepAt(s, e, |e|, j - 1);
      LapsedStays(s[j - 1], e[j - 1], s[j], h);
    } else {
      RunKeepsInv(s, e, i);
    }
  }

  /** A prepared handle keeps the plan it was prepared with, for as long as it has a slot. */
  lemma PlansNeverChange(s: seq<Book>, e: seq<Event>, i: nat, j: nat, h: string)
    requires Run(s, e) && i <= j < |s|
    requires h in s[i].slots && s[i].slots[h].plan.Some? && h in s[j].slots
    ensures s[j].slots[h].plan == s[i].slots[h].plan
    ensures forall plan :: Prepare(s[j], h, plan).1 == None ==> Some(plan) == s[i].slots[h].plan
  {
    RunGoesOnward(s, e, i, j);
  }

  /** Once a shutdown has reported completion the book is empty, every supervisor ever started is
      closed with every child it ever spawned reaped and its cache session released, none is started or
      acts on a native process again, and nothing is admitted. */
  lemma ShutdownIsFinal(s: seq<Book>, e: seq<Event>, i: nat, j: nat)
    requires Run(s, e) && i < j < |s| && e[i].EndShutdown?
    ensures s[j].terminal && s[j].slots == map[]
    ensures s[j].supervisors == s[i].supervisors && AllClosed(s[j].supervisors)
    ensures forall h | h in s[j].supervisors :: Released(s[j].supervisors[h])
    ensures j < |e| ==> !e[j].Work? && !e[j].Close? && !e[j].CleanupFails?
    ensures Reserve(s[j]) == (s[j], Err(ManagerShutdown))
    ensures forall h, plan :: Prepare(s[j], h, plan) == (s[j], Some(ManagerShutdown))
    ensures forall h :: Submit(s[j], h) == Some(ManagerShutdown)
  {
    RunKeepsInv(s, e, j);
    RunGoesOnward(s, e, i + 1, j);
    StepAt(s, e, |e|, i);
    if j < |e| {
      StepAt(s, e, |e|, j);
    }
  }

  /** From the moment a shutdown begins no supervisor is started and no handle is issued. */
  lemma NothingStartsAfterShutdownBegins(s: seq<Book>, e: seq<Event>, i: nat, j: nat)
    requires Run(s, e) && i < j < |s| && e[i].BeginShutdown?
    ensures s[j].supervisors.Keys == s[i].supervisors.Keys && s[j].issued == s[i].issued
    ensures s[j].slots.Keys <= s[i].slots.Keys
  {
    RunGoesOnward(s, e, i + 1, j);
    StepAt(s, e, |e|, i);
    assert s[i + 1].slots.Keys == s[i].slots.Keys;
    assert s[i + 1].supervisors.Keys == s[i].supervisors.Keys;
  }
}
