/** The bounded replay window of a worker supervisor (worker/actor.rs), next to the unbounded
    reply log it stands for.

    A `Ledger` is what a supervisor remembers about operations, with two things it does not keep
    added for the proofs: every reply it ever recorded, and every frame it ever wrote. One call of
    `Handle` is one request served from start to end. */
module ReplayWindow {
  import opened Wrappers

  const REPLAY_WINDOW: nat := 8

  /** What identifies a request besides its number: method and parameters. */
  datatype Request = Request(operation: nat, method_: string, params: string)

  datatype Reason =
    | RequestTimeout | OperationConflict | CleanupFailed | StartupBackoff | PrepareFailed
    | SpawnFailed | HandshakeFailed | HandshakeTimeout | WorkerClosed | RemoteFailed | Canceled
    | ExchangeFailed

  datatype Outcome =
    | Complete
    | Response(ok: bool, body: string)
    | Closed
    | Invalid(reason: Reason)
    | Expired
    | Failed(reason: Reason)

  datatype Entry = Entry(request: Request, outcome: Outcome)

  /** What the world did with a dispatched request: the outcome, whether an exchange with the
      worker was attempted, and how many frames of it were begun on the wire. */
  datatype Dispatch = Dispatch(outcome: Outcome, attempted: bool, frames: nat)

  /** A dispatch begins at most two frames, and only when it attempts an exchange. `Expired` is
      not an answer it gives. */
  predicate Possible(d: Dispatch) {
    d.frames <= 2 && (d.frames > 0 ==> d.attempted) && !d.outcome.Expired?
  }

  datatype Ledger = Ledger(
    replies: map<nat, Entry>,   // the window
    highest: nat,
    log: map<nat, Entry>,       // every reply ever recorded
    sent: seq<nat>)             // the operation of every frame ever begun, in order

  const EMPTY := Ledger(map[], 0, map[], [])

  /** Rust's `saturating_sub`. */
  function SaturatingSub(a: nat, b: nat): nat {
    if a < b then 0 else a - b
  }

  /** Operation numbers up to here have left the window. */
  function Bound(highest: nat): nat {
    SaturatingSub(highest, REPLAY_WINDOW)
  }

  function Above(m: map<nat, Entry>, bound: nat): map<nat, Entry> {
    map id | id in m && id > bound :: m[id]
  }

  predicate SameRequest(a: Request, b: Request) {
    a.method_ == b.method_ && a.params == b.params
  }

  function Repeat(operation: nat, n: nat): seq<nat> {
    seq(n, _ => operation)
  }

  /** The answer a remembered reply gives to a new request under the same number. */
  function Replay(entry: Entry, request: Request): Outcome {
    if SameRequest(entry.request, request) then entry.outcome else Invalid(OperationConflict)
  }

  /** The ledger after a dispatch. */
  function Record(l: Ledger, request: Request, d: Dispatch): Ledger {
    if !d.attempted then l
    else
      var highest := if l.highest < request.operation then request.operation else l.highest;
      var entry := Entry(request, d.outcome);
      Ledger(Above(l.replies, Bound(highest))[request.operation := entry], highest,
             l.log[request.operation := entry], l.sent + Repeat(request.operation, d.frames))
  }

  /** A request that reached its supervisor: `late` when its deadline has already passed. `d` is
      what a dispatch would do, and is used only when one happens. */
  function Handle(l: Ledger, request: Request, late: bool, d: Dispatch): (Ledger, Outcome) {
    if late then (l, Failed(RequestTimeout))
    else if request.operation in l.replies then (l, Replay(l.replies[request.operation], request))
    else if request.operation <= Bound(l.highest) then (l, Expired)
    else (Record(l, request, d), d.outcome)
  }

  /** The same request answered by a supervisor that never forgets a reply, and that still refuses
      every number that has fallen eight behind. */
  function Unbounded(l: Ledger, request: Request, late: bool, d: Dispatch): Outcome {
    if late then Failed(RequestTimeout)
    else if request.operation <= Bound(l.highest) then Expired
    else if request.operation in l.log then Replay(l.log[request.operation], request)
    else d.outcome
  }

  // ---------------------------------------------------------------- what every request keeps

  /** The window is the log cut off at the bound, and every frame belongs to a logged operation. */
  ghost predicate Consistent(l: Ledger) {
    && l.replies == Above(l.log, Bound(l.highest))
    && (forall id | id in l.log :: 0 < id <= l.highest && l.log[id].request.operation == id)
    && (forall id | id in l.log :: !l.log[id].outcome.Expired?)
    && (forall i | 0 <= i < |l.sent| :: l.sent[i] in l.log)
  }

  lemma HandleKeepsConsistent(l: Ledger, request: Request, late: bool, d: Dispatch)
    requires Consistent(l) && Possible(d)
    ensures Consistent(Handle(l, request, late, d).0)
  {
    var (l', _) := Handle(l, request, late, d);
    if l' != l {
      assert l'.log == l.log[request.operation := Entry(request, d.outcome)];
      assert l'.replies == Above(l'.log, Bound(l'.highest));
      forall i | 0 <= i < |l'.sent| ensures l'.sent[i] in l'.log {
        if i < |l.sent| {
          assert l'.sent[i] == l.sent[i];
        }
      }
    }
  }

  /** Forgetting is never visible: the bounded supervisor answers exactly as the unbounded one. */
  lemma HandleRefinesTheUnboundedLog(l: Ledger, request: Request, late: bool, d: Dispatch)
    requires Consistent(l)
    ensures Handle(l, request, late, d).1 == Unbounded(l, request, late, d)
    ensures Possible(d) ==> (Handle(l, request, late, d).1 == Expired <==>
                             !late && request.operation <= Bound(l.highest))
  {
    assert l.replies == Above(l.log, Bound(l.highest));
  }

  /** The window never holds more than eight replies. */
  lemma WindowHoldsAtMostEight(l: Ledger)
    requires Consistent(l)
    ensures |l.replies| <= REPLAY_WINDOW
  {
    KeysWithin(l.replies.Keys, Bound(l.highest), l.highest);
  }

  lemma {:induction false} KeysWithin(keys: set<nat>, low: nat, high: nat)
    requires low <= high
    requires forall k | k in keys :: low < k <= high
    ensures |keys| <= high - low
    decreases high
  {
    if keys != {} {
      KeysWithin(keys - {high}, low, high - 1);
      assert |keys| <= |keys - {high}| + 1;
    }
  }

  // ---------------------------------------------------------------- whole runs

  /** One request of a run, with what the world would do with it. */
  datatype Arrival = Arrival(request: Request, late: bool, dispatch: Dispatch)

  ghost predicate PossibleRun(run: seq<Arrival>) {
    forall i | 0 <= i < |run| :: Possible(run[i].dispatch)
  }

  /** The ledger after a run of requests. */
  function After(l: Ledger, run: seq<Arrival>): Ledger {
    if run == [] then l
    else var last := run[|run| - 1];
         Handle(After(l, run[..|run| - 1]), last.request, last.late, last.dispatch).0
  }

  function Answer(l: Ledger, run: seq<Arrival>, i: nat): Outcome
    requires i < |run|
  {
    Handle(After(l, run[..i]), run[i].request, run[i].late, run[i].dispatch).1
  }

  lemma AfterStep(l: Ledger, run: seq<Arrival>, i: nat)
    requires i < |run|
    ensures After(l, run[..i + 1]) ==
            Handle(After(l, run[..i]), run[i].request, run[i].late, run[i].dispatch).0
  {
    assert run[..i + 1][..i] == run[..i];
  }

  lemma AfterAppended(l: Ledger, run: seq<Arrival>, more: seq<Arrival>)
    requires |more| <= 1
    ensures After(l, run + more) == After(After(l, run), more)
  {
    if more == [] {
      assert run + more == run;
    } else {
      assert (run + more)[..|run|] == run;
    }
  }

  lemma {:induction false} RunKeepsConsistent(l: Ledger, run: seq<Arrival>)
    requires Consistent(l) && PossibleRun(run)
    ensures Consistent(After(l, run))
    decreases |run|
  {
    if run != [] {
      var last := run[|run| - 1];
      RunKeepsConsistent(l, run[..|run| - 1]);
      HandleKeepsConsistent(After(l, run[..|run| - 1]), last.request, last.late, last.dispatch);
    }
  }

  /** In every run, every answer is the one the unbounded log gives. */
  lemma RunRefinesTheUnboundedLog(run: seq<Arrival>, i: nat)
    requires PossibleRun(run) && i < |run|
    ensures var l := After(EMPTY, run[..i]);
            && Answer(EMPTY, run, i) == Unbounded(l, run[i].request, run[i].late, run[i].dispatch)
            && l.replies == Above(l.log, Bound(l.highest))
            && |l.replies| <= REPLAY_WINDOW
  {
    RunKeepsConsistent(EMPTY, run[..i]);
    HandleRefinesTheUnboundedLog(After(EMPTY, run[..i]), run[i].request, run[i].late, run[i].dispatch);
    WindowHoldsAtMostEight(After(EMPTY, run[..i]));
  }

  lemma {:induction false} RunOnlyAdds(l: Ledger, run: seq<Arrival>, i: nat)
    requires i <= |run|
    ensures After(l, run[..i]).sent <= After(l, run).sent
    ensures After(l, run[..i]).log.Keys <= After(l, run).log.Keys
    ensures After(l, run[..i]).highest <= After(l, run).highest
    decreases |run|
  {
    if i == |run| {
      assert run[..i] == run;
    } else {
      var shorter := run[..|run| - 1];
      assert shorter[..i] == run[..i];
      RunOnlyAdds(l, shorter, i);
    }
  }

  /** Request `i` of the run was dispatched and reached for the wire. */
  ghost predicate Attempted(l: Ledger, run: seq<Arrival>, i: nat)
    requires i < |run|
  {
    var before := After(l, run[..i]);
    && !run[i].late && run[i].request.operation !in before.replies
    && run[i].request.operation > Bound(before.highest)
    && run[i].dispatch.attempted
  }

  /** Once an operation number has been attempted, no later request under that number is attempted
      again, however many restarts, evictions and other requests lie between: it is replayed,
      refused as a conflict, expired, or late, and nothing more is written. */
  lemma AttemptedAtMostOnce(run: seq<Arrival>, i: nat, j: nat)
    requires PossibleRun(run) && i < j < |run|
    requires Attempted(EMPTY, run, i)
    requires run[i].request.operation == run[j].request.operation
    ensures !Attempted(EMPTY, run, j)
    ensures After(EMPTY, run[..j + 1]) == After(EMPTY, run[..j])
    ensures !run[j].late ==>
              Answer(EMPTY, run, j) in {run[i].dispatch.outcome, Invalid(OperationConflict), Expired}
  {
    var op := run[i].request.operation;
    AfterStep(EMPTY, run, i);
    AfterStep(EMPTY, run, j);
    var then', before := After(EMPTY, run[..i + 1]), After(EMPTY, run[..j]);
    assert then'.log[op] == Entry(run[i].request, run[i].dispatch.outcome);
    assert run[..j][..i + 1] == run[..i + 1];
    RunOnlyAdds(EMPTY, run[..j], i + 1);
    RunKeepsConsistent(EMPTY, run[..j]);
    assert op in before.log;
    LogIsNeverRewritten(EMPTY, run[..j], i + 1, op);
  }

  lemma {:induction false} LogIsNeverRewritten(l: Ledger, run: seq<Arrival>, i: nat, op: nat)
    requires Consistent(l) && PossibleRun(run) && i <= |run|
    requires op in After(l, run[..i]).log
    ensures op in After(l, run).log && After(l, run).log[op] == After(l, run[..i]).log[op]
    decreases |run|
  {
    if i == |run| {
      assert run[..i] == run;
    } else {
      var shorter := run[..|run| - 1];
      assert shorter[..i] == run[..i];
      LogIsNeverRewritten(l, shorter, i, op);
      RunKeepsConsistent(l, shorter);
    }
  }

  function Count(s: seq<nat>, op: nat): nat {
    if s == [] then 0 else Count(s[..|s| - 1], op) + if s[|s| - 1] == op then 1 else 0
  }

  lemma {:induction false} CountRepeat(s: seq<nat>, op: nat, n: nat, other: nat)
    ensures Count(s + Repeat(op, n), other) == Count(s, other) + if op == other then n else 0
    decreases n
  {
    if n == 0 {
      assert s + Repeat(op, 0) == s;
    } else {
      CountRepeat(s, op, n - 1, other);
      assert (s + Repeat(op, n))[..|s| + n - 1] == s + Repeat(op, n - 1);
    }
  }

  lemma {:induction false} CountAbsent(s: seq<nat>, op: nat)
    requires op !in s
    ensures Count(s, op) == 0
  {
    if s != [] {
      CountAbsent(s[..|s| - 1], op);
    }
  }

  /** Over a supervisor's whole life at most two frames are begun for any operation number. */
  lemma {:induction false} AtMostTwoFrames(run: seq<Arrival>, op: nat)
    requires PossibleRun(run)
    ensures Count(After(EMPTY, run).sent, op) <= 2
    decreases |run|
  {
    if run != [] {
      var shorter, last := run[..|run| - 1], run[|run| - 1];
      var before := After(EMPTY, shorter);
      AtMostTwoFrames(shorter, op);
      RunKeepsConsistent(EMPTY, shorter);
      CountRepeat(before.sent, last.request.operation, last.dispatch.frames, op);
      if After(EMPTY, run) != before && last.request.operation == op {
        assert op !in before.log;
        CountAbsent(before.sent, op);
      }
    }
  }

  // ---------------------------------------------------------------- when nothing expires

  lemma {:induction false} HighestStaysBelow(l: Ledger, run: seq<Arrival>, low: nat)
    requires l.highest < low + REPLAY_WINDOW
    requires forall i | 0 <= i < |run| :: run[i].request.operation < low + REPLAY_WINDOW
    ensures After(l, run).highest < low + REPLAY_WINDOW
    decreases |run|
  {
    if run != [] {
      HighestStaysBelow(l, run[..|run| - 1], low);
    }
  }

  /** Concurrent submissions may arrive in any order: numbers that span fewer than eight, from a
      supervisor not yet eight ahead of the least of them, are never expired. */
  lemma NearbyArrivalsNeverExpire(l: Ledger, run: seq<Arrival>, low: nat, i: nat)
    requires Consistent(l) && PossibleRun(run) && 0 < low && i < |run|
    requires l.highest < low + REPLAY_WINDOW
    requires forall k | 0 <= k < |run| :: low <= run[k].request.operation < low + REPLAY_WINDOW
    ensures Answer(l, run, i) != Expired
  {
    HighestStaysBelow(l, run[..i], low);
    RunKeepsConsistent(l, run[..i]);
    HandleRefinesTheUnboundedLog(After(l, run[..i]), run[i].request, run[i].late, run[i].dispatch);
  }

  /** The window is no wider than it must be: a number that has been attempted is forgotten by the
      supervisor exactly when some attempted number is at least eight above it. */
  lemma ForgottenIff(l: Ledger, id: nat)
    requires Consistent(l) && id in l.log
    ensures id !in l.replies <==> l.highest >= id + REPLAY_WINDOW
  {
    assert l.replies == Above(l.log, Bound(l.highest));
  }
}
