/** The bounded pool of warm workers (pool/lang_pool.rs) as a machine over all its concurrent runs.

    A run is one call of `run`; its phase says where it stands between two awaits. Workers are
    numbered in the order their spawn was committed to, and `served` counts, for each of them, the
    jobs it has answered. Steps of different runs, and of the idle reaper, interleave freely, and a
    caller may drop a run at any await. */
module PoolModel {
  import opened Sets


  datatype Settings = Settings(maxWorkers: nat, queueDepth: nat, recycleAfter: nat)

  /** At least one worker, or every submission would wait for ever. */
  function Workers(c: Settings): (n: nat)
    ensures n > 0
  {
    if c.maxWorkers < 1 then 1 else c.maxWorkers
  }

  function Capacity(c: Settings): nat {
    Workers(c) + c.queueDepth
  }

  datatype Phase =
    | Rejecting              // counted in, found over capacity, not yet counted out
    | Queued                 // admitted, waiting for a permit
    | Taking                 // has a permit, about to look at the idle list
    | Spawning(worker: nat)  // found the idle list empty and committed to a new worker
    | Serving(worker: nat)
    | Served(worker: nat)    // answered, not yet counted in the total
    | Returning(worker: nat) // about to recycle or park the worker
    | Leaving                // without a worker, the permit still held
    | Exiting                // the permit given back, not yet counted out

  datatype Pool = Pool(
    runs: map<nat, Phase>,
    permits: nat,
    idle: seq<nat>,
    inflight: nat,
    served: seq<nat>,       // one entry for each spawn ever committed to
    jobsTotal: nat,
    rejected: nat)

  function Empty(c: Settings): Pool {
    Pool(map[], Workers(c), [], 0, [], 0, 0)
  }

  datatype Event =
    | Arrive(run: nat)
    | Shed(run: nat)
    | Permit(run: nat)
    | TakeIdle(run: nat, index: nat)
    | CommitSpawn(run: nat)
    | SpawnDone(run: nat)
    | GiveUp(run: nat)
    | Answer(run: nat)
    | CountJob(run: nat)
    | Recycle(run: nat)
    | Park(run: nat)
    | ReleasePermit(run: nat)
    | Exit(run: nat)
    | Cancel(run: nat)
    | Reap(kept: seq<nat>)

  predicate HasWorker(p: Phase) {
    p.Spawning? || p.Serving? || p.Served? || p.Returning?
  }

  predicate HasPermit(p: Phase) {
    HasWorker(p) || p.Taking? || p.Leaving?
  }

  predicate ShouldRecycle(c: Settings, jobs: nat) {
    c.recycleAfter > 0 && jobs >= c.recycleAfter
  }

  ghost predicate At(s: Pool, run: nat, p: Phase) {
    run in s.runs && s.runs[run] == p
  }

  /** `kept` is `idle` with some workers left out, in the same order. */
  ghost predicate Subsequence(kept: seq<nat>, idle: seq<nat>) {
    if kept == [] then true
    else idle != [] && (Subsequence(kept, idle[..|idle| - 1]) ||
                        (kept[|kept| - 1] == idle[|idle| - 1] && Subsequence(kept[..|kept| - 1], idle[..|idle| - 1])))
  }

  /** One step of the pool. */
  ghost predicate Next(c: Settings, s: Pool, e: Event, s': Pool) {
    match e
    case Arrive(run) =>
      && run !in s.runs
      && s' == s.(inflight := s.inflight + 1,
                  runs := s.runs[run := if s.inflight + 1 > Capacity(c) then Rejecting else Queued])
    case Shed(run) =>
      && At(s, run, Rejecting) && s.inflight > 0
      && s' == s.(inflight := s.inflight - 1, rejected := s.rejected + 1, runs := s.runs - {run})
    case Permit(run) =>
      && At(s, run, Queued) && s.permits > 0
      && s' == s.(permits := s.permits - 1, runs := s.runs[run := Taking])
    case TakeIdle(run, index) =>
      && At(s, run, Taking) && index < |s.idle|
      && s' == s.(idle := s.idle[..index], runs := s.runs[run := Serving(s.idle[index])])
    case CommitSpawn(run) =>
      && At(s, run, Taking)
      && s' == s.(idle := [], served := s.served + [0], runs := s.runs[run := Spawning(|s.served|)])
    case SpawnDone(run) =>
      && run in s.runs && s.runs[run].Spawning?
      && s' == s.(runs := s.runs[run := Serving(s.runs[run].worker)])
    case GiveUp(run) =>
      && run in s.runs && (s.runs[run].Spawning? || s.runs[run].Serving?)
      && s' == s.(runs := s.runs[run := Leaving])
    case Answer(run) =>
      && run in s.runs && s.runs[run].Serving? && s.runs[run].worker < |s.served|
      && var w := s.runs[run].worker;
         s' == s.(served := s.served[w := s.served[w] + 1], runs := s.runs[run := Served(w)])
    case CountJob(run) =>
      && run in s.runs && s.runs[run].Served?
      && s' == s.(jobsTotal := s.jobsTotal + 1, runs := s.runs[run := Returning(s.runs[run].worker)])
    case Recycle(run) =>
      && run in s.runs && s.runs[run].Returning? && s.runs[run].worker < |s.served|
      && ShouldRecycle(c, s.served[s.runs[run].worker])
      && s' == s.(runs := s.runs[run := Leaving])
    case Park(run) =>
      && run in s.runs && s.runs[run].Returning? && s.runs[run].worker < |s.served|
      && !ShouldRecycle(c, s.served[s.runs[run].worker])
      && s' == s.(idle := s.idle + [s.runs[run].worker], runs := s.runs[run := Leaving])
    case ReleasePermit(run) =>
      && At(s, run, Leaving)
      && s' == s.(permits := s.permits + 1, runs := s.runs[run := Exiting])
    case Exit(run) =>
      && At(s, run, Exiting) && s.inflight > 0
      && s' == s.(inflight := s.inflight - 1, runs := s.runs - {run})
    case Cancel(run) =>
      && run in s.runs
      && (s.runs[run].Queued? || s.runs[run].Taking? || s.runs[run].Spawning? || s.runs[run].Serving?
          || s.runs[run].Returning?)
      && s' == s.(runs := s.runs[run := if s.runs[run].Queued? then Exiting else Leaving])
    case Reap(kept) =>
      Subsequence(kept, s.idle) && s' == s.(idle := kept)
  }

  // ---------------------------------------------------------------- counting runs

  datatype Kind = WithWorker | WithPermit | Admitted | Uncounted

  predicate Is(k: Kind, p: Phase) {
    match k
    case WithWorker => HasWorker(p)
    case WithPermit => HasPermit(p)
    case Admitted => !p.Rejecting?
    case Uncounted => p.Served?
  }

  ghost function Those(runs: map<nat, Phase>, k: Kind): set<nat> {
    set r | r in runs && Is(k, runs[r])
  }

  ghost function Count(runs: map<nat, Phase>, k: Kind): nat {
    |Those(runs, k)|
  }

  function One(b: bool): nat {
    if b then 1 else 0
  }

  lemma ThoseMoved(runs: map<nat, Phase>, r: nat, p: Phase, k: Kind)
    ensures Those(runs[r := p], k) - {r} == Those(runs, k) - {r}
    ensures r in Those(runs[r := p], k) <==> Is(k, p)
  {
  }

  lemma WithoutOne(a: set<nat>, r: nat)
    ensures |a - {r}| == |a| - One(r in a)
  {
    if r !in a {
      assert a - {r} == a;
    }
  }

  lemma CountMoved(runs: map<nat, Phase>, r: nat, p: Phase, k: Kind)
    ensures Count(runs[r := p], k) + One(r in runs && Is(k, runs[r])) == Count(runs, k) + One(Is(k, p))
  {
    ThoseMoved(runs, r, p, k);
    WithoutOne(Those(runs, k), r);
    WithoutOne(Those(runs[r := p], k), r);
  }

  lemma CountGone(runs: map<nat, Phase>, r: nat, k: Kind)
    requires r in runs
    ensures Count(runs - {r}, k) + One(Is(k, runs[r])) == Count(runs, k)
  {
    assert Those(runs - {r}, k) == Those(runs, k) - {r};
    WithoutOne(Those(runs, k), r);
  }

  lemma WorkersNeedPermits(runs: map<nat, Phase>)
    ensures Count(runs, WithWorker) <= Count(runs, WithPermit)
  {
    SubsetSize(Those(runs, WithWorker), Those(runs, WithPermit));
  }

  lemma AdmittedAreRuns(runs: map<nat, Phase>)
    ensures Count(runs, Admitted) <= |runs|
  {
    SubsetSize(Those(runs, Admitted), runs.Keys);
  }

  // ---------------------------------------------------------------- the invariant

  /** The permits are conserved, and idle workers together with workers held or committed to never
      exceed the bound; whoever is counted in is counted. */
  ghost predicate Bounded(c: Settings, s: Pool) {
    && s.permits + Count(s.runs, WithPermit) == Workers(c)
    && |s.idle| + Count(s.runs, WithWorker) <= Workers(c)
    && s.inflight == |s.runs|
    && Count(s.runs, Admitted) <= Capacity(c)
  }

  ghost predicate IdleDistinct(s: Pool) {
    && (forall i | 0 <= i < |s.idle| :: s.idle[i] < |s.served|)
    && (forall i, j | 0 <= i < j < |s.idle| :: s.idle[i] != s.idle[j])
  }

  /** A worker is in one place: once in the idle list, or with one run. */
  ghost predicate Exclusive(s: Pool) {
    && IdleDistinct(s)
    && (forall r | r in s.runs && HasWorker(s.runs[r]) :: s.runs[r].worker < |s.served| && s.runs[r].worker !in s.idle)
    && (forall r, q | r in s.runs && q in s.runs && r != q && HasWorker(s.runs[r]) && HasWorker(s.runs[q]) ::
          s.runs[r].worker != s.runs[q].worker)
  }

  /** Whoever may still take a job has room for it in its budget. */
  ghost predicate WithinBudget(c: Settings, s: Pool) {
    c.recycleAfter > 0 ==>
      && (forall w | 0 <= w < |s.served| :: s.served[w] <= c.recycleAfter)
      && (forall i | 0 <= i < |s.idle| && s.idle[i] < |s.served| :: s.served[s.idle[i]] < c.recycleAfter)
      && (forall r | r in s.runs && (s.runs[r].Spawning? || s.runs[r].Serving?) && s.runs[r].worker < |s.served| ::
            s.served[s.runs[r].worker] < c.recycleAfter)
  }

  ghost function Sum(xs: seq<nat>): nat {
    if xs == [] then 0 else Sum(xs[..|xs| - 1]) + xs[|xs| - 1]
  }

  /** Every answer is in the total or about to be. */
  ghost predicate Counted(s: Pool) {
    s.jobsTotal + Count(s.runs, Uncounted) == Sum(s.served)
  }

  ghost predicate Inv(c: Settings, s: Pool) {
    Bounded(c, s) && Exclusive(s) && WithinBudget(c, s) && Counted(s)
  }

  // ---------------------------------------------------------------- the steps keep it

  lemma {:induction false} SubsequenceFacts(kept: seq<nat>, idle: seq<nat>)
    requires Subsequence(kept, idle)
    ensures |kept| <= |idle| && forall w | w in kept :: w in idle
    ensures (forall i, j | 0 <= i < j < |idle| :: idle[i] != idle[j]) ==>
              forall i, j | 0 <= i < j < |kept| :: kept[i] != kept[j]
    decreases |idle|
  {
    if kept != [] {
      var front := idle[..|idle| - 1];
      if Subsequence(kept, front) {
        SubsequenceFacts(kept, front);
      } else {
        SubsequenceFacts(kept[..|kept| - 1], front);
        assert kept == kept[..|kept| - 1] + [kept[|kept| - 1]];
        forall i | 0 <= i < |kept| - 1 ensures kept[i] in front {
          assert kept[i] == kept[..|kept| - 1][i];
        }
      }
    }
  }

  /** How a step of a run moves it between the counts. */
  lemma NextCounts(c: Settings, s: Pool, e: Event, s': Pool, k: Kind)
    requires Next(c, s, e, s') && !e.Reap?
    ensures Count(s'.runs, k) + One(e.run in s.runs && Is(k, s.runs[e.run])) ==
            Count(s.runs, k) + One(e.run in s'.runs && Is(k, s'.runs[e.run]))
  {
    if e.run in s'.runs {
      CountMoved(s.runs, e.run, s'.runs[e.run], k);
      assert s'.runs == s.runs[e.run := s'.runs[e.run]];
    } else {
      CountGone(s.runs, e.run, k);
    }
  }

  lemma NextKeepsInflight(c: Settings, s: Pool, e: Event, s': Pool)
    requires Next(c, s, e, s') && s.inflight == |s.runs|
    ensures s'.inflight == |s'.runs|
  {
    if e.Shed? || e.Exit? {
      assert s'.runs.Keys == s.runs.Keys - {e.run};
    } else if !e.Reap? {
      assert s'.runs.Keys == s.runs.Keys + {e.run};
    }
  }

  lemma NextKeepsBounded(c: Settings, s: Pool, e: Event, s': Pool)
    requires Next(c, s, e, s') && Bounded(c, s)
    ensures Bounded(c, s')
  {
    NextKeepsInflight(c, s, e, s');
    if e.Reap? {
      SubsequenceFacts(e.kept, s.idle);
    } else {
      NextCounts(c, s, e, s', WithWorker);
      NextCounts(c, s, e, s', WithPermit);
      NextCounts(c, s, e, s', Admitted);
      WorkersNeedPermits(s'.runs);
      AdmittedAreRuns(s'.runs);
    }
  }

  lemma NextKeepsIdleDistinct(c: Settings, s: Pool, e: Event, s': Pool)
    requires Next(c, s, e, s') && Exclusive(s)
    ensures IdleDistinct(s') && |s.served| <= |s'.served|
  {
    if e.Reap? {
      SubsequenceFacts(e.kept, s.idle);
      forall i | 0 <= i < |s'.idle| ensures s'.idle[i] < |s'.served| {
        assert s'.idle[i] in s.idle;
      }
    }
  }

  /** Whoever ends a step in the idle list was there before, or was just parked. */
  lemma NextIdle(c: Settings, s: Pool, e: Event, s': Pool, w: nat)
    requires Next(c, s, e, s') && w in s'.idle
    ensures w in s.idle || (e.Park? && s.runs[e.run].worker == w)
  {
    if e.Reap? {
      SubsequenceFacts(e.kept, s.idle);
    }
  }

  /** A run that has a worker after a step had it before, took it from the idle list, or spawned it. */
  lemma NextHolder(c: Settings, s: Pool, e: Event, s': Pool, r: nat)
    requires Next(c, s, e, s') && Exclusive(s) && r in s'.runs && HasWorker(s'.runs[r])
    ensures var w := s'.runs[r].worker;
            || (r in s.runs && HasWorker(s.runs[r]) && s.runs[r].worker == w)
            || (e.TakeIdle? && e.run == r && w in s.idle && w !in s'.idle)
            || (e == CommitSpawn(r) && w == |s.served|)
  {
  }

  lemma NextKeepsExclusive(c: Settings, s: Pool, e: Event, s': Pool)
    requires Next(c, s, e, s') && Exclusive(s)
    ensures Exclusive(s')
  {
    NextKeepsIdleDistinct(c, s, e, s');
    forall r | r in s'.runs && HasWorker(s'.runs[r])
      ensures s'.runs[r].worker < |s'.served| && s'.runs[r].worker !in s'.idle
    {
      NextHolder(c, s, e, s', r);
      if s'.runs[r].worker in s'.idle {
        NextIdle(c, s, e, s', s'.runs[r].worker);
      }
    }
    forall r, q | r in s'.runs && q in s'.runs && r != q && HasWorker(s'.runs[r]) && HasWorker(s'.runs[q])
      ensures s'.runs[r].worker != s'.runs[q].worker
    {
      NextHolder(c, s, e, s', r);
      NextHolder(c, s, e, s', q);
    }
  }

  lemma NextKeepsBudget(c: Settings, s: Pool, e: Event, s': Pool)
    requires Next(c, s, e, s') && Exclusive(s) && WithinBudget(c, s)
    ensures WithinBudget(c, s')
  {
    if e.Reap? {
      SubsequenceFacts(e.kept, s.idle);
      forall i | 0 <= i < |s'.idle| ensures s'.idle[i] in s.idle {}
    }
  }

  lemma {:induction false} SumRaised(xs: seq<nat>, w: nat)
    requires w < |xs|
    ensures Sum(xs[w := xs[w] + 1]) == Sum(xs) + 1
    decreases |xs|
  {
    var ys, n := xs[w := xs[w] + 1], |xs| - 1;
    if w == n {
      assert ys[..n] == xs[..n];
    } else {
      SumRaised(xs[..n], w);
      assert ys[..n] == xs[..n][w := xs[w] + 1];
    }
  }

  lemma NextKeepsCounted(c: Settings, s: Pool, e: Event, s': Pool)
    requires Next(c, s, e, s') && Counted(s)
    ensures Counted(s')
  {
    if !e.Reap? {
      NextCounts(c, s, e, s', Uncounted);
      if e.Answer? {
        SumRaised(s.served, s.runs[e.run].worker);
      }
      if e.CommitSpawn? {
        assert s'.served[..|s.served|] == s.served;
      }
    }
  }

  lemma NextKeepsInv(c: Settings, s: Pool, e: Event, s': Pool)
    requires Next(c, s, e, s') && Inv(c, s)
    ensures Inv(c, s')
  {
    NextKeepsBounded(c, s, e, s');
    NextKeepsExclusive(c, s, e, s');
    NextKeepsBudget(c, s, e, s');
    NextKeepsCounted(c, s, e, s');
  }

  // ---------------------------------------------------------------- whole histories

  ghost predicate History(c: Settings, states: seq<Pool>, events: seq<Event>) {
    && |states| == |events| + 1 && states[0] == Empty(c)
    && forall i | 0 <= i < |events| :: Next(c, states[i], events[i], states[i + 1])
  }

  lemma {:induction false} HistoryKeepsInv(c: Settings, states: seq<Pool>, events: seq<Event>, i: nat)
    requires History(c, states, events) && i < |states|
    ensures Inv(c, states[i])
  {
    if i > 0 {
      HistoryKeepsInv(c, states, events, i - 1);
      NextKeepsInv(c, states[i - 1], events[i - 1], states[i]);
    }
  }

  lemma {:induction false} SumAtMost(xs: seq<nat>, b: nat)
    requires forall i | 0 <= i < |xs| :: xs[i] <= b
    ensures Sum(xs) <= b * |xs|
  {
    if xs != [] {
      SumAtMost(xs[..|xs| - 1], b);
      assert b * |xs| == b * (|xs| - 1) + b;
    }
  }

  /** Under every interleaving: idle workers, workers held by runs and workers committed to be
      spawned together never exceed the configured number, although the decision to spawn is acted
      on after the idle list is unlocked; and admitted runs never exceed workers plus queue. */
  lemma WorkersAndAdmissionsAreBounded(c: Settings, states: seq<Pool>, events: seq<Event>, i: nat)
    requires History(c, states, events) && i < |states|
    ensures |states[i].idle| + Count(states[i].runs, WithWorker) <= Workers(c)
    ensures Count(states[i].runs, Admitted) <= Capacity(c)
    ensures states[i].permits <= Workers(c)
  {
    HistoryKeepsInv(c, states, events, i);
  }

  /** With a budget, every parked worker has room for another job, none ever answers more than its
      budget, and the jobs counted never exceed the budget times the spawns counted. */
  lemma RecyclingBoundsJobs(c: Settings, states: seq<Pool>, events: seq<Event>, i: nat)
    requires History(c, states, events) && i < |states| && c.recycleAfter > 0
    ensures forall w | 0 <= w < |states[i].served| :: states[i].served[w] <= c.recycleAfter
    ensures forall w | w in states[i].idle :: w < |states[i].served| && states[i].served[w] < c.recycleAfter
    ensures states[i].jobsTotal <= c.recycleAfter * |states[i].served|
  {
    HistoryKeepsInv(c, states, events, i);
    SumAtMost(states[i].served, c.recycleAfter);
  }

  /** When every run has left, nothing has leaked: all permits are back, nobody is in flight, and
      every answer is in the total. */
  lemma QuiescentPoolIsWhole(c: Settings, states: seq<Pool>, events: seq<Event>, i: nat)
    requires History(c, states, events) && i < |states| && states[i].runs == map[]
    ensures states[i].permits == Workers(c) && states[i].inflight == 0
    ensures states[i].jobsTotal == Sum(states[i].served)
  {
    HistoryKeepsInv(c, states, events, i);
    assert forall k :: Those(states[i].runs, k) == {};
  }
}
