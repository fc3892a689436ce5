/** The pool's code (pool/lang_pool.rs) between its awaits. Every stretch that no other run can
    observe half-done is one step of the machine in `PoolModel`, and at every await the other runs and
    the reaper may take any number of steps (`Others`). */
module LangPool {
  import opened Wrappers
  import opened PoolModel
  import W = PoolWorker

  /** A worker as its owner holds it. */
  datatype Worker = Worker(id: nat, jobsDone: nat)

  function Ids(ws: seq<Worker>): seq<nat> {
    seq(|ws|, i requires 0 <= i < |ws| => ws[i].id)
  }

  /** Workers that are past their time-to-live, or dead, at the moment somebody looks. */
  type Judgement = Worker -> bool

  /** Those that are still good, in order. */
  function Good(ws: seq<Worker>, bad: Judgement): seq<Worker> {
    if ws == [] then []
    else Good(ws[..|ws| - 1], bad) + if bad(ws[|ws| - 1]) then [] else [ws[|ws| - 1]]
  }

  /** Steps of others leave a run where it is, and its worker as it is. */
  lemma OthersLeaveARunAlone(c: Settings, s: Pool, e: Event, s': Pool, run: nat)
    requires Next(c, s, e, s') && Exclusive(s) && run in s.runs && (e.Reap? || e.run != run)
    ensures run in s'.runs && s'.runs[run] == s.runs[run]
    ensures HasWorker(s.runs[run]) ==>
              var w := s.runs[run].worker; w < |s.served| <= |s'.served| && s'.served[w] == s.served[w]
  {
  }

  /** Each parked worker counts the jobs it is on record for. */
  ghost predicate Recorded(idle: seq<Worker>, served: seq<nat>) {
    forall i | 0 <= i < |idle| :: idle[i].id < |served| && idle[i].jobsDone == served[idle[i].id]
  }

  lemma {:induction false} GoodAreSome(ws: seq<Worker>, bad: Judgement)
    ensures Subsequence(Ids(Good(ws, bad)), Ids(ws))
  {
    if ws != [] {
      var front, last := ws[..|ws| - 1], ws[|ws| - 1];
      var kept := Good(front, bad);
      GoodAreSome(front, bad);
      assert Ids(ws)[..|ws| - 1] == Ids(front);
      if bad(last) {
        assert Good(ws, bad) == kept;
      } else {
        assert Ids(kept + [last]) == Ids(kept) + [last.id];
        assert Ids(kept + [last])[..|kept|] == Ids(kept);
      }
    }
  }

  lemma {:induction false} GoodKeepRecords(ws: seq<Worker>, bad: Judgement, served: seq<nat>)
    requires Recorded(ws, served)
    ensures Recorded(Good(ws, bad), served)
  {
    if ws != [] {
      GoodKeepRecords(ws[..|ws| - 1], bad, served);
    }
  }

  /** A worker in use is not parked, so counting its job touches no parked worker. */
  lemma AnswerKeepsRecords(c: Settings, s: Pool, run: nat, s': Pool, idle: seq<Worker>)
    requires Inv(c, s) && Next(c, s, Answer(run), s') && s.idle == Ids(idle) && Recorded(idle, s.served)
    ensures Inv(c, s') && Recorded(idle, s'.served)
  {
    NextKeepsInv(c, s, Answer(run), s');
    forall i | 0 <= i < |idle| ensures idle[i].id != s.runs[run].worker {
      assert s.idle[i] == idle[i].id;
    }
  }

  class LangPool {
    const settings: Settings
    var permits: nat
    var idle: seq<Worker>
    var inflight: nat
    var jobsTotal: nat
    var workerSpawns: nat
    var rejected: nat
    ghost var runs: map<nat, Phase>
    ghost var served: seq<nat>

    ghost function View(): Pool reads this {
      Pool(runs, permits, Ids(idle), inflight, served, jobsTotal, rejected)
    }

    ghost predicate Valid() reads this {
      Inv(settings, View()) && workerSpawns == |served| && Recorded(idle, served)
    }

    constructor (settings: Settings)
      ensures Valid() && this.settings == settings && View() == Empty(settings)
    {
      this.settings := settings;
      permits, idle, inflight, jobsTotal, workerSpawns, rejected := Workers(settings), [], 0, 0, 0, 0;
      runs, served := map[], [];
      new;
      assert View() == Empty(settings);
      forall k ensures Those(map[], k) == {} {}
    }

    /** An await of `run`: other runs and the reaper take any number of steps. Callers know this
        contract alone, which `OthersLeaveARunAlone` and `PoolModel.NextKeepsInv` prove of each of
        them. The body is the stretch in which nothing happens. */
    method Others(run: nat)
      requires Valid()
      modifies this
      ensures Valid()
      ensures run in runs <==> run in old(runs)
      ensures run in runs ==> runs[run] == old(runs[run])
      ensures run in runs && HasWorker(runs[run]) && runs[run].worker < |old(served)| ==>
                runs[run].worker < |served| && served[runs[run].worker] == old(served[runs[run].worker])
    {
    }

    /** Count the run in and decide on the count read in the same instant. */
    method Admit(run: nat) returns (ok: bool)
      requires Valid() && run !in runs
      modifies this
      ensures Valid() && Next(settings, old(View()), Arrive(run), View())
      ensures ok <==> old(inflight) < Capacity(settings)
      ensures runs == old(runs)[run := if ok then Queued else Rejecting]
    {
      ok := inflight + 1 <= Workers(settings) + settings.queueDepth;
      inflight := inflight + 1;
      runs := runs[run := if ok then Queued else Rejecting];
      NextKeepsInv(settings, old(View()), Arrive(run), View());
    }

    method Shed(run: nat)
      requires Valid() && At(View(), run, Rejecting)
      modifies this
      ensures Valid() && Next(settings, old(View()), Event.Shed(run), View())
    {
      RunIsInFlight(run);
      inflight := inflight - 1;
      rejected := rejected + 1;
      runs := runs - {run};
      NextKeepsInv(settings, old(View()), Event.Shed(run), View());
    }

    lemma RunIsInFlight(run: nat)
      requires Valid() && run in runs
      ensures inflight > 0
    {
      assert |runs.Keys| > 0;
    }

    /** Take a permit if one is free. */
    method TryAcquire(run: nat) returns (ok: bool)
      requires Valid() && At(View(), run, Queued)
      modifies this
      ensures Valid()
      ensures ok <==> old(permits) > 0
      ensures if ok then Next(settings, old(View()), Permit(run), View()) else View() == old(View())
    {
      ok := permits > 0;
      if ok {
        permits := permits - 1;
        runs := runs[run := Taking];
        NextKeepsInv(settings, old(View()), Permit(run), View());
      }
    }

    /** Under the idle lock: pop parked workers until one is fit for use. When the list runs out the
        run is committed to a spawn, which happens after the lock is released. */
    method TakeOrCommit(run: nat, bad: Judgement) returns (w: Option<Worker>, id: nat)
      requires Valid() && At(View(), run, Taking)
      modifies this
      ensures Valid() && id < |served| && run in runs
      ensures w.Some? ==> w.value == Worker(id, served[id]) && runs[run] == Serving(id)
      ensures w.Some? ==> Next(settings, old(View()), TakeIdle(run, |idle|), View())
      ensures w.Some? <==> Good(old(idle), bad) != []
      ensures w.Some? ==> w.value == Good(old(idle), bad)[|Good(old(idle), bad)| - 1]
      ensures w.None? ==> id == |old(served)| && served[id] == 0 && runs[run] == Spawning(id)
      ensures w.None? ==> Next(settings, old(View()), CommitSpawn(run), View())
    {
      w := PopFit(bad);
      if w.Some? {
        id := w.value.id;
        runs := runs[run := Serving(id)];
        assert Ids(idle) == Ids(old(idle))[..|idle|];
        NextKeepsInv(settings, old(View()), TakeIdle(run, |idle|), View());
      } else {
        id := workerSpawns;
        workerSpawns := workerSpawns + 1;
        runs := runs[run := Spawning(id)];
        served := served + [0];
        assert Ids(idle) == [];
        NextKeepsInv(settings, old(View()), CommitSpawn(run), View());
      }
    }

    /** The popping loop: a worker past its time-to-live or already dead is discarded. */
    method PopFit(bad: Judgement) returns (w: Option<Worker>)
      modifies this`idle
      ensures w.Some? <==> Good(old(idle), bad) != []
      ensures w.Some? ==> w.value == Good(old(idle), bad)[|Good(old(idle), bad)| - 1]
      ensures w.Some? ==> |idle| < |old(idle)| && w.value == old(idle)[|idle|] && idle == old(idle)[..|idle|]
      ensures w.None? ==> idle == []
    {
      w := None;
      while idle != []
        invariant |idle| <= |old(idle)| && idle == old(idle)[..|idle|]
        invariant Good(idle, bad) == Good(old(idle), bad)
      {
        var worker := idle[|idle| - 1];
        idle := idle[..|idle| - 1];
        if bad(worker) {
          continue;
        }
        return Some(worker);
      }
    }

    /** The spawn a run is committed to. */
    method FinishSpawn(run: nat, id: nat) returns (w: Option<Worker>)
      requires Valid() && At(View(), run, Spawning(id)) && id < |served| && served[id] == 0
      modifies this`runs
      ensures Valid() && run in runs
      ensures w.Some? ==> w.value == Worker(id, 0) && runs[run] == Serving(id)
      ensures w.None? ==> runs[run] == Leaving
      ensures Next(settings, old(View()), if w.Some? then SpawnDone(run) else GiveUp(run), View())
    {
      var ok: bool := *;
      runs := runs[run := if ok then Serving(id) else Leaving];
      NextKeepsInv(settings, old(View()), if ok then SpawnDone(run) else GiveUp(run), View());
      w := if ok then Some(Worker(id, 0)) else None;
    }

    /** The worker's reply is in: its count goes up, and it becomes this run's to return. */
    method TakeAnswer(run: nat, w: Worker) returns (w': Worker)
      requires Valid() && At(View(), run, Serving(w.id)) && w.id < |served| && served[w.id] == w.jobsDone
      modifies this`runs, this`served
      ensures Valid() && run in runs && runs[run] == Served(w.id) && w' == Worker(w.id, w.jobsDone + 1)
      ensures w'.id < |served| && served[w'.id] == w'.jobsDone
      ensures Next(settings, old(View()), Answer(run), View())
    {
      w' := Worker(w.id, w.jobsDone + 1);
      ghost var s := View();
      served := served[w.id := w'.jobsDone];
      runs := runs[run := Served(w.id)];
      assert View() == s.(served := served, runs := runs);
      AnswerKeepsRecords(settings, s, run, View(), idle);
    }

    method CountAnswer(run: nat, w: Worker)
      requires Valid() && At(View(), run, Served(w.id)) && w.id < |served| && served[w.id] == w.jobsDone
      modifies this`runs, this`jobsTotal
      ensures Valid() && run in runs && runs[run] == Returning(w.id)
      ensures Next(settings, old(View()), CountJob(run), View())
    {
      jobsTotal := jobsTotal + 1;
      runs := runs[run := Returning(w.id)];
      NextKeepsInv(settings, old(View()), CountJob(run), View());
    }

    /** Recycle a worker that served its budget, or park it. */
    method RetireOrPark(run: nat, w: Worker)
      requires Valid() && At(View(), run, Returning(w.id)) && w.id < |served| && served[w.id] == w.jobsDone
      modifies this`runs, this`idle
      ensures Valid() && run in runs && runs[run] == Leaving
      ensures Next(settings, old(View()), if ShouldRecycle(settings, w.jobsDone) then Recycle(run) else Park(run), View())
    {
      runs := runs[run := Leaving];
      if ShouldRecycle(settings, w.jobsDone) {
        NextKeepsInv(settings, old(View()), Recycle(run), View());
      } else {
        idle := idle + [w];
        assert Ids(idle) == Ids(old(idle)) + [w.id];
        NextKeepsInv(settings, old(View()), Park(run), View());
      }
    }

    /** A run without a worker gives its permit back. */
    method ReleasePermit(run: nat)
      requires Valid() && At(View(), run, Leaving)
      modifies this`runs, this`permits
      ensures Valid() && At(View(), run, Exiting)
      ensures Next(settings, old(View()), Event.ReleasePermit(run), View())
    {
      permits := permits + 1;
      runs := runs[run := Exiting];
      NextKeepsInv(settings, old(View()), Event.ReleasePermit(run), View());
    }

    /** The in-flight guard counts the run out. */
    method CountOut(run: nat)
      requires Valid() && At(View(), run, Exiting)
      modifies this`runs, this`inflight
      ensures Valid() && run !in runs
      ensures Next(settings, old(View()), Exit(run), View())
    {
      RunIsInFlight(run);
      inflight := inflight - 1;
      runs := runs - {run};
      NextKeepsInv(settings, old(View()), Exit(run), View());
    }

    /** The caller drops the run at an await, or its exchange with a worker fails: what it held is
        let go of, and it only has to leave. */
    method Abandon(run: nat, ghost e: Event)
      requires Valid() && run in runs
      requires e == GiveUp(run) || e == Cancel(run)
      requires runs[run].Serving? || (e.Cancel? && (runs[run].Queued? || runs[run].Taking? || runs[run].Returning?))
      modifies this`runs
      ensures Valid() && run in runs && runs[run] == if old(runs[run]).Queued? then Exiting else Leaving
      ensures Next(settings, old(View()), e, View())
    {
      runs := runs[run := if runs[run].Queued? then Exiting else Leaving];
      NextKeepsInv(settings, old(View()), e, View());
    }

    /** Leave: the permit first, then the place in the count. */
    method Leave(run: nat)
      requires Valid() && run in runs && runs[run] == Leaving
      modifies this
      ensures Valid() && run !in runs
    {
      ReleasePermit(run);
      Others(run);
      CountOut(run);
    }

    /** How far a run got in obtaining a worker: it has one, it was refused one, or it was dropped. */
    method Obtain(run: nat) returns (w: Option<Worker>, dropped: bool)
      requires Valid() && At(View(), run, Taking)
      modifies this
      ensures Valid() && run in runs
      ensures w.Some? ==> !dropped && runs[run] == Serving(w.value.id)
      ensures w.Some? ==> w.value.id < |served| && served[w.value.id] == w.value.jobsDone
      ensures w.None? ==> runs[run] == Leaving
    {
      Others(run); // the idle lock
      dropped := *;
      if dropped {
        Abandon(run, Cancel(run));
        return None, true;
      }
      var id;
      var bad: Judgement := *;
      w, id := TakeOrCommit(run, bad);
      if w.None? {
        Others(run); // the spawn and its handshake
        w := FinishSpawn(run, id);
        dropped := *;
        dropped := dropped && w.None?;
      }
    }

    /** After an answer: count the job, then wait for the idle lock and return the worker, unless the
        caller goes away while waiting. */
    method GiveBack(run: nat, w: Worker) returns (dropped: bool)
      requires Valid() && At(View(), run, Serving(w.id)) && w.id < |served| && served[w.id] == w.jobsDone
      modifies this
      ensures Valid() && run in runs && runs[run] == Leaving
    {
      var worker := TakeAnswer(run, w);
      CountAnswer(run, worker);
      Others(run); // the idle lock
      dropped := *;
      if dropped {
        Abandon(run, Cancel(run));
      } else {
        RetireOrPark(run, worker);
      }
    }

    /** The exchange with an obtained worker, and the return of the worker. */
    method Exchange(run: nat, w: Worker, encoding: Option<W.Bytes>, id: string, lines: seq<W.Line>)
      returns (r: Option<Result<string, W.Error>>, ghost d: W.Delivery)
      requires Valid() && At(View(), run, Serving(w.id)) && w.id < |served| && served[w.id] == w.jobsDone
      requires encoding.Some? ==> W.NEWLINE !in encoding.value
      modifies this
      ensures Valid() && run in runs && runs[run] == Leaving
      ensures r.Some? ==> W.Honest(W.Attempt(d, r.value)) && r.value != Err(W.PoolSaturated)
      ensures r.Some? && r.value.Ok? ==> W.Delivers(lines, id, r.value.value)
      ensures r.Some? && d.bytes == d.line ==> encoding.Some? && d.line == encoding.value + [W.NEWLINE]
    {
      var answer, jobs;
      answer, jobs, d := W.Submit(encoding, id, lines, w.jobsDone);
      Others(run); // the exchange
      var dropped: bool := *;
      if dropped || answer.Err? {
        Abandon(run, if dropped then Cancel(run) else GiveUp(run));
        r := if dropped then None else Some(Err(if answer.error.Post? then W.PostDispatch else W.PreDispatch));
        return;
      }
      dropped := GiveBack(run, w);
      r := if dropped then None
           else Some(if answer.value.error then Err(W.PostDispatch) else Ok(answer.value.body));
    }

    /** Wait for a permit, looking at most `patience` times. */
    method AwaitPermit(run: nat, patience: nat) returns (granted: bool)
      requires Valid() && At(View(), run, Queued)
      modifies this
      ensures Valid() && At(View(), run, if granted then Taking else Queued)
    {
      for i := 0 to patience
        invariant Valid() && At(View(), run, Queued)
      {
        Others(run);
        granted := TryAcquire(run);
        if granted {
          return;
        }
      }
      granted := false;
    }

    /** One call of the pool from admission to its last word, with an await wherever the source has
        one. `None` is a call its caller dropped. Whatever happens, the run ends outside the pool, so
        nothing it was counted in stays counted, and its error tells the truth about what was sent. */
    method Run(run: nat, patience: nat, encoding: Option<W.Bytes>, id: string, lines: seq<W.Line>)
      returns (r: Option<Result<string, W.Error>>, ghost d: W.Delivery)
      requires Valid() && run !in runs
      requires encoding.Some? ==> W.NEWLINE !in encoding.value
      modifies this
      ensures Valid() && run !in runs
      ensures r.Some? ==> W.Honest(W.Attempt(d, r.value))
      ensures r.Some? && r.value.Ok? ==> W.Delivers(lines, id, r.value.value)
      ensures r.Some? && d.bytes == d.line ==> encoding.Some? && d.line == encoding.value + [W.NEWLINE]
      ensures r == Some(Err(W.PoolSaturated)) <==> old(inflight) >= Capacity(settings)
    {
      d := W.Delivery([W.NEWLINE], []);
      var admitted := Admit(run);
      if !admitted {
        Others(run);
        Shed(run);
        r := Some(Err(W.PoolSaturated));
        return;
      }
      var granted := AwaitPermit(run, patience);
      if !granted {
        Abandon(run, Cancel(run));
        CountOut(run);
        r := None;
        return;
      }
      var w, dropped := Obtain(run);
      if w.Some? {
        r, d := Exchange(run, w.value, encoding, id, lines);
      } else {
        r := if dropped then None else Some(Err(W.PreDispatch));
      }
      Leave(run);
    }

    /** Retire parked workers that have been idle for too long, keeping the others in order. */
    method Reap(expired: Judgement)
      requires Valid()
      modifies this`idle
      ensures Valid() && idle == Good(old(idle), expired)
      ensures Next(settings, old(View()), Event.Reap(Ids(idle)), View())
    {
      var kept: seq<Worker> := [];
      for i := 0 to |idle|
        invariant kept == Good(idle[..i], expired)
      {
        assert idle[..i + 1][..i] == idle[..i];
        if !expired(idle[i]) {
          kept := kept + [idle[i]];
        }
      }
      assert idle[..|idle|] == idle;
      GoodAreSome(idle, expired);
      GoodKeepRecords(idle, expired, served);
      idle := kept;
      NextKeepsInv(settings, old(View()), Event.Reap(Ids(kept)), View());
    }
  }
}
