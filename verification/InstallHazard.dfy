/** Why a lock needs more guarding than its file gives, and exactly how much. The lock lives in the
    caller's future and is let go when that is dropped, while the blocking thread that promotes runs on
    (resolve/install.rs, blocking/mod.rs). Whoever takes the lock then, perhaps after having waited for
    it all along, shares the aside name with that thread if both are of one process. The guard that
    `InstallModel.DestinationsAreNeverHalf` asks for says when the lock can be taken nevertheless; here
    is why nothing less will do. */
module InstallHazard {
  import opened Handles
  import opened InstallNames
  import opened InstallModel
  import opened InstallStretches

  // ---------------------------------------------------------------- how half a tree comes about

  /** The install has, or is about to have, the only whole copy of a previous install aside, and can
      put it back. */
  predicate AtStake(fs: Root, k: Task) {
    match k.pc
    case Cleared => MayRename(fs, k.dest, k.aside)
    case Displaced => k.aside in fs && k.dest !in fs
    case Unplaced => k.aside in fs && k.dest !in fs
    case _ => false
  }

  /** Deleting its aside directory is what the install does next. */
  predicate Deletes(pc: Pc) {
    pc == Occupied || pc == Placed
  }

  function Deletion(u: nat, pc: Pc): Event {
    if pc == Occupied then Clear(u) else Forget(u)
  }

  /** What install `t` does from `pc` until its placing has failed. */
  function Failing(t: nat, pc: Pc): seq<Event> {
    match pc
    case Cleared => [MoveAside(t, true), Place(t, false)]
    case Displaced => [Place(t, false)]
    case _ => []
  }

  function Collision(t: nat, pc: Pc, u: nat, next: Pc): seq<Event> {
    Failing(t, pc) + [Deletion(u, next), Restore(t, true)]
  }

  lemma Fails(w: World, t: nat) returns (s: seq<World>)
    requires t in w.tasks && AtStake(w.fs, w.tasks[t]) && w.tasks[t].dest != w.tasks[t].aside
    ensures Path(s, Failing(t, w.tasks[t].pc)) && s[0] == w
    ensures var last := s[|s| - 1];
            && At(last, t, Unplaced) && AtStake(last.fs, last.tasks[t]) && SameInstall(w.tasks[t], last.tasks[t])
            && forall u | u in w.tasks && u != t :: u in last.tasks && last.tasks[u] == w.tasks[u]
  {
    var k := w.tasks[t];
    match k.pc
    case Cleared =>
      var k1 := k.(pc := Displaced, previous := TreeAt(w.fs, k.dest));
      var w1 := Moved(w, t, k1, Renamed(w.fs, k.dest, k.aside));
      var w2 := Moved(w1, t, k1.(pc := Unplaced), w1.fs);
      assert Next(w, MoveAside(t, true), w1) && Next(w1, Place(t, false), w2);
      s := [w, w1, w2];
      StepsIntro(s, Failing(t, k.pc), 2);
    case Displaced =>
      s := [w, Moved(w, t, k.(pc := Unplaced), w.fs)];
      OneStep(w, Place(t, false), s[1]);
    case _ =>
      s := [w];
  }

  /** The other install deletes some of what is aside, and what is left comes back. */
  lemma HalfComesBack(w: World, t: nat, u: nat) returns (s: seq<World>)
    requires t != u && At(w, t, Unplaced) && AtStake(w.fs, w.tasks[t])
    requires u in w.tasks && Deletes(w.tasks[u].pc) && w.tasks[u].aside == w.tasks[t].aside
    ensures Path(s, [Deletion(u, w.tasks[u].pc), Restore(t, true)]) && s[0] == w
    ensures w.tasks[t].dest in s[2].fs && s[2].fs[w.tasks[t].dest] == Partial
  {
    var k, other := w.tasks[t], w.tasks[u];
    var w1 := Moved(w, u, other.(pc := if other.pc == Occupied then Cleared else Done), w.fs[k.aside := Partial]);
    var w2 := Moved(w1, t, k.(pc := Done), Renamed(w1.fs, k.aside, k.dest));
    assert Next(w, Deletion(u, other.pc), w1) && Next(w1, Restore(t, true), w2);
    s := [w, w1, w2];
    StepsIntro(s, [Deletion(u, other.pc), Restore(t, true)], 2);
  }

  /** From any state in which one install has a tree at stake under an aside name and another is about
      to delete there: half a tree can follow. */
  lemma Collide(w: World, t: nat, u: nat) returns (s: seq<World>)
    requires t != u && t in w.tasks && AtStake(w.fs, w.tasks[t]) && w.tasks[t].dest.Install?
    requires u in w.tasks && Deletes(w.tasks[u].pc) && w.tasks[u].aside == w.tasks[t].aside && w.tasks[t].aside.Aside?
    ensures Path(s, Collision(t, w.tasks[t].pc, u, w.tasks[u].pc)) && s[0] == w
    ensures !NothingHalf(s[|s| - 1].fs)
    ensures var last := s[|s| - 1]; w.tasks[t].dest in last.fs && last.fs[w.tasks[t].dest] == Partial
  {
    var first := Fails(w, t);
    var then' := HalfComesBack(first[|first| - 1], t, u);
    s := Extend(first, Failing(t, w.tasks[t].pc), then', [Deletion(u, w.tasks[u].pc), Restore(t, true)]);
  }

  /** What an install has ahead of it in its promotion can succeed as things stand, and `dest` is there
      to be replaced in turn. */
  predicate Ahead(fs: Root, k: Task, dest: Name) {
    || (k.pc == Displaced && k.dest !in fs && dest == k.dest)
    || (dest in fs && (Deletes(k.pc) || AtStake(fs, k)))
  }

  /** Two installs with one aside name, the first of which has just seen a previous install. */
  ghost predicate Clash(w: World, t: nat, u: nat) {
    && t != u && At(w, t, Occupied) && u in w.tasks
    && w.tasks[t].dest.Install? && w.tasks[u].dest.Install?
    && w.tasks[t].aside.Aside? && w.tasks[u].aside == w.tasks[t].aside
    && w.tasks[t].dest in w.fs && (Deletes(w.tasks[u].pc) || AtStake(w.fs, w.tasks[u]))
  }

  lemma ClashEndsInHalf(w: World, t: nat, u: nat) returns (s: seq<World>, e: seq<Event>)
    requires Clash(w, t, u)
    ensures Path(s, e) && s[0] == w && ByThese(e, t, u) && !NothingHalf(s[|s| - 1].fs)
  {
    if Deletes(w.tasks[u].pc) {
      var first := Clears(w, t);
      var then' := Collide(first[1], t, u);
      e := [Clear(t)] + Collision(t, Cleared, u, w.tasks[u].pc);
      s := Extend(first, [Clear(t)], then', Collision(t, Cleared, u, w.tasks[u].pc));
    } else {
      e := Collision(u, w.tasks[u].pc, t, Occupied);
      s := Collide(w, u, t);
    }
  }

  /** If the other install has to bring the destination back first, it does. */
  lemma ComesBack(w: World, t: nat, u: nat) returns (s: seq<World>, e: seq<Event>)
    requires t != u && At(w, t, Ready) && u in w.tasks && Based(w.fs, w.tasks[u])
    requires Ahead(w.fs, w.tasks[u], w.tasks[t].dest)
    ensures Path(s, e) && s[0] == w && ByThese(e, t, u)
    ensures var last := s[|s| - 1];
            && At(last, t, Ready) && last.tasks[t] == w.tasks[t] && u in last.tasks
            && SameInstall(w.tasks[u], last.tasks[u])
            && w.tasks[t].dest in last.fs && (Deletes(last.tasks[u].pc) || AtStake(last.fs, last.tasks[u]))
  {
    var k := w.tasks[u];
    if w.tasks[t].dest in w.fs {
      s, e := [w], [];
    } else {
      var w1 := Moved(w, u, k.(pc := Placed), Renamed(w.fs, k.staging, k.dest));
      OneStep(w, Place(u, true), w1);
      s, e := [w, w1], [Place(u, true)];
    }
  }

  /** Two installs with one aside name, the first with its tree unpacked and the second with work ahead. */
  ghost predicate Nearing(w: World, t: nat, u: nat) {
    && t != u && At(w, t, Ready) && u in w.tasks && Based(w.fs, w.tasks[t]) && Based(w.fs, w.tasks[u])
    && w.tasks[u].aside == w.tasks[t].aside && Ahead(w.fs, w.tasks[u], w.tasks[t].dest)
  }

  lemma Clashes(w: World, t: nat, u: nat) returns (s: seq<World>, e: seq<Event>)
    requires Nearing(w, t, u)
    ensures Path(s, e) && s[0] == w && ByThese(e, t, u) && Clash(s[|s| - 1], t, u)
  {
    var e1: seq<Event>;
    s, e1 := ComesBack(w, t, u);
    var looking := Looks(s[|s| - 1], t);
    e := e1 + [Look(t)];
    s := Extend(s, e1, looking, [Look(t)]);
  }

  lemma ReadyEndsInHalf(w: World, t: nat, u: nat) returns (s: seq<World>, e: seq<Event>)
    requires Nearing(w, t, u)
    ensures Path(s, e) && s[0] == w && ByThese(e, t, u) && !NothingHalf(s[|s| - 1].fs)
  {
    var s1, e1 := Clashes(w, t, u);
    var s2, e2 := ClashEndsInHalf(s1[|s1| - 1], t, u);
    s := Extend(s1, e1, s2, e2);
    e := e1 + e2;
  }

  /** The staged tree of another install makes no difference. */
  lemma StagingIsNoObstacle(fs: Root, name: Name, dir: Dir, k: Task, dest: Name)
    requires Based(fs, k) && name.Staging? && name !in fs && dest.Install?
    ensures Ahead(fs, k, dest) ==> Ahead(fs[name := dir], k, dest)
    ensures Based(fs[name := dir], k)
  {
  }

  lemma UnpackingComesNear(w: World, t: nat, u: nat, name: Name, tree: nat)
    requires Orderly(w) && At(w, t, Waiting) && t != u && u in w.tasks && name.Staging? && name !in w.fs
    requires w.tasks[u].aside == w.tasks[t].aside && Ahead(w.fs, w.tasks[u], w.tasks[t].dest)
    ensures var k := w.tasks[t].(pc := Ready, locked := true, staging := name, tree := tree);
            Nearing(Moved(w, t, k, w.fs[name := Whole(tree)]), t, u)
  {
    assert Based(w.fs, w.tasks[t]) && Based(w.fs, w.tasks[u]);
    StagingIsNoObstacle(w.fs, name, Whole(tree), w.tasks[u], w.tasks[t].dest);
  }

  lemma ByItselfUnpacks(w: World, t: nat, u: nat) returns (s: seq<World>, e: seq<Event>, name: Name)
    requires At(w, t, Waiting) && LockFree(w, t)
    ensures Path(s, [Lock(t)] + e) && s[0] == w && ByThese(e, t, u) && name.Staging? && name !in w.fs
    ensures s[|s| - 1] ==
            Moved(w, t, w.tasks[t].(pc := Ready, locked := true, staging := name, tree := 0), w.fs[name := Whole(0)])
  {
    s, name := LocksAndUnpacks(w, t, 0);
    e := UnpackingSteps(t, name, 0);
  }

  lemma ComesNear(w: World, t: nat, u: nat) returns (s: seq<World>, e: seq<Event>)
    requires Orderly(w) && At(w, t, Waiting) && LockFree(w, t) && t != u && u in w.tasks
    requires w.tasks[u].aside == w.tasks[t].aside && Ahead(w.fs, w.tasks[u], w.tasks[t].dest)
    ensures Path(s, [Lock(t)] + e) && s[0] == w && ByThese(e, t, u) && Nearing(s[|s| - 1], t, u)
  {
    var name: Name;
    s, e, name := ByItselfUnpacks(w, t, u);
    UnpackingComesNear(w, t, u, name, 0);
  }

  /** Where another install with work ahead uses the aside name, taking the lock can end in half a
      tree by steps of these two alone. */
  lemma HalfFollows(w: World, t: nat, u: nat) returns (s: seq<World>, e: seq<Event>)
    requires Orderly(w) && At(w, t, Waiting) && LockFree(w, t) && t != u && u in w.tasks
    requires w.tasks[u].aside == w.tasks[t].aside && Ahead(w.fs, w.tasks[u], w.tasks[t].dest)
    ensures Path(s, [Lock(t)] + e) && s[0] == w && ByThese(e, t, u) && !NothingHalf(s[|s| - 1].fs)
  {
    var first, unpacking := ComesNear(w, t, u);
    var rest, more := ReadyEndsInHalf(first[|first| - 1], t, u);
    s, e := GoesOn(first, [Lock(t)], unpacking, rest, more, t, u);
  }

  // ---------------------------------------------------------------- exactly when

  /** Every lock but the first is taken with its aside name idle. */
  ghost predicate GuardedAfter(s: seq<World>, e: seq<Event>)
    requires |e| <= |s|
  {
    forall i | 0 < i < |e| && e[i].Lock? :: AsideIdle(s[i], e[i].t)
  }

  /** If `t` takes its lock now, then, even if everybody keeps to the guard from here on, there can be
      half a tree some time. */
  ghost predicate HalfATreeCanFollow(w: World, t: nat) {
    exists s: seq<World>, e: seq<Event> ::
      Path(s, [Lock(t)] + e) && s[0] == w && GuardedAfter(s, [Lock(t)] + e) && !NothingHalf(s[|s| - 1].fs)
  }

  lemma UnguardedLocksCanHarm(w: World, t: nat, u: nat)
    requires Orderly(w) && At(w, t, Waiting) && LockFree(w, t) && t != u && u in w.tasks
    requires w.tasks[u].aside == w.tasks[t].aside && Ahead(w.fs, w.tasks[u], w.tasks[t].dest)
    ensures HalfATreeCanFollow(w, t)
  {
    var s, e := HalfFollows(w, t, u);
    assert GuardedAfter(s, [Lock(t)] + e);
  }

  lemma GuardedLocksAreSafe(w: World, t: nat, s: seq<World>, e: seq<Event>)
    requires Sound(w) && AsidesApart(w) && AsideIdle(w, t)
    requires Path(s, e) && s[0] == w && |e| > 0 && e[0] == Lock(t) && GuardedAfter(s, e)
    ensures NothingHalf(s[|s| - 1].fs)
  {
    GuardKeepsSound(s, e, |s| - 1);
  }

  /** The guard is exact. In any state that a guarded run can be in, a lock can be taken without harm if
      and only if no other install is replacing a previous one under its aside name. By `SharedAsideIff`
      that is one of the same process under the same lock. */
  lemma HalfATreeCanFollowIff(w: World, t: nat)
    requires Sound(w) && AsidesApart(w) && At(w, t, Waiting) && LockFree(w, t)
    requires forall u | u in w.tasks && u != t && Replacing(w.tasks[u].pc) && w.tasks[u].aside == w.tasks[t].aside ::
               Ahead(w.fs, w.tasks[u], w.tasks[t].dest)
    ensures HalfATreeCanFollow(w, t) <==> !AsideIdle(w, t)
  {
    if !AsideIdle(w, t) {
      var u :| u in w.tasks && u != t && Replacing(w.tasks[u].pc) && w.tasks[u].aside == w.tasks[t].aside;
      UnguardedLocksCanHarm(w, t, u);
    }
    if AsideIdle(w, t) && HalfATreeCanFollow(w, t) {
      var s: seq<World>, e: seq<Event> :|
        Path(s, [Lock(t)] + e) && s[0] == w && GuardedAfter(s, [Lock(t)] + e) && !NothingHalf(s[|s| - 1].fs);
      GuardedLocksAreSafe(w, t, s, [Lock(t)] + e);
    }
  }
}
