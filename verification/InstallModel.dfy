/** Installs racing in one cache root (resolve/install.rs, store/mod.rs, store/lock.rs): any number of
    processes, each running any number of installs, interleaved between any two file operations and
    crashing wherever they like. */
module InstallModel {
  import opened Handles
  import opened InstallNames

  /** A directory of the cache root: a complete tree, or one that is being written or deleted. */
  datatype Dir = Whole(tree: nat) | Partial

  /** Where an install is. From `Occupied` to `Placed` it is inside `promote_blocking`. */
  datatype Pc =
    | Waiting | Locked | Missing            // for the lock; with it; after the re-check
    | Unpacking | Ready                     // the staged tree
    | Occupied | Cleared | Displaced | Unplaced // a previous install: seen, ready to move, moved, not replaced
    | Vacant                                // no previous install
    | Placed                                // the new tree is in, the old one still aside
    | Done

  /** An install. Its lock is known by the stem of its destination, which names the lock file. */
  datatype Task = Task(
    pid: nat, dest: Name, stem: string, aside: Name,
    pc: Pc, locked: bool, staging: Name, tree: nat, previous: nat)

  type Root = map<Name, Dir>

  datatype World = World(fs: Root, tasks: map<nat, Task>)

  function NewTask(pid: nat, dest: string): Task {
    Task(pid, Install(dest), Stem(dest), AsideOf(dest, pid), Waiting, false, Staging(pid, ""), 0, 0)
  }

  predicate Promoting(pc: Pc) {
    pc in {Occupied, Cleared, Displaced, Unplaced, Vacant, Placed}
  }

  /** The install has a staging directory. */
  predicate Staged(pc: Pc) {
    pc in {Unpacking, Ready, Occupied, Cleared, Displaced, Unplaced, Vacant, Placed, Done}
  }

  /** The staged tree is complete and not yet promoted. */
  predicate Holding(pc: Pc) {
    pc in {Ready, Occupied, Cleared, Displaced, Vacant}
  }

  /** A previous install was found, and is to be replaced. */
  predicate Replacing(pc: Pc) {
    Promoting(pc) && pc != Vacant
  }

  /** Inside a promotion, with the tree still to be placed. */
  predicate HasToPlace(pc: Pc) {
    Promoting(pc) && Holding(pc)
  }

  /** The previous install is aside and nothing has taken its place. */
  predicate Away(pc: Pc) {
    pc in {Displaced, Unplaced}
  }

  datatype Event =
    | Begin(t: nat, pid: nat, dest: string)
    | Lock(t: nat)
    | Recheck(t: nat, found: bool)          // the provider looks again under the lock
    | Stage(t: nat, name: Name)
    | Unpack(t: nat, tree: nat)
    | Look(t: nat)                          // does the destination exist?
    | Clear(t: nat)         // delete the aside directory, as far as that goes
    | MoveAside(t: nat, ok: bool)
    | Place(t: nat, ok: bool)
    | Restore(t: nat, ok: bool)
    | Forget(t: nat)        // delete the aside directory after a promotion
    | Discard(t: nat)       // delete the staging directory
    | Leave(t: nat)                         // return, whether installed, found or failed
    | Crash(pid: nat)                       // a process dies, with all its installs
    | Abandon(t: nat)                       // a caller goes away inside the promotion

  /** What a best-effort deletion may make of a directory: nothing, a part, or no difference. */
  ghost predicate Deleted(fs: Root, name: Name, fs': Root) {
    || fs' == fs - {name}
    || (name in fs && (fs' == fs || fs' == fs[name := Partial]))
  }

  /** A rename of a directory: only onto nothing, or onto what an unfinished deletion left. */
  predicate MayRename(fs: Root, source: Name, target: Name) {
    source in fs && (target in fs ==> fs[target] == Partial)
  }

  function Renamed(fs: Root, source: Name, target: Name): Root
    requires source in fs
  {
    (fs - {source})[target := fs[source]]
  }

  ghost predicate LockFree(s: World, t: nat) {
    t in s.tasks && forall u | u in s.tasks && u != t && s.tasks[u].locked :: s.tasks[u].stem != s.tasks[t].stem
  }

  ghost predicate FreshStaging(s: World, name: Name) {
    name.Staging? && name !in s.fs && forall u | u in s.tasks :: s.tasks[u].staging != name
  }

  /** Task `t` moves on to `k`, leaving the root as `fs`. */
  function Moved(s: World, t: nat, k: Task, fs: Root): World {
    World(fs, s.tasks[t := k])
  }

  /** The tree at a name, for the record. */
  function TreeAt(fs: Root, name: Name): nat {
    if name in fs && fs[name].Whole? then fs[name].tree else 0
  }

  ghost predicate At(s: World, t: nat, pc: Pc) {
    t in s.tasks && s.tasks[t].pc == pc
  }

  ghost predicate Next(s: World, e: Event, s': World) {
    match e
    case Begin(t, pid, dest) =>
      && t !in s.tasks && pid <= U64_MAX && Ordinary(dest) && s' == Moved(s, t, NewTask(pid, dest), s.fs)
    case Lock(t) =>
      && At(s, t, Waiting) && LockFree(s, t) && s' == Moved(s, t, s.tasks[t].(pc := Locked, locked := true), s.fs)
    case Recheck(t, found) =>
      && At(s, t, Locked) && (found ==> s.tasks[t].dest in s.fs)
      && s' == if found then World(s.fs, s.tasks - {t}) else Moved(s, t, s.tasks[t].(pc := Missing), s.fs)
    case Stage(t, name) =>
      && At(s, t, Missing) && FreshStaging(s, name)
      && s' == Moved(s, t, s.tasks[t].(pc := Unpacking, staging := name), s.fs[name := Partial])
    case Unpack(t, tree) =>
      && At(s, t, Unpacking)
      && s' == Moved(s, t, s.tasks[t].(pc := Ready, tree := tree), s.fs[s.tasks[t].staging := Whole(tree)])
    case Look(t) =>
      && At(s, t, Ready)
      && s' == Moved(s, t, s.tasks[t].(pc := if s.tasks[t].dest in s.fs then Occupied else Vacant), s.fs)
    case Clear(t) =>
      && At(s, t, Occupied) && Deleted(s.fs, s.tasks[t].aside, s'.fs)
      && s' == Moved(s, t, s.tasks[t].(pc := Cleared), s'.fs)
    case MoveAside(t, ok) =>
      && At(s, t, Cleared)
      && var k := s.tasks[t];
         if ok then
           && MayRename(s.fs, k.dest, k.aside)
           && s' == Moved(s, t, k.(pc := Displaced, previous := TreeAt(s.fs, k.dest)), Renamed(s.fs, k.dest, k.aside))
         else s' == Moved(s, t, k.(pc := Done), s.fs)
    case Place(t, ok) =>
      && (At(s, t, Displaced) || At(s, t, Vacant))
      && var k := s.tasks[t];
         if ok then
           && MayRename(s.fs, k.staging, k.dest)
           && s' == Moved(s, t, k.(pc := if k.pc == Displaced then Placed else Done), Renamed(s.fs, k.staging, k.dest))
         else s' == Moved(s, t, k.(pc := if k.pc == Displaced then Unplaced else Done), s.fs)
    case Restore(t, ok) =>
      && At(s, t, Unplaced)
      && var k := s.tasks[t];
         && (ok ==> MayRename(s.fs, k.aside, k.dest))
         && s' == Moved(s, t, k.(pc := Done), if ok then Renamed(s.fs, k.aside, k.dest) else s.fs)
    case Forget(t) =>
      && At(s, t, Placed) && Deleted(s.fs, s.tasks[t].aside, s'.fs)
      && s' == Moved(s, t, s.tasks[t].(pc := Done), s'.fs)
    case Discard(t) =>
      && (At(s, t, Unpacking) || At(s, t, Done)) && Deleted(s.fs, s.tasks[t].staging, s'.fs)
      && s' == Moved(s, t, s.tasks[t].(pc := Done), s'.fs)
    case Leave(t) =>
      && t in s.tasks && !Promoting(s.tasks[t].pc) && s' == World(s.fs, s.tasks - {t})
    case Crash(pid) =>
      s' == World(s.fs, map t | t in s.tasks && s.tasks[t].pid != pid :: s.tasks[t])
    case Abandon(t) =>
      && t in s.tasks && Promoting(s.tasks[t].pc)
      && s' == Moved(s, t, s.tasks[t].(locked := false), s.fs)
  }

  // ---------------------------------------------------------------- what holds in any case

  predicate Named(k: Task) {
    k.dest.Install? && k.stem == Stem(k.dest.name) && k.aside == Aside(k.stem, k.pid)
  }

  /** An install has its lock from the moment it got it until its promotion, and the tree it unpacked is
      its own until it places it. */
  predicate Based(fs: Root, k: Task) {
    && Named(k)
    && (k.pc in {Locked, Missing, Unpacking, Ready} ==> k.locked)
    && (Staged(k.pc) ==> k.staging.Staging?)
    && (Holding(k.pc) ==> k.staging in fs && fs[k.staging] == Whole(k.tree))
  }

  predicate Fits(a: Task, b: Task) {
    && (a.locked && b.locked ==> a.stem != b.stem)
    && (Staged(a.pc) && Staged(b.pc) ==> a.staging != b.staging)
  }

  ghost predicate Orderly(s: World) {
    && (forall t | t in s.tasks :: Based(s.fs, s.tasks[t]))
    && (forall t, u | t in s.tasks && u in s.tasks && t != u :: Fits(s.tasks[t], s.tasks[u]))
  }

  /** Only `names` may differ. */
  ghost predicate Only(fs: Root, fs': Root, names: set<Name>) {
    forall n | n !in names :: (n in fs <==> n in fs') && (n in fs ==> fs'[n] == fs[n])
  }

  predicate SameInstall(k: Task, k': Task) {
    k'.pid == k.pid && k'.dest == k.dest && k'.stem == k.stem && k'.aside == k.aside
  }

  /** The names a step of install `k`, which becomes `k'`, may touch. */
  function Touched(k: Task, k': Task): set<Name> {
    if Promoting(k.pc) then {k'.dest, k'.aside, k'.staging} else if Staged(k'.pc) then {k'.staging} else {}
  }

  /** What an install may make of itself and of the root. */
  ghost predicate Move(s: World, t: nat, k: Task, fs: Root) {
    && t in s.tasks && SameInstall(s.tasks[t], k)
    && Based(fs, k) && Only(s.fs, fs, Touched(s.tasks[t], k)) && (Promoting(s.tasks[t].pc) ==> Staged(k.pc))
    && forall u | u in s.tasks && u != t :: Fits(s.tasks[u], k)
  }

  lemma MoveKeepsOrderly(s: World, t: nat, k: Task, fs: Root)
    requires Orderly(s) && Move(s, t, k, fs)
    ensures Orderly(Moved(s, t, k, fs))
  {
    var s' := Moved(s, t, k, fs);
    forall u | u in s'.tasks ensures Based(fs, s'.tasks[u]) {
      if u != t {
        var other := s.tasks[u];
        assert Based(s.fs, other) && Fits(other, k) && Based(s.fs, s.tasks[t]);
        if Holding(other.pc) {
          assert other.staging !in Touched(s.tasks[t], k);
        }
      }
    }
    forall u, v | u in s'.tasks && v in s'.tasks && u != v ensures Fits(s'.tasks[u], s'.tasks[v]) {
      if u != t && v != t {
        assert Fits(s.tasks[u], s.tasks[v]);
      } else {
        assert Fits(s.tasks[if u == t then v else u], k);
      }
    }
  }

  /** The steps by which an install changes itself or the root. */
  predicate Works(e: Event) {
    !e.Begin? && !e.Crash? && !e.Leave? && (e.Recheck? ==> !e.found)
  }

  lemma WorksInPlace(s: World, e: Event, s': World)
    requires Next(s, e, s') && Works(e)
    ensures e.t in s.tasks && e.t in s'.tasks && s' == Moved(s, e.t, s'.tasks[e.t], s'.fs)
    ensures SameInstall(s.tasks[e.t], s'.tasks[e.t])
  {
  }

  /** An install that gains neither the lock nor a staging directory still fits the others. */
  lemma StillFits(s: World, t: nat, k: Task)
    requires Orderly(s) && t in s.tasks && SameInstall(s.tasks[t], k)
    requires k.locked ==> s.tasks[t].locked
    requires Staged(k.pc) ==> Staged(s.tasks[t].pc) && k.staging == s.tasks[t].staging
    ensures forall u | u in s.tasks && u != t :: Fits(s.tasks[u], k)
  {
    forall u | u in s.tasks && u != t ensures Fits(s.tasks[u], k) {
      assert Fits(s.tasks[u], s.tasks[t]);
    }
  }

  lemma RenamesMove(s: World, e: Event, s': World)
    requires Orderly(s) && Next(s, e, s') && (e.MoveAside? || e.Place? || e.Restore?)
    ensures Move(s, e.t, s'.tasks[e.t], s'.fs)
  {
    assert Based(s.fs, s.tasks[e.t]);
    StillFits(s, e.t, s'.tasks[e.t]);
  }

  lemma DeletedOnly(fs: Root, name: Name, fs': Root)
    requires Deleted(fs, name, fs')
    ensures Only(fs, fs', {name})
  {
  }

  lemma DeletionsMove(s: World, e: Event, s': World)
    requires Orderly(s) && Next(s, e, s') && (e.Clear? || e.Forget? || e.Discard?)
    ensures Move(s, e.t, s'.tasks[e.t], s'.fs)
  {
    var k := s.tasks[e.t];
    assert Based(s.fs, k);
    DeletedOnly(s.fs, if e.Discard? then k.staging else k.aside, s'.fs);
    StillFits(s, e.t, s'.tasks[e.t]);
  }

  lemma LockAndStageMove(s: World, e: Event, s': World)
    requires Orderly(s) && Next(s, e, s') && (e.Lock? || e.Stage?)
    ensures Move(s, e.t, s'.tasks[e.t], s'.fs)
  {
    assert Based(s.fs, s.tasks[e.t]);
    forall u | u in s.tasks && u != e.t ensures Fits(s.tasks[u], s'.tasks[e.t]) {
      assert Fits(s.tasks[u], s.tasks[e.t]);
    }
  }

  lemma OthersMove(s: World, e: Event, s': World)
    requires Orderly(s) && Next(s, e, s') && ((e.Recheck? && !e.found) || e.Unpack? || e.Look? || e.Abandon?)
    ensures Move(s, e.t, s'.tasks[e.t], s'.fs)
  {
    assert Based(s.fs, s.tasks[e.t]);
    StillFits(s, e.t, s'.tasks[e.t]);
  }

  lemma WorkIsAMove(s: World, e: Event, s': World)
    requires Orderly(s) && Next(s, e, s') && Works(e)
    ensures Move(s, e.t, s'.tasks[e.t], s'.fs) && s' == Moved(s, e.t, s'.tasks[e.t], s'.fs)
  {
    WorksInPlace(s, e, s');
    if e.MoveAside? || e.Place? || e.Restore? {
      RenamesMove(s, e, s');
    } else if e.Clear? || e.Forget? || e.Discard? {
      DeletionsMove(s, e, s');
    } else if e.Lock? || e.Stage? {
      LockAndStageMove(s, e, s');
    } else {
      OthersMove(s, e, s');
    }
  }

  lemma BeginningKeepsOrderly(s: World, e: Event, s': World)
    requires Orderly(s) && Next(s, e, s') && e.Begin?
    ensures Orderly(s')
  {
    var k := NewTask(e.pid, e.dest);
    forall u | u in s'.tasks ensures Based(s'.fs, s'.tasks[u]) {
      assert u != e.t ==> Based(s.fs, s.tasks[u]);
    }
    forall u, v | u in s'.tasks && v in s'.tasks && u != v ensures Fits(s'.tasks[u], s'.tasks[v]) {
      if u == e.t || v == e.t {
        NewcomersFit(k, s'.tasks[if u == e.t then v else u]);
      } else {
        assert Fits(s.tasks[u], s.tasks[v]);
      }
    }
  }

  lemma NewcomersFit(k: Task, other: Task)
    requires k.pc == Waiting && !k.locked
    ensures Fits(k, other) && Fits(other, k)
  {
  }

  /** Installs that return and processes that die only remove themselves. */
  ghost predicate Fewer(s: World, s': World) {
    && s'.fs == s.fs && s'.tasks.Keys <= s.tasks.Keys
    && forall t | t in s'.tasks :: s'.tasks[t] == s.tasks[t]
  }

  lemma DeparturesOnlyRemove(s: World, e: Event, s': World)
    requires Next(s, e, s') && !Works(e) && !e.Begin?
    ensures Fewer(s, s')
  {
  }

  lemma NextKeepsOrderly(s: World, e: Event, s': World)
    requires Orderly(s) && Next(s, e, s')
    ensures Orderly(s')
  {
    if Works(e) {
      WorkIsAMove(s, e, s');
      MoveKeepsOrderly(s, e.t, s'.tasks[e.t], s'.fs);
    } else if e.Begin? {
      BeginningKeepsOrderly(s, e, s');
    } else {
      DeparturesOnlyRemove(s, e, s');
    }
  }

  // ---------------------------------------------------------------- whole trees

  /** Every install directory that is there is a complete tree. */
  ghost predicate NothingHalf(fs: Root) {
    forall n | n in fs && n.Install? :: fs[n].Whole?
  }

  /** A previous install that was moved aside is still complete. */
  predicate KeepsPrevious(fs: Root, k: Task) {
    Away(k.pc) ==> k.aside in fs && fs[k.aside] == Whole(k.previous)
  }

  ghost predicate Sound(s: World) {
    Orderly(s) && NothingHalf(s.fs) && forall t | t in s.tasks :: KeepsPrevious(s.fs, s.tasks[t])
  }

  /** No two installs that found a previous install to replace use the same aside name. */
  ghost predicate ReplacersApart(s: World) {
    forall t, u | t in s.tasks && u in s.tasks && t != u && Replacing(s.tasks[t].pc) && Replacing(s.tasks[u].pc) ::
      s.tasks[t].aside != s.tasks[u].aside
  }

  /** An install's own step leaves its destination whole, and whole what it moved aside. */
  lemma OwnTreesStayWhole(s: World, e: Event, s': World)
    requires Sound(s) && Next(s, e, s') && Works(e)
    ensures KeepsPrevious(s'.fs, s'.tasks[e.t])
    ensures s.tasks[e.t].dest in s'.fs ==> s'.fs[s.tasks[e.t].dest].Whole?
  {
    var k := s.tasks[e.t];
    assert Based(s.fs, k) && KeepsPrevious(s.fs, k);
    if e.MoveAside? || e.Place? || e.Restore? {
      return;
    }
    if e.Clear? || e.Forget? || e.Discard? {
      DeletedOnly(s.fs, if e.Discard? then k.staging else k.aside, s'.fs);
      assert SameAt(s.fs, s'.fs, k.dest);
    }
  }

  /** Only an install that is replacing a previous one touches its aside name. */
  lemma AsidesAreTouchedByReplacersOnly(s: World, e: Event, s': World, n: Name)
    requires Orderly(s) && Next(s, e, s') && Works(e) && n.Aside?
    requires Replacing(s.tasks[e.t].pc) ==> s.tasks[e.t].aside != n
    ensures SameAt(s.fs, s'.fs, n)
  {
    assert Based(s.fs, s.tasks[e.t]);
  }

  lemma WorkKeepsSound(s: World, e: Event, s': World)
    requires Sound(s) && ReplacersApart(s) && Next(s, e, s') && Works(e)
    ensures Sound(s')
  {
    NextKeepsOrderly(s, e, s');
    WorkIsAMove(s, e, s');
    OwnTreesStayWhole(s, e, s');
    InstallsStayWhole(s, e, s');
    forall u | u in s.tasks && u != e.t ensures KeepsPrevious(s'.fs, s.tasks[u]) {
      OthersKeepPrevious(s, e, s', u);
    }
  }

  lemma InstallsStayWhole(s: World, e: Event, s': World)
    requires Sound(s) && Next(s, e, s') && Works(e)
    ensures NothingHalf(s'.fs)
  {
    WorkIsAMove(s, e, s');
    OwnTreesStayWhole(s, e, s');
    var k, k' := s.tasks[e.t], s'.tasks[e.t];
    assert Based(s.fs, k) && Based(s'.fs, k');
    forall n | n in s'.fs && n.Install? ensures s'.fs[n].Whole? {
      if n != k.dest {
        assert n !in Touched(k, k');
      }
    }
  }

  lemma OthersKeepPrevious(s: World, e: Event, s': World, u: nat)
    requires Sound(s) && ReplacersApart(s) && Next(s, e, s') && Works(e) && u in s.tasks && u != e.t
    ensures KeepsPrevious(s'.fs, s.tasks[u])
  {
    var k := s.tasks[u];
    assert Based(s.fs, k) && KeepsPrevious(s.fs, k);
    if Away(k.pc) {
      AsidesAreTouchedByReplacersOnly(s, e, s', k.aside);
    }
  }

  /** Every step, a caller going away among them, keeps all trees in order from any state in which the
      installs that are replacing a previous one have aside names of their own. */
  lemma NextKeepsSound(s: World, e: Event, s': World)
    requires Sound(s) && ReplacersApart(s) && Next(s, e, s')
    ensures Sound(s')
  {
    if Works(e) {
      WorkKeepsSound(s, e, s');
    } else {
      NextKeepsOrderly(s, e, s');
      if !e.Begin? {
        DeparturesOnlyRemove(s, e, s');
      }
    }
  }

  // ---------------------------------------------------------------- what the lock has to guard

  /** No other install is replacing a previous one under the aside name of `t`. */
  ghost predicate AsideIdle(s: World, t: nat) {
    t in s.tasks ==>
      forall u | u in s.tasks && u != t && Replacing(s.tasks[u].pc) :: s.tasks[u].aside != s.tasks[t].aside
  }

  /** No other install is inside a promotion with its tree still to be placed where `t` installs. */
  ghost predicate DestinationIdle(s: World, t: nat) {
    t in s.tasks ==>
      forall u | u in s.tasks && u != t && HasToPlace(s.tasks[u].pc) :: s.tasks[u].dest != s.tasks[t].dest
  }

  /** No other install under the lock of `t`, which its caller may have let go, is inside a promotion. */
  ghost predicate StemIdle(s: World, t: nat) {
    t in s.tasks ==>
      forall u | u in s.tasks && u != t && Promoting(s.tasks[u].pc) :: s.tasks[u].stem != s.tasks[t].stem
  }

  lemma StemIdleIsEnough(s: World, t: nat)
    requires Orderly(s) && StemIdle(s, t)
    ensures AsideIdle(s, t) && DestinationIdle(s, t)
  {
    if t in s.tasks {
      assert Based(s.fs, s.tasks[t]);
      forall u | u in s.tasks && u != t && Promoting(s.tasks[u].pc)
        ensures s.tasks[u].aside != s.tasks[t].aside && s.tasks[u].dest != s.tasks[t].dest
      {
        assert Based(s.fs, s.tasks[u]);
      }
    }
  }

  /** Under its lock, or still promoting without it. */
  predicate Busy(k: Task) {
    k.locked || Promoting(k.pc)
  }

  predicate MayReplace(k: Task) {
    k.locked || Replacing(k.pc)
  }

  predicate MayPlace(k: Task) {
    k.pc in {Locked, Missing, Unpacking, Ready} || HasToPlace(k.pc)
  }

  /** Nobody gets busy but by taking its lock. */
  lemma BusyByLockOnly(s: World, e: Event, s': World, t: nat)
    requires Orderly(s) && Next(s, e, s') && t in s'.tasks && Busy(s'.tasks[t])
    ensures t in s.tasks && SameInstall(s.tasks[t], s'.tasks[t])
    ensures Busy(s.tasks[t]) || e == Lock(t)
    ensures MayReplace(s'.tasks[t]) ==> MayReplace(s.tasks[t]) || e == Lock(t)
    ensures MayPlace(s'.tasks[t]) ==> MayPlace(s.tasks[t]) || e == Lock(t)
  {
    if Works(e) {
      WorksInPlace(s, e, s');
      assert Based(s.fs, s.tasks[e.t]);
    } else if !e.Begin? {
      DeparturesOnlyRemove(s, e, s');
    }
  }

  /** Installs that may replace something have aside names of their own. */
  ghost predicate AsidesApart(s: World) {
    forall t, u | t in s.tasks && u in s.tasks && t != u && MayReplace(s.tasks[t]) && MayReplace(s.tasks[u]) ::
      s.tasks[t].aside != s.tasks[u].aside
  }

  lemma NextKeepsAsidesApart(s: World, e: Event, s': World)
    requires Orderly(s) && AsidesApart(s) && Next(s, e, s') && (e.Lock? ==> AsideIdle(s, e.t))
    ensures AsidesApart(s')
  {
    forall t, u | t in s'.tasks && u in s'.tasks && t != u && MayReplace(s'.tasks[t]) && MayReplace(s'.tasks[u])
      ensures s'.tasks[t].aside != s'.tasks[u].aside
    {
      BusyByLockOnly(s, e, s', t);
      BusyByLockOnly(s, e, s', u);
      assert Based(s.fs, s.tasks[t]) && Based(s.fs, s.tasks[u]);
    }
  }

  /** At most one install of `d` may yet place a tree there. */
  ghost predicate OnePlacer(s: World, d: Name) {
    forall t, u | t in s.tasks && u in s.tasks && t != u && MayPlace(s.tasks[t]) && MayPlace(s.tasks[u]) ::
      !(s.tasks[t].dest == d == s.tasks[u].dest)
  }

  lemma NextKeepsOnePlacer(s: World, e: Event, s': World, d: Name)
    requires Orderly(s) && OnePlacer(s, d) && Next(s, e, s')
    requires e.Lock? && e.t in s.tasks && s.tasks[e.t].dest == d ==> DestinationIdle(s, e.t)
    ensures OnePlacer(s', d)
  {
    forall t, u | t in s'.tasks && u in s'.tasks && t != u && MayPlace(s'.tasks[t]) && MayPlace(s'.tasks[u])
      ensures !(s'.tasks[t].dest == d == s'.tasks[u].dest)
    {
      assert Based(s'.fs, s'.tasks[t]) && Based(s'.fs, s'.tasks[u]) by {
        NextKeepsOrderly(s, e, s');
      }
      BusyByLockOnly(s, e, s', t);
      BusyByLockOnly(s, e, s', u);
      assert Based(s.fs, s.tasks[t]) && Based(s.fs, s.tasks[u]);
    }
  }

  // ---------------------------------------------------------------- an install alone under its lock

  ghost predicate StemsApart(s: World) {
    forall t, u | t in s.tasks && u in s.tasks && t != u && Busy(s.tasks[t]) && Busy(s.tasks[u]) ::
      s.tasks[t].stem != s.tasks[u].stem
  }

  /** Nothing has taken the place of an install that was moved aside. */
  ghost predicate Vacated(s: World) {
    forall t | t in s.tasks && Away(s.tasks[t].pc) :: s.tasks[t].dest !in s.fs
  }

  ghost predicate Inv(s: World) {
    Sound(s) && StemsApart(s) && Vacated(s)
  }

  lemma NextKeepsStemsApart(s: World, e: Event, s': World)
    requires Orderly(s) && StemsApart(s) && Next(s, e, s') && (e.Lock? ==> StemIdle(s, e.t))
    ensures StemsApart(s')
  {
    forall t, u | t in s'.tasks && u in s'.tasks && t != u && Busy(s'.tasks[t]) && Busy(s'.tasks[u])
      ensures s'.tasks[t].stem != s'.tasks[u].stem
    {
      BusyByLockOnly(s, e, s', t);
      BusyByLockOnly(s, e, s', u);
    }
  }

  /** Installs that are alone under their locks have aside names of their own. */
  lemma StemsKeepAsidesApart(s: World)
    requires Orderly(s) && StemsApart(s)
    ensures AsidesApart(s) && ReplacersApart(s)
  {
    forall t, u | t in s.tasks && u in s.tasks && t != u && MayReplace(s.tasks[t]) && MayReplace(s.tasks[u])
      ensures s.tasks[t].aside != s.tasks[u].aside
    {
      assert Based(s.fs, s.tasks[t]) && Based(s.fs, s.tasks[u]);
    }
  }

  /** A step touches no name of an install that is busy, but by that install itself. */
  lemma BusyNamesAreLeftAlone(s: World, e: Event, s': World, t: nat)
    requires Orderly(s) && StemsApart(s) && Next(s, e, s') && t in s.tasks && Busy(s.tasks[t]) && Works(e) && e.t != t
    ensures SameAt(s.fs, s'.fs, s.tasks[t].dest) && SameAt(s.fs, s'.fs, s.tasks[t].aside)
    ensures Staged(s.tasks[t].pc) ==> SameAt(s.fs, s'.fs, s.tasks[t].staging)
  {
    WorkIsAMove(s, e, s');
    var k, other, other' := s.tasks[t], s.tasks[e.t], s'.tasks[e.t];
    assert Based(s.fs, k) && Based(s.fs, other) && Based(s'.fs, other') && Fits(k, other');
    assert k.dest !in Touched(other, other') && k.aside !in Touched(other, other');
    assert Staged(k.pc) ==> k.staging !in Touched(other, other');
  }

  lemma OwnPlaceStaysVacant(s: World, e: Event, s': World)
    requires Inv(s) && Next(s, e, s') && Works(e) && Away(s'.tasks[e.t].pc)
    ensures s'.tasks[e.t].dest !in s'.fs
  {
    assert Based(s.fs, s.tasks[e.t]);
    assert e.MoveAside? || e.Place? || e.Abandon?;
  }

  lemma NextKeepsVacated(s: World, e: Event, s': World)
    requires Inv(s) && Next(s, e, s') && Works(e)
    ensures Vacated(s')
  {
    forall t | t in s'.tasks && Away(s'.tasks[t].pc) ensures s'.tasks[t].dest !in s'.fs {
      WorksInPlace(s, e, s');
      if t == e.t {
        OwnPlaceStaysVacant(s, e, s');
      } else {
        BusyNamesAreLeftAlone(s, e, s', t);
      }
    }
  }

  /** As long as nobody takes a lock under which a promotion is still on its way, every step and every
      process crash keeps every install alone with its names, and all trees whole. */
  lemma NextKeepsInv(s: World, e: Event, s': World)
    requires Inv(s) && Next(s, e, s') && (e.Lock? ==> StemIdle(s, e.t))
    ensures Inv(s')
  {
    StemsKeepAsidesApart(s);
    NextKeepsSound(s, e, s');
    NextKeepsStemsApart(s, e, s');
    if Works(e) {
      NextKeepsVacated(s, e, s');
    } else if !e.Begin? {
      DeparturesOnlyRemove(s, e, s');
    }
  }

  // ---------------------------------------------------------------- whole runs

  ghost predicate Steps(s: seq<World>, e: seq<Event>, k: nat)
    requires k <= |e| < |s|
  {
    k == 0 || (Steps(s, e, k - 1) && Next(s[k - 1], e[k - 1], s[k]))
  }

  /** A stretch of the machine, from any state. */
  ghost predicate Path(s: seq<World>, e: seq<Event>) {
    |s| == |e| + 1 && Steps(s, e, |e|)
  }

  /** Any run from a root without a half install. Processes may die, and callers go away, anywhere. */
  ghost predicate Run(s: seq<World>, e: seq<Event>) {
    Path(s, e) && s[0].tasks == map[] && NothingHalf(s[0].fs)
  }

  lemma {:induction false} StepAt(s: seq<World>, e: seq<Event>, k: nat, i: nat)
    requires i < k <= |e| < |s| && Steps(s, e, k)
    ensures Next(s[i], e[i], s[i + 1])
  {
    if i < k - 1 {
      StepAt(s, e, k - 1, i);
    }
  }

  lemma {:induction false} StaysOrderly(s: seq<World>, e: seq<Event>, i: nat)
    requires Path(s, e) && Orderly(s[0]) && i < |s|
    ensures Orderly(s[i])
  {
    if i > 0 {
      StaysOrderly(s, e, i - 1);
      StepAt(s, e, |e|, i - 1);
      NextKeepsOrderly(s[i - 1], e[i - 1], s[i]);
    }
  }

  lemma {:induction false} StaysSound(s: seq<World>, e: seq<Event>, i: nat)
    requires Path(s, e) && Sound(s[0]) && i < |s| && forall k | 0 <= k < i :: ReplacersApart(s[k])
    ensures Sound(s[i])
  {
    if i > 0 {
      StaysSound(s, e, i - 1);
      StepAt(s, e, |e|, i - 1);
      NextKeepsSound(s[i - 1], e[i - 1], s[i]);
    }
  }

  /** No lock is taken while somebody else is replacing a previous install under the aside name that
      goes with it. */
  ghost predicate AsidesGuarded(s: seq<World>, e: seq<Event>)
    requires |e| <= |s|
  {
    forall i | 0 <= i < |e| && e[i].Lock? :: AsideIdle(s[i], e[i].t)
  }

  /** What that guard is for. */
  lemma {:induction false} GuardKeepsReplacersApart(s: seq<World>, e: seq<Event>, i: nat)
    requires Path(s, e) && Orderly(s[0]) && AsidesApart(s[0]) && i < |s| && AsidesGuarded(s, e)
    ensures AsidesApart(s[i]) && ReplacersApart(s[i])
  {
    if i > 0 {
      GuardKeepsReplacersApart(s, e, i - 1);
      StaysOrderly(s, e, i - 1);
      StepAt(s, e, |e|, i - 1);
      NextKeepsAsidesApart(s[i - 1], e[i - 1], s[i]);
    }
  }

  lemma GuardKeepsSound(s: seq<World>, e: seq<Event>, i: nat)
    requires Path(s, e) && Sound(s[0]) && AsidesApart(s[0]) && i < |s| && AsidesGuarded(s, e)
    ensures Sound(s[i])
  {
    forall k | 0 <= k < i ensures ReplacersApart(s[k]) {
      GuardKeepsReplacersApart(s, e, k);
    }
    StaysSound(s, e, i);
  }

  /** At every step of every run, an install directory is absent or one complete tree, whoever crashes
      and whatever callers go away, as long as nobody takes a lock while somebody else is replacing a
      previous install under its aside name. */
  lemma DestinationsAreNeverHalf(s: seq<World>, e: seq<Event>, i: nat, dest: string)
    requires Run(s, e) && AsidesGuarded(s, e) && i < |s| && Install(dest) in s[i].fs
    ensures s[i].fs[Install(dest)].Whole?
  {
    GuardKeepsSound(s, e, i);
  }

  /** No lock is taken while somebody who let go of it is still inside a promotion. */
  ghost predicate StemsGuarded(s: seq<World>, e: seq<Event>)
    requires |e| <= |s|
  {
    forall i | 0 <= i < |e| && e[i].Lock? :: StemIdle(s[i], e[i].t)
  }

  /** Then every install is alone with its names at every step of every run. */
  lemma {:induction false} RunKeepsInv(s: seq<World>, e: seq<Event>, i: nat)
    requires Run(s, e) && StemsGuarded(s, e) && i < |s|
    ensures Inv(s[i])
  {
    if i > 0 {
      RunKeepsInv(s, e, i - 1);
      StepAt(s, e, |e|, i - 1);
      NextKeepsInv(s[i - 1], e[i - 1], s[i]);
    }
  }

  /** Nobody has gone away inside a promotion. */
  ghost predicate AllLocked(s: World) {
    forall t | t in s.tasks && Promoting(s.tasks[t].pc) :: s.tasks[t].locked
  }

  lemma NextKeepsAllLocked(s: World, e: Event, s': World)
    requires Orderly(s) && AllLocked(s) && Next(s, e, s') && !e.Abandon?
    ensures AllLocked(s')
  {
    forall t | t in s'.tasks && Promoting(s'.tasks[t].pc) ensures s'.tasks[t].locked {
      assert Based(s.fs, s.tasks[t]);
    }
  }

  lemma {:induction false} StaysAllLocked(s: seq<World>, e: seq<Event>, i: nat)
    requires Run(s, e) && i < |s| && forall k | 0 <= k < |e| :: !e[k].Abandon?
    ensures AllLocked(s[i])
  {
    if i > 0 {
      StaysAllLocked(s, e, i - 1);
      StaysOrderly(s, e, i - 1);
      StepAt(s, e, |e|, i - 1);
      NextKeepsAllLocked(s[i - 1], e[i - 1], s[i]);
    }
  }

  /** The lock file alone is guard enough for everything here, in any run in which no caller goes away
      inside a promotion. */
  lemma LocksAreGuardEnough(s: seq<World>, e: seq<Event>, d: Name)
    requires Run(s, e) && forall k | 0 <= k < |e| :: !e[k].Abandon?
    ensures StemsGuarded(s, e) && AsidesGuarded(s, e) && DestinationGuarded(s, e, d)
  {
    forall i | 0 <= i < |e| && e[i].Lock?
      ensures StemIdle(s[i], e[i].t) && AsideIdle(s[i], e[i].t) && DestinationIdle(s[i], e[i].t)
    {
      StepAt(s, e, |e|, i);
      StaysOrderly(s, e, i);
      StaysAllLocked(s, e, i);
      StemIdleIsEnough(s[i], e[i].t);
    }
  }

  lemma LockedDestinationsAreNeverHalf(s: seq<World>, e: seq<Event>, i: nat, dest: string)
    requires Run(s, e) && (forall k | 0 <= k < |e| :: !e[k].Abandon?) && i < |s| && Install(dest) in s[i].fs
    ensures s[i].fs[Install(dest)].Whole?
  {
    LocksAreGuardEnough(s, e, Install(dest));
    DestinationsAreNeverHalf(s, e, i, dest);
  }

  predicate SameAt(fs: Root, fs': Root, n: Name) {
    (n in fs <==> n in fs') && (n in fs ==> fs'[n] == fs[n])
  }

  /** Only installs of that very destination change it, whoever has gone away: it is moved aside whole,
      the tree that was unpacked for it is placed on nothing, or the tree that was moved aside comes
      back. */
  lemma DestinationsChangeByRenameOnly(s: World, e: Event, s': World, dest: string)
    requires Sound(s) && Next(s, e, s') && !SameAt(s.fs, s'.fs, Install(dest))
    ensures (e.MoveAside? || e.Place? || e.Restore?) && e.ok && s.tasks[e.t].dest == Install(dest)
    ensures e.MoveAside? ==> Install(dest) !in s'.fs && SameInstall(s.tasks[e.t], s'.tasks[e.t])
                             && s'.fs[s.tasks[e.t].aside] == s.fs[Install(dest)]
    ensures !e.MoveAside? ==> Install(dest) !in s.fs && Install(dest) in s'.fs
    ensures e.Place? ==> s'.fs[Install(dest)] == Whole(s.tasks[e.t].tree)
    ensures e.Restore? ==> s'.fs[Install(dest)] == Whole(s.tasks[e.t].previous)
  {
    assert Works(e);
    assert Based(s.fs, s.tasks[e.t]) && KeepsPrevious(s.fs, s.tasks[e.t]);
  }

  // ---------------------------------------------------------------- a failed promotion

  /** From the moment its previous install is aside, an install remembers which tree it was. */
  predicate Remembers(s: World, t: nat, dest: Name, tree: nat) {
    t in s.tasks ==>
      s.tasks[t].pc in {Displaced, Unplaced, Placed, Done} && s.tasks[t].dest == dest && s.tasks[t].previous == tree
  }

  lemma RemembersOn(s: World, e: Event, s': World, t: nat, dest: Name, tree: nat)
    requires Next(s, e, s') && Remembers(s, t, dest, tree) && !(e.Begin? && e.t == t)
    ensures Remembers(s', t, dest, tree)
  {
  }

  lemma {:induction false} RunRemembers(s: seq<World>, e: seq<Event>, i: nat, j: nat, t: nat)
    requires Run(s, e) && i < j < |s| && e[i] == MoveAside(t, true)
    requires forall k | 0 <= k < i :: ReplacersApart(s[k])
    requires forall m | i < m < j :: !(e[m].Begin? && e[m].t == t)
    ensures t in s[i].tasks && s[i].tasks[t].dest in s[i].fs
    ensures s[i].fs[s[i].tasks[t].dest].Whole?
    ensures Remembers(s[j], t, s[i].tasks[t].dest, s[i].fs[s[i].tasks[t].dest].tree)
    decreases j
  {
    StepAt(s, e, |e|, j - 1);
    if i == j - 1 {
      StaysSound(s, e, i);
      assert Based(s[i].fs, s[i].tasks[t]);
    } else {
      RunRemembers(s, e, i, j - 1, t);
      RemembersOn(s[j - 1], e[j - 1], s[j], t, s[i].tasks[t].dest, s[i].fs[s[i].tasks[t].dest].tree);
    }
  }

  /** A promotion that fails, and whose restoring rename succeeds, leaves exactly the tree that was
      there before it began, whatever the other installs did in between and whoever went away. */
  lemma RestoredPromotionChangesNothing(s: seq<World>, e: seq<Event>, i: nat, j: nat, t: nat)
    requires Run(s, e) && i < j < |e| && e[i] == MoveAside(t, true) && e[j] == Restore(t, true)
    requires forall k | 0 <= k < j :: ReplacersApart(s[k])
    requires forall m | i < m < j :: !(e[m].Begin? && e[m].t == t)
    ensures t in s[i].tasks && s[i].tasks[t].dest in s[i].fs
    ensures SameAt(s[i].fs, s[j + 1].fs, s[i].tasks[t].dest)
  {
    RunRemembers(s, e, i, j, t);
    StaysSound(s, e, j);
    StepAt(s, e, |e|, j);
    assert Based(s[j].fs, s[j].tasks[t]) && KeepsPrevious(s[j].fs, s[j].tasks[t]);
  }

  // ---------------------------------------------------------------- one winner

  predicate Accepts(fs: Root, d: Name, accepted: set<nat>) {
    d in fs && fs[d].Whole? && fs[d].tree in accepted
  }

  /** The provider answers by the settings alone, and accepts what it selected for unpacking. */
  ghost predicate Honest(s: World, e: Event, d: Name, accepted: set<nat>) {
    && (e.Recheck? && e.t in s.tasks && s.tasks[e.t].dest == d ==> (e.found <==> Accepts(s.fs, d, accepted)))
    && (e.Unpack? && e.t in s.tasks && s.tasks[e.t].dest == d ==> e.tree in accepted)
  }

  /** An install of `d` is promoted. */
  predicate Places(s: World, e: Event, d: Name) {
    e.Place? && e.ok && e.t in s.tasks && s.tasks[e.t].dest == d
  }

  predicate Suitable(s: World, d: Name, accepted: set<nat>) {
    forall t | t in s.tasks && s.tasks[t].dest == d && Holding(s.tasks[t].pc) :: s.tasks[t].tree in accepted
  }

  /** The install is in place, and no install of it is past its re-check with work to do. */
  predicate Settled(s: World, d: Name, accepted: set<nat>) {
    && Accepts(s.fs, d, accepted)
    && forall t | t in s.tasks && s.tasks[t].dest == d ::
          s.tasks[t].pc in {Waiting, Locked, Unplaced, Placed, Done}
  }

  lemma SuitableStays(s: World, e: Event, s': World, d: Name, accepted: set<nat>)
    requires Next(s, e, s') && Honest(s, e, d, accepted) && Suitable(s, d, accepted)
    ensures Suitable(s', d, accepted)
  {
  }

  lemma WhoMayNotPlace(k: Task)
    requires !MayPlace(k)
    ensures k.pc == Waiting || k.pc == Unplaced || k.pc == Placed || k.pc == Done
  {
  }

  lemma PlacingSettles(s: World, t: nat, s': World, d: Name, accepted: set<nat>)
    requires Orderly(s) && OnePlacer(s, d) && Next(s, Place(t, true), s')
    requires Suitable(s, d, accepted) && s.tasks[t].dest == d
    ensures Settled(s', d, accepted)
  {
    assert Based(s.fs, s.tasks[t]) && MayPlace(s.tasks[t]);
    forall u | u in s'.tasks && s'.tasks[u].dest == d && u != t
      ensures s'.tasks[u].pc in {Waiting, Unplaced, Placed, Done}
    {
      WhoMayNotPlace(s.tasks[u]);
    }
  }

  lemma SettledStays(s: World, e: Event, s': World, d: Name, accepted: set<nat>)
    requires Orderly(s) && Next(s, e, s') && d.Install?
    requires Honest(s, e, d, accepted) && Settled(s, d, accepted)
    ensures Settled(s', d, accepted) && !Places(s, e, d)
  {
    if Works(e) {
      WorksInPlace(s, e, s');
      if s.tasks[e.t].dest == d {
        OwnSettledTreeStays(s, e, s', d, accepted);
      } else {
        OtherTreesStay(s, e, s', d);
      }
    } else if !e.Begin? {
      DeparturesOnlyRemove(s, e, s');
    }
  }

  /** Nobody touches the destination of another install. */
  lemma OtherTreesStay(s: World, e: Event, s': World, d: Name)
    requires Orderly(s) && Next(s, e, s') && Works(e) && d.Install? && e.t in s.tasks && s.tasks[e.t].dest != d
    ensures SameAt(s.fs, s'.fs, d)
  {
    WorkIsAMove(s, e, s');
    assert Based(s.fs, s.tasks[e.t]) && Based(s'.fs, s'.tasks[e.t]);
    assert d !in Touched(s.tasks[e.t], s'.tasks[e.t]);
  }

  lemma OwnSettledTreeStays(s: World, e: Event, s': World, d: Name, accepted: set<nat>)
    requires Orderly(s) && Next(s, e, s') && Works(e) && d.Install? && e.t in s.tasks && s.tasks[e.t].dest == d
    requires Honest(s, e, d, accepted) && Settled(s, d, accepted)
    ensures SameAt(s.fs, s'.fs, d) && !Places(s, e, d)
    ensures s'.tasks[e.t].pc in {Waiting, Locked, Unplaced, Placed, Done}
  {
    assert Based(s.fs, s.tasks[e.t]);
    assert e.Lock? || e.Restore? || e.Forget? || e.Discard? || e.Abandon?;
  }

  /** No lock is taken for `d` while somebody else has yet to place a tree there. */
  ghost predicate DestinationGuarded(s: seq<World>, e: seq<Event>, d: Name)
    requires |e| <= |s|
  {
    forall i | 0 <= i < |e| && e[i].Lock? && e[i].t in s[i].tasks && s[i].tasks[e[i].t].dest == d ::
      DestinationIdle(s[i], e[i].t)
  }

  lemma {:induction false} GuardKeepsOnePlacer(s: seq<World>, e: seq<Event>, i: nat, d: Name)
    requires Path(s, e) && Orderly(s[0]) && OnePlacer(s[0], d) && i < |s| && DestinationGuarded(s, e, d)
    ensures OnePlacer(s[i], d)
  {
    if i > 0 {
      GuardKeepsOnePlacer(s, e, i - 1, d);
      StaysOrderly(s, e, i - 1);
      StepAt(s, e, |e|, i - 1);
      NextKeepsOnePlacer(s[i - 1], e[i - 1], s[i], d);
    }
  }

  ghost predicate AllHonest(s: seq<World>, e: seq<Event>, d: Name, accepted: set<nat>)
    requires |e| <= |s|
  {
    forall m | 0 <= m < |e| :: Honest(s[m], e[m], d, accepted)
  }

  lemma {:induction false} StaysSuitable(s: seq<World>, e: seq<Event>, i: nat, d: Name, accepted: set<nat>)
    requires Path(s, e) && Suitable(s[0], d, accepted) && i < |s| && AllHonest(s, e, d, accepted)
    ensures Suitable(s[i], d, accepted)
  {
    if i > 0 {
      StaysSuitable(s, e, i - 1, d, accepted);
      StepAt(s, e, |e|, i - 1);
      SuitableStays(s[i - 1], e[i - 1], s[i], d, accepted);
    }
  }

  lemma StepStaysSettled(s: seq<World>, e: seq<Event>, i: nat, d: Name, accepted: set<nat>)
    requires Path(s, e) && Orderly(s[0]) && i < |e| && AllHonest(s, e, d, accepted)
    requires d.Install? && Settled(s[i], d, accepted)
    ensures Settled(s[i + 1], d, accepted) && !Places(s[i], e[i], d)
  {
    StaysOrderly(s, e, i);
    StepAt(s, e, |e|, i);
    SettledStays(s[i], e[i], s[i + 1], d, accepted);
  }

  lemma {:induction false} StaysSettled(s: seq<World>, e: seq<Event>, i: nat, j: nat, d: Name, accepted: set<nat>)
    requires Path(s, e) && Orderly(s[0]) && i <= j < |s| && AllHonest(s, e, d, accepted)
    requires d.Install? && Settled(s[i], d, accepted)
    ensures Settled(s[j], d, accepted)
    decreases j
  {
    if i < j {
      StaysSettled(s, e, i, j - 1, d, accepted);
      StepStaysSettled(s, e, j - 1, d, accepted);
    }
  }

  lemma OnePromotionFollows(s: seq<World>, e: seq<Event>, i: nat, j: nat, d: Name, accepted: set<nat>)
    requires Path(s, e) && AllHonest(s, e, d, accepted) && DestinationGuarded(s, e, d)
    requires Orderly(s[0]) && OnePlacer(s[0], d) && Suitable(s[0], d, accepted)
    requires i <= j < |e| && Places(s[i], e[i], d) && Places(s[j], e[j], d)
    ensures i == j
  {
    if i < j {
      StaysOrderly(s, e, i);
      assert Based(s[i].fs, s[i].tasks[e[i].t]);
      StepAt(s, e, |e|, i);
      StaysSuitable(s, e, i, d, accepted);
      GuardKeepsOnePlacer(s, e, i, d);
      PlacingSettles(s[i], e[i].t, s[i + 1], d, accepted);
      StaysSettled(s, e, i + 1, j, d, accepted);
      StepStaysSettled(s, e, j, d, accepted);
    }
  }

  /** With fixed settings and nothing deleted from outside, a destination is promoted to at most once,
      however many were racing and whoever went away, as long as nobody takes its lock while somebody
      else has yet to place a tree there: every install that comes later finds it. */
  lemma AtMostOnePromotes(s: seq<World>, e: seq<Event>, i: nat, j: nat, d: Name, accepted: set<nat>)
    requires Run(s, e) && AllHonest(s, e, d, accepted) && DestinationGuarded(s, e, d)
    requires i <= j < |e| && Places(s[i], e[i], d) && Places(s[j], e[j], d)
    ensures i == j
  {
    OnePromotionFollows(s, e, i, j, d, accepted);
  }
}
