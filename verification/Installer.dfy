/** The code of an install (resolve/install.rs, store/mod.rs, store/lock.rs): one install among others
    in a shared cache root. Between any two file operations the other installs may take any number
    of steps (`Suspend`). */
module Installer {
  import opened Wrappers
  import opened Handles
  import opened InstallNames
  import opened InstallModel

  datatype Fault = LockRefused | FetchFailed | UnpackFailed | NotMovedAside | NotPlaced | NotRestored | EmptyInstall

  function LockFile(stem: string): string {
    stem + "." + "lock"
  }

  lemma LockFilesAreApart(a: string, b: string)
    requires LockFile(a) == LockFile(b)
    ensures a == b
  {
    assert LockFile(a)[..|a|] == a && LockFile(b)[..|b|] == b;
  }

  predicate OwnNamesKept(fs: Root, fs': Root, k: Task) {
    && SameAt(fs, fs', k.dest) && SameAt(fs, fs', k.aside)
    && (Staged(k.pc) ==> SameAt(fs, fs', k.staging))
  }

  /** What the others can do to an install that has its lock: nothing at all to it or its names. */
  lemma OthersLeaveAnInstallAlone(s: World, e: InstallModel.Event, s': World, t: nat)
    requires Inv(s) && Next(s, e, s') && t in s.tasks && s.tasks[t].locked
    requires if e.Crash? then e.pid != s.tasks[t].pid else e.t != t
    ensures t in s'.tasks && s'.tasks[t] == s.tasks[t]
    ensures OwnNamesKept(s.fs, s'.fs, s.tasks[t])
  {
    if Works(e) {
      BusyNamesAreLeftAlone(s, e, s', t);
    }
  }

  /** An identifier that nobody else generates stays free until its install uses it. */
  lemma OthersLeaveAnIdentifierAlone(s: World, e: InstallModel.Event, s': World, mine: Name)
    requires Orderly(s) && Next(s, e, s') && FreshStaging(s, mine)
    requires (e.Stage? ==> e.name != mine) && (e.Begin? ==> mine != Staging(e.pid, ""))
    ensures FreshStaging(s', mine)
  {
    if Works(e) {
      WorkIsAMove(s, e, s');
      assert Based(s.fs, s.tasks[e.t]);
      assert mine !in Touched(s.tasks[e.t], s'.tasks[e.t]);
    }
  }

  /** Every promotion under this lock still has it. */
  ghost predicate NoneLeftBehind(s: World, stem: string) {
    forall u | u in s.tasks && s.tasks[u].stem == stem && Promoting(s.tasks[u].pc) :: s.tasks[u].locked
  }

  /** That stays so unless a caller goes away inside a promotion under this very lock. */
  lemma OthersLeaveNoneBehind(s: World, e: InstallModel.Event, s': World, stem: string)
    requires Orderly(s) && Next(s, e, s') && NoneLeftBehind(s, stem)
    requires e.Abandon? && e.t in s.tasks ==> s.tasks[e.t].stem != stem
    ensures NoneLeftBehind(s', stem)
  {
    forall u | u in s'.tasks && s'.tasks[u].stem == stem && Promoting(s'.tasks[u].pc) ensures s'.tasks[u].locked {
      assert Based(s.fs, s.tasks[u]);
    }
  }

  /** The same install, with its lock if it had it. */
  predicate StillAt(k: Task, k': Task) {
    SameInstall(k, k') && k'.locked == k.locked
  }

  /** What an install that got the lock may have made of its destination, by its result, compared
      with what was there when it got the lock. */
  predicate Outcome(before: Root, after: Root, r: Result<(), Fault>, dest: Name, aside: Name, tree: nat) {
    match r
    case Ok(_) => dest in after && (SameAt(before, after, dest) || after[dest] == Whole(tree))
    case Err(EmptyInstall) => dest in after && after[dest] == Whole(tree)
    case Err(NotRestored) => dest in before && dest !in after && aside in after && after[aside] == before[dest]
    case Err(LockRefused) => true
    case Err(_) => SameAt(before, after, dest)
  }

  /** What counts is the destination at the moment the lock was taken. */
  lemma OutcomeFrom(
    before: Root, missing: Root, after: Root, r: Result<(), Fault>, dest: Name, aside: Name, tree: nat)
    requires SameAt(before, missing, dest) && Outcome(missing, after, r, dest, aside, tree)
    ensures Outcome(before, after, r, dest, aside, tree)
  {
  }

  class CacheRoot {
    var fs: Root
    var locks: set<string>
    ghost var tasks: map<nat, Task>

    ghost function View(): World reads this {
      World(fs, tasks)
    }

    /** Whoever is under a lock holds the lock file. */
    ghost predicate Locking(tasks: map<nat, Task>, locks: set<string>) {
      forall t | t in tasks && tasks[t].locked :: LockFile(tasks[t].stem) in locks
    }

    ghost predicate Valid() reads this {
      Inv(View()) && Locking(tasks, locks)
    }

    /** The install `t` is at `pc`, has its lock, and works with these names. */
    ghost predicate Doing(t: nat, pc: Pc, dest: Name, aside: Name) reads this {
      t in tasks && tasks[t].pc == pc && tasks[t].locked && tasks[t].dest == dest && tasks[t].aside == aside
    }

    constructor (fs: Root)
      requires NothingHalf(fs)
      ensures Valid() && View() == World(fs, map[])
    {
      this.fs, locks, tasks := fs, {}, map[];
    }

    /** Between two file operations of install `t`. Callers know this contract alone, which
        `OthersLeaveAnInstallAlone` and `InstallModel.NextKeepsInv` prove of each step of another
        install. The body is the stretch in which nothing happens. */
    method Suspend(ghost t: nat)
      requires Valid() && t in tasks
      modifies this
      ensures Valid() && t in tasks && tasks[t] == old(tasks)[t]
      ensures tasks[t].locked ==> OwnNamesKept(old(fs), fs, tasks[t])
    {
    }

    // -------------------------------------------------------------- the promotion

    /** Record that install `t` is now `k`. */
    ghost method Become(t: nat, e: InstallModel.Event, s: World)
      requires Inv(s) && Next(s, e, View()) && Locking(s.tasks, locks)
      requires Works(e) && !e.Lock? && !e.Abandon? && e.t == t
      ensures Valid()
    {
      NextKeepsInv(s, e, View());
      WorksInPlace(s, e, View());
    }

    /** Does the destination exist? */
    method Look(ghost t: nat, dest: Name) returns (exists_: bool)
      requires Valid() && At(View(), t, Ready) && tasks[t].dest == dest
      modifies this`tasks
      ensures Valid() && exists_ == (dest in fs)
      ensures tasks == old(tasks)[t := old(tasks)[t].(pc := if exists_ then Occupied else Vacant)]
    {
      exists_ := dest in fs;
      ghost var s := View();
      tasks := tasks[t := tasks[t].(pc := if exists_ then Occupied else Vacant)];
      Become(t, InstallModel.Look(t), s);
    }

    /** A best-effort recursive deletion. */
    method RemoveAll(name: Name)
      modifies this`fs
      ensures Deleted(old(fs), name, fs)
    {
      var removed: bool := *;
      var begun: bool := *;
      if removed {
        fs := fs - {name};
      } else if begun && name in fs {
        fs := fs[name := Partial];
      } else if name !in fs {
        fs := fs - {name};
      }
    }

    method Rename(source: Name, target: Name) returns (ok: bool)
      modifies this`fs
      ensures ok ==> MayRename(old(fs), source, target) && fs == Renamed(old(fs), source, target)
      ensures !ok ==> fs == old(fs)
    {
      ok := *;
      ok := ok && source in fs && (target in fs ==> fs[target] == Partial);
      if ok {
        var tree := fs[source];
        fs := fs - {source};
        fs := fs[target := tree];
      }
    }

    method ClearAside(ghost t: nat, dest: Name, aside: Name)
      requires Valid() && Doing(t, Occupied, dest, aside)
      modifies this`fs, this`tasks
      ensures Valid() && tasks == old(tasks)[t := old(tasks)[t].(pc := Cleared)]
      ensures SameAt(old(fs), fs, dest)
    {
      ghost var s := View();
      assert Based(s.fs, s.tasks[t]);
      RemoveAll(aside);
      tasks := tasks[t := tasks[t].(pc := Cleared)];
      Become(t, InstallModel.Clear(t), s);
    }

    method MoveAside(ghost t: nat, dest: Name, aside: Name) returns (ok: bool)
      requires Valid() && Doing(t, Cleared, dest, aside)
      modifies this`fs, this`tasks
      ensures Valid() && Doing(t, if ok then Displaced else Done, dest, aside)
      ensures StillAt(old(tasks)[t], tasks[t])
      ensures tasks[t].staging == old(tasks)[t].staging && tasks[t].tree == old(tasks)[t].tree
      ensures if ok then dest in old(fs) && dest !in fs && aside in fs && fs[aside] == old(fs)[dest] else fs == old(fs)
    {
      ghost var s := View();
      assert Based(s.fs, s.tasks[t]);
      ok := Rename(dest, aside);
      tasks := tasks[t := if ok then tasks[t].(pc := Displaced, previous := TreeAt(s.fs, dest)) else tasks[t].(pc := Done)];
      Become(t, InstallModel.MoveAside(t, ok), s);
    }

    /** Put the staged tree in its place. */
    method Put(ghost t: nat, staged: Name, dest: Name) returns (ok: bool)
      requires Valid() && (At(View(), t, Displaced) || At(View(), t, Vacant))
      requires tasks[t].dest == dest && tasks[t].staging == staged
      modifies this`fs, this`tasks
      ensures Valid() && t in tasks && StillAt(old(tasks)[t], tasks[t])
      ensures tasks[t].pc == if old(tasks)[t].pc == Vacant then Done else if ok then Placed else Unplaced
      ensures if ok then dest in fs && fs[dest] == Whole(old(tasks)[t].tree) else fs == old(fs)
      ensures tasks[t].staging == old(tasks)[t].staging
    {
      ghost var s := View();
      ghost var k := tasks[t];
      ok := Rename(staged, dest);
      tasks := tasks[t := k.(pc := if k.pc == Vacant then Done else if ok then Placed else Unplaced)];
      assert Based(s.fs, k);
      Become(t, InstallModel.Place(t, ok), s);
    }

    method PutBack(ghost t: nat, dest: Name, aside: Name) returns (ok: bool)
      requires Valid() && Doing(t, Unplaced, dest, aside)
      modifies this`fs, this`tasks
      ensures Valid() && t in tasks && StillAt(old(tasks)[t], tasks[t]) && tasks[t].pc == Done
      ensures if ok then aside in old(fs) && dest in fs && fs[dest] == old(fs)[aside] else fs == old(fs)
      ensures tasks[t].staging == old(tasks)[t].staging
    {
      ghost var s := View();
      ok := Rename(aside, dest);
      tasks := tasks[t := tasks[t].(pc := Done)];
      Become(t, InstallModel.Restore(t, ok), s);
    }

    method ForgetPrevious(ghost t: nat, dest: Name, aside: Name)
      requires Valid() && Doing(t, Placed, dest, aside)
      modifies this`fs, this`tasks
      ensures Valid() && t in tasks && StillAt(old(tasks)[t], tasks[t]) && tasks[t].pc == Done
      ensures SameAt(old(fs), fs, dest)
      ensures tasks[t].staging == old(tasks)[t].staging
    {
      ghost var s := View();
      RemoveAll(aside);
      tasks := tasks[t := tasks[t].(pc := Done)];
      Become(t, InstallModel.Forget(t), s);
      assert Based(s.fs, s.tasks[t]);
    }

    /** The promotion over a previous install. */
    method Replace(ghost t: nat, staged: Name, dest: Name, aside: Name) returns (r: Result<(), Fault>)
      requires Valid() && Doing(t, Occupied, dest, aside) && tasks[t].staging == staged
      modifies this
      ensures Valid() && t in tasks && StillAt(old(tasks)[t], tasks[t]) && tasks[t].pc == Done
      ensures tasks[t].staging == staged
      ensures r.Ok? ==> dest in fs && fs[dest] == Whole(old(tasks)[t].tree)
      ensures r.Err? ==> r.error in {NotMovedAside, NotPlaced, NotRestored}
      ensures r == Err(NotMovedAside) || r == Err(NotPlaced) ==> SameAt(old(fs), fs, dest)
      ensures r == Err(NotRestored) ==>
                dest in old(fs) && dest !in fs && aside in fs && fs[aside] == old(fs)[dest]
    {
      ClearAside(t, dest, aside);
      Suspend(t);
      var moved := MoveAside(t, dest, aside);
      if !moved {
        return Err(NotMovedAside);
      }
      Suspend(t);
      var placed := Put(t, staged, dest);
      Suspend(t);
      if placed {
        ForgetPrevious(t, dest, aside);
        return Ok(());
      }
      var restored := PutBack(t, dest, aside);
      return Err(if restored then NotPlaced else NotRestored);
    }

    /** Promote a fully unpacked tree. On success the destination is that tree. On failure it is what
        it was before, unless both the placing and the restoring rename fail: then it is absent, and
        the previous tree is still complete under the aside name. */
    method PromoteBlocking(ghost t: nat, staged: Name, dest: Name, aside: Name) returns (r: Result<(), Fault>)
      requires Valid() && Doing(t, Ready, dest, aside) && tasks[t].staging == staged
      modifies this
      ensures Valid() && t in tasks && StillAt(old(tasks)[t], tasks[t]) && tasks[t].pc == Done
      ensures tasks[t].staging == staged
      ensures r.Ok? ==> dest in fs && fs[dest] == Whole(old(tasks)[t].tree)
      ensures r.Err? ==> r.error in {NotMovedAside, NotPlaced, NotRestored}
      ensures r == Err(NotMovedAside) || r == Err(NotPlaced) ==> SameAt(old(fs), fs, dest)
      ensures r == Err(NotRestored) ==>
                dest in old(fs) && dest !in fs && aside in fs && fs[aside] == old(fs)[dest]
    {
      var displaced := Look(t, dest);
      Suspend(t);
      if displaced {
        r := Replace(t, staged, dest, aside);
        return;
      }
      var placed := Put(t, staged, dest);
      return if placed then Ok(()) else Err(NotPlaced);
    }

    // -------------------------------------------------------------- the install

    /** The same before staging, when moreover the identifier generated for this install is taken by
        no other (`OthersLeaveAnIdentifierAlone`), and nobody goes away inside a promotion under the lock
        this one is waiting for (`OthersLeaveNoneBehind`). */
    method SuspendUnstaged(ghost t: nat, ghost mine: Name)
      requires Valid() && t in tasks
      modifies this
      ensures Valid() && t in tasks && tasks[t] == old(tasks)[t]
      ensures tasks[t].locked ==> OwnNamesKept(old(fs), fs, tasks[t])
      ensures FreshStaging(old(View()), mine) ==> FreshStaging(View(), mine)
      ensures NoneLeftBehind(old(View()), tasks[t].stem) ==> NoneLeftBehind(View(), tasks[t].stem)
    {
    }

    /** Take the lock file if nobody holds it. */
    method TryLock(ghost t: nat, dest: string) returns (ok: bool)
      requires Valid() && At(View(), t, Waiting) && tasks[t].dest == Install(dest)
      requires NoneLeftBehind(View(), tasks[t].stem)
      modifies this`locks, this`tasks
      ensures Valid() && t in tasks && ok == (LockName(dest) !in old(locks))
      ensures if ok then tasks == old(tasks)[t := old(tasks)[t].(pc := Locked, locked := true)] else tasks == old(tasks)
    {
      ok := LockName(dest) !in locks;
      if ok {
        ghost var s := View();
        assert Based(s.fs, s.tasks[t]);
        locks := locks + {LockName(dest)};
        tasks := tasks[t := tasks[t].(pc := Locked, locked := true)];
        NextKeepsInv(s, InstallModel.Lock(t), View());
      }
    }

    /** Return without ever having had the lock. */
    method GiveUp(ghost t: nat)
      requires Valid() && At(View(), t, Waiting)
      modifies this`tasks
      ensures Valid() && tasks == old(tasks) - {t}
    {
      NextKeepsInv(View(), InstallModel.Leave(t), World(fs, tasks - {t}));
      tasks := tasks - {t};
    }

    /** Return from the install, which lets go of its lock. */
    method Leave(ghost t: nat, dest: string)
      requires Valid() && t in tasks && tasks[t].dest == Install(dest)
      requires tasks[t].locked && !Promoting(tasks[t].pc)
      modifies this`locks, this`tasks
      ensures Valid() && tasks == old(tasks) - {t} && locks == old(locks) - {LockName(dest)}
    {
      ghost var s := View();
      assert Based(s.fs, s.tasks[t]);
      forall u | u in s.tasks && u != t && s.tasks[u].locked ensures LockFile(s.tasks[u].stem) != LockName(dest) {
        assert Busy(s.tasks[u]) && Busy(s.tasks[t]);
        if LockFile(s.tasks[u].stem) == LockFile(s.tasks[t].stem) {
          LockFilesAreApart(s.tasks[u].stem, s.tasks[t].stem);
        }
      }
      NextKeepsInv(s, InstallModel.Leave(t), World(fs, tasks - {t}));
      tasks := tasks - {t};
      locks := locks - {LockName(dest)};
    }

    /** The beginning of an install, on the record. */
    ghost method Enter(t: nat, pid: nat, dest: string, staging: Name)
      requires Valid() && t !in tasks && pid <= U64_MAX && Ordinary(dest)
      requires FreshStaging(View(), staging) && staging != Staging(pid, "") && NoneLeftBehind(View(), Stem(dest))
      modifies this`tasks
      ensures Valid() && tasks == old(tasks)[t := NewTask(pid, dest)]
      ensures FreshStaging(View(), staging) && NoneLeftBehind(View(), Stem(dest))
    {
      tasks := tasks[t := NewTask(pid, dest)];
      NextKeepsInv(old(View()), InstallModel.Begin(t, pid, dest), View());
    }

    /** Wait for the lock, looking at most `patience` times. */
    method Acquire(ghost t: nat, dest: string, ghost staging: Name, patience: nat) returns (ok: bool)
      requires Valid() && At(View(), t, Waiting) && tasks[t].dest == Install(dest)
      requires FreshStaging(View(), staging) && NoneLeftBehind(View(), tasks[t].stem)
      modifies this
      ensures Valid() && t in tasks && SameInstall(old(tasks)[t], tasks[t]) && (ok ==> tasks[t].locked)
      ensures tasks[t].pc == (if ok then Locked else Waiting) && FreshStaging(View(), staging)
    {
      for i := 0 to patience
        invariant Valid() && t in tasks && tasks[t] == old(tasks)[t] && FreshStaging(View(), staging)
        invariant NoneLeftBehind(View(), tasks[t].stem)
      {
        SuspendUnstaged(t, staging);
        ok := TryLock(t, dest);
        if ok {
          return;
        }
      }
      return false;
    }

    /** Ask the provider, under the lock, whether the install is there. It can only be if something is. */
    method Recheck(ghost t: nat, dest: Name, ghost staging: Name) returns (found: bool)
      requires Valid() && At(View(), t, Locked) && tasks[t].locked && tasks[t].dest == dest
      requires FreshStaging(View(), staging)
      modifies this
      ensures Valid() && FreshStaging(View(), staging) && SameAt(old(fs), fs, dest) && (found ==> dest in fs)
      ensures t in tasks && tasks[t] == if found then old(tasks)[t] else old(tasks)[t].(pc := Missing)
    {
      SuspendUnstaged(t, staging);
      found := *;
      found := found && dest in fs;
      if !found {
        ghost var s := View();
        tasks := tasks[t := tasks[t].(pc := Missing)];
        Become(t, InstallModel.Recheck(t, false), s);
      }
    }

    /** Unpack the archive into the staging directory. */
    method Unpack(ghost t: nat, staging: Name, tree: nat) returns (ok: bool)
      requires Valid() && At(View(), t, Missing) && tasks[t].locked && FreshStaging(View(), staging)
      modifies this
      ensures Valid() && t in tasks && StillAt(old(tasks)[t], tasks[t])
      ensures tasks[t].staging == staging && tasks[t].pc == (if ok then Ready else Unpacking)
      ensures ok ==> tasks[t].tree == tree
      ensures SameAt(old(fs), fs, tasks[t].dest) && SameAt(old(fs), fs, tasks[t].aside)
    {
      ghost var s := View();
      assert Based(s.fs, s.tasks[t]);
      fs := fs[staging := Partial];
      tasks := tasks[t := tasks[t].(pc := Unpacking, staging := staging)];
      Become(t, InstallModel.Stage(t, staging), s);
      Suspend(t);
      ok := *;
      if ok {
        s := View();
        fs := fs[staging := Whole(tree)];
        tasks := tasks[t := tasks[t].(pc := Ready, tree := tree)];
        Become(t, InstallModel.Unpack(t, tree), s);
      }
    }

    method Discard(ghost t: nat, staging: Name)
      requires Valid() && (At(View(), t, Unpacking) || At(View(), t, Done)) && tasks[t].staging == staging
      modifies this`fs, this`tasks
      ensures Valid() && tasks == old(tasks)[t := old(tasks)[t].(pc := Done)]
      ensures SameAt(old(fs), fs, tasks[t].dest) && SameAt(old(fs), fs, tasks[t].aside)
    {
      ghost var s := View();
      assert Based(s.fs, s.tasks[t]);
      RemoveAll(staging);
      tasks := tasks[t := tasks[t].(pc := Done)];
      Become(t, InstallModel.Discard(t), s);
    }

    /** Everything under the lock from the re-check on. */
    method Provision(ghost t: nat, dest: string, staging: Name, aside: Name, tree: nat)
      returns (r: Result<(), Fault>)
      requires Valid() && Doing(t, Locked, Install(dest), aside) && FreshStaging(View(), staging)
      modifies this
      ensures Valid() && t in tasks && !Promoting(tasks[t].pc)
      ensures StillAt(old(tasks)[t], tasks[t])
      ensures Outcome(old(fs), fs, r, Install(dest), aside, tree) && r != Err(LockRefused)
    {
      var found := Recheck(t, Install(dest), staging);
      if found {
        r := Ok(());
      } else {
        ghost var missing := fs;
        r := Fetch(t, Install(dest), staging, aside, tree);
        OutcomeFrom(old(fs), missing, fs, r, Install(dest), aside, tree);
      }
    }

    /** Download, and go on if that worked. */
    method Fetch(ghost t: nat, dest: Name, staging: Name, aside: Name, tree: nat) returns (r: Result<(), Fault>)
      requires Valid() && Doing(t, Missing, dest, aside) && FreshStaging(View(), staging)
      modifies this
      ensures Valid() && t in tasks && tasks[t].pc in {Missing, Done} && StillAt(old(tasks)[t], tasks[t])
      ensures Outcome(old(fs), fs, r, dest, aside, tree) && r != Err(LockRefused)
    {
      SuspendUnstaged(t, staging);
      var fetched: bool := *;
      if !fetched {
        return Err(FetchFailed);
      }
      r := UnpackAndPromote(t, dest, staging, aside, tree);
    }

    /** From the archive to the destination, leaving no staging directory behind if that can be. */
    method UnpackAndPromote(ghost t: nat, dest: Name, staging: Name, aside: Name, tree: nat)
      returns (r: Result<(), Fault>)
      requires Valid() && Doing(t, Missing, dest, aside) && FreshStaging(View(), staging)
      modifies this
      ensures Valid() && At(View(), t, Done) && StillAt(old(tasks)[t], tasks[t])
      ensures Outcome(old(fs), fs, r, dest, aside, tree) && r != Err(LockRefused)
    {
      var unpacked := Unpack(t, staging, tree);
      Suspend(t);
      if !unpacked {
        Discard(t, staging);
        return Err(UnpackFailed);
      }
      r := PromoteBlocking(t, staging, dest, aside);
      Suspend(t);
      Discard(t, staging);
      Suspend(t);
      var accepted: bool := *;
      if r.Ok? && !accepted {
        r := Err(EmptyInstall);
      }
    }

    /** An install, against any number of others, some of them perhaps abandoned by their callers inside
        a promotion under another lock, with the identifier generated for its staging directory. `before`
        is the root at the moment the lock was taken. */
    method Run(ghost t: nat, pid: nat, dest: string, staging: Name, tree: nat, patience: nat)
      returns (r: Result<(), Fault>, ghost before: Root)
      requires Valid() && t !in tasks && pid <= U64_MAX && Ordinary(dest)
      requires FreshStaging(View(), staging) && staging != Staging(pid, "")
      requires NoneLeftBehind(View(), Stem(dest))
      modifies this
      ensures Valid() && t !in tasks
      ensures Outcome(before, fs, r, Install(dest), AsideOf(dest, pid), tree)
      ensures r != Err(LockRefused) ==> LockName(dest) !in locks
    {
      Enter(t, pid, dest, staging);
      var locked := Acquire(t, dest, staging, patience);
      before := fs;
      if !locked {
        GiveUp(t);
        return Err(LockRefused), before;
      }
      r := Provision(t, dest, staging, AsideOf(dest, pid), tree);
      Leave(t, dest);
    }
  }
}
