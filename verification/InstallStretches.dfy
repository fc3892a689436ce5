/** Stretches of the installs' machine, and how they are put together: what one install does by itself
    from the lock to its promotion (resolve/install.rs, store/mod.rs). */
module InstallStretches {
  import opened Handles
  import opened InstallNames
  import opened InstallModel

  // ---------------------------------------------------------------- composing stretches

  lemma {:induction false} StepsIntro(s: seq<World>, e: seq<Event>, k: nat)
    requires k <= |e| < |s| && forall i | 0 <= i < k :: Next(s[i], e[i], s[i + 1])
    ensures Steps(s, e, k)
  {
    if k > 0 {
      StepsIntro(s, e, k - 1);
    }
  }

  lemma OneStep(w: World, e: Event, w': World)
    requires Next(w, e, w')
    ensures Path([w, w'], [e])
  {
    StepsIntro([w, w'], [e], 1);
  }

  lemma Extend(s: seq<World>, e: seq<Event>, more: seq<World>, then': seq<Event>) returns (all: seq<World>)
    requires Path(s, e) && Path(more, then') && more[0] == s[|s| - 1]
    ensures Path(all, e + then') && all == s[..|e|] + more
    ensures all[0] == s[0] && all[|all| - 1] == more[|more| - 1]
  {
    all := s[..|e|] + more;
    forall i | 0 <= i < |e + then'| ensures Next(all[i], (e + then')[i], all[i + 1]) {
      if i < |e| {
        StepAt(s, e, |e|, i);
        assert all[i] == s[i] && all[i + 1] == s[i + 1];
      } else {
        StepAt(more, then', |then'|, i - |e|);
        assert all[i] == more[i - |e|] && all[i + 1] == more[i - |e| + 1];
      }
    }
    StepsIntro(all, e + then', |e + then'|);
  }

  /** Steps of these two installs, which take no lock. */
  ghost predicate ByThese(e: seq<Event>, t: nat, u: nat) {
    forall i | 0 <= i < |e| :: !e[i].Begin? && !e[i].Crash? && !e[i].Abandon? && !e[i].Lock? && e[i].t in {t, u}
  }

  lemma EitherOrder(e: seq<Event>, t: nat, u: nat)
    requires ByThese(e, t, u)
    ensures ByThese(e, u, t)
  {
  }

  lemma GoesOn(
    s: seq<World>, start: seq<Event>, e: seq<Event>, more: seq<World>, then': seq<Event>, t: nat, u: nat)
    returns (all: seq<World>, rest: seq<Event>)
    requires Path(s, start + e) && Path(more, then') && more[0] == s[|s| - 1]
    requires ByThese(e, t, u) && ByThese(then', t, u)
    ensures Path(all, start + rest) && all[0] == s[0] && all[|all| - 1] == more[|more| - 1] && ByThese(rest, t, u)
  {
    rest := e + then';
    assert start + rest == start + e + then';
    all := Extend(s, start + e, more, then');
  }

  // ---------------------------------------------------------------- one install on its way

  function Tally(n: nat): (s: string)
    ensures |s| == n
  {
    seq(n, _ => 'a')
  }

  lemma {:induction false} FreshAmong(names: set<Name>) returns (n: nat)
    ensures forall m | m in names && m.Staging? :: |m.id| < n
    decreases names
  {
    if names == {} {
      n := 0;
    } else {
      var m: Name :| m in names;
      n := FreshAmong(names - {m});
      if m.Staging? && |m.id| >= n {
        n := |m.id| + 1;
      }
    }
  }

  lemma SomeFreshStaging(w: World, pid: nat) returns (name: Name)
    ensures FreshStaging(w, name) && name.owner == pid
  {
    var taken := w.fs.Keys + set t | t in w.tasks :: w.tasks[t].staging;
    var n := FreshAmong(taken);
    name := Staging(pid, Tally(n));
    assert name !in taken;
    forall t | t in w.tasks ensures w.tasks[t].staging != name {
      assert w.tasks[t].staging in taken;
    }
  }

  lemma Locks(w: World, t: nat) returns (s: seq<World>)
    requires At(w, t, Waiting) && LockFree(w, t)
    ensures Path(s, [Lock(t)]) && s == [w, Moved(w, t, w.tasks[t].(pc := Locked, locked := true), w.fs)]
  {
    s := [w, Moved(w, t, w.tasks[t].(pc := Locked, locked := true), w.fs)];
    OneStep(w, Lock(t), s[1]);
  }

  function UnpackingSteps(t: nat, name: Name, tree: nat): seq<Event> {
    [Recheck(t, false), Stage(t, name), Unpack(t, tree)]
  }

  /** An install that has its lock finds nothing that will do and unpacks a tree. */
  lemma Unpacks(w: World, t: nat, name: Name, tree: nat) returns (s: seq<World>)
    requires At(w, t, Locked) && FreshStaging(w, name)
    ensures Path(s, UnpackingSteps(t, name, tree)) && s[0] == w
    ensures At(s[2], t, Unpacking) && SameInstall(w.tasks[t], s[2].tasks[t])
    ensures s[3] == Moved(w, t, w.tasks[t].(pc := Ready, staging := name, tree := tree), w.fs[name := Whole(tree)])
  {
    var k := w.tasks[t];
    var w1 := Moved(w, t, k.(pc := Missing), w.fs);
    var w2 := Moved(w1, t, k.(pc := Unpacking, staging := name), w.fs[name := Partial]);
    var w3 := Moved(w2, t, k.(pc := Ready, staging := name, tree := tree), w2.fs[name := Whole(tree)]);
    assert w3 == Moved(w, t, k.(pc := Ready, staging := name, tree := tree), w.fs[name := Whole(tree)]);
    assert Next(w, Recheck(t, false), w1) && Next(w1, Stage(t, name), w2) && Next(w2, Unpack(t, tree), w3);
    s := [w, w1, w2, w3];
    StepsIntro(s, UnpackingSteps(t, name, tree), 3);
  }

  /** An install takes its lock and unpacks a tree. */
  lemma LocksAndUnpacks(w: World, t: nat, tree: nat) returns (s: seq<World>, name: Name)
    requires At(w, t, Waiting) && LockFree(w, t)
    ensures Path(s, [Lock(t)] + UnpackingSteps(t, name, tree)) && s[0] == w && name.Staging? && name !in w.fs
    ensures s[|s| - 1] ==
            Moved(w, t, w.tasks[t].(pc := Ready, locked := true, staging := name, tree := tree), w.fs[name := Whole(tree)])
    ensures At(s[1], t, Locked) && s[1].fs == w.fs && At(s[3], t, Unpacking)
    ensures s[1].tasks[t].dest == s[3].tasks[t].dest == w.tasks[t].dest
  {
    name := SomeFreshStaging(w, w.tasks[t].pid);
    var locking := Locks(w, t);
    var unpacking := Unpacks(locking[1], t, name, tree);
    s := Extend(locking, [Lock(t)], unpacking, UnpackingSteps(t, name, tree));
    assert s[3] == unpacking[2];
  }

  lemma Looks(w: World, t: nat) returns (s: seq<World>)
    requires At(w, t, Ready)
    ensures Path(s, [Look(t)])
    ensures s == [w, Moved(w, t, w.tasks[t].(pc := if w.tasks[t].dest in w.fs then Occupied else Vacant), w.fs)]
  {
    s := [w, Moved(w, t, w.tasks[t].(pc := if w.tasks[t].dest in w.fs then Occupied else Vacant), w.fs)];
    OneStep(w, Look(t), s[1]);
  }

  /** Clearing the aside name goes all the way. */
  lemma Clears(w: World, t: nat) returns (s: seq<World>)
    requires At(w, t, Occupied)
    ensures Path(s, [Clear(t)]) && s[0] == w
    ensures s[1] == Moved(w, t, w.tasks[t].(pc := Cleared), w.fs - {w.tasks[t].aside})
  {
    s := [w, Moved(w, t, w.tasks[t].(pc := Cleared), w.fs - {w.tasks[t].aside})];
    assert Deleted(w.fs, w.tasks[t].aside, s[1].fs);
    OneStep(w, Clear(t), s[1]);
  }

  /** What an install found when it looked is still so. */
  predicate AsFound(fs: Root, k: Task) {
    match k.pc
    case Occupied => k.dest in fs
    case Cleared => MayRename(fs, k.dest, k.aside)
    case Displaced => k.dest !in fs
    case Vacant => k.dest !in fs
    case _ => true
  }

  /** The steps by which an install comes to place its tree. */
  function Finishing(t: nat, pc: Pc): seq<Event> {
    match pc
    case Occupied => [Clear(t), MoveAside(t, true), Place(t, true)]
    case Cleared => [MoveAside(t, true), Place(t, true)]
    case _ => [Place(t, true)]
  }

  lemma PlacesAtOnce(w: World, t: nat) returns (s: seq<World>)
    requires t in w.tasks && w.tasks[t].pc in {Displaced, Vacant} && Based(w.fs, w.tasks[t]) && AsFound(w.fs, w.tasks[t])
    ensures Path(s, [Place(t, true)]) && s[0] == w
    ensures w.tasks[t].dest in s[1].fs && s[1].tasks == w.tasks[t := s[1].tasks[t]]
  {
    var k := w.tasks[t];
    var k' := k.(pc := if k.pc == Displaced then Placed else Done);
    s := [w, Moved(w, t, k', Renamed(w.fs, k.staging, k.dest))];
    OneStep(w, Place(t, true), s[1]);
  }

  lemma MovesAsideAndPlaces(w: World, t: nat) returns (s: seq<World>)
    requires At(w, t, Cleared) && Based(w.fs, w.tasks[t]) && AsFound(w.fs, w.tasks[t])
    ensures Path(s, Finishing(t, Cleared)) && s[0] == w
    ensures t in s[1].tasks && s[1].tasks[t].dest == w.tasks[t].dest
    ensures w.tasks[t].dest in s[2].fs && t in s[2].tasks && s[2].tasks == w.tasks[t := s[2].tasks[t]]
  {
    var k := w.tasks[t];
    var w1 := Moved(w, t, k.(pc := Displaced, previous := TreeAt(w.fs, k.dest)), Renamed(w.fs, k.dest, k.aside));
    OneStep(w, MoveAside(t, true), w1);
    var placing := PlacesAtOnce(w1, t);
    s := Extend([w, w1], [MoveAside(t, true)], placing, [Place(t, true)]);
    assert s[1] == w1;
  }

  /** An install inside a promotion places its tree, and everybody else is where they were. */
  lemma Finishes(w: World, t: nat) returns (s: seq<World>)
    requires t in w.tasks && HasToPlace(w.tasks[t].pc) && Based(w.fs, w.tasks[t]) && AsFound(w.fs, w.tasks[t])
    ensures var e := Finishing(t, w.tasks[t].pc);
            && Path(s, e) && s[0] == w && Places(s[|e| - 1], e[|e| - 1], w.tasks[t].dest)
    ensures var last := s[|s| - 1];
            && w.tasks[t].dest in last.fs && last.tasks.Keys == w.tasks.Keys
            && forall u | u in w.tasks && u != t :: last.tasks[u] == w.tasks[u]
  {
    if w.tasks[t].pc == Occupied {
      var clearing := Clears(w, t);
      var rest := MovesAsideAndPlaces(clearing[1], t);
      s := Extend(clearing, [Clear(t)], rest, Finishing(t, Cleared));
      assert s[2] == rest[1];
      assert Finishing(t, Occupied) == [Clear(t)] + Finishing(t, Cleared);
    } else if w.tasks[t].pc == Cleared {
      s := MovesAsideAndPlaces(w, t);
    } else {
      s := PlacesAtOnce(w, t);
    }
  }
}
