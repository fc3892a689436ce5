/** That it can come to this: runs from any root in which a caller goes away inside its promotion
    (resolve/install.rs, blocking/mod.rs) while another install is waiting for the lock. */
module InstallReach {
  import opened Handles
  import opened InstallNames
  import opened InstallModel
  import opened InstallStretches
  import opened InstallHazard
  import opened InstallTwice

  /** An honest stretch in which every lock is taken with its aside name idle. */
  ghost predicate Proper(s: seq<World>, e: seq<Event>, d: Name, accepted: set<nat>) {
    Path(s, e) && AllHonest(s, e, d, accepted) && AsidesGuarded(s, e)
  }

  lemma GuardedTogether(s: seq<World>, e: seq<Event>, more: seq<World>, then': seq<Event>, all: seq<World>)
    requires |s| == |e| + 1 && |more| == |then'| + 1 && all == s[..|e|] + more
    requires AsidesGuarded(s, e) && AsidesGuarded(more, then')
    ensures AsidesGuarded(all, e + then')
  {
    forall i | 0 <= i < |e + then'| && (e + then')[i].Lock? ensures AsideIdle(all[i], (e + then')[i].t) {
      if i < |e| {
        assert all[i] == s[i] && AsideIdle(s[i], e[i].t);
      } else {
        assert all[i] == more[i - |e|] && AsideIdle(more[i - |e|], then'[i - |e|].t);
      }
    }
  }

  lemma TwiceStaysTwice(s: seq<World>, e: seq<Event>, more: seq<World>, then': seq<Event>, all: seq<World>, d: Name)
    requires |s| == |e| + 1 && |more| == |then'| + 1 && all == s[..|e|] + more && PromotesTwice(more, then', d)
    ensures PromotesTwice(all, e + then', d)
  {
    var i, j :| 0 <= i < j < |then'| && Places(more[i], then'[i], d) && Places(more[j], then'[j], d);
    assert Places(all[|e| + i], (e + then')[|e| + i], d) && Places(all[|e| + j], (e + then')[|e| + j], d);
  }

  lemma ProperlyOn(s: seq<World>, e: seq<Event>, more: seq<World>, then': seq<Event>, d: Name, accepted: set<nat>)
    returns (all: seq<World>)
    requires Proper(s, e, d, accepted) && Path(more, then') && more[0] == s[|s| - 1]
    requires AllHonest(more, then', d, accepted)
    ensures Path(all, e + then') && all[0] == s[0] && all[|all| - 1] == more[|more| - 1]
    ensures AllHonest(all, e + then', d, accepted)
    ensures AsidesGuarded(more, then') ==> Proper(all, e + then', d, accepted)
    ensures PromotesTwice(more, then', d) ==> PromotesTwice(all, e + then', d)
  {
    all := GoesOnHonestly(s, e, more, then', d, accepted);
    if AsidesGuarded(more, then') {
      GuardedTogether(s, e, more, then', all);
    }
    if PromotesTwice(more, then', d) {
      TwiceStaysTwice(s, e, more, then', all, d);
    }
  }

  /** A step with which neither guard nor provider has to do. */
  lemma PlainStep(s: seq<World>, e: seq<Event>, w: World, step: Event, d: Name, accepted: set<nat>)
    returns (all: seq<World>)
    requires Proper(s, e, d, accepted) && Next(s[|s| - 1], step, w)
    requires !step.Lock? && !step.Recheck? && !step.Unpack?
    ensures Proper(all, e + [step], d, accepted) && all[0] == s[0] && all[|all| - 1] == w
  {
    OneStep(s[|s| - 1], step, w);
    NothingToBeHonestAbout([s[|s| - 1], w], [step], d, accepted);
    all := ProperlyOn(s, e, [s[|s| - 1], w], [step], d, accepted);
  }

  lemma Begins(fs: Root, pid: nat, dest: string, accepted: set<nat>) returns (s: seq<World>)
    requires Ordinary(dest) && pid <= U64_MAX
    ensures s == [World(fs, map[]), World(fs, map[1 := NewTask(pid, dest)])]
    ensures Proper(s, [Begin(1, pid, dest)], Install(dest), accepted)
  {
    s := [World(fs, map[]), World(fs, map[1 := NewTask(pid, dest)])];
    OneStep(s[0], Begin(1, pid, dest), s[1]);
    NothingToBeHonestAbout(s, [Begin(1, pid, dest)], Install(dest), accepted);
  }

  /** An install alone in its root comes to be inside its promotion. */
  lemma Opens(fs: Root, pid: nat, dest: string, accepted: set<nat>, tree: nat)
    returns (s: seq<World>, e: seq<Event>, name: Name)
    requires Ordinary(dest) && pid <= U64_MAX && tree in accepted && !Accepts(fs, Install(dest), accepted)
    ensures Proper(s, [Begin(1, pid, dest)] + ([Lock(1)] + e) + [Look(1)], Install(dest), accepted) && ByThese(e, 1, 1)
    ensures s[0] == World(fs, map[]) && name.Staging? && name !in fs
    ensures var pc := if Install(dest) in fs then Occupied else Vacant;
            var k := NewTask(pid, dest).(pc := pc, locked := true, staging := name, tree := tree);
            s[|s| - 1] == World(fs[name := Whole(tree)], map[1 := k])
  {
    var d, w := Install(dest), World(fs, map[1 := NewTask(pid, dest)]);
    var beginning := Begins(fs, pid, dest, accepted);
    var unpacking: seq<World>;
    unpacking, e, name := UnpacksHonestly(w, 1, 1, d, accepted, tree);
    assert AsidesGuarded(unpacking, [Lock(1)] + e);
    s := ProperlyOn(beginning, [Begin(1, pid, dest)], unpacking, [Lock(1)] + e, d, accepted);
    var looking := Looks(s[|s| - 1], 1);
    s := PlainStep(s, [Begin(1, pid, dest)] + ([Lock(1)] + e), looking[1], Look(1), d, accepted);
  }

  /** How the first install comes to be abandoned inside its promotion while the second waits. */
  function Prelude(pid: nat, q: nat, dest: string, e: seq<Event>): seq<Event> {
    [Begin(1, pid, dest)] + ([Lock(1)] + e) + [Look(1)] + [Begin(2, q, dest)] + [Abandon(1)]
  }

  /** One install abandoned as soon as it has looked, another waiting. */
  ghost predicate LeftBehind(w: World, fs: Root, pid: nat, q: nat, dest: string, name: Name, tree: nat) {
    var pc := if Install(dest) in fs then Occupied else Vacant;
    && w.fs == fs[name := Whole(tree)] && name.Staging? && name !in fs
    && w.tasks == map[1 := NewTask(pid, dest).(pc := pc, staging := name, tree := tree), 2 := NewTask(q, dest)]
  }

  lemma IsLeftBehind(fs: Root, pid: nat, q: nat, dest: string, accepted: set<nat>, tree: nat)
    returns (s: seq<World>, e: seq<Event>, name: Name)
    requires Ordinary(dest) && pid <= U64_MAX && q <= U64_MAX
    requires tree in accepted && !Accepts(fs, Install(dest), accepted)
    ensures Proper(s, Prelude(pid, q, dest, e), Install(dest), accepted) && ByThese(e, 1, 1)
    ensures s[0] == World(fs, map[]) && LeftBehind(s[|s| - 1], fs, pid, q, dest, name, tree)
  {
    s, e, name := Opens(fs, pid, dest, accepted, tree);
    var w := s[|s| - 1];
    var w1 := Moved(w, 2, NewTask(q, dest), w.fs);
    var w2 := Moved(w1, 1, w1.tasks[1].(locked := false), w.fs);
    var opening := [Begin(1, pid, dest)] + ([Lock(1)] + e) + [Look(1)];
    s := PlainStep(s, opening, w1, Begin(2, q, dest), Install(dest), accepted);
    s := PlainStep(s, opening + [Begin(2, q, dest)], w2, Abandon(1), Install(dest), accepted);
  }

  lemma LeftBehindIsFree(w: World, fs: Root, pid: nat, q: nat, dest: string, name: Name, tree: nat)
    requires LeftBehind(w, fs, pid, q, dest, name, tree)
    ensures At(w, 2, Waiting) && LockFree(w, 2) && 1 in w.tasks && w.tasks[1].dest == w.tasks[2].dest == Install(dest)
    ensures if Install(dest) in fs then Ahead(w.fs, w.tasks[1], Install(dest)) && w.fs[Install(dest)] == fs[Install(dest)]
            else HasToPlace(w.tasks[1].pc) && AsFound(w.fs, w.tasks[1]) && Install(dest) !in w.fs && AsideIdle(w, 2)
    ensures pid == q ==> w.tasks[1].aside == w.tasks[2].aside
  {
  }

  /** In any root, for every destination that is installed: an install that is abandoned inside its
      promotion, and one of the same process that was already waiting for the lock, can leave half a
      tree there. */
  lemma AbandonedPromotionCanLeaveHalfATree(fs: Root, pid: nat, dest: string)
    returns (s: seq<World>, before: seq<Event>, after: seq<Event>)
    requires NothingHalf(fs) && Install(dest) in fs && Ordinary(dest) && pid <= U64_MAX
    ensures Run(s, Prelude(pid, pid, dest, before) + ([Lock(2)] + after)) && s[0].fs == fs
    ensures ByThese(before, 1, 1) && ByThese(after, 2, 1)
    ensures !NothingHalf(s[|s| - 1].fs)
  {
    var name: Name;
    var tree := TreeAt(fs, Install(dest)) + 1;
    s, before, name := IsLeftBehind(fs, pid, pid, dest, {tree}, tree);
    var prelude := Prelude(pid, pid, dest, before);
    StaysOrderly(s, prelude, |s| - 1);
    LeftBehindIsFree(s[|s| - 1], fs, pid, pid, dest, name, tree);
    var rest: seq<World>;
    rest, after := HalfFollows(s[|s| - 1], 2, 1);
    s := Extend(s, prelude, rest, [Lock(2)] + after);
  }

  lemma BothPromote(s: seq<World>, e: seq<Event>, d: Name, accepted: set<nat>, tree: nat)
    returns (all: seq<World>, after: seq<Event>)
    requires Proper(s, e, d, accepted) && Orderly(s[0]) && tree in accepted
    requires var w := s[|s| - 1];
             && At(w, 2, Waiting) && LockFree(w, 2) && 1 in w.tasks && w.tasks[2].dest == d == w.tasks[1].dest
             && HasToPlace(w.tasks[1].pc) && AsFound(w.fs, w.tasks[1]) && d !in w.fs && AsideIdle(w, 2)
    ensures Proper(all, e + ([Lock(2)] + after), d, accepted) && all[0] == s[0]
    ensures PromotesTwice(all, e + ([Lock(2)] + after), d) && ByThese(after, 2, 1)
  {
    StaysOrderly(s, e, |s| - 1);
    var rest: seq<World>;
    rest, after := SecondFollows(s[|s| - 1], 2, 1, d, accepted, tree);
    assert AsidesGuarded(rest, [Lock(2)] + after);
    all := ProperlyOn(s, e, rest, [Lock(2)] + after, d, accepted);
  }

  /** In any root, with an honest provider, for every destination that is not installed: an install that
      is abandoned inside its promotion, and one of any process that was already waiting for the lock,
      can both promote, though every lock is taken with its aside name idle. */
  lemma AbandonedPromotionCanBeRepeated(fs: Root, pid: nat, q: nat, dest: string, accepted: set<nat>, tree: nat)
    returns (s: seq<World>, before: seq<Event>, after: seq<Event>)
    requires NothingHalf(fs) && Install(dest) !in fs && Ordinary(dest) && pid <= U64_MAX && q <= U64_MAX
    requires tree in accepted
    ensures var e := Prelude(pid, q, dest, before) + ([Lock(2)] + after);
            && Run(s, e) && s[0].fs == fs && AllHonest(s, e, Install(dest), accepted) && AsidesGuarded(s, e)
            && PromotesTwice(s, e, Install(dest))
    ensures ByThese(before, 1, 1) && ByThese(after, 2, 1)
  {
    var name: Name;
    s, before, name := IsLeftBehind(fs, pid, q, dest, accepted, tree);
    LeftBehindIsFree(s[|s| - 1], fs, pid, q, dest, name, tree);
    s, after := BothPromote(s, Prelude(pid, q, dest, before), Install(dest), accepted, tree);
  }
}
