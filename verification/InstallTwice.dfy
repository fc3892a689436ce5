/** The same for the promise that a toolchain is installed once: whoever takes the lock while an
    abandoned promotion has yet to place its tree finds nothing, and installs again (resolve/install.rs,
    store/mod.rs). */
module InstallTwice {
  import opened Handles
  import opened InstallNames
  import opened InstallModel
  import opened InstallStretches

  // ---------------------------------------------------------------- honest stretches

  lemma NothingToBeHonestAbout(s: seq<World>, e: seq<Event>, d: Name, accepted: set<nat>)
    requires |e| <= |s| && forall i | 0 <= i < |e| :: !e[i].Recheck? && !e[i].Unpack?
    ensures AllHonest(s, e, d, accepted)
  {
  }

  /** A stretch whose last step promotes to `d`. */
  ghost predicate EndsPlacing(s: seq<World>, e: seq<Event>, d: Name) {
    e != [] && |s| == |e| + 1 && Places(s[|e| - 1], e[|e| - 1], d)
  }

  /** A stretch with two promotions to `d`. */
  ghost predicate PromotesTwice(s: seq<World>, e: seq<Event>, d: Name)
    requires |e| <= |s|
  {
    exists i, j :: 0 <= i < j < |e| && Places(s[i], e[i], d) && Places(s[j], e[j], d)
  }

  lemma GoesOnHonestly(
    s: seq<World>, e: seq<Event>, more: seq<World>, then': seq<Event>, d: Name, accepted: set<nat>)
    returns (all: seq<World>)
    requires Path(s, e) && Path(more, then') && more[0] == s[|s| - 1]
    requires AllHonest(s, e, d, accepted) && AllHonest(more, then', d, accepted)
    ensures Path(all, e + then') && all == s[..|e|] + more && all[0] == s[0] && all[|all| - 1] == more[|more| - 1]
    ensures AllHonest(all, e + then', d, accepted)
    ensures EndsPlacing(more, then', d) ==> EndsPlacing(all, e + then', d)
    ensures EndsPlacing(s, e, d) ==> Places(all[|e| - 1], (e + then')[|e| - 1], d)
  {
    all := Extend(s, e, more, then');
    forall m | 0 <= m < |e + then'| ensures Honest(all[m], (e + then')[m], d, accepted) {
      if m < |e| {
        assert all[m] == s[m] && Honest(s[m], e[m], d, accepted);
      } else {
        assert all[m] == more[m - |e|] && Honest(more[m - |e|], then'[m - |e|], d, accepted);
      }
    }
  }

  /** The same with the actors in view, from a first step on. */
  lemma TheyGoOnHonestly(
    s: seq<World>, first: Event, e: seq<Event>, more: seq<World>, then': seq<Event>, t: nat, u: nat,
    d: Name, accepted: set<nat>)
    returns (all: seq<World>, rest: seq<Event>)
    requires Path(s, [first] + e) && Path(more, then') && more[0] == s[|s| - 1]
    requires AllHonest(s, [first] + e, d, accepted) && AllHonest(more, then', d, accepted)
    requires ByThese(e, t, u) && ByThese(then', t, u)
    ensures Path(all, [first] + rest) && all[0] == s[0] && all[|all| - 1] == more[|more| - 1]
    ensures AllHonest(all, [first] + rest, d, accepted) && ByThese(rest, t, u)
    ensures EndsPlacing(more, then', d) ==> EndsPlacing(all, [first] + rest, d)
    ensures EndsPlacing(s, [first] + e, d) && EndsPlacing(more, then', d) ==> PromotesTwice(all, [first] + rest, d)
  {
    rest := e + then';
    assert [first] + rest == [first] + e + then';
    all := GoesOnHonestly(s, [first] + e, more, then', d, accepted);
    if EndsPlacing(s, [first] + e, d) && EndsPlacing(more, then', d) {
      assert Places(all[|e|], ([first] + rest)[|e|], d);
    }
  }

  // ---------------------------------------------------------------- how a second promotion comes about

  lemma UnpacksHonestly(w: World, t: nat, u: nat, d: Name, accepted: set<nat>, tree: nat)
    returns (s: seq<World>, e: seq<Event>, name: Name)
    requires At(w, t, Waiting) && LockFree(w, t)
    requires w.tasks[t].dest == d && !Accepts(w.fs, d, accepted) && tree in accepted
    ensures Path(s, [Lock(t)] + e) && s[0] == w && ByThese(e, t, u) && AllHonest(s, [Lock(t)] + e, d, accepted)
    ensures name.Staging? && name !in w.fs
    ensures s[|s| - 1] ==
            Moved(w, t, w.tasks[t].(pc := Ready, locked := true, staging := name, tree := tree), w.fs[name := Whole(tree)])
  {
    s, name := LocksAndUnpacks(w, t, tree);
    e := UnpackingSteps(t, name, tree);
  }

  /** An install that has yet to place its tree does so, and leaves the other where it was. */
  lemma FinishesHonestly(w: World, t: nat, u: nat, d: Name, accepted: set<nat>)
    returns (s: seq<World>, e: seq<Event>)
    requires t in w.tasks && HasToPlace(w.tasks[t].pc) && Based(w.fs, w.tasks[t]) && AsFound(w.fs, w.tasks[t])
    requires w.tasks[t].dest == d
    ensures Path(s, e) && s[0] == w && ByThese(e, t, u) && AllHonest(s, e, d, accepted) && EndsPlacing(s, e, d)
    ensures var last := s[|s| - 1];
            d in last.fs && forall u | u in w.tasks && u != t :: u in last.tasks && last.tasks[u] == w.tasks[u]
  {
    s := Finishes(w, t);
    e := Finishing(t, w.tasks[t].pc);
    NothingToBeHonestAbout(s, e, d, accepted);
  }

  /** The state in which one install has its tree unpacked and another has yet to place its own. */
  ghost predicate BothToPlace(w: World, t: nat, u: nat, d: Name) {
    && t != u && At(w, t, Ready) && u in w.tasks && HasToPlace(w.tasks[u].pc)
    && w.tasks[t].dest == d == w.tasks[u].dest && Based(w.fs, w.tasks[u]) && AsFound(w.fs, w.tasks[u])
  }

  lemma UnpackedBothToPlace(w: World, t: nat, u: nat, d: Name, name: Name, tree: nat)
    requires Orderly(w) && At(w, t, Waiting) && t != u && u in w.tasks && name.Staging? && name !in w.fs
    requires w.tasks[t].dest == d == w.tasks[u].dest && HasToPlace(w.tasks[u].pc) && AsFound(w.fs, w.tasks[u])
    ensures var k := w.tasks[t].(pc := Ready, locked := true, staging := name, tree := tree);
            BothToPlace(Moved(w, t, k, w.fs[name := Whole(tree)]), t, u, d)
  {
    assert Based(w.fs, w.tasks[u]) && Based(w.fs, w.tasks[t]);
  }

  /** An install takes its lock and unpacks an acceptable tree, and the other places its own. */
  lemma OtherPlaces(w: World, t: nat, u: nat, d: Name, accepted: set<nat>, tree: nat)
    returns (s: seq<World>, e: seq<Event>)
    requires Orderly(w) && At(w, t, Waiting) && LockFree(w, t) && t != u && u in w.tasks
    requires w.tasks[t].dest == d == w.tasks[u].dest && !Accepts(w.fs, d, accepted) && tree in accepted
    requires HasToPlace(w.tasks[u].pc) && AsFound(w.fs, w.tasks[u])
    ensures Path(s, [Lock(t)] + e) && s[0] == w && ByThese(e, t, u) && AllHonest(s, [Lock(t)] + e, d, accepted)
    ensures EndsPlacing(s, [Lock(t)] + e, d)
    ensures var last := s[|s| - 1]; At(last, t, Ready) && last.tasks[t].dest == d && d in last.fs
  {
    var start, unpacking, name := UnpacksHonestly(w, t, u, d, accepted, tree);
    UnpackedBothToPlace(w, t, u, d, name, tree);
    var placing, finishing := FinishesHonestly(start[|start| - 1], u, t, d, accepted);
    EitherOrder(finishing, u, t);
    s, e := TheyGoOnHonestly(start, Lock(t), unpacking, placing, finishing, t, u, d, accepted);
  }

  /** Then it looks, and replaces that tree. */
  lemma Overrides(w: World, t: nat, u: nat, d: Name, accepted: set<nat>) returns (s: seq<World>, e: seq<Event>)
    requires At(w, t, Ready) && Based(w.fs, w.tasks[t]) && w.tasks[t].dest == d && d in w.fs
    ensures Path(s, e) && s[0] == w && ByThese(e, t, u) && AllHonest(s, e, d, accepted) && EndsPlacing(s, e, d)
  {
    var looking := Looks(w, t);
    NothingToBeHonestAbout(looking, [Look(t)], d, accepted);
    var rest, more := FinishesHonestly(looking[1], t, u, d, accepted);
    s := GoesOnHonestly(looking, [Look(t)], rest, more, d, accepted);
    e := [Look(t)] + more;
  }

  lemma SecondFollows(w: World, t: nat, u: nat, d: Name, accepted: set<nat>, tree: nat)
    returns (s: seq<World>, e: seq<Event>)
    requires Orderly(w) && At(w, t, Waiting) && LockFree(w, t) && t != u && u in w.tasks
    requires w.tasks[t].dest == d == w.tasks[u].dest && !Accepts(w.fs, d, accepted) && tree in accepted
    requires HasToPlace(w.tasks[u].pc) && AsFound(w.fs, w.tasks[u])
    ensures Path(s, [Lock(t)] + e) && s[0] == w && ByThese(e, t, u)
    ensures AllHonest(s, [Lock(t)] + e, d, accepted) && PromotesTwice(s, [Lock(t)] + e, d)
  {
    var first, e1 := OtherPlaces(w, t, u, d, accepted, tree);
    StaysOrderly(first, [Lock(t)] + e1, |first| - 1);
    var middle := first[|first| - 1];
    assert Based(middle.fs, middle.tasks[t]);
    var second, e2 := Overrides(middle, t, u, d, accepted);
    s, e := TheyGoOnHonestly(first, Lock(t), e1, second, e2, t, u, d, accepted);
  }

  // ---------------------------------------------------------------- exactly when

  /** Every lock for `d` but the first is taken with no tree to be placed there by anybody else. */
  ghost predicate DestinationGuardedAfter(s: seq<World>, e: seq<Event>, d: Name)
    requires |e| <= |s|
  {
    forall i | 0 < i < |e| && e[i].Lock? && e[i].t in s[i].tasks && s[i].tasks[e[i].t].dest == d ::
      DestinationIdle(s[i], e[i].t)
  }

  /** If `t` takes its lock now, then, even if everybody keeps to the guard from here on and the provider
      is honest, the destination can be promoted to twice. */
  ghost predicate SecondPromotionCanFollow(w: World, t: nat, d: Name, accepted: set<nat>) {
    exists s: seq<World>, e: seq<Event> ::
      && Path(s, [Lock(t)] + e) && s[0] == w && DestinationGuardedAfter(s, [Lock(t)] + e, d)
      && AllHonest(s, [Lock(t)] + e, d, accepted) && PromotesTwice(s, [Lock(t)] + e, d)
  }

  lemma UnguardedLocksPromoteTwice(w: World, t: nat, u: nat, d: Name, accepted: set<nat>)
    requires Orderly(w) && At(w, t, Waiting) && LockFree(w, t) && t != u && u in w.tasks
    requires w.tasks[t].dest == d == w.tasks[u].dest && accepted != {} && !Accepts(w.fs, d, accepted)
    requires HasToPlace(w.tasks[u].pc) && AsFound(w.fs, w.tasks[u])
    ensures SecondPromotionCanFollow(w, t, d, accepted)
  {
    var tree :| tree in accepted;
    var s, e := SecondFollows(w, t, u, d, accepted, tree);
    assert DestinationGuardedAfter(s, [Lock(t)] + e, d);
  }

  lemma GuardedLocksPromoteOnce(w: World, t: nat, s: seq<World>, e: seq<Event>, d: Name, accepted: set<nat>)
    requires Orderly(w) && OnePlacer(w, d) && At(w, t, Waiting) && LockFree(w, t)
    requires w.tasks[t].dest == d && DestinationIdle(w, t)
    requires Path(s, e) && s[0] == w && |e| > 0 && e[0] == Lock(t) && DestinationGuardedAfter(s, e, d)
    requires AllHonest(s, e, d, accepted)
    ensures !PromotesTwice(s, e, d)
  {
    forall u | u in w.tasks && w.tasks[u].dest == d ensures !Holding(w.tasks[u].pc) {
      assert Based(w.fs, w.tasks[u]) && Based(w.fs, w.tasks[t]);
      assert u != t ==> !HasToPlace(w.tasks[u].pc);
    }
    forall i, j | 0 <= i < j < |e| ensures !(Places(s[i], e[i], d) && Places(s[j], e[j], d)) {
      if Places(s[i], e[i], d) && Places(s[j], e[j], d) {
        OnePromotionFollows(s, e, i, j, d, accepted);
      }
    }
  }

  /** The guard is exact here too. Where the destination is not yet acceptable, a lock can be taken
      without a second promotion if and only if nobody else has yet to place a tree there. */
  lemma SecondPromotionCanFollowIff(w: World, t: nat, d: Name, accepted: set<nat>)
    requires Orderly(w) && OnePlacer(w, d) && At(w, t, Waiting) && LockFree(w, t) && w.tasks[t].dest == d
    requires accepted != {} && !Accepts(w.fs, d, accepted)
    requires forall u | u in w.tasks && u != t && HasToPlace(w.tasks[u].pc) && w.tasks[u].dest == d ::
               AsFound(w.fs, w.tasks[u])
    ensures SecondPromotionCanFollow(w, t, d, accepted) <==> !DestinationIdle(w, t)
  {
    if !DestinationIdle(w, t) {
      var u :| u in w.tasks && u != t && HasToPlace(w.tasks[u].pc) && w.tasks[u].dest == w.tasks[t].dest;
      UnguardedLocksPromoteTwice(w, t, u, d, accepted);
    }
    if DestinationIdle(w, t) && SecondPromotionCanFollow(w, t, d, accepted) {
      var s: seq<World>, e: seq<Event> :|
        && Path(s, [Lock(t)] + e) && s[0] == w && DestinationGuardedAfter(s, [Lock(t)] + e, d)
        && AllHonest(s, [Lock(t)] + e, d, accepted) && PromotesTwice(s, [Lock(t)] + e, d);
      GuardedLocksPromoteOnce(w, t, s, [Lock(t)] + e, d, accepted);
    }
  }
}
