/** What publication and adoption leave behind (worker/cache/mod.rs): from then on the scope reads as
    Cached, so a recipe's command list completes at most once. */
module CachePublication {
  import opened Wrappers
  import opened CacheTree
  import opened CacheProtocol

  /** The tree gained directories on the way to somewhere, and nothing else changed. */
  ghost predicate Grew(t: Tree, t': Tree) {
    && (forall p | p in t :: p in t' && t'[p] == t[p])
    && (forall p | p in t' && p !in t :: t'[p] == Directory && Relative(p))
  }

  // ---------------------------------------------------------------- what a promotion leaves

  lemma PromotionKeepsReach(t: Tree, grown: Tree, source: Path, target: Path, content: Content, p: Path)
    requires HoldsStaged(t, source, content) && Grew(t, grown) && MayLand(grown, target)
    requires Relative(p) && Reachable(t, p)
    ensures Reachable(Renamed(grown, source, target), p)
  {
    forall i | 0 < i < |p|
      ensures p[..i] in Renamed(grown, source, target) && Renamed(grown, source, target)[p[..i]] == Directory
    {
      assert p[..i] in t && t[p[..i]] == Directory && p[..i][0] == p[0];
    }
  }

  lemma PromotionKeepsHolding(t: Tree, grown: Tree, source: Path, target: Path, content: Content, a: CacheArtifact)
    requires HoldsStaged(t, source, content) && Grew(t, grown) && MayLand(grown, target)
    requires Relative(a.path) && Holds(t, a) && a.path != target
    ensures Holds(Renamed(grown, source, target), a)
  {
    PromotionKeepsReach(t, grown, source, target, content, a.path);
  }

  lemma PromotionHolds(t: Tree, grown: Tree, source: Path, target: Path, content: Content)
    requires HoldsStaged(t, source, content) && Grew(t, grown) && MayLand(grown, target) && !InStaging(target)
    ensures Reachable(Renamed(grown, source, target), target) && Renamed(grown, source, target)[target] == File(content)
  {
    forall i | 0 < i < |target|
      ensures target[..i] in Renamed(grown, source, target) && Renamed(grown, source, target)[target[..i]] == Directory
    {
      assert target[..i] in grown && grown[target[..i]] == Directory && target[..i][0] == target[0];
      assert target[..i] != source;
    }
  }

  /** Promoting into a scope takes nothing away from a payload that was in place. */
  lemma PromotionKeepsPayload(t: Tree, grown: Tree, source: Path, target: Path, content: Content, r: CacheRecipe)
    requires HoldsStaged(t, source, content) && Grew(t, grown) && MayLand(grown, target)
    requires Validated(r) && Payload(t, r) && (target == SidecarPath(r.marker.path) || target == r.marker.path)
    ensures Payload(Renamed(grown, source, target), r)
  {
    forall a | a in r.artifacts ensures Holds(Renamed(grown, source, target), a) {
      assert a.path[0].Plain?;
      PromotionKeepsHolding(t, grown, source, target, content, a);
    }
    forall e | e in r.required
      ensures var t' := Renamed(grown, source, target);
              Reachable(t', e.path) && e.path in t' && KindHolds(t'[e.path], e.kind)
    {
      PromotionKeepsReach(t, grown, source, target, content, e.path);
      assert e.path in grown && grown[e.path] == t[e.path];
    }
  }

  lemma PayloadVerified(t: Tree, r: CacheRecipe)
    requires RequiredAllHold(t, r.required, 0) && ArtifactsMatch(t, r.artifacts, 0) == Ok(true)
    ensures Payload(t, r)
  {
    ArtifactsMatchIff(t, r.artifacts, 0);
    RequiredAllHoldIff(t, r.required, 0);
  }

  lemma AdoptionIsCached(t: Tree, source: Path, r: CacheRecipe)
    requires HoldsStaged(t, source, Identity(r)) && MayLand(t, SidecarPath(r.marker.path))
    requires Validated(r) && ReadinessOf(t, r) == Ok(Legacy)
    ensures ReadinessOf(Renamed(t, source, SidecarPath(r.marker.path)), r) == Ok(Cached)
  {
    var sidecar := SidecarPath(r.marker.path);
    ReadinessIff(t, r);
    PromotionKeepsPayload(t, t, source, sidecar, Identity(r), r);
    PromotionKeepsHolding(t, t, source, sidecar, Identity(r), r.marker);
    ReadinessIff(Renamed(t, source, sidecar), r);
  }

  // ---------------------------------------------------------------- completing once

  /** Whoever holds the scope is a session of `r`, still finds what it was told to adopt, and has
      verified the payload it publishes. */
  ghost predicate Verified(s: Scope, r: CacheRecipe) {
    s.holder.Some? ==>
      && s.holder.value.recipe == r
      && (s.holder.value.stage == Identified ==> Payload(s.tree, r))
      && (AtStage(s, Looking) && s.holder.value.found == Legacy ==> ReadinessOf(s.tree, r) == Ok(Legacy))
  }

  /** Publication begins with what a session has just verified. With nobody interfering, what it
      verified is what is there when it renames. */
  ghost predicate Checked(s: Scope, e: Event, r: CacheRecipe) {
    e.PromoteIdentity? ==> Payload(s.tree, r)
  }

  lemma StagingKeepsPayload(t: Tree, t': Tree, r: CacheRecipe)
    requires OnlyStaging(t, t') && Validated(r) && Payload(t, r)
    ensures Payload(t', r)
  {
    forall e | e in r.required ensures Reachable(t', e.path) && e.path in t' && KindHolds(t'[e.path], e.kind) {
      SamePathStays(t, t', e.path);
    }
    forall a | a in r.artifacts ensures Holds(t', a) {
      SamePathStays(t, t', a.path);
    }
  }

  lemma NewDirectoryKeepsPayload(t: Tree, d: Path, r: CacheRecipe)
    requires d !in t && Payload(t, r)
    ensures Payload(t[d := Directory], r)
  {
  }

  lemma VerifiedStays(markers: set<CacheArtifact>, s: Scope, e: Event, s': Scope, r: CacheRecipe)
    requires Inv(markers, s) && Next(markers, s, e, s') && Verified(s, r)
    requires !e.Outside? && (e.Lock? ==> e.recipe == r) && Checked(s, e, r)
    ensures Verified(s', r)
  {
    if AtStage(s', Looking) && s'.holder.value.found == Legacy {
      if e.OpenLock? || e.Housekeeping? {
        OpeningStaysInStaging(markers, s, e, s');
        StagingKeepsReadiness(s.tree, s'.tree, r);
      }
    }
    if AtStage(s', Identified) {
      match e {
        case MakeDirectory(path) => NewDirectoryKeepsPayload(s.tree, path, r);
        case Housekeeping(tree) => StagingKeepsPayload(s.tree, tree, r);
        case OpenLock =>
          OpeningStaysInStaging(markers, s, e, s');
          StagingKeepsPayload(s.tree, s'.tree, r);
        case PromoteIdentity(source) =>
          PromotionKeepsPayload(s.tree, s.tree, source, SidecarPath(r.marker.path), Identity(r), r);
      }
    }
  }

  /** A completed publication or adoption makes the scope read as Cached. */
  lemma CompletionMakesReady(markers: set<CacheArtifact>, s: Scope, e: Event, s': Scope, r: CacheRecipe)
    requires Inv(markers, s) && Next(markers, s, e, s') && Verified(s, r)
    requires e.PromoteMarker? || e.Adopt?
    ensures Ready(s', r)
  {
    NextKeepsInv(markers, s, e, s');
    if e.Adopt? {
      AdoptionIsCached(s.tree, e.source, r);
    } else {
      PromotionKeepsPayload(s.tree, s.tree, e.source, r.marker.path, r.marker.bytes, r);
      PromotionHolds(s.tree, s.tree, e.source, r.marker.path, r.marker.bytes);
      assert s'.tree[SidecarPath(r.marker.path)] == File(Identity(r));
      ReadinessIff(s'.tree, r);
    }
  }

  lemma {:induction false} RunIsVerified(
    markers: set<CacheArtifact>, states: seq<Scope>, events: seq<Event>, r: CacheRecipe, i: nat)
    requires Run(markers, states, events) && Undisturbed(events, r) && i < |states|
    requires forall k | 0 <= k < |events| :: Checked(states[k], events[k], r)
    requires Inv(markers, states[0]) && states[0].holder.None?
    ensures Verified(states[i], r)
  {
    if i > 0 {
      RunIsVerified(markers, states, events, r, i - 1);
      RunKeepsInv(markers, states, events, i - 1);
      VerifiedStays(markers, states[i - 1], events[i - 1], states[i], r);
    }
  }

  /** With nothing changed from outside, a recipe's command list completes at most once across any
      number of sessions, managers and crashes: after the first publication or adoption no session
      runs a command, begins an install or publishes again. */
  lemma CommandsCompleteAtMostOnce(
    markers: set<CacheArtifact>, states: seq<Scope>, events: seq<Event>, r: CacheRecipe, i: nat, j: nat)
    requires Run(markers, states, events) && Undisturbed(events, r)
    requires forall k | 0 <= k < |events| :: Checked(states[k], events[k], r)
    requires Inv(markers, states[0]) && states[0].holder.None?
    requires i < j < |events| && (events[i].PromoteMarker? || events[i].Adopt?)
    ensures Idle(events[j]) && ReadinessOf(states[j].tree, r) == Ok(Cached)
  {
    RunKeepsInv(markers, states, events, i);
    RunIsVerified(markers, states, events, r, i);
    assert Next(markers, states[i], events[i], states[i + 1]);
    CompletionMakesReady(markers, states[i], events[i], states[i + 1], r);
    ReadyScopeRunsNothing(markers, states, events, r, i + 1, j);
  }
}
