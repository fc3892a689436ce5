/** The publication protocol over one cache scope (worker/cache/mod.rs), as a machine whose steps are
    single file operations. A session may die between any two of them, other sessions wait for the
    lock, and programs outside the router may change whatever they like except reserved names and
    the creation or rewriting of markers.

    `markers` are the marker artifacts, path and bytes together, of the recipes the scope is used
    with. */
module CacheProtocol {
  import opened Wrappers
  import opened CacheTree

  /** How far the session that holds the lock has come. */
  datatype Stage = Looking | Provisioning | Identified | Finished

  datatype Holder = Holder(recipe: CacheRecipe, found: Readiness, stage: Stage)

  datatype Scope = Scope(
    tree: Tree,
    holder: Option<Holder>,
    // Record for the proofs: which recipe last completed publication or adoption on a marker path
    // with no later install begun there, and where an install has ever begun.
    published: map<Path, CacheRecipe>,
    begun: set<Path>)

  datatype Event =
    | OpenLock
    | Lock(recipe: CacheRecipe)
    | Invalidate
    | MakeDirectory(path: Path)
    | Housekeeping(tree: Tree)
    | PromoteArtifact(index: nat, source: Path)
    | Command(tree: Tree)
    | PromoteIdentity(source: Path)
    | PromoteMarker(source: Path)
    | Adopt(source: Path)
    | Release
    | Outside(tree: Tree)

  /** A staged file renamed to its final place. */
  function Renamed(t: Tree, source: Path, target: Path): Tree
    requires source in t
  {
    (t - {source})[target := t[source]]
  }

  /** What programs other than the router may do: anything but touch reserved names, and at the
      given markers' paths nothing but remove. */
  ghost predicate Untouched(t: Tree, t': Tree, markers: set<CacheArtifact>) {
    && WellFormed(t')
    && (forall p | Reserved(p) :: p in t <==> p in t')
    && (forall p | Reserved(p) && p in t && p in t' :: t'[p] == t[p])
    && (forall a | a in markers && IsFile(t', a.path) :: IsFile(t, a.path) && t'[a.path] == t[a.path])
  }

  /** The router's own bookkeeping: it stays within the lock file and staging directories. */
  ghost predicate OnlyStaging(t: Tree, t': Tree) {
    && WellFormed(t')
    && (forall p | !InStaging(p) :: p in t <==> p in t')
    && (forall p | !InStaging(p) && p in t && p in t' :: t'[p] == t[p])
  }

  ghost predicate HoldsStaged(t: Tree, source: Path, content: Content) {
    |source| > 1 && InStaging(source) && source in t && t[source] == File(content)
  }

  /** A rename may land only on nothing or on an unshared regular file, in an existing directory. */
  ghost predicate MayLand(t: Tree, target: Path) {
    Reachable(t, target) && (target in t ==> t[target].File?)
  }

  /** Recipes the machine is about. */
  ghost predicate Admissible(r: CacheRecipe, markers: set<CacheArtifact>) {
    Validated(r) && r.marker in markers
  }

  /** A recipe none of whose artifacts is a marker of the scope, path and bytes alike. */
  ghost predicate Respects(r: CacheRecipe, markers: set<CacheArtifact>) {
    forall a | a in r.artifacts :: a !in markers
  }

  ghost predicate Respectful(e: Event, markers: set<CacheArtifact>) {
    e.Lock? ==> Respects(e.recipe, markers)
  }

  ghost predicate AtStage(s: Scope, stage: Stage) {
    s.holder.Some? && s.holder.value.stage == stage
  }

  /** One step of the scope. */
  ghost predicate Next(markers: set<CacheArtifact>, s: Scope, e: Event, s': Scope) {
    match e
    case OpenLock =>
      [LockFile] !in s.tree && s' == s.(tree := s.tree[[LockFile] := File(Raw(""))])
    case Lock(recipe) =>
      && s.holder.None? && Admissible(recipe, markers) && ReadinessOf(s.tree, recipe).Ok?
      && s' == s.(holder := Some(Holder(recipe, ReadinessOf(s.tree, recipe).value, Looking)))
    case Invalidate =>
      && AtStage(s, Looking) && s.holder.value.found == Rebuild
      && var m := s.holder.value.recipe.marker.path;
         && (m in s.tree ==> s.tree[m].File?)
         && s' == Scope(s.tree - {m}, Some(s.holder.value.(stage := Provisioning)),
                        s.published - {m}, s.begun + {m})
    case MakeDirectory(path) =>
      && (AtStage(s, Provisioning) || AtStage(s, Identified))
      && Relative(path) && Reachable(s.tree, path) && path !in s.tree
      && s' == s.(tree := s.tree[path := Directory])
    case Housekeeping(tree) =>
      && s.holder.Some? && OnlyStaging(s.tree, tree)
      && s' == s.(tree := tree)
    case PromoteArtifact(index, source) =>
      && AtStage(s, Provisioning) && index < |s.holder.value.recipe.artifacts|
      && var a := s.holder.value.recipe.artifacts[index];
         && HoldsStaged(s.tree, source, a.bytes) && MayLand(s.tree, a.path)
         && s' == s.(tree := Renamed(s.tree, source, a.path))
    case Command(tree) =>
      && AtStage(s, Provisioning) && Untouched(s.tree, tree, markers)
      && s' == s.(tree := tree)
    case PromoteIdentity(source) =>
      && AtStage(s, Provisioning)
      && var r := s.holder.value.recipe;
         && HoldsStaged(s.tree, source, Identity(r)) && MayLand(s.tree, SidecarPath(r.marker.path))
         && s' == s.(tree := Renamed(s.tree, source, SidecarPath(r.marker.path)),
                     holder := Some(s.holder.value.(stage := Identified)))
    case PromoteMarker(source) =>
      && AtStage(s, Identified)
      && var r := s.holder.value.recipe;
         && HoldsStaged(s.tree, source, r.marker.bytes) && MayLand(s.tree, r.marker.path)
         && s' == s.(tree := Renamed(s.tree, source, r.marker.path),
                     holder := Some(s.holder.value.(stage := Finished)),
                     published := s.published[r.marker.path := r])
    case Adopt(source) =>
      && AtStage(s, Looking) && s.holder.value.found == Legacy
      && var r := s.holder.value.recipe;
         && HoldsStaged(s.tree, source, Identity(r)) && MayLand(s.tree, SidecarPath(r.marker.path))
         && s' == s.(tree := Renamed(s.tree, source, SidecarPath(r.marker.path)),
                     holder := Some(s.holder.value.(stage := Finished)),
                     published := s.published[r.marker.path := r])
    case Release =>
      && s.holder.Some? && s' == s.(holder := None)
    case Outside(tree) =>
      && Untouched(s.tree, tree, markers) && s' == s.(tree := tree)
  }

  // ---------------------------------------------------------------- the invariant

  /** The marker stands: exactly its bytes, at its path. */
  predicate Marked(t: Tree, a: CacheArtifact) {
    a.path in t && t[a.path] == File(a.bytes)
  }

  /** A marker that stands beside a sidecar was published last by the recipe the sidecar names, and
      one that stands where an install has begun has a sidecar. */
  ghost predicate MarkerInv(s: Scope, a: CacheArtifact) {
    var sidecar := SidecarPath(a.path);
    && (Marked(s.tree, a) && IsFile(s.tree, sidecar) ==>
          a.path in s.published && s.tree[sidecar] == File(Identity(s.published[a.path])))
    && (a.path in s.begun && Marked(s.tree, a) ==> IsFile(s.tree, sidecar))
  }

  ghost predicate HolderInv(markers: set<CacheArtifact>, s: Scope) {
    s.holder.Some? ==>
      var h := s.holder.value;
      var m := h.recipe.marker.path;
      && Admissible(h.recipe, markers) && Respects(h.recipe, markers)
      && (h.stage in {Provisioning, Identified} ==> !IsFile(s.tree, m) && m in s.begun)
      && (h.stage == Identified ==> IsFile(s.tree, SidecarPath(m)) && s.tree[SidecarPath(m)] == File(Identity(h.recipe)))
  }

  ghost predicate Inv(markers: set<CacheArtifact>, s: Scope) {
    && WellFormed(s.tree)
    && (forall a | a in markers :: Relative(a.path))
    && (forall a | a in markers :: MarkerInv(s, a))
    && HolderInv(markers, s)
  }

  /** A scope no session has been near: whatever is in it, there is no sidecar yet. */
  ghost predicate Fresh(markers: set<CacheArtifact>, s: Scope) {
    && WellFormed(s.tree) && s.holder.None? && s.published == map[] && s.begun == {}
    && (forall a | a in markers :: Relative(a.path) && SidecarPath(a.path) !in s.tree)
  }

  lemma RenamedKeepsWellFormed(t: Tree, source: Path, target: Path, content: Content)
    requires WellFormed(t) && HoldsStaged(t, source, content) && MayLand(t, target) && !InStaging(target)
    ensures WellFormed(Renamed(t, source, target))
    ensures forall p | p != target && !InStaging(p) ::
              (p in t <==> p in Renamed(t, source, target)) && (p in t ==> Renamed(t, source, target)[p] == t[p])
    ensures Renamed(t, source, target)[target] == File(content)
  {
    var t' := Renamed(t, source, target);
    forall p | p in t' ensures Reachable(t', p) {
      var q := if p in t then p else target;
      assert p == q;
      assert Reachable(t, p);
      forall i | 0 < i < |p| ensures p[..i] in t' && t'[p[..i]] == Directory {
        assert p[..i] in t && t[p[..i]] == Directory;
        assert p[..i] != source && p[..i] != target;
      }
    }
  }

  lemma RemovalKeepsWellFormed(t: Tree, m: Path)
    requires WellFormed(t) && (m in t ==> t[m].File?)
    ensures WellFormed(t - {m})
  {
    forall p | p in t - {m} ensures Reachable(t - {m}, p) {
      assert Reachable(t, p);
      forall i | 0 < i < |p| ensures p[..i] in t - {m} && (t - {m})[p[..i]] == Directory {
        assert p[..i] in t && t[p[..i]] == Directory;
      }
    }
  }

  lemma NewDirectoryKeepsWellFormed(t: Tree, d: Path)
    requires WellFormed(t) && Reachable(t, d) && d !in t
    ensures WellFormed(t[d := Directory])
  {
    var t' := t[d := Directory];
    forall p | p in t' ensures Reachable(t', p) {
      assert Reachable(t, p);
    }
  }

  lemma PromotionKeepsInv(markers: set<CacheArtifact>, s: Scope, e: Event, s': Scope)
    requires Inv(markers, s) && Next(markers, s, e, s')
    requires e.PromoteArtifact? || e.PromoteMarker?
    ensures Inv(markers, s')
  {
    var r := s.holder.value.recipe;
    if e.PromoteArtifact? {
      assert r.artifacts[e.index] in r.artifacts;
      RenamedKeepsWellFormed(s.tree, e.source, r.artifacts[e.index].path, r.artifacts[e.index].bytes);
    } else {
      RenamedKeepsWellFormed(s.tree, e.source, r.marker.path, r.marker.bytes);
    }
  }

  lemma IdentificationKeepsInv(markers: set<CacheArtifact>, s: Scope, e: Event, s': Scope)
    requires Inv(markers, s) && Next(markers, s, e, s')
    requires e.PromoteIdentity? || e.Adopt?
    ensures Inv(markers, s')
  {
    var r := s.holder.value.recipe;
    RenamedKeepsWellFormed(s.tree, e.source, SidecarPath(r.marker.path), Identity(r));
    ReadinessIff(s.tree, r);
  }

  lemma InvalidationKeepsInv(markers: set<CacheArtifact>, s: Scope, s': Scope)
    requires Inv(markers, s) && Next(markers, s, Invalidate, s')
    ensures Inv(markers, s')
  {
    var marker := s.holder.value.recipe.marker.path;
    RemovalKeepsWellFormed(s.tree, marker);
    forall a | a in markers ensures MarkerInv(s', a) {
      assert MarkerInv(s, a) && Relative(marker) && Reserved(SidecarPath(a.path));
      assert SidecarPath(a.path) != marker;
    }
  }

  /** Creating the lock file stays within the router's bookkeeping. */
  lemma OpeningStaysInStaging(markers: set<CacheArtifact>, s: Scope, e: Event, s': Scope)
    requires WellFormed(s.tree) && (e.OpenLock? || e.Housekeeping?) && Next(markers, s, e, s')
    ensures OnlyStaging(s.tree, s'.tree)
  {
    if e.OpenLock? {
      forall p | p in s'.tree ensures Reachable(s'.tree, p) {
        if p != [LockFile] {
          assert Reachable(s.tree, p);
        }
      }
    }
  }

  lemma BookkeepingKeepsInv(markers: set<CacheArtifact>, s: Scope, tree: Tree)
    requires Inv(markers, s) && OnlyStaging(s.tree, tree)
    ensures Inv(markers, s.(tree := tree))
  {
    forall a | a in markers ensures MarkerInv(s.(tree := tree), a) {
      assert MarkerInv(s, a) && !InStaging(a.path) && !InStaging(SidecarPath(a.path));
    }
  }

  lemma NextKeepsInv(markers: set<CacheArtifact>, s: Scope, e: Event, s': Scope)
    requires Inv(markers, s) && Next(markers, s, e, s') && Respectful(e, markers)
    ensures Inv(markers, s')
  {
    match e {
      case PromoteArtifact(_, _) => PromotionKeepsInv(markers, s, e, s');
      case PromoteMarker(_) => PromotionKeepsInv(markers, s, e, s');
      case PromoteIdentity(_) => IdentificationKeepsInv(markers, s, e, s');
      case Adopt(_) => IdentificationKeepsInv(markers, s, e, s');
      case Invalidate => InvalidationKeepsInv(markers, s, s');
      case MakeDirectory(path) => NewDirectoryKeepsWellFormed(s.tree, path);
      case OpenLock =>
        OpeningStaysInStaging(markers, s, e, s');
        BookkeepingKeepsInv(markers, s, s'.tree);
      case Housekeeping(tree) => BookkeepingKeepsInv(markers, s, tree);
      case _ =>
    }
  }

  // ---------------------------------------------------------------- whole runs

  /** Any sessions, in any order, dying wherever they like. */
  ghost predicate Steps(markers: set<CacheArtifact>, states: seq<Scope>, events: seq<Event>) {
    && |states| == |events| + 1
    && forall i | 0 <= i < |events| :: Next(markers, states[i], events[i], states[i + 1])
  }

  /** A run: such steps, by recipes that respect the markers. */
  ghost predicate Run(markers: set<CacheArtifact>, states: seq<Scope>, events: seq<Event>) {
    Steps(markers, states, events) && forall i | 0 <= i < |events| :: Respectful(events[i], markers)
  }

  lemma {:induction false} RunKeepsInv(markers: set<CacheArtifact>, states: seq<Scope>, events: seq<Event>, i: nat)
    requires Run(markers, states, events) && Inv(markers, states[0]) && i < |states|
    ensures Inv(markers, states[i])
  {
    if i > 0 {
      RunKeepsInv(markers, states, events, i - 1);
      NextKeepsInv(markers, states[i - 1], events[i - 1], states[i]);
    }
  }

  /** Step `i` completes a publication or adoption of `r`. */
  ghost predicate Completes(states: seq<Scope>, events: seq<Event>, i: nat, r: CacheRecipe)
    requires i < |events| && |states| == |events| + 1
  {
    (events[i].PromoteMarker? || events[i].Adopt?) && states[i].holder.Some? && states[i].holder.value.recipe == r
  }

  /** Step `i` begins an install, or completes a publication or adoption, on marker path `m`. */
  ghost predicate Supersedes(states: seq<Scope>, events: seq<Event>, i: nat, m: Path)
    requires i < |events| && |states| == |events| + 1
  {
    && (events[i].Invalidate? || events[i].PromoteMarker? || events[i].Adopt?)
    && states[i].holder.Some? && states[i].holder.value.recipe.marker.path == m
  }

  /** A record is written by the step that completes, and carried over by every other. */
  lemma PublishedByStep(markers: set<CacheArtifact>, s: Scope, e: Event, s': Scope, m: Path)
    requires Next(markers, s, e, s') && m in s'.published
    ensures if (e.PromoteMarker? || e.Adopt?) && s.holder.value.recipe.marker.path == m
            then s'.published[m] == s.holder.value.recipe
            else m in s.published && s'.published[m] == s.published[m] &&
                 !(e.Invalidate? && s.holder.value.recipe.marker.path == m)
  {
  }

  lemma {:induction false} PublishedWasCompleted(
    markers: set<CacheArtifact>, states: seq<Scope>, events: seq<Event>, i: nat, m: Path) returns (j: nat)
    requires Run(markers, states, events) && Fresh(markers, states[0]) && i < |states|
    requires m in states[i].published
    decreases i
    ensures j < i && Completes(states, events, j, states[i].published[m]) && states[i].published[m].marker.path == m
    ensures forall k | j < k < i :: !Supersedes(states, events, k, m)
  {
    PublishedByStep(markers, states[i - 1], events[i - 1], states[i], m);
    if Supersedes(states, events, i - 1, m) {
      j := i - 1;
    } else {
      j := PublishedWasCompleted(markers, states, events, i - 1, m);
    }
  }

  /** Crash safety. In every state of every run over a scope that started without sidecars, a scope
      that reads as Cached for a recipe owes it to a completed publication or adoption of exactly
      that recipe, and since that step no install was begun and nothing else was completed on its
      marker path. */
  lemma CachedOnlyAfterPublication(
    markers: set<CacheArtifact>, states: seq<Scope>, events: seq<Event>, i: nat, r: CacheRecipe) returns (j: nat)
    requires Run(markers, states, events) && Fresh(markers, states[0]) && i < |states|
    requires r.marker in markers && ReadinessOf(states[i].tree, r) == Ok(Cached)
    ensures j < i && Completes(states, events, j, r)
    ensures forall k | j < k < i :: !Supersedes(states, events, k, r.marker.path)
  {
    RunKeepsInv(markers, states, events, i);
    ReadinessIff(states[i].tree, r);
    assert MarkerInv(states[i], r.marker);
    j := PublishedWasCompleted(markers, states, events, i, r.marker.path);
  }

  /** Whoever holds the scope holds it for a recipe the machine is about. */
  ghost predicate HolderAdmitted(markers: set<CacheArtifact>, s: Scope) {
    s.holder.Some? ==> Admissible(s.holder.value.recipe, markers)
  }

  lemma {:induction false} BeginningsRemain(
    markers: set<CacheArtifact>, states: seq<Scope>, events: seq<Event>, i: nat, j: nat, m: Path)
    requires Steps(markers, states, events) && i <= j < |states| && HolderAdmitted(markers, states[i])
    ensures HolderAdmitted(markers, states[j])
    ensures m in states[i].begun ==> m in states[j].begun
    ensures IsFile(states[i].tree, SidecarPath(m)) ==> IsFile(states[j].tree, SidecarPath(m))
  {
    if i < j {
      BeginningsRemain(markers, states, events, i, j - 1, m);
      SidecarsRemain(markers, states[j - 1], events[j - 1], states[j], m);
    }
  }

  lemma SidecarsRemain(markers: set<CacheArtifact>, s: Scope, e: Event, s': Scope, m: Path)
    requires HolderAdmitted(markers, s) && Next(markers, s, e, s')
    ensures HolderAdmitted(markers, s')
    ensures IsFile(s.tree, SidecarPath(m)) ==> IsFile(s'.tree, SidecarPath(m))
    ensures m in s.begun ==> m in s'.begun
  {
    assert Reserved(SidecarPath(m)) && !InStaging(SidecarPath(m));
    if s.holder.Some? {
      var r := s.holder.value.recipe;
      if e.PromoteArtifact? {
        assert r.artifacts[e.index] in r.artifacts;
      }
    }
  }

  /** Once a sidecar exists for a marker path, no later state reads as Legacy for any recipe with that
      marker path, whatever sessions of whatever recipes do and wherever they die. */
  lemma SidecarsEndLegacy(
    markers: set<CacheArtifact>, states: seq<Scope>, events: seq<Event>, i: nat, j: nat, r: CacheRecipe)
    requires Steps(markers, states, events) && i <= j < |states| && HolderAdmitted(markers, states[i])
    requires IsFile(states[i].tree, SidecarPath(r.marker.path))
    ensures ReadinessOf(states[j].tree, r) != Ok(Legacy)
  {
    BeginningsRemain(markers, states, events, i, j, r.marker.path);
    ReadinessIff(states[j].tree, r);
  }

  /** A failed rebuild never becomes adoptable, where recipes respect the markers: once an install has
      begun on a marker path, no later state reads as Legacy for any recipe with that marker, wherever
      sessions die in between. */
  lemma NeverLegacyAgain(
    markers: set<CacheArtifact>, states: seq<Scope>, events: seq<Event>, i: nat, j: nat, r: CacheRecipe)
    requires Run(markers, states, events) && Inv(markers, states[0]) && i <= j < |states|
    requires r.marker in markers && r.marker.path in states[i].begun
    ensures ReadinessOf(states[j].tree, r) != Ok(Legacy)
  {
    RunKeepsInv(markers, states, events, i);
    BeginningsRemain(markers, states, events, i, j, r.marker.path);
    RunKeepsInv(markers, states, events, j);
    ReadinessIff(states[j].tree, r);
    assert MarkerInv(states[j], r.marker);
  }

  // ---------------------------------------------------------------- a ready scope stays ready

  lemma StagingKeepsReadiness(t: Tree, t': Tree, r: CacheRecipe)
    requires OnlyStaging(t, t') && Validated(r) && ReadinessOf(t, r) in {Ok(Cached), Ok(Legacy)}
    ensures ReadinessOf(t', r) == ReadinessOf(t, r)
  {
    ReadinessIff(t, r);
    ReadinessIff(t', r);
    SamePathStays(t, t', r.marker.path);
    forall e | e in r.required ensures Reachable(t', e.path) && e.path in t' && KindHolds(t'[e.path], e.kind) {
      SamePathStays(t, t', e.path);
    }
    forall a | a in r.artifacts ensures Holds(t', a) {
      SamePathStays(t, t', a.path);
    }
    assert !InStaging(SidecarPath(r.marker.path));
  }

  lemma SamePathStays(t: Tree, t': Tree, p: Path)
    requires OnlyStaging(t, t') && Relative(p) && Reachable(t, p) && p in t
    ensures Reachable(t', p) && p in t' && t'[p] == t[p]
  {
    assert !InStaging(p);
    forall i | 0 < i < |p| ensures p[..i] in t' && t'[p[..i]] == Directory {
      assert p[..i] in t && t[p[..i]] == Directory && !InStaging(p[..i]);
    }
  }

  /** Only sessions of this one recipe, and no program outside them. */
  ghost predicate Undisturbed(events: seq<Event>, r: CacheRecipe) {
    forall i | 0 <= i < |events| :: !events[i].Outside? && (events[i].Lock? ==> events[i].recipe == r)
  }

  /** The scope reads as Cached, and whoever holds it has found it so or made it so. */
  ghost predicate Ready(s: Scope, r: CacheRecipe) {
    && WellFormed(s.tree) && ReadinessOf(s.tree, r) == Ok(Cached)
    && (s.holder.Some? ==>
          s.holder.value.recipe == r
          && (s.holder.value.stage == Finished || (s.holder.value.stage == Looking && s.holder.value.found == Cached)))
  }

  /** Steps that neither begin an install, nor run a command, nor publish or adopt. */
  predicate Idle(e: Event) {
    e.OpenLock? || e.Lock? || e.Housekeeping? || e.Release?
  }

  lemma ReadyStep(markers: set<CacheArtifact>, s: Scope, e: Event, s': Scope, r: CacheRecipe)
    requires Next(markers, s, e, s') && Ready(s, r) && Validated(r)
    requires !e.Outside? && (e.Lock? ==> e.recipe == r)
    ensures Ready(s', r) && Idle(e)
  {
    if e.Housekeeping? || e.OpenLock? {
      OpeningStaysInStaging(markers, s, e, s');
      StagingKeepsReadiness(s.tree, s'.tree, r);
    }
  }

  /** Once a scope is ready, sessions of the same recipe, any number of them from any number of
      managers, run no command and begin no install, and the scope stays ready. */
  lemma {:induction false} ReadyScopeRunsNothing(
    markers: set<CacheArtifact>, states: seq<Scope>, events: seq<Event>, r: CacheRecipe, i: nat, j: nat)
    requires Run(markers, states, events) && Undisturbed(events, r) && Validated(r)
    requires i <= j < |states| && Ready(states[i], r)
    ensures Ready(states[j], r)
    ensures j < |events| ==> Idle(events[j])
    decreases j
  {
    if i < j {
      ReadyScopeRunsNothing(markers, states, events, r, i, j - 1);
      ReadyStep(markers, states[j - 1], events[j - 1], states[j], r);
    }
    if j < |events| {
      ReadyStep(markers, states[j], events[j], states[j + 1], r);
    }
  }
}
