/** One cache session at work (worker/cache/mod.rs, worker/cache/filesystem.rs,
    worker/cache/staging.rs).

    `Disk` performs single file operations, any of which may fail without effect, and keeps for the
    proofs every state the scope has been through. Each operation is a step of the publication
    protocol, so all of those states, and so every state a crash can leave behind, are states of a
    protocol run. */
module CacheSession {
  import opened Wrappers
  import opened CacheTree
  import opened CacheProtocol
  import opened CachePublication

  class Disk {
    ghost const markers: set<CacheArtifact>
    var tree: Tree
    var locked: bool
    ghost var scope: Scope
    ghost var states: seq<Scope>
    ghost var events: seq<Event>

    ghost predicate Valid() reads this {
      && scope.tree == tree && (locked <==> scope.holder.Some?)
      && Run(markers, states, events) && states[|states| - 1] == scope
      && Inv(markers, states[0]) && Inv(markers, scope)
    }

    constructor (tree: Tree, ghost markers: set<CacheArtifact>, ghost scope: Scope)
      requires scope.tree == tree && scope.holder.None? && Inv(markers, scope)
      ensures Valid() && this.tree == tree && this.markers == markers && this.scope == scope && states == [scope]
    {
      this.tree, this.locked := tree, false;
      this.markers, this.scope, this.states, this.events := markers, scope, [scope], [];
    }

    ghost method Record(e: Event, next: Scope)
      requires Run(markers, states, events) && states[|states| - 1] == scope
      requires Inv(markers, states[0]) && Inv(markers, scope)
      requires Next(markers, scope, e, next) && Respectful(e, markers)
      requires tree == next.tree && (locked <==> next.holder.Some?)
      modifies this`scope, this`states, this`events
      ensures Valid() && scope == next
      ensures states == old(states) + [next] && events == old(events) + [e]
    {
      NextKeepsInv(markers, scope, e, next);
      states, events, scope := states + [next], events + [e], next;
      forall i | 0 <= i < |events| ensures Next(markers, states[i], events[i], states[i + 1]) {
        if i == |events| - 1 {
          assert states[i] == old(scope);
        }
      }
    }

    /** One file operation: it takes effect whole, or it fails and nothing happened. */
    method Apply(after: Tree, ghost e: Event, ghost next: Scope) returns (ok: bool)
      requires Valid() && Next(markers, scope, e, next) && Respectful(e, markers)
      requires next.tree == after && (locked <==> next.holder.Some?)
      modifies this
      ensures Valid() && locked == old(locked)
      ensures scope == if ok then next else old(scope)
      ensures old(states) <= states && old(events) <= events
    {
      ok := *;
      if ok {
        tree := after;
        Record(e, next);
      }
    }

    /** A native command of the recipe, free to do to the scope what commands may do. Callers know this
        contract alone; the body is the command that does nothing. */
    method RunCommand() returns (ok: bool)
      requires Valid() && AtStage(scope, Provisioning)
      modifies this
      ensures Valid() && locked == old(locked)
      ensures Untouched(old(tree), tree, markers) && scope == old(scope).(tree := tree)
      ensures old(states) <= states && old(events) <= events
    {
      Record(Command(tree), scope);
      ok := *;
    }
  }

  // ---------------------------------------------------------------- one promotion

  /** `e` is a promotion of `content` to `target` that the session is at the right stage for. */
  ghost predicate MayPromote(s: Scope, e: Event, source: Path, target: Path, content: Content) {
    && s.holder.Some?
    && var r := s.holder.value.recipe;
       match e
       case PromoteArtifact(index, from) =>
         && from == source && s.holder.value.stage == Provisioning && index < |r.artifacts|
         && r.artifacts[index] == CacheArtifact(target, content) && Relative(target)
       case PromoteIdentity(from) =>
         && from == source && s.holder.value.stage == Provisioning && Payload(s.tree, r)
         && target == SidecarPath(r.marker.path) && content == Identity(r)
       case PromoteMarker(from) =>
         && from == source && s.holder.value.stage == Identified
         && r.marker == CacheArtifact(target, content) && Relative(target)
       case Adopt(from) =>
         && from == source && s.holder.value.stage == Looking && s.holder.value.found == Legacy
         && target == SidecarPath(r.marker.path) && content == Identity(r)
         && ReadinessOf(s.tree, r) == Ok(Legacy)
       case _ => false
  }

  /** The scope once the promotion has landed. */
  ghost function Landed(s: Scope, e: Event, source: Path, target: Path): Scope
    requires s.holder.Some? && source in s.tree
  {
    var r := s.holder.value.recipe;
    var tree := Renamed(s.tree, source, target);
    match e
    case PromoteIdentity(_) => s.(tree := tree, holder := Some(s.holder.value.(stage := Identified)))
    case PromoteMarker(_) =>
      s.(tree := tree, holder := Some(s.holder.value.(stage := Finished)), published := s.published[r.marker.path := r])
    case Adopt(_) =>
      s.(tree := tree, holder := Some(s.holder.value.(stage := Finished)), published := s.published[r.marker.path := r])
    case _ => s.(tree := tree)
  }

  /** The router may add directories while it installs or publishes. */
  ghost predicate MayGrow(s: Scope) {
    AtStage(s, Provisioning) || AtStage(s, Identified)
  }

  /** Make the directories that `target` needs, one at a time, stopping at anything else in the way. */
  method MakeParents(disk: Disk, target: Path) returns (ok: bool)
    requires disk.Valid() && target != [] && (|target| > 1 ==> Relative(target) && MayGrow(disk.scope))
    modifies disk
    ensures disk.Valid() && disk.locked == old(disk.locked)
    ensures Grew(old(disk.tree), disk.tree) && disk.scope == old(disk.scope).(tree := disk.tree)
    ensures |target| == 1 ==> disk.tree == old(disk.tree)
    ensures ok ==> Reachable(disk.tree, target)
    ensures old(disk.states) <= disk.states && old(disk.events) <= disk.events
  {
    var i := 1;
    while i < |target|
      invariant disk.Valid() && disk.locked == old(disk.locked) && 1 <= i <= |target|
      invariant Grew(old(disk.tree), disk.tree) && disk.scope == old(disk.scope).(tree := disk.tree)
      invariant |target| == 1 ==> disk.tree == old(disk.tree)
      invariant forall k | 0 < k < i :: target[..k] in disk.tree && disk.tree[target[..k]] == Directory
      invariant old(disk.states) <= disk.states && old(disk.events) <= disk.events
    {
      var d := target[..i];
      if d in disk.tree {
        if !disk.tree[d].Directory? {
          return false;
        }
      } else {
        assert forall k | 0 < k < i :: d[..k] == target[..k];
        ghost var next := disk.scope.(tree := disk.tree[d := Directory]);
        var made := disk.Apply(disk.tree[d := Directory], MakeDirectory(d), next);
        if !made {
          return false;
        }
      }
      i := i + 1;
    }
    return true;
  }

  /** Promote a staged file: make the missing directories, refuse to land on anything but an
      unshared regular file or nothing, and rename. */
  method Promote(disk: Disk, source: Path, target: Path, ghost content: Content, ghost e: Event)
    returns (r: Result<(), Fault>, ghost grown: Tree)
    requires disk.Valid() && HoldsStaged(disk.tree, source, content)
    requires MayPromote(disk.scope, e, source, target, content)
    modifies disk
    ensures disk.Valid() && disk.locked == old(disk.locked)
    ensures Grew(old(disk.tree), grown) && (|target| == 1 ==> grown == old(disk.tree))
    ensures r.Ok? ==> MayLand(grown, target) &&
                      disk.scope == Landed(old(disk.scope).(tree := grown), e, source, target)
    ensures r.Err? ==> disk.scope == old(disk.scope).(tree := grown)
    ensures old(disk.states) <= disk.states && old(disk.events) <= disk.events
  {
    var reached := MakeParents(disk, target);
    grown := disk.tree;
    if !reached {
      return Err(IoFailed), grown;
    }
    if target in disk.tree && !disk.tree[target].File? {
      return Err(EntryUnsafe), grown;
    }
    var renamed := disk.Apply(Renamed(disk.tree, source, target), e, Landed(disk.scope, e, source, target));
    return if renamed then Ok(()) else Err(IoFailed), grown;
  }

  // ---------------------------------------------------------------- reading

  /** The readiness check, entry by entry. */
  method Classify(disk: Disk, recipe: CacheRecipe) returns (r: Result<Readiness, Fault>)
    ensures r == ReadinessOf(disk.tree, recipe)
  {
    var marked := Matches(disk.tree, recipe.marker);
    if marked.Err? {
      return Err(marked.error);
    }
    if !marked.value {
      return Ok(Rebuild);
    }
    var required := RequiredPresent(disk, recipe);
    if !required {
      return Ok(Rebuild);
    }
    var artifacts := ArtifactsPresent(disk, recipe);
    if artifacts.Err? {
      return Err(artifacts.error);
    }
    if !artifacts.value {
      return Ok(Rebuild);
    }
    var sidecar := SidecarPath(recipe.marker.path);
    var identified := RegularFileExists(disk.tree, sidecar);
    if identified.Err? {
      return Err(identified.error);
    }
    if identified.value {
      var ours := Matches(disk.tree, RecipeIdentity(recipe));
      if ours.Err? {
        return Err(ours.error);
      }
      return Ok(if ours.value then Cached else Rebuild);
    }
    return Ok(if recipe.adoption.Strict? then Rebuild else Legacy);
  }

  method RequiredPresent(disk: Disk, recipe: CacheRecipe) returns (all: bool)
    ensures all == RequiredAllHold(disk.tree, recipe.required, 0)
  {
    for i := 0 to |recipe.required|
      invariant RequiredAllHold(disk.tree, recipe.required, 0) == RequiredAllHold(disk.tree, recipe.required, i)
    {
      if !RequiredHolds(disk.tree, recipe.required[i]) {
        return false;
      }
    }
    return true;
  }

  method ArtifactsPresent(disk: Disk, recipe: CacheRecipe) returns (r: Result<bool, Fault>)
    ensures r == ArtifactsMatch(disk.tree, recipe.artifacts, 0)
  {
    for i := 0 to |recipe.artifacts|
      invariant ArtifactsMatch(disk.tree, recipe.artifacts, 0) == ArtifactsMatch(disk.tree, recipe.artifacts, i)
    {
      var same := Matches(disk.tree, recipe.artifacts[i]);
      if same.Err? || !same.value {
        return same;
      }
    }
    return Ok(true);
  }

  lemma LeafRemovalKeepsWellFormed(t: Tree, m: Path)
    requires WellFormed(t) && m in t && !t[m].Directory?
    ensures WellFormed(t - {m})
  {
    forall p | p in t - {m} ensures Reachable(t - {m}, p) {
      assert Reachable(t, p);
      forall i | 0 < i < |p| ensures p[..i] in t - {m} && (t - {m})[p[..i]] == Directory {
        assert p[..i] in t && t[p[..i]] == Directory;
      }
    }
  }

  lemma StagingSurvivesCommands(t: Tree, t': Tree, markers: set<CacheArtifact>, id: nat, r: CacheRecipe)
    requires Untouched(t, t', markers) && [StageDir(id)] in t
    requires HoldsStaged(t, StageFile(id, IdentityFile), Identity(r))
    requires HoldsStaged(t, StageFile(id, MarkerFile), r.marker.bytes)
    ensures [StageDir(id)] in t' && t'[[StageDir(id)]] == t[[StageDir(id)]]
    ensures HoldsStaged(t', StageFile(id, IdentityFile), Identity(r))
    ensures HoldsStaged(t', StageFile(id, MarkerFile), r.marker.bytes)
  {
    assert Reserved([StageDir(id)]) && Reserved(StageFile(id, IdentityFile)) && Reserved(StageFile(id, MarkerFile));
  }

  // ---------------------------------------------------------------- the session

  function StageFile(id: nat, file: StagedFile): Path {
    [StageDir(id), Staged(file)]
  }

  class Session {
    const disk: Disk
    var lock: bool
    var staging: Option<nat>
    var staged: seq<StagedFile>
    var cached: bool
    var legacy: bool

    /** The session of `recipe`: while it has its lock it is the one the scope is held by. */
    ghost predicate Owns(recipe: CacheRecipe) reads this, disk {
      && disk.Valid() && lock && disk.scope.holder.Some? && disk.scope.holder.value.recipe == recipe
      && Admissible(recipe, disk.markers) && Respects(recipe, disk.markers)
      && (staging.Some? ==> [StageDir(staging.value)] in disk.tree && disk.tree[[StageDir(staging.value)]] == Directory)
    }

    /** A session before it has acquired anything. */
    constructor (disk: Disk)
      ensures this.disk == disk && !lock && staging.None? && staged == [] && !cached && !legacy
    {
      this.disk := disk;
      lock, staging, staged, cached, legacy := false, None, [], false, false;
    }

    /** Open the lock file, making it if there is none. Nothing but an unshared regular file will do. */
    method OpenLockFile() returns (r: Result<(), Fault>)
      requires disk.Valid()
      modifies disk
      ensures disk.Valid() && disk.locked == old(disk.locked)
      ensures disk.scope == old(disk.scope).(tree := disk.tree)
      ensures [LockFile] in old(disk.tree) ==> disk.tree == old(disk.tree)
      ensures [LockFile] !in old(disk.tree) ==>
                disk.tree == if r.Ok? then old(disk.tree)[[LockFile] := File(Raw(""))] else old(disk.tree)
      ensures r.Ok? ==> IsFile(disk.tree, [LockFile])
      ensures r.Err? ==> r.error == LockUnsafe || r.error == LockFailed
      ensures r == Err(LockUnsafe) <==> [LockFile] in old(disk.tree) && old(disk.tree)[[LockFile]] in {SharedFile, Special}
      ensures old(disk.states) <= disk.states && old(disk.events) <= disk.events
    {
      if [LockFile] !in disk.tree {
        var after := disk.tree[[LockFile] := File(Raw(""))];
        var made := disk.Apply(after, OpenLock, disk.scope.(tree := after));
        return if made then Ok(()) else Err(LockFailed);
      }
      return match disk.tree[[LockFile]] {
        case File(_) => Ok(())
        case SharedFile => Err(LockUnsafe)
        case Special => Err(LockUnsafe)
        case _ => Err(LockFailed)
      };
    }

    /** Poll for the scope lock at most `polls` times, then classify the scope under it. Only a
        classified session keeps the lock. */
    method Acquire(recipe: CacheRecipe, polls: nat) returns (r: Result<(), Fault>)
      requires disk.Valid() && !lock && staging.None? && !cached && !legacy
      requires Admissible(recipe, disk.markers) && Respects(recipe, disk.markers)
      modifies this`lock, this`cached, this`legacy, disk
      ensures disk.Valid()
      ensures disk.tree == old(disk.tree) ||
              ([LockFile] !in old(disk.tree) && disk.tree == old(disk.tree)[[LockFile] := File(Raw(""))])
      ensures r.Ok? <==> lock
      ensures r.Ok? ==> IsFile(disk.tree, [LockFile])
      ensures r == Err(LockUnsafe) ==> [LockFile] in old(disk.tree) && old(disk.tree)[[LockFile]] in {SharedFile, Special}
      ensures r.Ok? ==> Owns(recipe) && old(disk.scope).holder.None? && ReadinessOf(disk.tree, recipe).Ok?
      ensures r.Ok? ==> var found := ReadinessOf(disk.tree, recipe).value;
                        && disk.scope.holder == Some(Holder(recipe, found, Looking))
                        && (cached <==> found == Cached) && (legacy <==> found == Legacy)
      ensures r.Err? ==> disk.scope == old(disk.scope).(tree := disk.tree) && !cached && !legacy
      ensures r == Err(Timeout) ==> polls == 0 || disk.locked
      ensures old(disk.states) <= disk.states && old(disk.events) <= disk.events
    {
      var lockFile := OpenLockFile();
      if lockFile.Err? {
        return lockFile;
      }
      ghost var scope, states, events := disk.scope, disk.states, disk.events;
      var taken := false;
      for i := 0 to polls
        invariant disk.Valid() && disk.scope == scope && !taken && !lock && !cached && !legacy
        invariant disk.locked == old(disk.locked) && (i > 0 ==> disk.locked)
        invariant disk.states == states && disk.events == events
      {
        var canceled: bool := *;
        if canceled {
          return Err(Canceled);
        }
        if !disk.locked {
          taken := true;
          break;
        }
      }
      if !taken {
        return Err(Timeout);
      }
      var bound: bool := *;
      if !bound {
        return Err(BindingChanged);
      }
      var found := Classify(disk, recipe);
      if found.Err? {
        return Err(found.error);
      }
      lock := true;
      disk.locked := true;
      disk.Record(Lock(recipe), disk.scope.(holder := Some(Holder(recipe, found.value, Looking))));
      cached, legacy := found.value == Cached, found.value == Legacy;
      return Ok(());
    }

    /** Open a fresh staging directory. */
    method OpenStaging(recipe: CacheRecipe) returns (ok: bool)
      requires Owns(recipe) && staging.None? && staged == []
      modifies this`staging, disk
      ensures Owns(recipe)
      ensures ok <==> staging.Some?
      ensures disk.scope == old(disk.scope).(tree := disk.tree) && OnlyStaging(old(disk.tree), disk.tree)
      ensures old(disk.states) <= disk.states && old(disk.events) <= disk.events
    {
      var id: nat :| 0 <= id;
      var path := [StageDir(id)];
      if path in disk.tree {
        return false;
      }
      NewDirectoryKeepsWellFormed(disk.tree, path);
      var after := disk.tree[path := Directory];
      ok := disk.Apply(after, Housekeeping(after), disk.scope.(tree := after));
      if ok {
        staging := Some(id);
      }
    }

    /** Write one file into the staging directory, having recorded its name first. */
    method StageNew(recipe: CacheRecipe, file: StagedFile, content: Content) returns (ok: bool)
      requires Owns(recipe) && staging.Some?
      modifies this`staged, disk
      ensures Owns(recipe) && staged == old(staged) + [file]
      ensures disk.scope == old(disk.scope).(tree := disk.tree)
      ensures disk.tree == if ok then old(disk.tree)[StageFile(staging.value, file) := File(content)] else old(disk.tree)
      ensures ok ==> HoldsStaged(disk.tree, StageFile(staging.value, file), content)
      ensures old(disk.states) <= disk.states && old(disk.events) <= disk.events
    {
      staged := staged + [file];
      var path := StageFile(staging.value, file);
      if path in disk.tree {
        return false;
      }
      var after := disk.tree[path := File(content)];
      assert path[..1] == [StageDir(staging.value)];
      assert WellFormed(after) by {
        forall p | p in after ensures Reachable(after, p) {
          if p != path {
            assert Reachable(disk.tree, p);
          }
        }
      }
      ok := disk.Apply(after, Housekeeping(after), disk.scope.(tree := after));
    }

    /** Everything staged that publication will promote. */
    ghost predicate Prepared(recipe: CacheRecipe) reads this, disk {
      && staging.Some?
      && HoldsStaged(disk.tree, StageFile(staging.value, IdentityFile), Identity(recipe))
      && HoldsStaged(disk.tree, StageFile(staging.value, MarkerFile), recipe.marker.bytes)
    }

    /** The first step of an install: the marker goes before anything else changes. */
    method Invalidate(recipe: CacheRecipe) returns (r: Result<(), Fault>)
      requires Owns(recipe) && disk.scope.holder.value == Holder(recipe, Rebuild, Looking)
      modifies disk
      ensures Owns(recipe)
      ensures r.Ok? ==> disk.scope == Scope(old(disk.tree) - {recipe.marker.path},
                                            Some(Holder(recipe, Rebuild, Provisioning)),
                                            old(disk.scope).published - {recipe.marker.path},
                                            old(disk.scope).begun + {recipe.marker.path})
      ensures r.Err? ==> disk.scope == old(disk.scope)
      ensures r == Err(EntryUnsafe) <==> recipe.marker.path in old(disk.tree) && !IsFile(old(disk.tree), recipe.marker.path)
      ensures old(disk.states) <= disk.states && old(disk.events) <= disk.events
    {
      var m := recipe.marker.path;
      ghost var next := Scope(disk.tree - {m}, Some(Holder(recipe, Rebuild, Provisioning)),
                              disk.scope.published - {m}, disk.scope.begun + {m});
      if m in disk.tree {
        if !disk.tree[m].File? {
          return Err(EntryUnsafe);
        }
        var removed := disk.Apply(disk.tree - {m}, Event.Invalidate, next);
        return if removed then Ok(()) else Err(IoFailed);
      }
      assert disk.tree - {m} == disk.tree;
      disk.Record(Event.Invalidate, next);
      return Ok(());
    }

    /** Install: invalidate the marker, then stage and promote the artifacts in order, then stage
        identity and marker for later. Success means every artifact is in place. */
    method Install(recipe: CacheRecipe) returns (r: Result<(), Fault>)
      requires Owns(recipe) && disk.scope.holder.value == Holder(recipe, Rebuild, Looking)
      requires staging.None? && staged == []
      modifies this`staging, this`staged, disk
      ensures Owns(recipe)
      ensures r.Ok? ==> Prepared(recipe) && AtStage(disk.scope, Provisioning)
      ensures r.Ok? ==> forall a | a in recipe.artifacts :: Holds(disk.tree, a)
      ensures r.Ok? ==> recipe.marker.path !in disk.scope.published && !IsFile(disk.tree, recipe.marker.path)
      ensures disk.scope.holder.value.stage in {Looking, Provisioning}
      ensures old(disk.states) <= disk.states && old(disk.events) <= disk.events
    {
      var bound: bool := *;
      if !bound {
        return Err(BindingChanged);
      }
      var invalidated := Invalidate(recipe);
      if invalidated.Err? {
        return invalidated;
      }
      var started := OpenStaging(recipe);
      if !started {
        return Err(StageFailed);
      }
      for i := 0 to |recipe.artifacts|
        invariant Owns(recipe) && staging.Some? && AtStage(disk.scope, Provisioning)
        invariant recipe.marker.path !in disk.scope.published
        invariant forall k | 0 <= k < i :: Holds(disk.tree, recipe.artifacts[k])
        invariant old(disk.states) <= disk.states && old(disk.events) <= disk.events
      {
        var done := InstallArtifact(recipe, i);
        if done.Err? {
          return done;
        }
      }
      forall a | a in recipe.artifacts ensures Holds(disk.tree, a) {
        var k :| 0 <= k < |recipe.artifacts| && recipe.artifacts[k] == a;
      }
      var identity := StageNew(recipe, IdentityFile, Identity(recipe));
      if !identity {
        return Err(IoFailed);
      }
      var marker := StageNew(recipe, MarkerFile, recipe.marker.bytes);
      return if marker then Ok(()) else Err(IoFailed);
    }

    method InstallArtifact(recipe: CacheRecipe, i: nat) returns (r: Result<(), Fault>)
      requires Owns(recipe) && staging.Some? && AtStage(disk.scope, Provisioning) && i < |recipe.artifacts|
      requires forall k | 0 <= k < i :: Holds(disk.tree, recipe.artifacts[k])
      modifies this`staged, disk
      ensures Owns(recipe) && AtStage(disk.scope, Provisioning) && disk.scope.published == old(disk.scope).published
      ensures r.Ok? ==> forall k | 0 <= k <= i :: Holds(disk.tree, recipe.artifacts[k])
      ensures old(disk.states) <= disk.states && old(disk.events) <= disk.events
    {
      var artifact := recipe.artifacts[i];
      assert artifact in recipe.artifacts;
      var wrote := StageNew(recipe, ArtifactFile(i), artifact.bytes);
      if !wrote {
        return Err(IoFailed);
      }
      var bound: bool := *;
      if !bound {
        return Err(BindingChanged);
      }
      var source := StageFile(staging.value, ArtifactFile(i));
      ghost var before := disk.tree;
      ghost var grown;
      r, grown := Promote(disk, source, artifact.path, artifact.bytes, PromoteArtifact(i, source));
      if r.Ok? {
        PromotionHolds(before, grown, source, artifact.path, artifact.bytes);
        forall k | 0 <= k < i ensures Holds(disk.tree, recipe.artifacts[k]) {
          assert recipe.artifacts[k] in recipe.artifacts;
          assert Holds(before, recipe.artifacts[k]);
          PromotionKeepsHolding(before, grown, source, artifact.path, artifact.bytes, recipe.artifacts[k]);
        }
      }
    }

    /** Publication: verify what the commands made, then promote the identity, then the marker. It
        either completes, and then the scope reads as Cached for this very recipe, or it leaves no
        marker behind. */
    method Publish(recipe: CacheRecipe) returns (r: Result<(), Fault>)
      requires Owns(recipe) && Prepared(recipe) && AtStage(disk.scope, Provisioning)
      modifies disk
      ensures Owns(recipe)
      ensures r.Ok? ==> ReadinessOf(disk.tree, recipe) == Ok(Cached)
      ensures r.Ok? ==> disk.scope.published == old(disk.scope).published[recipe.marker.path := recipe]
      ensures r.Err? ==> !IsFile(disk.tree, recipe.marker.path) && disk.scope.published == old(disk.scope).published
      ensures old(disk.states) <= disk.states && old(disk.events) <= disk.events
    {
      var bound: bool := *;
      if !bound {
        return Err(BindingChanged);
      }
      var required := RequiredPresent(disk, recipe);
      if !required {
        return Err(RequiredMissing);
      }
      var artifacts := ArtifactsPresent(disk, recipe);
      if artifacts.Err? {
        return Err(artifacts.error);
      }
      if !artifacts.value {
        return Err(ArtifactChanged);
      }
      PayloadVerified(disk.tree, recipe);
      r := PublishIdentity(recipe);
      if r.Ok? {
        r := PublishMarker(recipe);
      }
    }

    method PublishIdentity(recipe: CacheRecipe) returns (r: Result<(), Fault>)
      requires Owns(recipe) && Prepared(recipe) && AtStage(disk.scope, Provisioning) && Payload(disk.tree, recipe)
      modifies disk
      ensures Owns(recipe) && disk.scope.published == old(disk.scope).published
      ensures disk.scope.holder.value.stage == if r.Ok? then Identified else Provisioning
      ensures r.Ok? ==> Payload(disk.tree, recipe)
      ensures r.Ok? ==> HoldsStaged(disk.tree, StageFile(staging.value, MarkerFile), recipe.marker.bytes)
      ensures old(disk.states) <= disk.states && old(disk.events) <= disk.events
    {
      var sidecar := SidecarPath(recipe.marker.path);
      var identity := StageFile(staging.value, IdentityFile);
      ghost var before, grown := disk.tree, disk.tree;
      r, grown := Promote(disk, identity, sidecar, Identity(recipe), PromoteIdentity(identity));
      if r.Ok? {
        PromotionKeepsPayload(before, grown, identity, sidecar, Identity(recipe), recipe);
      }
    }

    method PublishMarker(recipe: CacheRecipe) returns (r: Result<(), Fault>)
      requires Owns(recipe) && AtStage(disk.scope, Identified) && Payload(disk.tree, recipe) && staging.Some?
      requires HoldsStaged(disk.tree, StageFile(staging.value, MarkerFile), recipe.marker.bytes)
      modifies disk
      ensures Owns(recipe)
      ensures r.Ok? ==> ReadinessOf(disk.tree, recipe) == Ok(Cached)
      ensures r.Ok? ==> disk.scope.published == old(disk.scope).published[recipe.marker.path := recipe]
      ensures r.Err? ==> disk.scope.holder.value.stage == Identified && disk.scope.published == old(disk.scope).published
      ensures old(disk.states) <= disk.states && old(disk.events) <= disk.events
    {
      var sidecar, m := SidecarPath(recipe.marker.path), recipe.marker.path;
      var marker := StageFile(staging.value, MarkerFile);
      ghost var before, grown := disk.tree, disk.tree;
      r, grown := Promote(disk, marker, m, recipe.marker.bytes, PromoteMarker(marker));
      if r.Ok? {
        PromotionKeepsPayload(before, grown, marker, m, recipe.marker.bytes, recipe);
        PromotionHolds(before, grown, marker, m, recipe.marker.bytes);
        assert disk.tree[sidecar] == File(Identity(recipe));
        ReadinessIff(disk.tree, recipe);
      }
    }

    method StageIdentity(recipe: CacheRecipe) returns (r: Result<(), Fault>)
      requires Owns(recipe) && ReadinessOf(disk.tree, recipe) == Ok(Legacy) && staging.None? && staged == []
      modifies this`staging, this`staged, disk
      ensures Owns(recipe) && OnlyStaging(old(disk.tree), disk.tree)
      ensures disk.scope == old(disk.scope).(tree := disk.tree)
      ensures r.Ok? ==> staging.Some? && HoldsStaged(disk.tree, StageFile(staging.value, IdentityFile), Identity(recipe))
      ensures r.Ok? ==> ReadinessOf(disk.tree, recipe) == Ok(Legacy)
      ensures old(disk.states) <= disk.states && old(disk.events) <= disk.events
    {
      var started := OpenStaging(recipe);
      if !started {
        return Err(StageFailed);
      }
      var wrote := StageNew(recipe, IdentityFile, Identity(recipe));
      assert OnlyStaging(old(disk.tree), disk.tree);
      if !wrote {
        return Err(IoFailed);
      }
      StagingKeepsReadiness(old(disk.tree), disk.tree, recipe);
      return Ok(());
    }

    /** The step that makes the adoption count. */
    method PromoteSidecar(recipe: CacheRecipe) returns (r: Result<(), Fault>)
      requires Owns(recipe) && AtStage(disk.scope, Looking) && disk.scope.holder.value.found == Legacy
      requires staging.Some? && HoldsStaged(disk.tree, StageFile(staging.value, IdentityFile), Identity(recipe))
      requires ReadinessOf(disk.tree, recipe) == Ok(Legacy)
      modifies disk
      ensures Owns(recipe)
      ensures r.Ok? ==> ReadinessOf(disk.tree, recipe) == Ok(Cached)
      ensures r.Ok? ==> forall p | p != SidecarPath(recipe.marker.path) && !InStaging(p) ::
                          (p in disk.tree <==> p in old(disk.tree)) && (p in disk.tree ==> disk.tree[p] == old(disk.tree)[p])
      ensures r.Err? ==> disk.scope == old(disk.scope)
      ensures old(disk.states) <= disk.states && old(disk.events) <= disk.events
    {
      var identity := StageFile(staging.value, IdentityFile);
      ghost var t1, grown := disk.tree, disk.tree;
      r, grown := Promote(disk, identity, SidecarPath(recipe.marker.path), Identity(recipe), Adopt(identity));
      if r.Ok? {
        AdoptionIsCached(t1, identity, recipe);
      }
    }

    /** Adopt a verified legacy scope: only the sidecar is added. A failed adoption leaves every
        final path, the original marker among them, as it was. */
    method AdoptLegacy(recipe: CacheRecipe) returns (r: Result<(), Fault>)
      requires Owns(recipe) && AtStage(disk.scope, Looking) && staging.None? && staged == []
      requires legacy ==> disk.scope.holder.value.found == Legacy
      modifies this`staging, this`staged, this`cached, this`legacy, disk
      ensures Owns(recipe)
      ensures r.Ok? ==> cached && !legacy && ReadinessOf(disk.tree, recipe) == Ok(Cached)
      ensures r.Ok? ==> old(legacy) && ReadinessOf(old(disk.tree), recipe) == Ok(Legacy)
      ensures r.Ok? ==> forall p | p != SidecarPath(recipe.marker.path) && !InStaging(p) ::
                          (p in disk.tree <==> p in old(disk.tree)) && (p in disk.tree ==> disk.tree[p] == old(disk.tree)[p])
      ensures r.Err? ==> OnlyStaging(old(disk.tree), disk.tree) && cached == old(cached) && legacy == old(legacy)
      ensures r.Err? ==> disk.scope == old(disk.scope).(tree := disk.tree)
      ensures old(disk.states) <= disk.states && old(disk.events) <= disk.events
    {
      var bound: bool := *;
      if !bound {
        return Err(BindingChanged);
      }
      var found := Classify(disk, recipe);
      if found.Err? {
        return Err(found.error);
      }
      if !legacy || found.value != Legacy {
        return Err(LegacyChanged);
      }
      r := StageIdentity(recipe);
      if r.Err? {
        return r;
      }
      bound := *;
      if !bound {
        return Err(BindingChanged);
      }
      r := PromoteSidecar(recipe);
      if r.Ok? {
        cached, legacy := true, false;
      }
    }

    /** Remove what was staged, by its recorded names alone, then the staging directory if nothing
        else is in it, and only then release the lock. A failure keeps lock and record for a retry. */
    method Cleanup(recipe: CacheRecipe) returns (ok: bool)
      requires Owns(recipe)
      modifies this`staging, this`staged, this`lock, disk
      ensures disk.Valid()
      ensures ok ==> !lock && staging.None? && staged == [] && disk.scope.holder.None?
      ensures !ok ==> Owns(recipe) && staging == old(staging) && staged == old(staged)
      ensures OnlyStaging(old(disk.tree), disk.tree) && disk.scope.published == old(disk.scope).published
      ensures forall p | p in old(disk.tree) && p !in disk.tree ::
                old(staging).Some? && old(Recorded(staging.value, p))
      ensures ok && old(staging).Some? ==> forall p | p in disk.tree :: p != [] && p[0] != StageDir(old(staging).value)
      ensures old(disk.states) <= disk.states && old(disk.events) <= disk.events
    {
      if staging.Some? {
        var removed := RemoveStaging(recipe, staging.value);
        if !removed {
          return false;
        }
      }
      staging, staged := None, [];
      lock := false;
      disk.locked := false;
      disk.Record(Release, disk.scope.(holder := None));
      return true;
    }

    /** `p` is the staging directory or one of the files recorded as put there. */
    ghost predicate Recorded(id: nat, p: Path) reads this {
      p == [StageDir(id)] || exists file | file in staged :: p == StageFile(id, file)
    }

    method RemoveStaging(recipe: CacheRecipe, id: nat) returns (ok: bool)
      requires Owns(recipe) && staging == Some(id)
      modifies disk
      ensures disk.Valid() && lock && disk.scope == old(disk.scope).(tree := disk.tree)
      ensures !ok ==> Owns(recipe)
      ensures OnlyStaging(old(disk.tree), disk.tree)
      ensures forall p | p in old(disk.tree) && p !in disk.tree :: Recorded(id, p)
      ensures ok ==> forall p | p in disk.tree :: p != [] && p[0] != StageDir(id)
      ensures old(disk.states) <= disk.states && old(disk.events) <= disk.events
    {
      ok := RemoveAllStaged(recipe, id);
      if !ok {
        return;
      }
      var others := set p | p in disk.tree && |p| > 1 && p[0] == StageDir(id);
      if others != {} {
        return false;
      }
      assert forall p | p in disk.tree && |p| > 1 :: p[0] != StageDir(id) by {
        forall p | p in disk.tree && |p| > 1 ensures p[0] != StageDir(id) {
          assert p !in others;
        }
      }
      ok := RemoveStagingDirectory(recipe, id);
    }

    method RemoveAllStaged(recipe: CacheRecipe, id: nat) returns (ok: bool)
      requires Owns(recipe) && staging == Some(id)
      modifies disk
      ensures Owns(recipe)
      ensures OnlyStaging(old(disk.tree), disk.tree) && disk.scope == old(disk.scope).(tree := disk.tree)
      ensures forall p | p in old(disk.tree) && p !in disk.tree :: Recorded(id, p)
      ensures old(disk.states) <= disk.states && old(disk.events) <= disk.events
    {
      for i := 0 to |staged|
        invariant Owns(recipe)
        invariant OnlyStaging(old(disk.tree), disk.tree) && disk.scope == old(disk.scope).(tree := disk.tree)
        invariant forall p | p in old(disk.tree) && p !in disk.tree :: Recorded(id, p)
        invariant old(disk.states) <= disk.states && old(disk.events) <= disk.events
      {
        var removed := RemoveStaged(recipe, id, staged[i]);
        if !removed {
          return false;
        }
      }
      return true;
    }

    method RemoveStaged(recipe: CacheRecipe, id: nat, file: StagedFile) returns (ok: bool)
      requires Owns(recipe) && staging == Some(id)
      modifies disk
      ensures Owns(recipe) && disk.scope == old(disk.scope).(tree := disk.tree)
      ensures disk.tree == old(disk.tree) || disk.tree == old(disk.tree) - {StageFile(id, file)}
      ensures ok ==> StageFile(id, file) !in disk.tree
      ensures OnlyStaging(old(disk.tree), disk.tree)
      ensures old(disk.states) <= disk.states && old(disk.events) <= disk.events
    {
      var path := StageFile(id, file);
      if path !in disk.tree {
        return true;
      }
      if !(disk.tree[path].File? || disk.tree[path].Symlink?) {
        return false;
      }
      var after := disk.tree - {path};
      LeafRemovalKeepsWellFormed(disk.tree, path);
      ok := disk.Apply(after, Housekeeping(after), disk.scope.(tree := after));
    }

    method RemoveStagingDirectory(recipe: CacheRecipe, id: nat) returns (ok: bool)
      requires Owns(recipe) && staging == Some(id)
      requires forall p | p in disk.tree && |p| > 1 :: p[0] != StageDir(id)
      modifies disk
      ensures disk.Valid() && lock && disk.scope == old(disk.scope).(tree := disk.tree)
      ensures disk.tree == if ok then old(disk.tree) - {[StageDir(id)]} else old(disk.tree)
      ensures ok ==> forall p | p in disk.tree :: p != [] && p[0] != StageDir(id)
      ensures OnlyStaging(old(disk.tree), disk.tree)
      ensures old(disk.states) <= disk.states && old(disk.events) <= disk.events
    {
      var path := [StageDir(id)];
      var after := disk.tree - {path};
      assert WellFormed(after) by {
        forall p | p in after ensures Reachable(after, p) {
          assert Reachable(disk.tree, p);
          forall i | 0 < i < |p| ensures p[..i] in after && after[p[..i]] == Directory {
            assert p[..i] in disk.tree && p[..i][0] == p[0];
          }
        }
      }
      ok := disk.Apply(after, Housekeeping(after), disk.scope.(tree := after));
      forall p | ok && p in disk.tree ensures p != [] && p[0] != StageDir(id) {
        assert Reachable(after, p);
        assert p[..1] == [p[0]];
        assert p == p[..|p|];
      }
    }

    /** Everything between acquiring and cleaning up: adopt, reuse, or install, run the commands in
        order and publish. However it succeeds, the scope reads as Cached for the recipe. */
    method Provision(recipe: CacheRecipe) returns (r: Result<(), Fault>, ghost commands: nat)
      requires Owns(recipe) && AtStage(disk.scope, Looking) && staging.None? && staged == []
      requires disk.scope.holder.value.found == if cached then Cached else if legacy then Legacy else Rebuild
      requires cached ==> ReadinessOf(disk.tree, recipe) == Ok(Cached) && !legacy
      modifies this`staging, this`staged, this`cached, this`legacy, disk
      ensures Owns(recipe)
      ensures r.Ok? ==> ReadinessOf(disk.tree, recipe) == Ok(Cached)
      ensures r.Ok? ==> commands == if old(cached || legacy) then 0 else |recipe.steps|
      ensures old(cached) ==> r.Ok? && disk.tree == old(disk.tree)
      ensures old(disk.states) <= disk.states && old(disk.events) <= disk.events
    {
      commands := 0;
      if legacy {
        r := AdoptLegacy(recipe);
        return;
      }
      if cached {
        r := Ok(());
        return;
      }
      r := Install(recipe);
      if r.Err? {
        return;
      }
      for i := 0 to |recipe.steps|
        invariant Owns(recipe) && Prepared(recipe) && AtStage(disk.scope, Provisioning) && commands == i
        invariant old(disk.states) <= disk.states && old(disk.events) <= disk.events
      {
        var late: bool := *;
        var canceled: bool := *;
        var bound: bool := *;
        if late || canceled || !bound {
          r := Err(if canceled then Canceled else if late then Timeout else BindingChanged);
          return;
        }
        ghost var before := disk.tree;
        var ok := disk.RunCommand();
        StagingSurvivesCommands(before, disk.tree, disk.markers, staging.value, recipe);
        if !ok {
          r := Err(CommandFailed);
          return;
        }
        commands := commands + 1;
      }
      r := Publish(recipe);
    }
  }

  /** In every state a crash could have left behind while this disk was in use, a scope that reads
      as Cached for a recipe is the recorded publication of that recipe. */
  lemma EveryCrashStateIsSound(disk: Disk, i: nat, r: CacheRecipe)
    requires disk.Valid() && i < |disk.states|
    requires r.marker in disk.markers && ReadinessOf(disk.states[i].tree, r) == Ok(Cached)
    ensures r.marker.path in disk.states[i].published && disk.states[i].published[r.marker.path] == r
  {
    RunKeepsInv(disk.markers, disk.states, disk.events, i);
    ReadinessIff(disk.states[i].tree, r);
    assert MarkerInv(disk.states[i], r.marker);
  }
}
