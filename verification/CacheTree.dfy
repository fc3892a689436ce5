/** A persistent cache scope as a tree of files, and what the router reads from it
    (worker/cache/filesystem.rs, worker/cache/mod.rs).

    Names the router reserves for itself are constructors of their own: a recipe sidecar is named
    after its marker path and holds the recipe's identity, which stands for SHA-256 without
    collisions, and staging directories are numbered, which stands for fresh UUIDs. */
module CacheTree {
  import opened Wrappers

  const MAX_FILE: nat := 64 * 1024

  /** One component of a path relative to the scope. Every reserved name begins `.tinyruntime-`. */
  datatype Name =
    | Plain(text: string)
    | LockFile
    | RecipeOf(marker: seq<Name>)
    | StageDir(id: nat)
    | Staged(file: StagedFile)

  /** What a session puts in its staging directory. */
  datatype StagedFile = ArtifactFile(index: nat) | IdentityFile | MarkerFile

  type Path = seq<Name>

  datatype Content = Raw(bytes: string) | Identity(recipe: CacheRecipe)

  /** `SharedFile` is a regular file with another hard link. */
  datatype Node = File(content: Content) | SharedFile | Directory | Symlink | Special

  type Tree = map<Path, Node>

  datatype CacheArtifact = CacheArtifact(path: Path, bytes: Content)
  datatype CacheEntryKind = FileEntry | DirectoryEntry | AnyEntry
  datatype CacheEntry = CacheEntry(path: Path, kind: CacheEntryKind)
  datatype Adoption = Strict | AdoptVerifiedLegacy

  datatype CacheRecipe = CacheRecipe(
    artifacts: seq<CacheArtifact>,
    steps: seq<string>,
    required: seq<CacheEntry>,
    marker: CacheArtifact,
    adoption: Adoption)

  datatype Fault = EntryUnsafe | IoFailed | LegacyChanged | RequiredMissing | ArtifactChanged |
                   StageFailed | BindingChanged | LockFailed | LockUnsafe |
                   Timeout | Canceled | CommandFailed | CleanupFailed

  datatype Readiness = Cached | Legacy | Rebuild

  function Size(c: Content): nat {
    match c
    case Raw(bytes) => |bytes|
    case Identity(_) => 64
  }

  /** The router's own record of the recipe that last completed for a marker path. */
  function SidecarPath(marker: Path): Path {
    [RecipeOf(marker)]
  }

  function RecipeIdentity(recipe: CacheRecipe): CacheArtifact {
    CacheArtifact(SidecarPath(recipe.marker.path), Identity(recipe))
  }

  // ---------------------------------------------------------------- validated recipes

  /** An accepted relative path: it has components, and none of them is reserved. */
  predicate Relative(p: Path) {
    p != [] && forall i | 0 <= i < |p| :: p[i].Plain?
  }

  predicate Reserved(p: Path) {
    p != [] && !p[0].Plain?
  }

  predicate InStaging(p: Path) {
    p != [] && (p[0].StageDir? || p[0].LockFile?)
  }

  ghost predicate Validated(r: CacheRecipe) {
    && Relative(r.marker.path) && Size(r.marker.bytes) <= MAX_FILE
    && (forall a | a in r.artifacts :: Relative(a.path) && Size(a.bytes) <= MAX_FILE && a.path != r.marker.path)
    && (forall i, j | 0 <= i < j < |r.artifacts| :: r.artifacts[i].path != r.artifacts[j].path)
    && (forall e | e in r.required :: Relative(e.path))
  }

  // ---------------------------------------------------------------- trees

  /** Every directory on the way to `p` is there and is a directory. */
  ghost predicate Reachable(t: Tree, p: Path) {
    p != [] && forall i | 0 < i < |p| :: p[..i] in t && t[p[..i]] == Directory
  }

  /** Nothing hangs in the air. */
  ghost predicate WellFormed(t: Tree) {
    forall p | p in t :: Reachable(t, p)
  }

  predicate IsFile(t: Tree, p: Path) {
    p in t && t[p].File?
  }

  /** The walk along the directories of a path, one component at a time. */
  predicate WalkFrom(t: Tree, p: Path, i: nat)
    decreases |p| - i
  {
    if i >= |p| then i > 0 else i > 0 && p[..i] in t && t[p[..i]] == Directory && WalkFrom(t, p, i + 1)
  }

  lemma {:induction false} WalkFromIff(t: Tree, p: Path, i: nat)
    requires 0 < i
    ensures WalkFrom(t, p, i) <==> forall k | i <= k < |p| :: p[..k] in t && t[p[..k]] == Directory
    decreases |p| - i
  {
    if i < |p| {
      WalkFromIff(t, p, i + 1);
    }
  }

  /** Whether the parent of `p` can be opened. */
  predicate ParentOpens(t: Tree, p: Path) {
    p != [] && WalkFrom(t, p, 1)
  }

  lemma ParentOpensIff(t: Tree, p: Path)
    ensures ParentOpens(t, p) <==> Reachable(t, p)
  {
    WalkFromIff(t, p, 1);
  }

  /** Whether a file holds exactly the artifact's bytes. An entry that is not an unshared regular
      file is refused, not compared. */
  function Matches(t: Tree, a: CacheArtifact): (r: Result<bool, Fault>)
    ensures r.Err? ==> r.error in {IoFailed, EntryUnsafe}
  {
    if !ParentOpens(t, a.path) || a.path !in t then Ok(false)
    else match t[a.path]
         case File(c) => Ok(Size(c) <= MAX_FILE && c == a.bytes)
         case Symlink => Err(IoFailed)
         case _ => Err(EntryUnsafe)
  }

  function RegularFileExists(t: Tree, p: Path): (r: Result<bool, Fault>)
    ensures r.Err? ==> r.error == EntryUnsafe
  {
    if !ParentOpens(t, p) || p !in t then Ok(false)
    else if t[p].File? then Ok(true) else Err(EntryUnsafe)
  }

  predicate KindHolds(n: Node, kind: CacheEntryKind) {
    match kind
    case FileEntry => n.File?
    case DirectoryEntry => n.Directory?
    case AnyEntry => !n.Special?
  }

  predicate RequiredHolds(t: Tree, e: CacheEntry) {
    ParentOpens(t, e.path) && e.path in t && KindHolds(t[e.path], e.kind)
  }

  /** Whether all artifacts from `i` on match, stopping at the first that does not. */
  function ArtifactsMatch(t: Tree, artifacts: seq<CacheArtifact>, i: nat): (r: Result<bool, Fault>)
    ensures r.Err? ==> r.error in {IoFailed, EntryUnsafe}
    decreases |artifacts| - i
  {
    if i >= |artifacts| then Ok(true)
    else match Matches(t, artifacts[i])
         case Err(fault) => Err(fault)
         case Ok(same) => if same then ArtifactsMatch(t, artifacts, i + 1) else Ok(false)
  }

  predicate RequiredAllHold(t: Tree, required: seq<CacheEntry>, i: nat)
    decreases |required| - i
  {
    i >= |required| || (RequiredHolds(t, required[i]) && RequiredAllHold(t, required, i + 1))
  }

  /** The classification a session starts from. */
  function ReadinessOf(t: Tree, r: CacheRecipe): (found: Result<Readiness, Fault>)
    ensures found.Err? ==> found.error in {IoFailed, EntryUnsafe}
  {
    match Matches(t, r.marker)
    case Err(fault) => Err(fault)
    case Ok(marked) =>
      if !marked || !RequiredAllHold(t, r.required, 0) then Ok(Rebuild)
      else match ArtifactsMatch(t, r.artifacts, 0)
           case Err(fault) => Err(fault)
           case Ok(same) =>
             if !same then Ok(Rebuild)
             else match RegularFileExists(t, SidecarPath(r.marker.path))
                  case Err(fault) => Err(fault)
                  case Ok(identified) =>
                    if identified then
                      match Matches(t, RecipeIdentity(r))
                      case Err(fault) => Err(fault)
                      case Ok(ours) => Ok(if ours then Cached else Rebuild)
                    else Ok(if r.adoption.Strict? then Rebuild else Legacy)
  }

  // ---------------------------------------------------------------- what the answers mean

  ghost predicate Holds(t: Tree, a: CacheArtifact) {
    Reachable(t, a.path) && a.path in t && t[a.path] == File(a.bytes) && Size(a.bytes) <= MAX_FILE
  }

  /** What a recipe's commands have to leave: its required entries and its artifacts. */
  ghost predicate Payload(t: Tree, r: CacheRecipe) {
    && (forall e | e in r.required :: Reachable(t, e.path) && e.path in t && KindHolds(t[e.path], e.kind))
    && (forall a | a in r.artifacts :: Holds(t, a))
  }

  /** Everything is in place: payload and marker. */
  ghost predicate Provisioned(t: Tree, r: CacheRecipe) {
    Holds(t, r.marker) && Payload(t, r)
  }

  lemma MatchesIff(t: Tree, a: CacheArtifact)
    ensures Matches(t, a) == Ok(true) <==> Holds(t, a)
  {
    ParentOpensIff(t, a.path);
  }

  lemma {:induction false} ArtifactsMatchIff(t: Tree, artifacts: seq<CacheArtifact>, i: nat)
    ensures ArtifactsMatch(t, artifacts, i) == Ok(true) <==>
            forall k | i <= k < |artifacts| :: Holds(t, artifacts[k])
    decreases |artifacts| - i
  {
    if i < |artifacts| {
      MatchesIff(t, artifacts[i]);
      ArtifactsMatchIff(t, artifacts, i + 1);
    }
  }

  lemma {:induction false} RequiredAllHoldIff(t: Tree, required: seq<CacheEntry>, i: nat)
    ensures RequiredAllHold(t, required, i) <==>
            forall k | i <= k < |required| ::
              Reachable(t, required[k].path) && required[k].path in t && KindHolds(t[required[k].path], required[k].kind)
    decreases |required| - i
  {
    if i < |required| {
      ParentOpensIff(t, required[i].path);
      RequiredAllHoldIff(t, required, i + 1);
    }
  }

  /** A scope is Cached for a recipe exactly when the payload is in place and the sidecar records
      this very recipe; it is Legacy exactly when the payload is in place, there is no sidecar at
      all, and the recipe opted in to adoption. */
  lemma ReadinessIff(t: Tree, r: CacheRecipe)
    ensures ReadinessOf(t, r) == Ok(Cached) <==>
            Provisioned(t, r) && SidecarPath(r.marker.path) in t
            && t[SidecarPath(r.marker.path)] == File(Identity(r))
    ensures ReadinessOf(t, r) == Ok(Legacy) <==>
            Provisioned(t, r) && SidecarPath(r.marker.path) !in t && r.adoption.AdoptVerifiedLegacy?
  {
    MatchesIff(t, r.marker);
    ArtifactsMatchIff(t, r.artifacts, 0);
    RequiredAllHoldIff(t, r.required, 0);
    MatchesIff(t, RecipeIdentity(r));
    ParentOpensIff(t, SidecarPath(r.marker.path));
    assert Provisioned(t, r) <==>
      Matches(t, r.marker) == Ok(true) && RequiredAllHold(t, r.required, 0)
      && ArtifactsMatch(t, r.artifacts, 0) == Ok(true) by
    {
      if Provisioned(t, r) {
        forall k | 0 <= k < |r.artifacts| ensures Holds(t, r.artifacts[k]) {
          assert r.artifacts[k] in r.artifacts;
        }
        forall k | 0 <= k < |r.required|
          ensures var e := r.required[k]; Reachable(t, e.path) && e.path in t && KindHolds(t[e.path], e.kind)
        {
          assert r.required[k] in r.required;
        }
      }
    }
  }
}
