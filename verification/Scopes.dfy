/** Approval of persistent cache scopes and validation of recipes (worker/cache/mod.rs,
    worker/cache/validate.rs). */
module Scopes {
  import opened Wrappers
  import opened Paths

  datatype WorkerCacheScope = WorkerCacheScope(id: string, root: string)

  datatype Fault = ScopeLimit | ScopeInvalid | ScopeForbidden | ScopeConflict |
                   RecipeLimit | ArtifactLimit | PathInvalid

  const MAX_SCOPES := 32
  const MAX_FILE := 64 * 1024
  const MAX_TOTAL := 1024 * 1024
  const SYSTEM := ["etc", "proc", "sys", "dev", "bin", "sbin", "usr", "boot"]

  predicate IsId(id: string) {
    0 < |id| <= 64 && forall c | c in id :: 'a' <= c <= 'z' || 'A' <= c <= 'Z' || '0' <= c <= '9' || c == '-' || c == '_'
  }

  /** The components of an absolute path: empty and single-dot parts say nothing. */
  function Names(parts: seq<string>): seq<string> {
    if parts == [] then []
    else
      var last := parts[|parts| - 1];
      Names(parts[..|parts| - 1]) + if last == "" || last == "." then [] else [last]
  }

  function Components(path: string): seq<string> {
    Names(Split(path, '/'))
  }

  /** A root that may be approved: absolute, at least two levels deep, nowhere near a credential
      directory, not a home directory, and not in the system's own directories. */
  ghost predicate Approvable(scope: WorkerCacheScope, home: Option<string>) {
    var names := Components(scope.root);
    && IsId(scope.id) && 0 < |scope.root| <= 4096 && scope.root[0] == '/' && '\0' !in scope.root
    && (forall n | n in names :: n != ".." && !Forbidden(n))
    && |names| >= 2 && (home.Some? ==> names != Components(home.value)) && names[0] !in SYSTEM
  }

  method Scope(scope: WorkerCacheScope, home: Option<string>) returns (r: Result<(), Fault>)
    ensures r.Ok? <==> Approvable(scope, home)
    ensures r.Err? ==> r.error == ScopeInvalid || r.error == ScopeForbidden
  {
    var root := scope.root;
    if !IsId(scope.id) || |root| > 4096 || root == "" || root[0] != '/' || '\0' in root {
      return Err(ScopeInvalid);
    }
    var count := 0;
    var parts := Split(root, '/');
    var names: seq<string> := [];
    for i := 0 to |parts|
      invariant names == Names(parts[..i]) && count == |names|
      invariant forall n | n in names :: n != ".." && !Forbidden(n)
    {
      assert parts[..i + 1][..i] == parts[..i];
      NamesGrow(parts, i + 1);
      var part := parts[i];
      if part == "" || part == "." {
        continue;
      }
      assert Names(parts[..i + 1]) == names + [part];
      assert Components(root)[|names|] == part;
      if part == ".." {
        assert ".." in Components(root);
        return Err(ScopeInvalid);
      }
      if Forbidden(part) {
        return Err(ScopeForbidden);
      }
      names := names + [part];
      count := count + 1;
    }
    assert parts[..|parts|] == parts;
    if count < 2 || (home.Some? && names == Components(home.value)) {
      return Err(ScopeForbidden);
    }
    if names[0] in SYSTEM {
      return Err(ScopeForbidden);
    }
    return Ok(());
  }

  lemma {:induction false} NamesGrow(parts: seq<string>, i: nat)
    requires i <= |parts|
    ensures Names(parts[..i]) <= Names(parts)
    decreases |parts|
  {
    if i == |parts| {
      assert parts[..i] == parts;
    } else {
      var front := parts[..|parts| - 1];
      assert front[..i] == parts[..i];
      NamesGrow(front, i);
    }
  }

  /** Two scopes that may not both be approved. */
  ghost predicate Conflicting(a: WorkerCacheScope, b: WorkerCacheScope) {
    || a.id == b.id
    || Components(a.root) <= Components(b.root)
    || Components(b.root) <= Components(a.root)
  }

  /** Approve a list of scopes: it is accepted exactly when it is short enough, every scope may be
      approved, no two share an id and no root lies inside another. */
  method Approve(scopes: seq<WorkerCacheScope>, home: Option<string>) returns (r: Result<(), Fault>)
    ensures r.Ok? <==> |scopes| <= MAX_SCOPES
                       && (forall i | 0 <= i < |scopes| :: Approvable(scopes[i], home))
                       && (forall i, j | 0 <= i < j < |scopes| :: !Conflicting(scopes[i], scopes[j]))
    ensures r == Err(ScopeLimit) <==> |scopes| > MAX_SCOPES
  {
    if |scopes| > MAX_SCOPES {
      return Err(ScopeLimit);
    }
    for index := 0 to |scopes|
      invariant forall i | 0 <= i < index :: Approvable(scopes[i], home)
      invariant forall i, j | 0 <= i < j < index :: !Conflicting(scopes[i], scopes[j])
    {
      var scope := scopes[index];
      var ok := Scope(scope, home);
      if ok.Err? {
        return ok;
      }
      for k := 0 to index
        invariant forall i | 0 <= i < k :: !Conflicting(scopes[i], scope)
      {
        var prior := scopes[k];
        if prior.id == scope.id
          || Components(prior.root) <= Components(scope.root)
          || Components(scope.root) <= Components(prior.root) {
          assert Conflicting(scopes[k], scopes[index]);
          return Err(ScopeConflict);
        }
      }
    }
    return Ok(());
  }

  /** Where a recipe's path leads in its scope. */
  function Place(scope: WorkerCacheScope, path: string): seq<string> {
    Resolve(Components(scope.root), Split(path, '/'))
  }

  /** Scopes that were approved together share nothing: no safe path of one leads to, above, or below
      a place of the other, nor to the other's root. */
  lemma ApprovedScopesAreDisjoint(a: WorkerCacheScope, b: WorkerCacheScope, p: string, q: string)
    requires !Conflicting(a, b) && SafeRelative(p) && SafeRelative(q)
    ensures a.id != b.id
    ensures !(Place(a, p) <= Place(b, q)) && !(Place(b, q) <= Place(a, p))
    ensures !(Components(b.root) <= Place(a, p)) && !(Place(a, p) <= Components(b.root))
    ensures Components(a.root) < Place(a, p)
  {
    var x, y := Components(a.root), Components(b.root);
    SafePathsStayBelow(x, p);
    SafePathsStayBelow(y, q);
    BranchesStayApart(x, y, Place(a, p), Place(b, q));
    BranchesStayApart(y, x, Place(b, q), Place(a, p));
    BranchesStayApart(y, x, y, Place(a, p));
    BranchesStayApart(x, y, Place(a, p), y);
  }

  lemma BranchesStayApart(x: seq<string>, y: seq<string>, s: seq<string>, t: seq<string>)
    requires !(x <= y) && !(y <= x) && x <= s && y <= t
    ensures !(s <= t)
  {
    if s <= t {
      PrefixesOfOneCompare(x, y, t);
    }
  }

  lemma PrefixesOfOneCompare(x: seq<string>, y: seq<string>, z: seq<string>)
    requires x <= z && y <= z
    ensures x <= y || y <= x
  {
    if |x| <= |y| {
      assert x == z[..|x|] == y[..|x|];
    } else {
      assert y == z[..|y|] == x[..|y|];
    }
  }

  // ---------------------------------------------------------------- recipes

  datatype Artifact = Artifact(path: string, bytes: nat)

  /** The parts of a recipe that are counted, sized or named; its commands are checked elsewhere. */
  datatype Recipe = Recipe(
    scope: string, artifacts: seq<Artifact>, marker: Artifact, required: seq<string>, steps: nat, timeout: nat)

  function TotalBytes(artifacts: seq<Artifact>): nat {
    if artifacts == [] then 0 else TotalBytes(artifacts[..|artifacts| - 1]) + artifacts[|artifacts| - 1].bytes
  }

  predicate WithinLimits(recipe: Recipe) {
    && IsId(recipe.scope) && |recipe.artifacts| <= 16 && |recipe.required| <= 32 && recipe.steps <= 16
    && 0 < recipe.timeout <= 4 * 60 * 60 * 1000
  }

  /** Artifacts, the marker last among them, that name distinct accepted paths and fit. */
  ghost predicate Fitting(files: seq<Artifact>) {
    && (forall i | 0 <= i < |files| :: Relative(files[i].path) && files[i].bytes <= MAX_FILE)
    && (forall i, j | 0 <= i < j < |files| :: files[i].path != files[j].path)
  }

  /** Validate a recipe: it is accepted exactly when it keeps every limit, all its paths are accepted,
      its artifacts and its marker go to distinct paths, and together they fit. */
  method Check(recipe: Recipe) returns (r: Result<(), Fault>)
    ensures r.Ok? <==>
              && WithinLimits(recipe)
              && Fitting(recipe.artifacts + [recipe.marker])
              && TotalBytes(recipe.artifacts + [recipe.marker]) <= MAX_TOTAL
              && forall i | 0 <= i < |recipe.required| :: Relative(recipe.required[i])
    ensures r == Err(RecipeLimit) <==> !WithinLimits(recipe)
  {
    if !WithinLimits(recipe) {
      return Err(RecipeLimit);
    }
    r := CheckFiles(recipe.artifacts + [recipe.marker]);
    if r.Err? {
      return;
    }
    for i := 0 to |recipe.required|
      invariant forall k | 0 <= k < i :: Relative(recipe.required[k])
    {
      if !Relative(recipe.required[i]) {
        return Err(PathInvalid);
      }
    }
    return Ok(());
  }

  /** The files of a recipe: accepted paths, no path twice, each file and all of them small enough. */
  method CheckFiles(files: seq<Artifact>) returns (r: Result<(), Fault>)
    ensures r.Ok? <==> Fitting(files) && TotalBytes(files) <= MAX_TOTAL
    ensures r.Err? ==> r.error == PathInvalid || r.error == ArtifactLimit
  {
    var paths: set<string> := {};
    var bytes := 0;
    for i := 0 to |files|
      invariant Fitting(files[..i]) && bytes == TotalBytes(files[..i])
      invariant forall p :: p in paths <==> exists k :: 0 <= k < i && files[k].path == p
    {
      assert files[..i + 1][..i] == files[..i];
      if !Relative(files[i].path) {
        return Err(PathInvalid);
      }
      if files[i].bytes > MAX_FILE || files[i].path in paths {
        return Err(ArtifactLimit);
      }
      paths := paths + {files[i].path};
      bytes := bytes + files[i].bytes;
    }
    assert files[..|files|] == files;
    return if bytes > MAX_TOTAL then Err(ArtifactLimit) else Ok(());
  }

  /** Distinct artifacts of a fitting recipe are distinct files of its scope. */
  lemma FittingArtifactsAreDistinctFiles(scope: WorkerCacheScope, files: seq<Artifact>, i: nat, j: nat)
    requires Fitting(files) && i < j < |files|
    ensures Place(scope, files[i].path) != Place(scope, files[j].path)
    ensures Components(scope.root) < Place(scope, files[i].path)
  {
    SafePathsAreApart(Components(scope.root), files[i].path, files[j].path);
    SafePathsStayBelow(Components(scope.root), files[i].path);
  }
}
