/** Exactly when a cache scope is crash safe (worker/cache/mod.rs, worker/cache/validate.rs): when no
    recipe used with it lists another recipe's marker, path and bytes alike, among its artifacts. A
    recipe is validated on its own, so validation cannot see this; whoever writes the recipes of a
    scope can. */
module CrashSafety {
  import opened Wrappers
  import opened CacheTree
  import opened CacheProtocol

  function MarkersOf(recipes: set<CacheRecipe>): set<CacheArtifact> {
    set r | r in recipes :: r.marker
  }

  /** Every session is one of these recipes'. */
  ghost predicate Drawn(events: seq<Event>, recipes: set<CacheRecipe>) {
    forall i | 0 <= i < |events| && events[i].Lock? :: events[i].recipe in recipes
  }

  /** What publication or adoption last completed on the recipe's marker path was its own. */
  ghost predicate Recorded(s: Scope, r: CacheRecipe) {
    r.marker.path in s.published && s.published[r.marker.path] == r
  }

  /** Whatever sessions of these recipes do from here on, and wherever they die, a scope that reads
      as Cached for one of them was last published by it. */
  ghost predicate CrashSafe(recipes: set<CacheRecipe>, start: Scope) {
    forall states: seq<Scope>, events: seq<Event>, i: nat, r: CacheRecipe |
      && Steps(MarkersOf(recipes), states, events) && Drawn(events, recipes) && states[0] == start
      && i < |states| && r in recipes && ReadinessOf(states[i].tree, r) == Ok(Cached) ::
        Recorded(states[i], r)
  }

  /** No artifact of any of them is a marker of any of them. */
  ghost predicate Disjoint(recipes: set<CacheRecipe>) {
    forall v, r | v in recipes && r in recipes :: r.marker !in v.artifacts
  }

  /** A sound scope is crash safe under any set of such recipes. */
  lemma DisjointRecipesAreCrashSafe(recipes: set<CacheRecipe>, start: Scope)
    requires Disjoint(recipes) && Inv(MarkersOf(recipes), start)
    ensures CrashSafe(recipes, start)
  {
    var markers := MarkersOf(recipes);
    forall states: seq<Scope>, events: seq<Event>, i: nat, r: CacheRecipe |
      && Steps(markers, states, events) && Drawn(events, recipes) && states[0] == start
      && i < |states| && r in recipes && ReadinessOf(states[i].tree, r) == Ok(Cached)
      ensures Recorded(states[i], r)
    {
      forall k | 0 <= k < |events| ensures Respectful(events[k], markers) {
        if events[k].Lock? {
          RespectsAll(recipes, events[k].recipe);
        }
      }
      RunKeepsInv(markers, states, events, i);
      ReadinessIff(states[i].tree, r);
      assert MarkerInv(states[i], r.marker);
    }
  }

  lemma RespectsAll(recipes: set<CacheRecipe>, v: CacheRecipe)
    requires Disjoint(recipes) && v in recipes
    ensures Respects(v, MarkersOf(recipes))
  {
  }

  // ---------------------------------------------------------------- what goes wrong otherwise

  /** An identifier under which nothing is staged. */
  lemma {:induction false} FreshId(paths: set<Path>) returns (id: nat)
    ensures forall p: Path, n: nat | p in paths && p != [] && p[0] == StageDir(n) :: n < id
    decreases paths
  {
    if paths == {} {
      id := 0;
    } else {
      var q: Path :| q in paths;
      id := FreshId(paths - {q});
      if q != [] && q[0].StageDir? && q[0].id >= id {
        id := q[0].id + 1;
      }
    }
  }

  /** The staging directory `id` with one artifact in it. */
  function WithStaged(t: Tree, id: nat, k: nat, bytes: Content): Tree {
    t[[StageDir(id)] := Directory][[StageDir(id), Staged(ArtifactFile(k))] := File(bytes)]
  }

  lemma StagingOne(t: Tree, id: nat, k: nat, bytes: Content)
    requires WellFormed(t) && forall p | p in t :: p != [] && p[0] != StageDir(id)
    ensures OnlyStaging(t, WithStaged(t, id, k, bytes))
    ensures HoldsStaged(WithStaged(t, id, k, bytes), [StageDir(id), Staged(ArtifactFile(k))], bytes)
  {
    var t' := WithStaged(t, id, k, bytes);
    var file := [StageDir(id), Staged(ArtifactFile(k))];
    assert file[..1] == [StageDir(id)];
    forall p | p in t' ensures Reachable(t', p) {
      if p != file && p != [StageDir(id)] {
        assert Reachable(t, p);
        forall i | 0 < i < |p| ensures p[..i] in t' && t'[p[..i]] == Directory {
          assert p[..i] in t && t[p[..i]] == Directory && p[..i][0] == p[0];
        }
      }
    }
  }

  lemma UnmarkedIsRebuild(t: Tree, q: CacheRecipe)
    requires q.marker.path !in t
    ensures ReadinessOf(t, q) == Ok(Rebuild)
  {
  }

  // ---------------------------------------------------------------- recipes that do not meet

  /** The paths a recipe needs to read as Cached or Legacy, apart from its sidecar. */
  ghost predicate Lists(r: CacheRecipe, p: Path) {
    || p == r.marker.path
    || (exists a | a in r.artifacts :: a.path == p)
    || (exists e | e in r.required :: e.path == p)
  }

  /** Nothing the recipe needs is at `m` or below. */
  ghost predicate Clear(r: CacheRecipe, m: Path) {
    forall p | Lists(r, p) :: !(m <= p)
  }

  /** The tree without what is at `m` and below. */
  function Without(t: Tree, m: Path): Tree {
    map p | p in t && !(m <= p) :: t[p]
  }

  lemma WithoutKeepsWellFormed(t: Tree, m: Path)
    requires WellFormed(t)
    ensures WellFormed(Without(t, m))
  {
    forall p | p in Without(t, m) ensures Reachable(Without(t, m), p) {
      WithoutKeepsReach(t, m, p);
    }
  }

  lemma WithoutKeepsReach(t: Tree, m: Path, p: Path)
    requires Reachable(t, p) && !(m <= p)
    ensures Reachable(Without(t, m), p)
  {
    forall i | 0 < i < |p| ensures p[..i] in Without(t, m) && Without(t, m)[p[..i]] == Directory {
      assert |m| <= i ==> p[..i][..|m|] == p[..|m|];
    }
  }

  /** What a recipe does not need does not matter to it. */
  lemma WithoutKeepsReadiness(t: Tree, m: Path, r: CacheRecipe)
    requires WellFormed(t) && Relative(m) && Clear(r, m) && ReadinessOf(t, r) in {Ok(Cached), Ok(Legacy)}
    ensures ReadinessOf(Without(t, m), r) == ReadinessOf(t, r)
  {
    var t' := Without(t, m);
    ReadinessIff(t, r);
    ReadinessIff(t', r);
    assert Lists(r, r.marker.path);
    WithoutKeepsReach(t, m, r.marker.path);
    forall e | e in r.required ensures Reachable(t', e.path) && e.path in t' && KindHolds(t'[e.path], e.kind) {
      assert Lists(r, e.path);
      WithoutKeepsReach(t, m, e.path);
    }
    forall a | a in r.artifacts ensures Holds(t', a) {
      assert Lists(r, a.path);
      WithoutKeepsReach(t, m, a.path);
    }
    var sidecar := SidecarPath(r.marker.path);
    assert m[0].Plain? && sidecar[0] != m[0];
  }

  // ---------------------------------------------------------------- the run

  /** What somebody outside may do first: remove the marker of `r`, and all that is at or below the
      marker path of `v`. */
  function Bared(t: Tree, r: CacheRecipe, v: CacheRecipe): Tree {
    Without(t, v.marker.path) - {r.marker.path}
  }

  lemma BaringIsOutside(markers: set<CacheArtifact>, t: Tree, r: CacheRecipe, v: CacheRecipe)
    requires WellFormed(t) && Marked(t, r.marker) && Relative(r.marker.path) && Relative(v.marker.path)
    ensures WellFormed(Bared(t, r, v)) && Untouched(t, Bared(t, r, v), markers)
  {
    WithoutKeepsWellFormed(t, v.marker.path);
    RemovalKeepsWellFormed(Without(t, v.marker.path), r.marker.path);
    assert v.marker.path[0].Plain? && r.marker.path[0].Plain?;
  }

  /** Both markers are removed, the recipe `r` begins to rebuild, and dies. */
  lemma RebuildDies(markers: set<CacheArtifact>, start: Scope, r: CacheRecipe, v: CacheRecipe) returns (s: seq<Scope>)
    requires WellFormed(start.tree) && start.holder.None? && Admissible(r, markers) && Marked(start.tree, r.marker)
    requires Relative(v.marker.path)
    ensures |s| == 5 && s[0] == start
    ensures var m := r.marker.path;
            s[4] == Scope(Bared(start.tree, r, v), None, start.published - {m}, start.begun + {m})
    ensures Steps(markers, s, [Outside(Bared(start.tree, r, v)), Lock(r), Invalidate, Release])
  {
    var m := r.marker.path;
    var t := Bared(start.tree, r, v);
    BaringIsOutside(markers, start.tree, r, v);
    UnmarkedIsRebuild(t, r);
    var s1 := start.(tree := t);
    var s2 := s1.(holder := Some(Holder(r, Rebuild, Looking)));
    var s3 := Scope(t, Some(Holder(r, Rebuild, Provisioning)), start.published - {m}, start.begun + {m});
    var s4 := s3.(holder := None);
    assert t - {m} == t;
    assert Next(markers, start, Outside(t), s1) && Next(markers, s1, Lock(r), s2);
    assert Next(markers, s2, Invalidate, s3) && Next(markers, s3, Release, s4);
    s := [start, s1, s2, s3, s4];
  }

  /** The other recipe begins its own install and stages the artifact that is also the marker. */
  lemma OtherStages(markers: set<CacheArtifact>, start: Scope, v: CacheRecipe, k: nat, id: nat)
    returns (s: seq<Scope>)
    requires WellFormed(start.tree) && start.holder.None? && Admissible(v, markers)
    requires v.marker.path !in start.tree && k < |v.artifacts|
    requires forall p | p in start.tree :: p != [] && p[0] != StageDir(id)
    ensures var t := WithStaged(start.tree, id, k, v.artifacts[k].bytes);
            && |s| == 4 && s[0] == start
            && s[3] == Scope(t, Some(Holder(v, Rebuild, Provisioning)),
                             start.published - {v.marker.path}, start.begun + {v.marker.path})
            && Steps(markers, s, [Lock(v), Invalidate, Housekeeping(t)])
  {
    var m := v.marker.path;
    UnmarkedIsRebuild(start.tree, v);
    var t := WithStaged(start.tree, id, k, v.artifacts[k].bytes);
    StagingOne(start.tree, id, k, v.artifacts[k].bytes);
    var s1 := start.(holder := Some(Holder(v, Rebuild, Looking)));
    var s2 := Scope(start.tree, Some(Holder(v, Rebuild, Provisioning)), start.published - {m}, start.begun + {m});
    var s3 := s2.(tree := t);
    assert start.tree - {m} == start.tree;
    assert Next(markers, start, Lock(v), s1) && Next(markers, s1, Invalidate, s2);
    assert Next(markers, s2, Housekeeping(t), s3);
    s := [start, s1, s2, s3];
  }

  /** A staged copy of a marker that lands where the marker was restores the scope. */
  lemma LandsAgain(t: Tree, staged: Tree, source: Path, marker: CacheArtifact)
    requires WellFormed(t) && Marked(t, marker) && Relative(marker.path)
    requires OnlyStaging(t - {marker.path}, staged) && HoldsStaged(staged, source, marker.bytes)
    ensures MayLand(staged, marker.path) && OnlyStaging(t, Renamed(staged, source, marker.path))
  {
    var m := marker.path;
    assert Reachable(t, m);
    forall i | 0 < i < |m| ensures m[..i] in staged && staged[m[..i]] == Directory {
      assert m[..i] in t && t[m[..i]] == Directory && !InStaging(m[..i]);
    }
    RenamedKeepsWellFormed(staged, source, m, marker.bytes);
  }

  /** The staged copy lands where the marker was. */
  lemma MarkerReturns(
    markers: set<CacheArtifact>, t: Tree, staged: Scope, r: CacheRecipe, v: CacheRecipe, k: nat, source: Path)
    returns (last: Scope)
    requires WellFormed(t) && Validated(r) && ReadinessOf(t, r) in {Ok(Cached), Ok(Legacy)}
    requires staged.holder == Some(Holder(v, Rebuild, Provisioning))
    requires k < |v.artifacts| && v.artifacts[k] == r.marker
    requires OnlyStaging(t - {r.marker.path}, staged.tree) && HoldsStaged(staged.tree, source, r.marker.bytes)
    ensures Steps(markers, [staged, last], [PromoteArtifact(k, source)])
    ensures ReadinessOf(last.tree, r) == ReadinessOf(t, r)
    ensures last.published == staged.published && last.begun == staged.begun
  {
    ReadinessIff(t, r);
    LandsAgain(t, staged.tree, source, r.marker);
    last := staged.(tree := Renamed(staged.tree, source, r.marker.path));
    assert Next(markers, staged, PromoteArtifact(k, source), last);
    StagingKeepsReadiness(t, last.tree, r);
  }

  /** The rebuild dies and the other recipe stages its copy of the marker. */
  lemma OverlapStages(markers: set<CacheArtifact>, start: Scope, r: CacheRecipe, v: CacheRecipe, k: nat)
    returns (s: seq<Scope>, e: seq<Event>, source: Path)
    requires WellFormed(start.tree) && start.holder.None? && Marked(start.tree, r.marker)
    requires Admissible(r, markers) && Admissible(v, markers) && k < |v.artifacts|
    ensures Steps(markers, s, e) && s[0] == start
    ensures forall i | 0 <= i < |e| && e[i].Lock? :: e[i].recipe in {r, v}
    ensures var last := s[|s| - 1];
            && last.holder == Some(Holder(v, Rebuild, Provisioning))
            && OnlyStaging(Bared(start.tree, r, v), last.tree) && HoldsStaged(last.tree, source, v.artifacts[k].bytes)
            && r.marker.path !in last.published && r.marker.path in last.begun
  {
    var first := RebuildDies(markers, start, r, v);
    var bare := Bared(start.tree, r, v);
    BaringIsOutside(markers, start.tree, r, v);
    var id := FreshId(bare.Keys);
    assert v.marker.path <= v.marker.path;
    var second := OtherStages(markers, first[4], v, k, id);
    source := [StageDir(id), Staged(ArtifactFile(k))];
    StagingOne(bare, id, k, v.artifacts[k].bytes);
    var e1 := [Outside(bare), Lock(r), Invalidate, Release];
    var e2 := [Lock(v), Invalidate, Housekeeping(second[3].tree)];
    s := StepsCompose(markers, first, e1, second, e2);
    e := e1 + e2;
  }

  /** Whatever sound scope reads as Cached or Legacy for `r`: a recipe `v` that lists the marker of `r`
      as its artifact `k`, while `r` needs nothing of what `v` publishes, can bring the scope to read
      the same although an install on that marker path was begun and never completed. */
  lemma OverlapRestores(recipes: set<CacheRecipe>, start: Scope, r: CacheRecipe, v: CacheRecipe, k: nat)
    returns (s: seq<Scope>, e: seq<Event>)
    requires r in recipes && v in recipes && Inv(MarkersOf(recipes), start) && start.holder.None?
    requires Validated(r) && Validated(v) && Clear(r, v.marker.path)
    requires ReadinessOf(start.tree, r) in {Ok(Cached), Ok(Legacy)}
    requires k < |v.artifacts| && v.artifacts[k] == r.marker
    ensures Steps(MarkersOf(recipes), s, e) && Drawn(e, recipes) && s[0] == start
    ensures var last := s[|s| - 1];
            && ReadinessOf(last.tree, r) == ReadinessOf(start.tree, r)
            && r.marker.path !in last.published && r.marker.path in last.begun
  {
    var markers := MarkersOf(recipes);
    ReadinessIff(start.tree, r);
    WithoutKeepsReadiness(start.tree, v.marker.path, r);
    WithoutKeepsWellFormed(start.tree, v.marker.path);
    var source: Path;
    s, e, source := OverlapStages(markers, start, r, v, k);
    var staged := s[|s| - 1];
    var last := MarkerReturns(markers, Without(start.tree, v.marker.path), staged, r, v, k, source);
    s := StepsCompose(markers, s, e, [staged, last], [PromoteArtifact(k, source)]);
    e := e + [PromoteArtifact(k, source)];
  }

  lemma StepsCompose(markers: set<CacheArtifact>, s: seq<Scope>, e: seq<Event>, more: seq<Scope>, then': seq<Event>)
    returns (all: seq<Scope>)
    requires Steps(markers, s, e) && Steps(markers, more, then') && more[0] == s[|s| - 1]
    ensures Steps(markers, all, e + then') && all[0] == s[0] && all[|all| - 1] == more[|more| - 1]
  {
    all := s[..|e|] + more;
    forall i | 0 <= i < |e + then'| ensures Next(markers, all[i], (e + then')[i], all[i + 1]) {
      if i < |e| {
        assert all[i] == s[i] && all[i + 1] == s[i + 1];
      } else {
        assert all[i] == more[i - |e|] && all[i + 1] == more[i - |e| + 1];
      }
    }
  }

  // ---------------------------------------------------------------- exactly when

  lemma ClearPairsAreDisjoint(r: CacheRecipe, v: CacheRecipe)
    requires Validated(r) && Validated(v) && Clear(r, v.marker.path) && r.marker !in v.artifacts
    ensures Disjoint({r, v})
  {
    forall a | a in r.artifacts ensures a != v.marker {
      assert Lists(r, a.path);
    }
  }

  /** The exact condition for crash safety. A sound scope that reads as Cached for `r`, whether or not
      `v` is installed too, is crash safe under these two recipes if and only if the marker of `r` is
      not among the artifacts of `v`. */
  lemma CrashSafeIff(start: Scope, r: CacheRecipe, v: CacheRecipe)
    requires Validated(r) && Validated(v) && Clear(r, v.marker.path)
    requires Inv(MarkersOf({r, v}), start) && start.holder.None? && ReadinessOf(start.tree, r) == Ok(Cached)
    ensures CrashSafe({r, v}, start) <==> r.marker !in v.artifacts
  {
    if r.marker in v.artifacts {
      var k :| 0 <= k < |v.artifacts| && v.artifacts[k] == r.marker;
      var s, e := OverlapRestores({r, v}, start, r, v, k);
      var n := |s| - 1;
      assert ReadinessOf(s[n].tree, r) == Ok(Cached) && !Recorded(s[n], r);
    } else {
      ClearPairsAreDisjoint(r, v);
      DisjointRecipesAreCrashSafe({r, v}, start);
    }
  }

  /** Whatever sessions of these recipes do from here on, and wherever they die, where one of them has
      begun to install the scope never again reads as Legacy for it. */
  ghost predicate NeverReadopted(recipes: set<CacheRecipe>, start: Scope) {
    forall states: seq<Scope>, events: seq<Event>, i: nat, r: CacheRecipe |
      && Steps(MarkersOf(recipes), states, events) && Drawn(events, recipes) && states[0] == start
      && i < |states| && r in recipes && r.marker.path in states[i].begun ::
        ReadinessOf(states[i].tree, r) != Ok(Legacy)
  }

  lemma DisjointRecipesAreNeverReadopted(recipes: set<CacheRecipe>, start: Scope)
    requires Disjoint(recipes) && Inv(MarkersOf(recipes), start)
    ensures NeverReadopted(recipes, start)
  {
    var markers := MarkersOf(recipes);
    forall states: seq<Scope>, events: seq<Event>, i: nat, r: CacheRecipe |
      && Steps(markers, states, events) && Drawn(events, recipes) && states[0] == start
      && i < |states| && r in recipes && r.marker.path in states[i].begun
      ensures ReadinessOf(states[i].tree, r) != Ok(Legacy)
    {
      forall k | 0 <= k < |events| ensures Respectful(events[k], markers) {
        if events[k].Lock? {
          RespectsAll(recipes, events[k].recipe);
        }
      }
      NeverLegacyAgain(markers, states, events, i, i, r);
    }
  }

  /** The exact condition for a failed rebuild never to become adoptable: a sound scope that reads as
      Legacy for `r` can be brought to do so again after an install was begun there if and only if the
      marker of `r` is among the artifacts of `v`. */
  lemma NeverReadoptedIff(start: Scope, r: CacheRecipe, v: CacheRecipe)
    requires Validated(r) && Validated(v) && Clear(r, v.marker.path)
    requires Inv(MarkersOf({r, v}), start) && start.holder.None? && ReadinessOf(start.tree, r) == Ok(Legacy)
    ensures NeverReadopted({r, v}, start) <==> r.marker !in v.artifacts
  {
    if r.marker in v.artifacts {
      var k :| 0 <= k < |v.artifacts| && v.artifacts[k] == r.marker;
      var s, e := OverlapRestores({r, v}, start, r, v, k);
      var n := |s| - 1;
      assert ReadinessOf(s[n].tree, r) == Ok(Legacy) && r.marker.path in s[n].begun;
    } else {
      ClearPairsAreDisjoint(r, v);
      DisjointRecipesAreNeverReadopted({r, v}, start);
    }
  }
}
