/** The names an install works with, all in one cache root (store/mod.rs, store/lock.rs): the lock
    file and the aside directory, both derived from the install directory's name by replacing its
    extension, and the staging directory. */
module InstallNames {
  import opened Handles

  const STAGING_PREFIX := ".stage-"

  /** The position of the last dot, or -1. */
  function LastDot(s: string): (i: int)
    ensures -1 <= i < |s|
    ensures i >= 0 ==> s[i] == '.'
    ensures forall k | i < k < |s| :: s[k] != '.'
  {
    if s == [] then -1
    else if s[|s| - 1] == '.' then |s| - 1
    else LastDot(s[..|s| - 1])
  }

  /** The file stem: a name without its extension. A leading dot starts no extension. */
  function Stem(name: string): string {
    if name == ".." || LastDot(name) <= 0 then name else name[..LastDot(name)]
  }

  predicate HasExtension(name: string, prefix: string) {
    name != ".." && LastDot(name) > 0 && prefix <= name[LastDot(name) + 1..]
  }

  function WithExtension(name: string, extension: string): string {
    Stem(name) + "." + extension
  }

  function LockName(name: string): string {
    WithExtension(name, "lock")
  }

  function AsideName(name: string, pid: nat): string {
    WithExtension(name, "replaced-" + Decimal(pid))
  }

  function StagingName(pid: nat, id: string): string {
    STAGING_PREFIX + Decimal(pid) + "-" + id
  }

  predicate IsStaging(name: string) {
    STAGING_PREFIX <= name
  }

  /** A name a provider may install under: not one of the protocol's own. */
  predicate Ordinary(name: string) {
    name != "" && name != ".." && !IsStaging(name) && !HasExtension(name, "replaced-") && !HasExtension(name, "lock")
  }

  lemma LastDotBeforeExtension(stem: string, extension: string)
    requires forall k | 0 <= k < |extension| :: extension[k] != '.'
    ensures LastDot(stem + "." + extension) == |stem|
  {
    var s := stem + "." + extension;
    LastDotIs(s, |stem|);
  }

  lemma LastDotIs(s: string, i: nat)
    requires i < |s| && s[i] == '.' && forall k | i < k < |s| :: s[k] != '.'
    ensures LastDot(s) == i
  {
  }

  lemma AsideParts(name: string, pid: nat)
    requires name != ""
    ensures var aside := AsideName(name, pid);
            && LastDot(aside) == |Stem(name)| > 0 && aside[..|Stem(name)|] == Stem(name)
            && aside[|Stem(name)| + 1..] == "replaced-" + Decimal(pid)
  {
    var extension := "replaced-" + Decimal(pid);
    LastDotBeforeExtension(Stem(name), extension);
  }

  /** Two install directories share an aside name exactly when the same process replaces both and
      they share a lock: whoever may use an aside name holds the lock that guards it. */
  lemma SharedAsideIff(a: string, p: nat, b: string, q: nat)
    requires a != "" && b != "" && p <= U64_MAX && q <= U64_MAX
    ensures AsideName(a, p) == AsideName(b, q) <==> p == q && LockName(a) == LockName(b)
  {
    AsideParts(a, p);
    AsideParts(b, q);
    if AsideName(a, p) == AsideName(b, q) {
      var shared := "replaced-";
      assert (shared + Decimal(p))[|shared|..] == Decimal(p);
      assert (shared + Decimal(q))[|shared|..] == Decimal(q);
      DecimalRoundTrip(p);
      DecimalRoundTrip(q);
    }
    if LockName(a) == LockName(b) {
      SameLockSameStem(a, b);
    }
  }

  lemma SameLockSameStem(a: string, b: string)
    requires LockName(a) == LockName(b)
    ensures Stem(a) == Stem(b)
  {
    var lock := ".lock";
    assert LockName(a) == Stem(a) + lock && LockName(b) == Stem(b) + lock;
    assert LockName(a)[..|Stem(a)|] == Stem(a);
    assert LockName(b)[..|Stem(b)|] == Stem(b);
  }

  /** An aside name is neither an install directory's nor a staging directory's. */
  lemma AsideIsApart(name: string, pid: nat)
    requires Ordinary(name)
    ensures !Ordinary(AsideName(name, pid)) && !IsStaging(AsideName(name, pid))
  {
    AsideParts(name, pid);
    var aside, stem := AsideName(name, pid), Stem(name);
    assert |aside| > 2;
    if |stem| < |STAGING_PREFIX| {
      assert aside[|stem|] == '.' != STAGING_PREFIX[|stem|];
    } else {
      var n := |STAGING_PREFIX|;
      assert aside[..n] == stem[..n] == name[..n];
    }
  }

  /** Staging names are skipped by whoever looks for finished installs. */
  lemma StagingIsApart(pid: nat, id: string)
    ensures IsStaging(StagingName(pid, id)) && !Ordinary(StagingName(pid, id))
  {
  }

  // ---------------------------------------------------------------- names by what they are for

  /** A directory name of the cache root by its role. */
  datatype Name = Install(name: string) | Aside(stem: string, pid: nat) | Staging(owner: nat, id: string)

  /** The aside name of an install directory: shared by all that share its stem, hence its lock. */
  function AsideOf(name: string, pid: nat): Name {
    Aside(Stem(name), pid)
  }

  function Text(n: Name): string {
    match n
    case Install(name) => name
    case Aside(stem, pid) => stem + "." + "replaced-" + Decimal(pid)
    case Staging(owner, id) => StagingName(owner, id)
  }

  /** Names in use: ordinary install directories, their asides, and staging directories. */
  ghost predicate InUse(n: Name) {
    match n
    case Install(name) => Ordinary(name)
    case Aside(stem, pid) => pid <= U64_MAX && exists name :: Ordinary(name) && stem == Stem(name)
    case Staging(owner, _) => owner <= U64_MAX
  }

  lemma AsideText(name: string, pid: nat)
    ensures Text(AsideOf(name, pid)) == AsideName(name, pid)
  {
    assert Stem(name) + "." + "replaced-" + Decimal(pid) == Stem(name) + "." + ("replaced-" + Decimal(pid));
  }

  /** Names of different roles are different strings, and so are the aside names of different stems
      or processes. Telling names apart by role loses nothing. */
  lemma RolesAreDistinct(a: Name, b: Name)
    requires InUse(a) && InUse(b) && Text(a) == Text(b) && !(a.Staging? && b.Staging?)
    ensures a == b
  {
    match (a, b)
    case (Install(_), Install(_)) =>
    case (Aside(_, _), Aside(_, _)) =>
      var m :| Ordinary(m) && a.stem == Stem(m);
      var n :| Ordinary(n) && b.stem == Stem(n);
      AsideText(m, a.pid);
      AsideText(n, b.pid);
      SharedAsideIff(m, a.pid, n, b.pid);
      SameLockSameStem(m, n);
    case (Aside(_, _), _) =>
      var m :| Ordinary(m) && a.stem == Stem(m);
      AsideText(m, a.pid);
      AsideIsApart(m, a.pid);
    case (_, Aside(_, _)) =>
      var m :| Ordinary(m) && b.stem == Stem(m);
      AsideText(m, b.pid);
      AsideIsApart(m, b.pid);
    case (Install(_), Staging(owner, id)) => StagingIsApart(owner, id);
    case (Staging(owner, id), Install(_)) => StagingIsApart(owner, id);
  }
}
