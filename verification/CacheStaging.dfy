/** Removal of a session's staging directory when names may be rebound under it
    (worker/cache/staging.rs, and `cleanup` of worker/cache/mod.rs).

    A directory is known by its identity, which stands for device and inode. Anybody may rebind the
    staging name to another directory between any two operations. The session removes through a handle
    that it gives up when it tries to remove the directory itself, and that it takes again only from a
    directory of the recorded identity. */
module CacheStaging {
  import opened Wrappers

  type Identity = nat

  datatype Target = Dir(id: Identity) | NotADirectory

  datatype Entry = Plain | Subdirectory

  datatype Removal = Named(directory: Identity, name: string) | Whole(directory: Identity)

  /** Every removal is of a recorded name from the recorded directory, or of that directory. */
  predicate OnlyRecorded(removals: seq<Removal>, identity: Identity, staged: seq<string>) {
    forall r | r in removals ::
      r.directory == identity && (r.Named? ==> r.name in staged)
  }

  lemma OnlyRecordedAppends(a: seq<Removal>, b: seq<Removal>, identity: Identity, staged: seq<string>)
    requires OnlyRecorded(a, identity, staged) && OnlyRecorded(b, identity, staged)
    ensures OnlyRecorded(a + b, identity, staged)
  {
  }

  /** No directory but this one has changed. */
  ghost predicate SameElsewhere(
    before: map<Identity, map<string, Entry>>, after: map<Identity, map<string, Entry>>, directory: Identity)
  {
    forall d | d != directory :: (d in after <==> d in before) && (d in after ==> after[d] == before[d])
  }

  class Root {
    var names: map<string, Target>
    var contents: map<Identity, map<string, Entry>>
    ghost var removals: seq<Removal>   // everything this session has ever removed

    constructor (names: map<string, Target>, contents: map<Identity, map<string, Entry>>)
      ensures this.names == names && this.contents == contents && removals == []
    {
      this.names, this.contents, removals := names, contents, [];
    }

    /** Whatever other programs do to names and contents. Callers know this contract alone; the body is
        the case in which they do nothing. */
    method Outside()
      modifies this`names, this`contents
    {
    }

    /** Open a directory by name, following no link. */
    method OpenDirectory(name: string) returns (id: Option<Identity>)
      ensures id.Some? ==> name in names && names[name] == Dir(id.value)
    {
      var works: bool := *;
      return if works && name in names && names[name].Dir? then Some(names[name].id) else None;
    }

    /** Remove a file or link through an open directory. A name that is not there is removed already. */
    method RemoveFile(directory: Identity, name: string) returns (ok: bool)
      modifies this`contents, this`removals
      ensures removals == old(removals) || removals == old(removals) + [Named(directory, name)]
      ensures SameElsewhere(old(contents), contents, directory)
      ensures ok ==> !(directory in contents && name in contents[directory])
      ensures removals == old(removals) ==> contents == old(contents)
    {
      if directory !in contents || name !in contents[directory] {
        return true;
      }
      var works: bool := *;
      if !works || contents[directory][name] == Subdirectory {
        return false;
      }
      contents := contents[directory := contents[directory] - {name}];
      removals := removals + [Named(directory, name)];
      return true;
    }

    /** Remove an open directory: wherever it is bound by now, and only if it is empty. */
    method RemoveOpenDirectory(directory: Identity) returns (ok: bool)
      modifies this`names, this`contents, this`removals
      ensures ok ==> removals == old(removals) + [Whole(directory)]
      ensures ok ==> directory !in contents && forall n | n in names :: names[n] != Dir(directory)
      ensures !ok ==> names == old(names) && contents == old(contents) && removals == old(removals)
      ensures SameElsewhere(old(contents), contents, directory)
      ensures forall n | n in old(names) && old(names)[n] != Dir(directory) :: n in names && names[n] == old(names)[n]
    {
      var works: bool := *;
      if !works || (directory in contents && contents[directory] != map[]) {
        return false;
      }
      names := map n | n in names && names[n] != Dir(directory) :: names[n];
      contents := contents - {directory};
      removals := removals + [Whole(directory)];
      return true;
    }
  }

  class Staging {
    const name: string
    const identity: Identity
    var directory: Option<Identity>

    /** The handle, while there is one, is on the directory that was recorded. */
    predicate Valid() reads this {
      directory.Some? ==> directory.value == identity
    }

    constructor (name: string, handle: Identity)
      ensures Valid() && this.name == name && identity == handle && directory == Some(handle)
    {
      this.name, identity, directory := name, handle, Some(handle);
    }

    /** Have the handle, again if it was given up: only from a directory of the recorded identity. */
    method Reopen(root: Root) returns (ok: bool)
      requires Valid()
      modifies this`directory
      ensures Valid() && (ok ==> directory == Some(identity)) && (!ok ==> directory == old(directory) == None)
      ensures old(directory).None? && !(name in root.names && root.names[name] == Dir(identity)) ==> !ok
    {
      if directory.None? {
        var found := root.OpenDirectory(name);
        if found.None? || found.value != identity {
          return false;
        }
        directory := found;
      }
      return true;
    }

    /** Remove the recorded names, then the directory. Others may act between any two removals. */
    method Cleanup(root: Root, staged: seq<string>) returns (ok: bool, ghost removed: seq<Removal>)
      requires Valid()
      modifies this`directory, root
      ensures Valid()
      ensures root.removals == old(root.removals) + removed && OnlyRecorded(removed, identity, staged)
      ensures ok ==> removed != [] && removed[|removed| - 1] == Whole(identity)
      ensures old(directory).None? && !(name in old(root.names) && old(root.names)[name] == Dir(identity)) ==>
                !ok && removed == []
    {
      removed := [];
      ok := Reopen(root);
      if !ok {
        return;
      }
      for i := 0 to |staged|
        invariant directory == Some(identity)
        invariant root.removals == old(root.removals) + removed && OnlyRecorded(removed, identity, staged)
      {
        root.Outside();
        ghost var before := root.removals;
        ok := root.RemoveFile(directory.value, staged[i]);
        if root.removals != before {
          removed := removed + [Named(identity, staged[i])];
        }
        if !ok {
          return;
        }
      }
      root.Outside();
      directory := None;
      ok := root.RemoveOpenDirectory(identity);
      if ok {
        removed := removed + [Whole(identity)];
      }
    }
  }

  /** The part of a session that cleanup is about, where names can be rebound under it. */
  class Session {
    var lock: bool
    var staging: Option<Staging>
    var staged: seq<string>

    constructor (staging: Option<Staging>, staged: seq<string>)
      ensures lock && this.staging == staging && this.staged == staged
    {
      lock, this.staging, this.staged := true, staging, staged;
    }

    /** Only when the staging directory is gone are the record and the lock given up. */
    method Cleanup(root: Root) returns (ok: bool, ghost removed: seq<Removal>)
      requires staging.Some? ==> staging.value.Valid()
      modifies this, root, if staging.Some? then {staging.value} else {}
      ensures !ok ==> lock == old(lock) && staging == old(staging) && staged == old(staged)
      ensures ok ==> !lock && staging.None? && staged == []
      ensures staging.Some? ==> staging.value.Valid()
      ensures root.removals == old(root.removals) + removed
      ensures old(staging).None? ==> ok && removed == []
      ensures old(staging).Some? ==> OnlyRecorded(removed, old(staging).value.identity, old(staged))
      ensures ok && old(staging).Some? ==> removed != [] && removed[|removed| - 1] == Whole(old(staging).value.identity)
    {
      removed := [];
      if staging.Some? {
        ok, removed := staging.value.Cleanup(root, staged);
        if !ok {
          return;
        }
      }
      staging, staged, lock := None, [], false;
      ok := true;
    }

    /** Over any number of cleanups that fail and are repeated, with the staging name rebound in between
        however anybody likes: nothing is ever removed but recorded names from the directory whose
        identity was recorded, and that directory, and the lock is held until it is gone. */
    method CleanupAgain(root: Root, attempts: nat) returns (ok: bool, ghost removed: seq<Removal>)
      requires lock && staging.Some? && staging.value.Valid()
      modifies this, root, staging.value
      ensures root.removals == old(root.removals) + removed
      ensures OnlyRecorded(removed, old(staging).value.identity, old(staged))
      ensures lock <==> !ok
      ensures !ok ==> staging == old(staging) && staged == old(staged)
      ensures ok ==> Whole(old(staging).value.identity) in removed
    {
      ok, removed := false, [];
      ghost var identity, names := staging.value.identity, staged;
      for i := 0 to attempts
        invariant !ok && lock && staging == old(staging) && staged == names && staging.value.Valid()
        invariant root.removals == old(root.removals) + removed && OnlyRecorded(removed, identity, names)
      {
        root.Outside();
        ghost var more;
        ok, more := Cleanup(root);
        OnlyRecordedAppends(removed, more, identity, names);
        removed := removed + more;
        if ok {
          return;
        }
      }
    }
  }
}
