/** Path strings as the cache validator reads them, on a Unix host (worker/cache/validate.rs,
    worker/cache/filesystem.rs). */
module Paths {
  import opened Wrappers

  /** The position of the first `c`, or the length. */
  function IndexOf(s: string, c: char): (i: nat)
    ensures i <= |s| && (i < |s| ==> s[i] == c) && c !in s[..i]
  {
    if s == [] || s[0] == c then 0
    else
      var i := 1 + IndexOf(s[1..], c);
      assert s[..i] == [s[0]] + s[1..][..i - 1];
      i
  }

  /** Splitting at every `c`; there is always at least one part. */
  function Split(s: string, c: char): (parts: seq<string>)
    ensures parts != [] && forall p | p in parts :: c !in p
    decreases |s|
  {
    var i := IndexOf(s, c);
    if i == |s| then assert s[..i] == s; [s] else [s[..i]] + Split(s[i + 1..], c)
  }

  function Join(parts: seq<string>, c: char): string
    requires parts != []
  {
    if |parts| == 1 then parts[0] else parts[0] + [c] + Join(parts[1..], c)
  }

  lemma JoinOnto(part: string, parts: seq<string>, c: char)
    requires parts != []
    ensures Join([part] + parts, c) == part + [c] + Join(parts, c)
  {
    assert ([part] + parts)[1..] == parts;
  }

  lemma CutAt(s: string, i: nat)
    requires i < |s|
    ensures s == s[..i] + [s[i]] + s[i + 1..]
  {
  }

  lemma {:induction false} SplitRoundTrip(s: string, c: char)
    ensures Join(Split(s, c), c) == s
    decreases |s|
  {
    var i := IndexOf(s, c);
    if i < |s| {
      var part, rest := s[..i], s[i + 1..];
      CutAt(s, i);
      SplitRoundTrip(rest, c);
      JoinOnto(part, Split(rest, c), c);
      assert Split(s, c) == [part] + Split(rest, c);
    }
  }

  /** No two path strings have the same parts. */
  lemma SplitIsInjective(s: string, t: string, c: char)
    requires Split(s, c) == Split(t, c)
    ensures s == t
  {
    SplitRoundTrip(s, c);
    SplitRoundTrip(t, c);
  }

  function Lower(c: char): char {
    if 'A' <= c <= 'Z' then c + 32 as char else c
  }

  function Lowered(s: string): (t: string)
    ensures |t| == |s| && forall i | 0 <= i < |s| :: t[i] == Lower(s[i])
  {
    seq(|s|, i requires 0 <= i < |s| => Lower(s[i]))
  }

  /** Directories that hold credentials or private configuration. */
  predicate Forbidden(name: string) {
    Lowered(name) in {".ssh", ".gnupg", ".aws", ".azure", ".kube", ".config"}
  }

  predicate IsControl(c: char) {
    c < ' ' || '\U{007f}' <= c <= '\U{009f}'
  }

  predicate IsDevice(part: string) {
    var stem := Lowered(part[..IndexOf(part, '.')]);
    || stem in {"con", "prn", "aux", "nul"}
    || (|stem| == 4 && (stem[..3] == "com" || stem[..3] == "lpt") && '0' <= stem[3] <= '9')
  }

  predicate SafePart(part: string) {
    && part != "" && part != "." && part != ".." && !Forbidden(part)
    && part[|part| - 1] != '.' && part[|part| - 1] != ' ' && !IsDevice(part)
  }

  /** A path a recipe may name. */
  predicate SafeRelative(path: string) {
    && path != "" && |path| <= 512
    && (forall c | c in path :: c != '\\' && c != ':' && !IsControl(c))
    && (forall part | part in Split(path, '/') :: SafePart(part))
  }

  predicate ReservedPart(part: string) {
    ".tinyruntime-" <= Lowered(part)
  }

  /** A safe path that also stays clear of the names the router keeps for itself. */
  predicate Relative(path: string) {
    SafeRelative(path) && forall part | part in Split(path, '/') :: !ReservedPart(part)
  }

  // ---------------------------------------------------------------- where a path leads

  function Root(dir: seq<string>): seq<string> {
    if dir == [] then [] else dir[..|dir| - 1]
  }

  /** What the system makes of a path: one component after the other, from a directory. */
  function Resolve(dir: seq<string>, parts: seq<string>): seq<string>
    decreases |parts|
  {
    if parts == [] then dir
    else if parts[0] == "" || parts[0] == "." then Resolve(dir, parts[1..])
    else if parts[0] == ".." then Resolve(Root(dir), parts[1..])
    else Resolve(dir + [parts[0]], parts[1..])
  }

  lemma {:induction false} PlainPartsStayBelow(dir: seq<string>, parts: seq<string>)
    requires forall part | part in parts :: part != "" && part != "." && part != ".."
    ensures Resolve(dir, parts) == dir + parts
    decreases |parts|
  {
    if parts != [] {
      assert parts[0] in parts;
      forall part | part in parts[1..] ensures part != "" && part != "." && part != ".." {
        assert part in parts;
      }
      PlainPartsStayBelow(dir + [parts[0]], parts[1..]);
      assert dir + [parts[0]] + parts[1..] == dir + parts;
    }
  }

  /** A safe path leads strictly below the directory it starts from, to a place no other safe path
      leads to. */
  lemma SafePathsStayBelow(dir: seq<string>, path: string)
    requires SafeRelative(path)
    ensures dir < Resolve(dir, Split(path, '/')) == dir + Split(path, '/')
  {
    forall part | part in Split(path, '/') ensures part != "" && part != "." && part != ".." {
      assert SafePart(part);
    }
    PlainPartsStayBelow(dir, Split(path, '/'));
  }

  lemma SafePathsAreApart(dir: seq<string>, p: string, q: string)
    requires SafeRelative(p) && SafeRelative(q) && p != q
    ensures Resolve(dir, Split(p, '/')) != Resolve(dir, Split(q, '/'))
  {
    SafePathsStayBelow(dir, p);
    SafePathsStayBelow(dir, q);
    if dir + Split(p, '/') == dir + Split(q, '/') {
      assert Split(p, '/') == (dir + Split(p, '/'))[|dir|..];
      assert Split(q, '/') == (dir + Split(q, '/'))[|dir|..];
      SplitIsInjective(p, q, '/');
    }
  }

  /** The walk to a path's parent directory, one part at a time. Anything that is not a safe path is
      refused before the first step. */
  method Parent(dir: seq<string>, path: string) returns (r: Option<(seq<string>, string)>)
    ensures r.Some? <==> SafeRelative(path)
    ensures r.Some? ==> r.value.0 + [r.value.1] == Resolve(dir, Split(path, '/')) && dir <= r.value.0
  {
    if !SafeRelative(path) {
      return None;
    }
    SafePathsStayBelow(dir, path);
    var parts := Split(path, '/');
    var at := dir;
    for i := 0 to |parts| - 1
      invariant at == dir + parts[..i]
    {
      at := at + [parts[i]];
    }
    assert parts == parts[..|parts| - 1] + [parts[|parts| - 1]];
    return Some((at, parts[|parts| - 1]));
  }

  /** No accepted path leads to, into or through anything whose name is the router's own (its lock, its
      sidecars, its staging directories), in whatever case that name is written. */
  lemma AcceptedPathsAvoidReservedNames(dir: seq<string>, path: string, place: seq<string>, suffix: string)
    requires Relative(path) && dir < place <= Resolve(dir, Split(path, '/'))
    ensures forall i | |dir| <= i < |place| :: Lowered(place[i]) != ".tinyruntime-" + suffix
  {
    SafePathsStayBelow(dir, path);
    var parts := Split(path, '/');
    forall i | |dir| <= i < |place| ensures Lowered(place[i]) != ".tinyruntime-" + suffix {
      assert place[i] == (dir + parts)[i] == parts[i - |dir|];
      assert !ReservedPart(parts[i - |dir|]);
    }
  }
}
