/**
 The guard in front of deleting a local cache: which canonical path a
 `sync --reset` may remove. Paths are sequences of components from the root.
 */
module ResetGuard {
  import opened Basics

  type Path = seq<string>

  const ROOT: Path := []

  /** `Path::starts_with`, component by component. */
  predicate StartsWith(path: Path, prefix: Path) {
    |prefix| <= |path| && path[..|prefix|] == prefix
  }

  /** What the process knows about its surroundings; `repo` is the repository around `cwd`, if there is one. */
  datatype Surroundings = Surroundings(home: Path, cwd: Path, repo: seq<Path>)

  /** One path is below another, or is it, exactly when it continues it. */
  lemma {:induction false} StartsWithIff(path: Path, prefix: Path)
    ensures StartsWith(path, prefix) <==> exists rest: Path :: path == prefix + rest
  {
    if StartsWith(path, prefix) {
      assert path == prefix + path[|prefix|..];
    }
  }

  function Protected(s: Surroundings): seq<Path> {
    [s.home, s.cwd] + s.repo
  }

  function Enclosing(s: Surroundings): seq<Path> {
    [s.cwd] + s.repo
  }

  predicate ValidateManagedRoot(root: Path, s: Surroundings) {
    && root != ROOT
    && (forall p :: p in Protected(s) ==> root != p)
    && (forall p :: p in Enclosing(s) ==> !StartsWith(root, p))
    && (forall p :: p in Protected(s) ==> !(StartsWith(p, root) && root != p))
  }

  predicate ValidateManagedReset(target: Path, root: Path) {
    target != root && StartsWith(target, root)
  }

  /** Custom targets: outside the protected paths, not a parent of one, and confirmed. */
  predicate ValidateCustomReset(target: Path, s: Surroundings, confirmed: bool) {
    && target != ROOT
    && (forall p :: p in Protected(s) ==> !StartsWith(target, p))
    && (forall p :: p in Protected(s) && p != ROOT ==> target != p[..|p| - 1])
    && confirmed
  }

  predicate ValidateReset(target: Path, root: Path, isCustom: bool, confirmed: bool, s: Surroundings) {
    && target != ROOT
    && target != root
    && !StartsWith(root, target)
    && if isCustom then ValidateCustomReset(target, s, confirmed)
       else ValidateManagedRoot(root, s) && ValidateManagedReset(target, root)
  }

  /** Of two prefixes of one path, one is a prefix of the other. */
  lemma {:induction false} PrefixesCompare(path: Path, a: Path, b: Path)
    requires StartsWith(path, a) && StartsWith(path, b)
    ensures StartsWith(a, b) || StartsWith(b, a)
  {
    if |a| <= |b| {
      assert b[..|a|] == path[..|b|][..|a|] == path[..|a|];
    } else {
      assert a[..|b|] == path[..|a|][..|b|] == path[..|b|];
    }
  }

  lemma {:induction false} PrefixTransitive(a: Path, b: Path, c: Path)
    requires StartsWith(a, b) && StartsWith(b, c)
    ensures StartsWith(a, c)
  {
    assert a[..|c|] == a[..|b|][..|c|];
  }

  /**
   An accepted managed target lies strictly inside the mail root, contains
   neither the root nor home, the working directory or its repository, and
   lies inside neither of the last two.
   */
  lemma {:induction false} ManagedResetIsContained(target: Path, root: Path, confirmed: bool, s: Surroundings)
    requires ValidateReset(target, root, false, confirmed, s)
    ensures StartsWith(target, root) && target != root && target != ROOT
    ensures !StartsWith(root, target) && !StartsWith(s.home, root)
    ensures !StartsWith(s.home, target) && !StartsWith(s.cwd, target)
    ensures !StartsWith(target, s.cwd)
    ensures forall p :: p in s.repo ==> !StartsWith(p, target) && !StartsWith(target, p)
  {
    forall p | p in Protected(s)
      ensures !StartsWith(p, target)
    {
      if StartsWith(p, target) {
        PrefixTransitive(p, target, root);
      }
    }
    forall p | p in Enclosing(s)
      ensures !StartsWith(target, p)
    {
      assert p in Protected(s);
      if StartsWith(target, p) {
        PrefixesCompare(target, root, p);
      }
    }
    assert s.home in Protected(s) && s.cwd in Protected(s) && s.cwd in Enclosing(s);
    forall p | p in s.repo
      ensures !StartsWith(p, target) && !StartsWith(target, p)
    {
      assert p in Protected(s) && p in Enclosing(s);
    }
  }

  /**
   For targets strictly inside the root the guard asks no more than that the
   root is not the filesystem's, neither is nor contains home, and neither is,
   contains nor lies in the working directory or its repository.
   */
  lemma {:induction false} ManagedResetAccepts(target: Path, root: Path, confirmed: bool, s: Surroundings)
    requires StartsWith(target, root) && target != root
    ensures ValidateReset(target, root, false, confirmed, s) <==>
              && root != ROOT && !StartsWith(s.home, root)
              && !StartsWith(s.cwd, root) && !StartsWith(root, s.cwd)
              && forall p :: p in s.repo ==> !StartsWith(p, root) && !StartsWith(root, p)
  {
    assert target == root + target[|root|..];
    assert forall p :: p in Protected(s) <==> p == s.home || p == s.cwd || p in s.repo;
    assert forall p :: p in Enclosing(s) <==> p == s.cwd || p in s.repo;
    assert StartsWith(root, root);
  }

  /** Neither inside `p`, nor around it with fewer than two levels in between. */
  predicate IsFar(target: Path, p: Path) {
    !StartsWith(target, p) && (StartsWith(p, target) ==> |p| >= |target| + 2)
  }

  /**
   A custom target is accepted exactly when it is confirmed, is no ancestor of
   the mail root, lies outside the protected paths, and contains none of them
   less than two levels down.
   */
  lemma {:induction false} CustomResetExact(target: Path, root: Path, confirmed: bool, s: Surroundings)
    ensures ValidateReset(target, root, true, confirmed, s) <==>
              && confirmed && !StartsWith(root, target)
              && IsFar(target, s.home) && IsFar(target, s.cwd) && forall p :: p in s.repo ==> IsFar(target, p)
    ensures ValidateReset(target, root, true, confirmed, s) ==>
              && target != ROOT && target != root && !StartsWith(target, s.home) && !StartsWith(target, s.cwd)
              && forall p :: p in s.repo ==> !StartsWith(target, p)
  {
    assert forall p :: p in Protected(s) <==> p == s.home || p == s.cwd || p in s.repo;
    if target == ROOT {
      assert StartsWith(root, target);
    }
    forall p | p in Protected(s)
      ensures p != ROOT ==> (target == p[..|p| - 1] || target == p <==> StartsWith(p, target) && |p| < |target| + 2)
      ensures p == ROOT ==> StartsWith(target, p)
    {
    }
  }

  /** So it may still contain home, two levels down. */
  lemma {:induction false} CustomResetMayContainHome(target: Path, a: string, b: string, root: Path, cwd: Path)
    requires target != ROOT && !StartsWith(root, target) && !StartsWith(target, cwd)
    requires cwd != ROOT && target != cwd[..|cwd| - 1]
    ensures
      var home := target + [a, b];
      StartsWith(home, target) && ValidateReset(target, root, true, true, Surroundings(home, cwd, []))
  {
    var home := target + [a, b];
    assert home[..|home| - 1] == target + [a];
    assert Protected(Surroundings(home, cwd, [])) == [home, cwd];
    assert StartsWith(target, target);
  }

  // ----- from a configured path to what is deleted -----

  const PARENT: string := ".."

  /** The directories that exist, by real path, and where a written path leads, if it leads anywhere. */
  datatype Disk = Disk(dirs: set<Path>, canonicalize: Path -> Option<Path>) {
    ghost predicate Valid() {
      && (forall p :: p in dirs <==> canonicalize(p) == Some(p))
      && (forall p :: p in dirs ==> PARENT !in p)
      && (forall p :: canonicalize(p).Some? ==> canonicalize(p).value in dirs)
      && (forall p, name :: StepsInto(p, name))
    }

    /** A name below a path leads where the same name below its real path leads; below nothing there is nothing. */
    ghost predicate StepsInto(p: Path, name: string) {
      name != PARENT ==>
        canonicalize(p + [name]) == if canonicalize(p).Some? then canonicalize(canonicalize(p).value + [name]) else None
    }
  }

  /** The real path of the nearest existing ancestor, followed by the names below it. */
  function Resolve(d: Disk, path: Path): Result<Path> {
    if d.canonicalize(path).Some? then Ok(d.canonicalize(path).value)
    else if path == ROOT || path[|path| - 1] == PARENT then Err
    else Extend(Resolve(d, path[..|path| - 1]), [path[|path| - 1]])
  }

  /** The first k components lead nowhere, and the last of them is a name. */
  predicate NothingAt(d: Disk, path: Path, k: nat)
    requires 0 < k <= |path|
  {
    d.canonicalize(path[..k]).None? && path[k - 1] != PARENT
  }

  /** The shortest cut of `path` that leaves something which exists, and only names below it. */
  ghost predicate NearestExisting(d: Disk, path: Path, n: nat) {
    && n <= |path| && d.canonicalize(path[..n]).Some?
    && forall k :: n < k <= |path| ==> NothingAt(d, path, k)
  }

  lemma {:induction false} NothingAtFront(d: Disk, path: Path, k: nat)
    requires 0 < k < |path|
    ensures NothingAt(d, path[..|path| - 1], k) <==> NothingAt(d, path, k)
  {
    assert path[..|path| - 1][..k] == path[..k];
  }

  lemma {:induction false} NearestInFront(d: Disk, path: Path, n: nat)
    requires path != ROOT && d.canonicalize(path).None? && NearestExisting(d, path, n)
    ensures n < |path| && NearestExisting(d, path[..|path| - 1], n) && path[|path| - 1] != PARENT
  {
    var front := path[..|path| - 1];
    assert path[..|path|] == path;
    assert n < |path|;
    assert front[..n] == path[..n];
    assert NothingAt(d, path, |path|);
    forall k | n < k <= |front|
      ensures NothingAt(d, front, k)
    {
      NothingAtFront(d, path, k);
    }
  }

  lemma {:induction false} NearestInWhole(d: Disk, path: Path, n: nat)
    requires path != ROOT && d.canonicalize(path).None? && path[|path| - 1] != PARENT
    requires NearestExisting(d, path[..|path| - 1], n)
    ensures NearestExisting(d, path, n)
  {
    assert path[..|path|] == path;
    assert path[..|path| - 1][..n] == path[..n];
    forall k | n < k <= |path|
      ensures NothingAt(d, path, k)
    {
      if k < |path| {
        NothingAtFront(d, path, k);
      }
    }
  }

  /** A path resolves exactly if it has such an ancestor: to its real path, with the names below it kept. */
  lemma {:induction false} ResolvesToNearest(d: Disk, path: Path)
    ensures Resolve(d, path).Ok? <==> exists n: nat :: NearestExisting(d, path, n)
    ensures forall n: nat :: NearestExisting(d, path, n) ==>
              Resolve(d, path) == Ok(d.canonicalize(path[..n]).value + path[n..])
  {
    assert path[..|path|] == path && path[|path|..] == [];
    if d.canonicalize(path).Some? {
      assert NearestExisting(d, path, |path|);
      forall n: nat | n < |path|
        ensures !NearestExisting(d, path, n)
      {
        assert !NothingAt(d, path, |path|);
      }
      assert d.canonicalize(path).value + [] == d.canonicalize(path).value;
    } else if path == ROOT {
      assert path[..0] == path;
      assert forall n: nat :: !NearestExisting(d, path, n);
    } else {
      var front, name := path[..|path| - 1], path[|path| - 1];
      ResolvesToNearest(d, front);
      forall n: nat
        ensures NearestExisting(d, path, n) <==> n < |path| && NearestExisting(d, front, n) && name != PARENT
        ensures NearestExisting(d, path, n) ==>
                  Resolve(d, path) == Ok(d.canonicalize(path[..n]).value + path[n..])
      {
        if n < |path| && NearestExisting(d, front, n) && name != PARENT {
          NearestInWhole(d, path, n);
        }
        if NearestExisting(d, path, n) {
          NearestInFront(d, path, n);
          assert front[..n] == path[..n] && front[n..] + [name] == path[n..];
          ExtendTwice(Ok(d.canonicalize(path[..n]).value), front[n..], [name]);
        }
      }
    }
  }

  function Extend(base: Result<Path>, tail: Path): Result<Path> {
    match base
    case Ok(p) => Ok(p + tail)
    case Err => Err
  }

  lemma {:induction false} ExtendTwice(base: Result<Path>, a: Path, b: Path)
    ensures Extend(Extend(base, a), b) == Extend(base, a + b)
  {
    if base.Ok? {
      assert base.value + a + b == base.value + (a + b);
    }
  }

  /** The loop of `resolve_canonical`. */
  method ResolveCanonical(d: Disk, path: Path) returns (r: Result<Path>)
    ensures r == Resolve(d, path)
  {
    if d.canonicalize(path).Some? {
      return Ok(d.canonicalize(path).value);
    }
    var existing, tail := path, [];
    assert Extend(Resolve(d, path), []) == Resolve(d, path) by {
      if Resolve(d, path).Ok? {
        assert Resolve(d, path).value + [] == Resolve(d, path).value;
      }
    }
    while d.canonicalize(existing).None? && existing != ROOT && existing[|existing| - 1] != PARENT
      invariant Extend(Resolve(d, existing), tail) == Resolve(d, path)
      decreases |existing|
    {
      var name := existing[|existing| - 1];
      ExtendTwice(Resolve(d, existing[..|existing| - 1]), [name], tail);
      tail := [name] + tail;
      existing := existing[..|existing| - 1];
    }
    if d.canonicalize(existing).None? {
      return Err;
    }
    return Ok(d.canonicalize(existing).value + tail);
  }

  /**
   A path that exists resolves to its real path; a resolved path that exists is
   real, so what is checked is what is deleted.
   */
  lemma {:induction false} ResolvedIsReal(d: Disk, path: Path)
    requires d.Valid() && Resolve(d, path).Ok?
    ensures d.canonicalize(Resolve(d, path).value) == d.canonicalize(path)
    ensures d.canonicalize(path).Some? <==> Resolve(d, path).value in d.dirs
  {
    if d.canonicalize(path).None? {
      var n := |path| - 1;
      var front, name := path[..n], path[n];
      ResolvedIsReal(d, front);
      assert path == front + [name];
      var base := Resolve(d, front).value;
      assert d.StepsInto(front, name) && d.StepsInto(base, name);
    }
  }

  lemma {:induction false} AcceptedIsOutside(target: Path, root: Path, isCustom: bool, confirmed: bool, s: Surroundings)
    requires ValidateReset(target, root, isCustom, confirmed, s)
    ensures target != ROOT && !StartsWith(root, target)
    ensures !StartsWith(target, s.cwd) && forall q :: q in s.repo ==> !StartsWith(target, q)
    ensures if isCustom then confirmed && !StartsWith(target, s.home)
            else StartsWith(target, root) && !StartsWith(s.home, target) && !StartsWith(s.cwd, target)
  {
    if isCustom {
      CustomResetExact(target, root, confirmed, s);
    } else {
      ManagedResetIsContained(target, root, confirmed, s);
    }
  }

  predicate Accepted(resolved: Result<Path>, root: Path, isCustom: bool, confirmed: bool, s: Surroundings) {
    resolved.Ok? && ValidateReset(resolved.value, root, isCustom, confirmed, s)
  }

  class MailDisk {
    var disk: Disk

    constructor (disk: Disk)
      ensures this.disk == disk
    {
      this.disk := disk;
    }

    /**
     Resolve, validate, delete. Refused or not found, nothing is deleted; and
     removing a tree may fail half way, with the paths of `stuck` still there,
     but stays inside it. In a managed reset what goes lies inside the mail
     root and outside the working directory and its repository.
     */
    method ResetAccountCache(
        mailPath: Path, root: Path, isCustom: bool, confirmed: bool, s: Surroundings, stuck: set<Path>)
      returns (outcome: Outcome)
      requires disk.Valid()
      modifies this
      ensures disk.dirs <= old(disk.dirs)
      ensures outcome == Refused <==> !Accepted(Resolve(old(disk), mailPath), root, isCustom, confirmed, s)
      ensures outcome == Refused || old(disk).canonicalize(mailPath).None? ==> disk == old(disk)
      ensures outcome != Refused && old(disk).canonicalize(mailPath).Some? ==>
                disk == Remove(old(disk), Resolve(old(disk), mailPath).value, stuck)
      ensures outcome == Done ==> forall p :: p in disk.dirs ==> !StartsWith(p, Resolve(old(disk), mailPath).value)
      ensures outcome == Incomplete ==> exists p :: p in disk.dirs && StartsWith(p, Resolve(old(disk), mailPath).value)
      ensures outcome != Refused ==>
                var target := Resolve(old(disk), mailPath).value;
                && target != ROOT && !StartsWith(root, target)
                && !StartsWith(target, s.cwd) && (forall q :: q in s.repo ==> !StartsWith(target, q))
                && (if isCustom then confirmed && !StartsWith(target, s.home)
                    else StartsWith(target, root) && !StartsWith(s.home, target) && !StartsWith(s.cwd, target))
      ensures outcome != Refused ==> forall p :: p in old(disk.dirs) && p !in disk.dirs <==>
                p in old(disk.dirs) && StartsWith(p, Resolve(old(disk), mailPath).value) && p !in stuck
      ensures !isCustom ==> forall p :: p in old(disk.dirs) && p !in disk.dirs ==>
                && StartsWith(p, root) && p != root && p != s.home
                && !StartsWith(p, s.cwd) && forall q :: q in s.repo ==> !StartsWith(p, q)
    {
      var canonical := ResolveCanonical(disk, mailPath);
      if !Accepted(canonical, root, isCustom, confirmed, s) {
        return Refused;
      }
      ResolvedIsReal(disk, mailPath);
      AcceptedIsOutside(canonical.value, root, isCustom, confirmed, s);
      if disk.canonicalize(canonical.value).None? {
        NothingBelow(disk, canonical.value);
        return Done;
      }
      var after := Remove(disk, canonical.value, stuck);
      if !isCustom {
        ManagedRemovalIsContained(disk, after, canonical.value, root, confirmed, s);
      }
      disk := after;
      if exists p :: p in disk.dirs && StartsWith(p, canonical.value) {
        return Incomplete;
      }
      return Done;
    }
  }

  datatype Outcome = Refused | Incomplete | Done

  /** Below a path that leads nowhere there is nothing. */
  lemma {:induction false} NothingBelow(d: Disk, path: Path)
    requires d.Valid() && d.canonicalize(path).None?
    ensures forall p :: p in d.dirs ==> !StartsWith(p, path)
  {
    forall p | p in d.dirs
      ensures !StartsWith(p, path)
    {
      if StartsWith(p, path) {
        assert path + p[|path|..] == p;
        LeadsNowhere(d, path, p[|path|..]);
      }
    }
  }

  lemma {:induction false} LeadsNowhere(d: Disk, path: Path, below: Path)
    requires d.Valid() && d.canonicalize(path).None?
    requires forall i :: 0 <= i < |below| ==> below[i] != PARENT
    ensures d.canonicalize(path + below).None?
  {
    if below != [] {
      var n := |below| - 1;
      LeadsNowhere(d, path, below[..n]);
      assert d.StepsInto(path + below[..n], below[n]);
      assert path + below == path + below[..n] + [below[n]];
    } else {
      assert path + below == path;
    }
  }

  /** What `remove_dir_all` leaves. */
  function Remove(d: Disk, target: Path, stuck: set<Path>): (after: Disk)
    ensures RemovedWithin(d, after, target)
    ensures forall p :: p in d.dirs && StartsWith(p, target) && p in after.dirs ==> p in stuck
    ensures forall p :: p in d.dirs && p !in after.dirs ==> p !in stuck
  {
    var dirs := set p | p in d.dirs && (StartsWith(p, target) ==> p in stuck);
    Disk(dirs, (p: Path) =>
      if d.canonicalize(p).Some? && d.canonicalize(p).value in dirs then d.canonicalize(p) else None)
  }

  ghost predicate RemovedWithin(before: Disk, after: Disk, target: Path) {
    && after.dirs <= before.dirs
    && forall p :: p in before.dirs && p !in after.dirs ==> StartsWith(p, target)
  }

  lemma {:induction false} ManagedRemovalIsContained(
      before: Disk, after: Disk, target: Path, root: Path, confirmed: bool, s: Surroundings)
    requires ValidateReset(target, root, false, confirmed, s) && RemovedWithin(before, after, target)
    ensures forall p :: p in before.dirs && p !in after.dirs ==>
              && StartsWith(p, root) && p != root && p != s.home
              && !StartsWith(p, s.cwd) && forall q :: q in s.repo ==> !StartsWith(p, q)
  {
    ManagedResetIsContained(target, root, confirmed, s);
    forall p | p in before.dirs && p !in after.dirs
      ensures StartsWith(p, root) && p != root && p != s.home
      ensures !StartsWith(p, s.cwd) && forall q :: q in s.repo ==> !StartsWith(p, q)
    {
      PrefixTransitive(p, target, root);
      forall q | q == s.cwd || q in s.repo
        ensures !StartsWith(p, q)
      {
        if StartsWith(p, q) {
          PrefixesCompare(p, target, q);
        }
      }
    }
  }
}
