/** The world the build pipeline acts on: a filesystem, a current working
    directory, and the commands issued so far.

    The filesystem is a finite map from path strings to nodes. Paths are not
    normalised; a path is "inside" a directory when it extends the directory's
    path by a '/' and more text. What the program learns from the operating
    system without changing it — directory listings, `os.walk` output, the
    result of running a command — comes from a `Host` of oracles, so that
    enumeration order and command behaviour are inputs of the model. */
module Disk {
  import opened Outcomes
  import opened Text
  import opened Seqs

  /** One member of a zip archive: its name inside the archive and the file
      name it was written from. */
  datatype ZipMember = ZipMember(arcname: string, filename: Path)

  datatype Node = Dir | File(text: string) | Archive(members: seq<ZipMember>)

  type FS = map<Path, Node>

  predicate IsDir(fs: FS, p: Path) {
    p in fs && fs[p].Dir?
  }

  /** `os.path.isfile`: a regular file, which a zip archive also is. */
  predicate IsFile(fs: FS, p: Path) {
    p in fs && !fs[p].Dir?
  }

  /** `q` is `p` itself or lies below directory `p`. */
  predicate Under(q: Path, p: Path) {
    q == p || StartsWith(q, p + "/")
  }

  /** The proper ancestors of `p` that `os.makedirs` may have to create: every
      prefix that ends just before a '/'. */
  function Ancestors(p: Path): set<Path> {
    set i | 0 < i < |p| && p[i] == '/' :: p[..i]
  }

  /** `q` is `p` or one of its ancestors: what `os.makedirs(p)` may create. */
  predicate OnPathTo(q: Path, p: Path) {
    q == p || q in Ancestors(p)
  }

  /** An ancestor of an ancestor is an ancestor. */
  lemma AncestorsTransitive(a: Path, q: Path, p: Path)
    requires a in Ancestors(q) && q in Ancestors(p)
    ensures a in Ancestors(p)
  {
    var j :| 0 < j < |p| && p[j] == '/' && q == p[..j];
    var i :| 0 < i < |q| && q[i] == '/' && a == q[..i];
    assert p[i] == '/' && a == p[..i];
  }

  /** `shutil.rmtree(p)` on a directory: `p` and everything below it go. */
  function RemoveTree(fs: FS, p: Path): (r: FS)
    ensures forall q :: q in r <==> q in fs && !Under(q, p)
    ensures forall q :: q in r ==> r[q] == fs[q]
  {
    map q | q in fs && !Under(q, p) :: fs[q]
  }

  /** Removing a tree that is already gone changes nothing. */
  lemma RemoveTreeTwice(fs: FS, p: Path)
    ensures RemoveTree(RemoveTree(fs, p), p) == RemoveTree(fs, p)
  {
  }

  /** `os.makedirs(p)`: raises when `p` already exists or when one of its
      ancestors exists but is not a directory; otherwise creates `p` and every
      missing ancestor and touches nothing else. */
  function MakeDirs(fs: FS, p: Path): (r: Result<FS>)
    ensures r.Ok? <==> p !in fs && forall a :: a in Ancestors(p) && a in fs ==> fs[a].Dir?
    ensures r.Ok? ==> forall q :: q in fs ==> q in r.value && r.value[q] == fs[q]
    ensures r.Ok? ==> IsDir(r.value, p) && forall a :: a in Ancestors(p) ==> IsDir(r.value, a)
    ensures r.Ok? ==> forall q :: q in r.value && q !in fs ==> q == p || q in Ancestors(p)
  {
    if p in fs || exists a | a in Ancestors(p) :: a in fs && !fs[a].Dir? then Raised(OSError(p))
    else Ok(fs + map a | a in Ancestors(p) + {p} && a !in fs :: Dir)
  }

  /** `fs2` keeps every entry of `fs` and adds at most `p` and its
      ancestors, as directories: the footprint of making sure a directory
      exists. */
  ghost predicate AddsOnlyDirs(fs: FS, fs2: FS, p: Path) {
    && (forall q :: q in fs ==> q in fs2 && fs2[q] == fs[q])
    && (forall q :: q in fs2 && q !in fs ==> (q == p || q in Ancestors(p)) && fs2[q].Dir?)
  }

  /** The path `q` below `src` moved to the same place below `dst`. */
  function Rebase(q: Path, src: Path, dst: Path): Path
    requires Under(q, src)
  {
    dst + q[|src|..]
  }

  lemma RebaseInjective(q1: Path, q2: Path, src: Path, dst: Path)
    requires Under(q1, src) && Under(q2, src)
    requires Rebase(q1, src, dst) == Rebase(q2, src, dst)
    ensures q1 == q2
  {
    assert q1[|src|..] == Rebase(q1, src, dst)[|dst|..];
    assert q2[|src|..] == Rebase(q2, src, dst)[|dst|..];
    assert q1 == q1[..|src|] + q1[|src|..];
    assert q2 == q2[..|src|] + q2[|src|..];
  }

  /** A path strictly below `src`, moved below `dst`, lies below `dst`. */
  lemma RebaseUnder(q: Path, src: Path, dst: Path)
    requires Under(q, src) && q != src
    ensures Under(Rebase(q, src, dst), dst) && Rebase(q, src, dst) != dst
  {
    var r := Rebase(q, src, dst);
    assert q[..|src| + 1] == src + "/";
    assert r[..|dst| + 1] == dst + "/" by {
      assert r == dst + q[|src|..];
      assert q[|src|..][0] == '/';
    }
  }

  /** Entry `q` of `fs2` is a copy of an entry strictly below `src` in `fs`,
      moved below `dst`. */
  ghost predicate CopiedFrom(fs: FS, fs2: FS, q: Path, src: Path, dst: Path)
    requires q in fs2
  {
    exists q0 :: q0 in fs && Under(q0, src) && q0 != src && q == Rebase(q0, src, dst) && fs2[q] == fs[q0]
  }

  /** Every entry of `fs2` is an unchanged entry of `fs`, a directory on the
      way to `dst`, or a copy of something below `src`: the footprint of
      `shutil.copytree(src, dst)`. */
  ghost predicate CopyBounded(fs: FS, fs2: FS, src: Path, dst: Path) {
    forall q :: q in fs2 ==>
      || (q in fs && fs2[q] == fs[q])
      || (OnPathTo(q, dst) && fs2[q].Dir?)
      || CopiedFrom(fs, fs2, q, src, dst)
  }

  /** The entries strictly below `src`, re-rooted at `dst`. */
  function CopiedEntries(fs: FS, src: Path, dst: Path): (r: FS)
    ensures forall q :: q in fs && Under(q, src) && q != src ==>
      Rebase(q, src, dst) in r && r[Rebase(q, src, dst)] == fs[q]
    ensures forall q :: q in r ==> Under(q, dst) && q != dst
    ensures forall q :: q in r ==> CopiedFrom(fs, r, q, src, dst)
  {
    forall q | q in fs && Under(q, src) && q != src
      ensures Under(Rebase(q, src, dst), dst) && Rebase(q, src, dst) != dst
    {
      RebaseUnder(q, src, dst);
    }
    assert forall q1, q2 ::
      (q1 in fs && Under(q1, src) && q2 in fs && Under(q2, src) &&
       Rebase(q1, src, dst) == Rebase(q2, src, dst)) ==> q1 == q2 by {
      forall q1, q2 | q1 in fs && Under(q1, src) && q2 in fs && Under(q2, src) &&
        Rebase(q1, src, dst) == Rebase(q2, src, dst)
        ensures q1 == q2
      {
        RebaseInjective(q1, q2, src, dst);
      }
    }
    map q | q in fs && Under(q, src) && q != src :: Rebase(q, src, dst) := fs[q]
  }

  /** `shutil.copytree(src, dst)`: the source must be a directory and the
      destination must be creatable by `os.makedirs`; the copy then mirrors
      everything below the source. */
  function CopyTree(fs: FS, src: Path, dst: Path): (r: Result<FS>)
    ensures r.Ok? <==> IsDir(fs, src) && MakeDirs(fs, dst).Ok?
    ensures r.Ok? ==> IsDir(r.value, dst)
    ensures r.Ok? ==> forall q :: q in fs && Under(q, src) && q != src ==>
      Rebase(q, src, dst) in r.value && r.value[Rebase(q, src, dst)] == fs[q]
    ensures r.Ok? ==> forall q :: q in fs && !Under(q, dst) ==> q in r.value && r.value[q] == fs[q]
    ensures r.Ok? ==> CopyBounded(fs, r.value, src, dst)
  {
    if !IsDir(fs, src) then Raised(OSError(src))
    else
      var made :- MakeDirs(fs, dst);
      var copied := CopiedEntries(fs, src, dst);
      Ok(made + copied)
  }

  /** One call of the command runner: the directory it ran in, the command
      line(s) passed to it, and whether a shell was requested. */
  datatype Invocation = Invocation(cwd: Path, commands: seq<string>, shell: bool)

  /** `(exit code, captured output, captured error)` */
  datatype CommandResult = CommandResult(exit: int, out: string, err: string)

  /** One `(root, filename)` pair produced by `os.walk`. */
  datatype WalkEntry = WalkEntry(dir: Path, file: string)

  /** The operating system as seen by the model. `run` answers a command given
      every command issued before it; `listdir` lists a resolved directory in
      the order the system returns; `walk(cwd, top)` is the `os.walk(top)`
      output flattened into `(root, filename)` pairs. */
  datatype Host = Host(
    run: (seq<Invocation>, Invocation) -> CommandResult,
    listdir: Path -> seq<string>,
    walk: (Path, Path) -> seq<WalkEntry>)

  datatype World = World(cwd: Path, fs: FS, log: seq<Invocation>)

  /** The world after an operation, and what the operation returned or raised.
      Effects that happened before an exception stay in the world. */
  datatype Step<T> = Step(world: World, outcome: Result<T>)

  /** The filesystem key a path names, seen from the working directory:
      `.` and `./` are the working directory itself, one leading `./` in front
      of a relative path is dropped, and any other relative path is joined
      onto the working directory as written. */
  function Resolve(w: World, p: Path): Path {
    if p == "." || p == "./" then w.cwd
    else if StartsWith(p, "./") && !IsAbsolute(p[2..]) then Join(w.cwd, p[2..])
    else Join(w.cwd, p)
  }

  /** Only the working directory matters to `Resolve`. */
  lemma ResolveSameCwd(w: World, w': World, p: Path)
    requires w.cwd == w'.cwd
    ensures Resolve(w, p) == Resolve(w', p)
  {
  }

  /** `os.path.exists(p)` */
  predicate Exists(w: World, p: Path) {
    Resolve(w, p) in w.fs
  }

  /** Runs `commands` in the working directory and records the invocation. */
  function Run(w: World, host: Host, commands: seq<string>, shell: bool): (r: (World, CommandResult))
    ensures r.0 == w.(log := w.log + [Invocation(w.cwd, commands, shell)])
    ensures r.1 == host.run(w.log, Invocation(w.cwd, commands, shell))
  {
    var inv := Invocation(w.cwd, commands, shell);
    (w.(log := w.log + [inv]), host.run(w.log, inv))
  }

  /** `os.chdir(p)`: raises unless `p` names an existing directory. */
  function Chdir(w: World, p: Path): (r: Result<World>)
    ensures r.Ok? <==> IsDir(w.fs, Resolve(w, p))
    ensures r.Ok? ==> r.value.cwd == Resolve(w, p) && r.value.fs == w.fs && r.value.log == w.log
  {
    var target := Resolve(w, p);
    if IsDir(w.fs, target) then Ok(w.(cwd := target)) else Raised(OSError(p))
  }

  /** `os.listdir(d)` as `glob` uses it: an unreadable directory lists as
      empty. */
  function Listdir(w: World, host: Host, d: Path): seq<string> {
    var target := Resolve(w, d);
    if IsDir(w.fs, target) then host.listdir(target) else []
  }

  /** A name that `glob` pattern `*<suffix>` selects: not hidden, ending in
      the suffix. */
  predicate GlobHit(suffix: string, name: string) {
    name != "" && name[0] != '.' && EndsWith(name, suffix)
  }

  /** `GlobHit` for one suffix, as the filter a glob applies to a listing. */
  function Matches(suffix: string): string -> bool {
    n => GlobHit(suffix, n)
  }

  /** `glob.glob(os.path.join(dir, '*' + suffix))`: the pattern is split back
      into a directory and a file pattern; matches keep the listing order and
      are joined onto the directory (left bare when the directory part is
      empty). */
  function Glob(w: World, host: Host, dir: Path, suffix: string): seq<Path> {
    var parts := Split(Join(dir, "*" + suffix));
    var d := parts.0;
    var hits := Filter(Listdir(w, host, if d == "" then "." else d), Matches(suffix));
    if d == "" then hits else JoinEach(d, hits)
  }

  function JoinEach(d: Path, names: seq<string>): (r: seq<Path>)
    ensures |r| == |names|
    ensures forall i :: 0 <= i < |names| ==> r[i] == Join(d, names[i])
  {
    seq(|names|, i requires 0 <= i < |names| => Join(d, names[i]))
  }

  /** The listing oracle agrees with the filesystem: whatever it lists is a
      single path component that exists inside the listed directory. */
  ghost predicate ListingCoherent(host: Host, fs: FS) {
    forall d, n :: n in host.listdir(d) ==>
      n != "" && (forall j :: 0 <= j < |n| ==> n[j] != '/') && Join(d, n) in fs
  }

  /** For an ordinary directory (non-empty, no trailing '/') the glob pattern
      splits back into that directory, so the matches are exactly the listed
      names that end in the suffix and are not hidden, in listing order. */
  lemma GlobInDirectory(w: World, host: Host, dir: Path, suffix: string)
    requires dir != "" && !EndsWithSlash(dir)
    requires forall j :: 0 <= j < |suffix| ==> suffix[j] != '/'
    ensures Glob(w, host, dir, suffix) ==
      JoinEach(dir, Filter(Listdir(w, host, dir), Matches(suffix)))
  {
    var pattern := "*" + suffix;
    assert forall j :: 0 <= j < |pattern| ==> pattern[j] != '/' by {
      forall j | 0 <= j < |pattern| ensures pattern[j] != '/' {
        if j > 0 { assert pattern[j] == suffix[j - 1]; }
      }
    }
    SplitJoin(dir, pattern);
  }

  /** When the listing holds a matching name, the glob in an ordinary
      directory finds something, and its first match is the first matching
      name the listing oracle reports. */
  lemma GlobFirstListed(w: World, host: Host, dir: Path, suffix: string)
    requires dir != "" && !EndsWithSlash(dir)
    requires forall j :: 0 <= j < |suffix| ==> suffix[j] != '/'
    requires exists k :: 0 <= k < |Listdir(w, host, dir)| && GlobHit(suffix, Listdir(w, host, dir)[k])
    ensures Glob(w, host, dir, suffix) != []
    ensures var names := Listdir(w, host, dir);
      exists i :: 0 <= i < |names| && IsFirst(names, Matches(suffix), i) &&
        Glob(w, host, dir, suffix)[0] == Join(dir, names[i])
  {
    GlobInDirectory(w, host, dir, suffix);
    var names := Listdir(w, host, dir);
    var hits := Filter(names, Matches(suffix));
    var k :| 0 <= k < |names| && GlobHit(suffix, names[k]);
    assert Matches(suffix)(names[k]);
    assert hits != [];
    var i :| 0 <= i < |names| && names[i] == hits[0] && IsFirst(names, Matches(suffix), i);
  }

  /** What a glob returns exists, is not hidden and carries the suffix. */
  lemma GlobSound(w: World, host: Host, dir: Path, suffix: string)
    requires dir != "" && !EndsWithSlash(dir)
    requires forall j :: 0 <= j < |suffix| ==> suffix[j] != '/'
    requires ListingCoherent(host, w.fs)
    ensures forall p :: p in Glob(w, host, dir, suffix) ==>
      exists n :: p == Join(dir, n) && GlobHit(suffix, n) && Join(Resolve(w, dir), n) in w.fs
  {
    GlobInDirectory(w, host, dir, suffix);
    var names := Listdir(w, host, dir);
    var hits := Filter(names, Matches(suffix));
    FilterMembers(names, Matches(suffix));
    forall p | p in Glob(w, host, dir, suffix)
      ensures exists n :: p == Join(dir, n) && GlobHit(suffix, n) && Join(Resolve(w, dir), n) in w.fs
    {
      var i :| 0 <= i < |hits| && p == JoinEach(dir, hits)[i];
      var n := hits[i];
      assert n in names;
      assert IsDir(w.fs, Resolve(w, dir));
      assert n in host.listdir(Resolve(w, dir));
      assert p == Join(dir, n);
    }
  }

  /** `os.walk(top)` flattened; a missing top yields nothing. */
  function Walk(w: World, host: Host, top: Path): seq<WalkEntry> {
    if IsDir(w.fs, Resolve(w, top)) then host.walk(w.cwd, top) else []
  }

  /** `names[i]` is the first of `names` that exists below `base`. */
  ghost predicate FirstExisting(w: World, base: Path, names: seq<string>, i: int)
    requires 0 <= i < |names|
  {
    Exists(w, Join(base, names[i])) && forall j :: 0 <= j < i ==> !Exists(w, Join(base, names[j]))
  }

  /** The first of `names` that exists below `base`, or None: the shape of
      every "try these conventional directory names in order" probe. */
  function Probe(w: World, base: Path, names: seq<string>): (r: Option<string>)
    ensures r.Some? ==> r.value in names
  {
    if names == [] then None
    else if Exists(w, Join(base, names[0])) then Some(names[0])
    else Probe(w, base, names[1..])
  }

  /** `Probe` finds nothing exactly when none of the names exists, and
      otherwise the first name that does. */
  lemma {:induction false} ProbeSpec(w: World, base: Path, names: seq<string>)
    ensures var r := Probe(w, base, names);
      && (r.None? <==> forall i :: 0 <= i < |names| ==> !Exists(w, Join(base, names[i])))
      && (r.Some? ==> exists i :: 0 <= i < |names| && names[i] == r.value && FirstExisting(w, base, names, i))
    decreases |names|
  {
    if names == [] {
    } else if Exists(w, Join(base, names[0])) {
      assert FirstExisting(w, base, names, 0);
    } else {
      var r := Probe(w, base, names[1..]);
      ProbeSpec(w, base, names[1..]);
      assert forall i :: 0 < i < |names| ==> names[i] == names[1..][i - 1];
      if r.Some? {
        var i :| 0 <= i < |names[1..]| && names[1..][i] == r.value && FirstExisting(w, base, names[1..], i);
        assert names[i + 1] == r.value;
        assert FirstExisting(w, base, names, i + 1);
      }
    }
  }

  /** Probing more names after the ones already probed cannot change a hit
      among the earlier ones. */
  lemma {:induction false} ProbePrefix(w: World, base: Path, names: seq<string>, more: seq<string>)
    requires Probe(w, base, names).Some?
    ensures Probe(w, base, names + more) == Probe(w, base, names)
    decreases |names|
  {
    var all := names + more;
    assert all[0] == names[0];
    if Exists(w, Join(base, names[0])) {
      assert Probe(w, base, all) == Some(names[0]);
    } else {
      assert all[1..] == names[1..] + more;
      ProbePrefix(w, base, names[1..], more);
      assert Probe(w, base, all) == Probe(w, base, all[1..]) by {
        assert all != [] && !Exists(w, Join(base, all[0]));
      }
    }
  }

  /** When none of the earlier names exists, the probe continues with the
      later ones. */
  lemma {:induction false} ProbeSkip(w: World, base: Path, names: seq<string>, more: seq<string>)
    requires Probe(w, base, names).None?
    ensures Probe(w, base, names + more) == Probe(w, base, more)
    decreases |names|
  {
    if names == [] {
      assert names + more == more;
    } else {
      assert (names + more)[0] == names[0];
      assert (names + more)[1..] == names[1..] + more;
      ProbeSkip(w, base, names[1..], more);
    }
  }
}
