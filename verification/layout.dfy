/** Where a project's files live (readthedocs/filesystem/__init__.py): the
    documentation, checkout, environment and artifact directories derived
    from a root and a slug, and the search for the Sphinx `conf.py`. */
module Layout {
  import opened Outcomes
  import opened Text
  import opened Seqs
  import opened Disk

  /** Keyword arguments of `FilesystemProject(root, slug, **kwargs)`. The
      model gives every value a path type. */
  type Kwargs = map<string, string>

  function Lookup(kwargs: Kwargs, key: string): Option<string> {
    if key in kwargs then Some(kwargs[key]) else None
  }

  /** A `FilesystemProject`: the three derived paths are unset (None) unless
      a keyword argument set them; other keyword arguments become extra
      attributes. */
  datatype FilesystemProject = FilesystemProject(
    root: Path,
    slug: string,
    docPath: Path,
    checkoutPath: Option<Path>,
    envPath: Option<Path>,
    artifactPath: Option<Path>,
    extra: Kwargs)

  const PathKeys: set<string> := {"doc_path", "checkout_path", "env_path", "artifact_path"}

  /** `FilesystemProject(root, slug, **kwargs)`: `doc_path` is `root/slug`,
      then every keyword argument is applied on top, so it may replace
      `doc_path` and set the other paths. Passing `root` or `slug` a second
      time as a keyword is a TypeError in Python. */
  function NewFilesystemProject(root: Path, slug: string, kwargs: Kwargs): (r: Result<FilesystemProject>)
    ensures r.Raised? <==> "root" in kwargs || "slug" in kwargs
    ensures r.Ok? ==> r.value.root == root && r.value.slug == slug
    ensures r.Ok? ==> r.value.docPath == (if "doc_path" in kwargs then kwargs["doc_path"] else Join(root, slug))
    ensures r.Ok? ==> r.value.checkoutPath == Lookup(kwargs, "checkout_path")
    ensures r.Ok? ==> r.value.envPath == Lookup(kwargs, "env_path")
    ensures r.Ok? ==> r.value.artifactPath == Lookup(kwargs, "artifact_path")
    ensures r.Ok? ==> forall k :: k in kwargs && k !in PathKeys ==> k in r.value.extra && r.value.extra[k] == kwargs[k]
  {
    if "root" in kwargs || "slug" in kwargs then Raised(TypeError("__init__() got multiple values for a keyword argument"))
    else
      var base := FilesystemProject(root, slug, Join(root, slug), None, None, None, map[]);
      Ok(base.(
        docPath := if "doc_path" in kwargs then kwargs["doc_path"] else base.docPath,
        checkoutPath := Lookup(kwargs, "checkout_path"),
        envPath := Lookup(kwargs, "env_path"),
        artifactPath := Lookup(kwargs, "artifact_path"),
        extra := map k | k in kwargs && k !in PathKeys :: kwargs[k]))
  }

  /** The doc path of the project in the state tests: a root with a trailing
      slash gets the slug appended without a second separator. */
  lemma DocPathOfTestProject()
    ensures NewFilesystemProject("/Users/eric/checkouts/django-kong/", "kong",
      map["checkout_path" := "/Users/eric/checkouts/django-kong/",
          "artifact_path" := "/Users/eric/checkouts/django-kong/rtd-artifact",
          "env_path" := "/Users/eric/checkouts/django-kong/rtd-env"]).value.docPath
      == "/Users/eric/checkouts/django-kong/kong"
  {
  }

  /** `FilesystemProject.get_artifact_path(version, type)` */
  function GetArtifactPath(p: FilesystemProject, version: string, kind: string): Path {
    Join4(p.docPath, "artifacts", version, kind)
  }

  /** Artifacts of a version and output type sit in their own directory below
      the project's doc path. */
  lemma GetArtifactPathShape(p: FilesystemProject, version: string, kind: string)
    requires p.docPath != "" && !EndsWithSlash(p.docPath)
    requires version != "" && !IsAbsolute(version) && !EndsWithSlash(version)
    requires kind != "" && forall j :: 0 <= j < |kind| ==> kind[j] != '/'
    ensures Split(GetArtifactPath(p, version, kind)) == (Join3(p.docPath, "artifacts", version), kind)
    ensures StartsWith(GetArtifactPath(p, version, kind), p.docPath + "/artifacts/")
  {
    var a := Join(p.docPath, "artifacts");
    JoinPlain(p.docPath, "artifacts");
    var b := Join(a, version);
    JoinPlain(a, version);
    SplitJoin(b, kind);
    JoinPlain(b, kind);
    assert a + "/" <= b;
    assert b + "/" <= GetArtifactPath(p, version, kind);
  }

  /** Creates the directory `p` with `os.makedirs` unless something already
      exists there. */
  function EnsureDir(w: World, p: Path): (r: Result<World>)
    ensures Exists(w, p) ==> r == Ok(w)
    ensures r.Ok? ==> Exists(r.value, p) && r.value.cwd == w.cwd && r.value.log == w.log
    ensures r.Ok? ==> AddsOnlyDirs(w.fs, r.value.fs, Resolve(w, p))
  {
    if Exists(w, p) then Ok(w)
    else
      var fs :- MakeDirs(w.fs, Resolve(w, p));
      Ok(w.(fs := fs))
  }

  /** `EnsureDir` raises exactly when the directory is missing and something
      on the way to it exists but is not a directory. */
  lemma EnsureDirRaises(w: World, p: Path)
    ensures EnsureDir(w, p).Raised? <==>
      && !Exists(w, p)
      && exists a :: a in Ancestors(Resolve(w, p)) && a in w.fs && !w.fs[a].Dir?
  {
  }

  /** `os.makedirs(p)` cannot make the missing `p`: something on the way to
      it exists but is not a directory. */
  ghost predicate Blocked(fs: FS, p: Path) {
    p !in fs && exists a :: a in Ancestors(p) && a in fs && !fs[a].Dir?
  }

  /** Making one directory neither blocks nor unblocks any path: it only
      adds directories, and only on a way that was clear. */
  lemma EnsureDirKeepsBlocked(w: World, p: Path, q: Path)
    requires EnsureDir(w, p).Ok?
    ensures Blocked(EnsureDir(w, p).value.fs, q) <==> Blocked(w.fs, q)
  {
    var fs, fs1 := w.fs, EnsureDir(w, p).value.fs;
    if Blocked(w.fs, q) && q in fs1 {
      var a :| a in Ancestors(q) && a in fs && !fs[a].Dir?;
      var t := Resolve(w, p);
      assert t !in fs && forall b :: b in Ancestors(t) && b in fs ==> fs[b].Dir?;
      assert OnPathTo(q, t);
      if q != t {
        AncestorsTransitive(a, q, t);
      }
      assert false;
    }
  }

  /** `EnsureDir` on each path in turn; the first failure stops the sequence
      and keeps the directories made before it. */
  function EnsureDirs(w: World, ps: seq<Path>): (r: Step<()>)
    decreases |ps|
    ensures (forall i :: 0 <= i < |ps| ==> Exists(w, ps[i])) ==> r == Step(w, Ok(()))
    ensures r.outcome.Ok? ==> forall i :: 0 <= i < |ps| ==> Exists(r.world, ps[i])
    ensures r.world.cwd == w.cwd && r.world.log == w.log
    ensures forall q :: q in w.fs ==> q in r.world.fs && r.world.fs[q] == w.fs[q]
  {
    if ps == [] then Step(w, Ok(()))
    else
      match EnsureDir(w, ps[0])
      case Raised(e) => Step(w, Raised(e))
      case Ok(w1) =>
        var r := EnsureDirs(w1, ps[1..]);
        assert forall i :: 0 < i < |ps| ==> ps[i] == ps[1..][i - 1];
        assert forall i :: 0 <= i < |ps| && Exists(w, ps[i]) ==> Exists(w1, ps[i]);
        r
  }

  /** `EnsureDirs` raises exactly when one of the paths is blocked in the
      files it starts from: directories made for earlier paths never clear
      the way to a later one. */
  lemma {:induction false} EnsureDirsRaises(w: World, ps: seq<Path>)
    ensures EnsureDirs(w, ps).outcome.Raised? <==> exists i :: 0 <= i < |ps| && Blocked(w.fs, Resolve(w, ps[i]))
    decreases |ps|
  {
    if ps != [] {
      EnsureDirRaises(w, ps[0]);
      if EnsureDir(w, ps[0]).Ok? {
        var w1 := EnsureDir(w, ps[0]).value;
        var rest := ps[1..];
        EnsureDirsRaises(w1, rest);
        forall i | 0 <= i < |ps|
          ensures Blocked(w.fs, Resolve(w, ps[i])) <==> 0 < i && Blocked(w1.fs, Resolve(w1, rest[i - 1]))
        {
          ResolveSameCwd(w, w1, ps[i]);
          EnsureDirKeepsBlocked(w, ps[0], Resolve(w, ps[i]));
          if i > 0 {
            assert rest[i - 1] == ps[i];
          }
        }
        if exists i :: 0 <= i < |rest| && Blocked(w1.fs, Resolve(w1, rest[i])) {
          var i :| 0 <= i < |rest| && Blocked(w1.fs, Resolve(w1, rest[i]));
          assert Blocked(w.fs, Resolve(w, ps[i + 1]));
        }
      }
    }
  }

  /** `EnsureDirs` adds nothing but directories, each one of the paths or an
      ancestor of one. */
  lemma {:induction false} EnsureDirsAddsOnlyDirs(w: World, ps: seq<Path>)
    ensures var fs2 := EnsureDirs(w, ps).world.fs;
      forall q :: q in fs2 && q !in w.fs ==>
        fs2[q].Dir? && exists i :: 0 <= i < |ps| && OnPathTo(q, Resolve(w, ps[i]))
    decreases |ps|
  {
    if ps != [] && EnsureDir(w, ps[0]).Ok? {
      var w1 := EnsureDir(w, ps[0]).value;
      var rest := ps[1..];
      var fs2 := EnsureDirs(w, ps).world.fs;
      assert fs2 == EnsureDirs(w1, rest).world.fs;
      EnsureDirsAddsOnlyDirs(w1, rest);
      forall q | q in fs2 && q !in w.fs
        ensures fs2[q].Dir? && exists i :: 0 <= i < |ps| && OnPathTo(q, Resolve(w, ps[i]))
      {
        if q in w1.fs {
          assert OnPathTo(q, Resolve(w, ps[0]));
        } else {
          var i :| 0 <= i < |rest| && OnPathTo(q, Resolve(w1, rest[i]));
          ResolveSameCwd(w, w1, rest[i]);
          assert ps[i + 1] == rest[i];
        }
      }
    }
  }

  /** `ReadTheDocsProject(root, slug, **kwargs)`: the checkout, environment and
      artifact paths are always `doc_path/checkouts`, `doc_path/envs` and
      `doc_path/artifacts`, whatever the keyword arguments said, and the four
      directories are created when missing. */
  function NewReadTheDocsProject(root: Path, slug: string, kwargs: Kwargs, w: World): (r: Step<FilesystemProject>)
    ensures r.outcome.Ok? ==> NewFilesystemProject(root, slug, kwargs).Ok?
    ensures r.outcome.Ok? ==>
      var p := r.outcome.value;
      && p.docPath == NewFilesystemProject(root, slug, kwargs).value.docPath
      && p.checkoutPath == Some(Join(p.docPath, "checkouts"))
      && p.envPath == Some(Join(p.docPath, "envs"))
      && p.artifactPath == Some(Join(p.docPath, "artifacts"))
      && Exists(r.world, p.docPath) && Exists(r.world, p.checkoutPath.value)
      && Exists(r.world, p.envPath.value) && Exists(r.world, p.artifactPath.value)
    ensures forall q :: q in w.fs ==> q in r.world.fs && r.world.fs[q] == w.fs[q]
    ensures r.world.cwd == w.cwd && r.world.log == w.log
    ensures r.outcome.Ok? <==>
      && NewFilesystemProject(root, slug, kwargs).Ok?
      && var dirs := ProjectDirs(NewFilesystemProject(root, slug, kwargs).value.docPath);
         forall i :: 0 <= i < |dirs| ==> !Blocked(w.fs, Resolve(w, dirs[i]))
    ensures forall q :: q in r.world.fs && q !in w.fs ==>
      && NewFilesystemProject(root, slug, kwargs).Ok? && r.world.fs[q].Dir?
      && var dirs := ProjectDirs(NewFilesystemProject(root, slug, kwargs).value.docPath);
         exists i :: 0 <= i < |dirs| && OnPathTo(q, Resolve(w, dirs[i]))
  {
    match NewFilesystemProject(root, slug, kwargs)
    case Raised(e) => Step(w, Raised(e))
    case Ok(base) =>
      var d := base.docPath;
      var p := base.(checkoutPath := Some(Join(d, "checkouts")),
                     envPath := Some(Join(d, "envs")),
                     artifactPath := Some(Join(d, "artifacts")));
      var dirs := ProjectDirs(d);
      var made := EnsureDirs(w, dirs);
      EnsureDirsRaises(w, dirs);
      EnsureDirsAddsOnlyDirs(w, dirs);
      if made.outcome.Raised? then Step(made.world, Raised(made.outcome.error))
      else
        assert Exists(made.world, dirs[1]) && Exists(made.world, dirs[2]) && Exists(made.world, dirs[3]);
        Step(made.world, Ok(p))
  }

  /** The directories a Read the Docs project makes, in order. */
  function ProjectDirs(d: Path): seq<Path> {
    [d, Join(d, "checkouts"), Join(d, "envs"), Join(d, "artifacts")]
  }

  /** Constructing the project a second time on the world the first
      construction left behind creates nothing and yields the same project. */
  lemma ReadTheDocsProjectIdempotent(root: Path, slug: string, kwargs: Kwargs, w: World)
    ensures var r := NewReadTheDocsProject(root, slug, kwargs, w);
      r.outcome.Ok? ==> NewReadTheDocsProject(root, slug, kwargs, r.world) == r
  {
    var r := NewReadTheDocsProject(root, slug, kwargs, w);
    if r.outcome.Ok? {
      var ps := ProjectDirs(NewFilesystemProject(root, slug, kwargs).value.docPath);
      var made := EnsureDirs(w, ps);
      assert r.world == made.world && made.outcome.Ok?;
      assert EnsureDirs(made.world, ps) == Step(made.world, Ok(()));
    }
  }

  /** A `SphinxVersion` (a `Version` with an optional explicit `conf`): the
      checkout path is copied from the project when the version is made. */
  datatype SphinxVersion = SphinxVersion(
    project: FilesystemProject,
    slug: string,
    checkoutPath: Option<Path>,
    conf: Option<string>)

  function NewSphinxVersion(project: FilesystemProject, slug: string): (v: SphinxVersion)
    ensures v.checkoutPath == project.checkoutPath && v.conf.None?
    ensures v.project == project && v.slug == slug
  {
    SphinxVersion(project, slug, project.checkoutPath, None)
  }

  /** The conventional documentation directories, in probe order. */
  const DocDirNames: seq<string> := ["docs", "doc", "Doc"]

  /** `Version.full_doc_path`: the first of `docs`, `doc`, `Doc` that exists
      in the checkout, else the checkout itself. */
  function FullDocPath(v: SphinxVersion, w: World): (r: Result<Path>)
    ensures r.Ok? <==> v.checkoutPath.Some?
    ensures r.Raised? ==> r.error == JoinOnNone
    ensures r.Ok? ==> var c := v.checkoutPath.value;
      || (r.value == c && forall i :: 0 <= i < |DocDirNames| ==> !Exists(w, Join(c, DocDirNames[i])))
      || exists i :: 0 <= i < |DocDirNames| && r.value == Join(c, DocDirNames[i]) &&
           FirstExisting(w, c, DocDirNames, i)
  {
    if v.checkoutPath.None? then Raised(JoinOnNone)
    else
    var c := v.checkoutPath.value;
    ProbeSpec(w, c, DocDirNames);
    match Probe(w, c, DocDirNames)
    case Some(name) => Ok(Join(c, name))
    case None => Ok(c)
  }

  /** The walk entries `Find` keeps: those for a file called `name`. */
  function HasName(name: string): WalkEntry -> bool {
    (e: WalkEntry) => e.file == name
  }

  /** `Version.find` / `Version.full_find`: every file called `name` that
      `os.walk(top)` reports, joined onto its directory, in walk order. */
  function Find(w: World, host: Host, top: Path, name: string): (r: seq<Path>)
    ensures |r| == |Filter(Walk(w, host, top), HasName(name))|
  {
    var hits := Filter(Walk(w, host, top), HasName(name));
    seq(|hits|, i requires 0 <= i < |hits| => Join(hits[i].dir, hits[i].file))
  }

  /** Each path `Find` reports comes from a walk entry with the wanted name,
      and every such entry is reported. */
  lemma FindExact(w: World, host: Host, top: Path, name: string)
    ensures forall i :: 0 <= i < |Find(w, host, top, name)| ==>
      exists e :: e in Walk(w, host, top) && e.file == name && Find(w, host, top, name)[i] == Join(e.dir, name)
    ensures forall e :: e in Walk(w, host, top) && e.file == name ==> Join(e.dir, name) in Find(w, host, top, name)
  {
    var walk := Walk(w, host, top);
    var hits := Filter(walk, HasName(name));
    var r := Find(w, host, top, name);
    FilterMembers(walk, HasName(name));
    forall e | e in walk && e.file == name ensures Join(e.dir, name) in r {
      var k :| 0 <= k < |walk| && walk[k] == e;
      assert e in hits;
      var i :| 0 <= i < |hits| && hits[i] == e;
      assert r[i] == Join(e.dir, name);
    }
  }

  /** `Find` reports its paths in walk order: of two reported paths, the
      earlier comes from an earlier matching walk entry. */
  lemma FindWalkOrder(w: World, host: Host, top: Path, name: string)
    ensures var walk := Walk(w, host, top);
      var r := Find(w, host, top, name);
      forall i, j :: 0 <= i < j < |r| ==>
        exists k, l ::
          && 0 <= k < l < |walk| && walk[k].file == name && walk[l].file == name
          && r[i] == Join(walk[k].dir, name) && r[j] == Join(walk[l].dir, name)
  {
    var walk := Walk(w, host, top);
    var hits := Filter(walk, HasName(name));
    var r := Find(w, host, top, name);
    FilterMembers(walk, HasName(name));
    forall i, j | 0 <= i < j < |r|
      ensures exists k, l ::
        && 0 <= k < l < |walk| && walk[k].file == name && walk[l].file == name
        && r[i] == Join(walk[k].dir, name) && r[j] == Join(walk[l].dir, name)
    {
      var k, l := FilterOrder(walk, HasName(name), i, j);
      assert hits[i] in hits && hits[j] in hits;
      assert r[i] == Join(hits[i].dir, hits[i].file) && r[j] == Join(hits[j].dir, hits[j].file);
    }
  }

  /** The compatibility tie-break between several `conf.py` files: the path
      holds `doc` at index 70 or later (`file.find('doc', 70) != -1`). */
  predicate DocTieBreak(f: Path) {
    FindFrom(f, "doc", 70) != -1
  }

  lemma DocTieBreakMeaning(f: Path)
    ensures DocTieBreak(f) <==> exists i :: 70 <= i && Occurs(f, "doc", i)
  {
    if DocTieBreak(f) {
      assert Occurs(f, "doc", FindFrom(f, "doc", 70));
    }
  }

  const ConfMissing: Error :=
    BuildException("Conf File Missing. Please make sure you have a conf.py in your project.")

  /** The candidates `conf_file` chooses from: the matches below the doc
      directory, or, only when there are none, the matches in the whole
      checkout. */
  function ConfCandidates(v: SphinxVersion, w: World, host: Host): (r: Result<seq<Path>>)
    ensures r.Ok? <==> v.checkoutPath.Some?
    ensures r.Raised? ==> r.error == JoinOnNone
    ensures r.Ok? ==> var local := Find(w, host, FullDocPath(v, w).value, "conf.py");
      r.value == if local != [] then local else Find(w, host, v.checkoutPath.value, "conf.py")
  {
    var docDir :- FullDocPath(v, w);
    var local := Find(w, host, docDir, "conf.py");
    if local != [] then Ok(local)
    else
      Ok(Find(w, host, v.checkoutPath.value, "conf.py"))
  }

  /** `SphinxVersion.conf_file`. An explicit `conf` is joined onto the
      checkout without searching. Otherwise one candidate is returned as it
      is; among several, the first passing the tie-break wins and None is
      returned when none passes; no candidate at all raises BuildException. */
  function ConfFile(v: SphinxVersion, w: World, host: Host): (r: Result<Option<Path>>)
    ensures v.conf.Some? && v.conf.value != "" ==>
      && (IsAbsolute(v.conf.value) ==> r == Ok(Some(v.conf.value)))
      && (v.checkoutPath.Some? ==> r == Ok(Some(Join(v.checkoutPath.value, v.conf.value))))
      && (v.checkoutPath.None? && !IsAbsolute(v.conf.value) ==> r == Raised(JoinOnNone))
    ensures (v.conf.None? || v.conf.value == "") && ConfCandidates(v, w, host).Ok? ==>
      var files := ConfCandidates(v, w, host).value;
      && (files == [] <==> r == Raised(ConfMissing))
      && (files != [] ==> r.Ok?)
      && (|files| == 1 ==> r == Ok(Some(files[0])))
      && (|files| > 1 && r.Ok? && r.value.Some? ==>
            exists i :: 0 <= i < |files| && files[i] == r.value.value && IsFirst(files, DocTieBreak, i))
      && (|files| > 1 ==> (r == Ok(None) <==> forall i :: 0 <= i < |files| ==> !DocTieBreak(files[i])))
    ensures (v.conf.None? || v.conf.value == "") && v.checkoutPath.None? ==> r == Raised(JoinOnNone)
    ensures r.Raised? ==> r.error == JoinOnNone || r.error == ConfMissing
  {
    if v.conf.Some? && v.conf.value != "" then
      var c :- JoinOnto(v.checkoutPath, v.conf.value);
      Ok(Some(c))
    else
      var files :- ConfCandidates(v, w, host);
      if |files| == 1 then Ok(Some(files[0]))
      else if |files| > 1 then
        var qualifying := Filter(files, DocTieBreak);
        if qualifying == [] then Ok(None) else Ok(Some(qualifying[0]))
      else Raised(ConfMissing)
  }

  /** `SphinxVersion.conf_dir`: the chosen `conf.py` path with every
      `/conf.py` removed, or None when no file was chosen. */
  function ConfDir(v: SphinxVersion, w: World, host: Host): (r: Result<Option<Path>>)
    ensures ConfFile(v, w, host).Raised? <==> r.Raised?
    ensures r.Ok? ==> (r.value.None? <==> ConfFile(v, w, host).value in {None, Some("")})
  {
    var file :- ConfFile(v, w, host);
    if file.Some? && file.value != "" then Ok(Some(RemoveAll(file.value, "/conf.py"))) else Ok(None)
  }

  /** The configuration directory of a `conf.py` found in directory `d` is
      `d` itself, provided `d` is an ordinary directory path (non-empty, no
      trailing '/') that does not itself contain `/conf.py`. */
  lemma ConfDirOfFoundFile(v: SphinxVersion, w: World, host: Host, d: Path)
    requires ConfFile(v, w, host) == Ok(Some(Join(d, "conf.py")))
    requires d != "" && !EndsWithSlash(d)
    requires forall i :: !Occurs(d, "/conf.py", i)
    ensures ConfDir(v, w, host) == Ok(Some(d))
  {
    StripConfPy(d);
  }

  lemma StripConfPy(d: Path)
    requires d != "" && !EndsWithSlash(d)
    requires forall i :: !Occurs(d, "/conf.py", i)
    ensures RemoveAll(Join(d, "conf.py"), "/conf.py") == d
  {
    var pat := "/conf.py";
    assert forall j :: 1 <= j < |pat| ==> pat[j] != pat[0] by {
      assert pat == ['/', 'c', 'o', 'n', 'f', '.', 'p', 'y'];
    }
    assert Join(d, "conf.py") == d + pat;
    RemoveAllAppended(d, pat);
  }

  /** `Version.artifact_path(type)`: `<project artifact path>/<version slug>/<type>`.
      Without an artifact path only an absolute version slug gets through
      `posixpath.join`. */
  function ArtifactPath(v: SphinxVersion, kind: string): (r: Result<Path>)
    ensures r.Ok? <==> v.project.artifactPath.Some? || IsAbsolute(v.slug)
    ensures r.Raised? ==> r.error == JoinOnNone
  {
    var a :- JoinOnto(v.project.artifactPath, v.slug);
    Ok(Join(a, kind))
  }

  /** `Version.env_bin(bin)`: `<project env path>/bin/<bin>`. */
  function EnvBin(v: SphinxVersion, bin: string): (r: Result<Path>)
    ensures r.Ok? <==> v.project.envPath.Some?
    ensures r.Raised? ==> r.error == JoinOnNone
  {
    var e :- JoinOnto(v.project.envPath, "bin");
    Ok(Join(e, bin))
  }

  /** For ordinary path components the derived paths nest as intended: the
      artifact directory of a type is the type's own directory inside the
      version's, and an environment binary sits in `bin` of the environment. */
  lemma DerivedPathsNest(v: SphinxVersion, kind: string, bin: string)
    requires v.project.artifactPath.Some? && v.project.envPath.Some?
    requires v.project.artifactPath.value != "" && !EndsWithSlash(v.project.artifactPath.value)
    requires v.project.envPath.value != "" && !EndsWithSlash(v.project.envPath.value)
    requires v.slug != "" && !IsAbsolute(v.slug) && !EndsWithSlash(v.slug)
    requires kind != "" && forall j :: 0 <= j < |kind| ==> kind[j] != '/'
    requires bin != "" && forall j :: 0 <= j < |bin| ==> bin[j] != '/'
    ensures ArtifactPath(v, kind).Ok? && Under(ArtifactPath(v, kind).value, v.project.artifactPath.value)
    ensures Split(ArtifactPath(v, kind).value) == (Join(v.project.artifactPath.value, v.slug), kind)
    ensures EnvBin(v, bin).Ok? && Split(EnvBin(v, bin).value) == (Join(v.project.envPath.value, "bin"), bin)
  {
    var a := v.project.artifactPath.value;
    var vs := Join(a, v.slug);
    JoinPlain(a, v.slug);
    SplitJoin(vs, kind);
    JoinPlain(vs, kind);
    assert a + "/" <= vs;
    assert vs <= Join(vs, kind);
    var e := v.project.envPath.value;
    var eb := Join(e, "bin");
    JoinPlain(e, "bin");
    SplitJoin(eb, bin);
  }
}
