/** The Sphinx backends (readthedocs/doc_builder/backends/sphinx.py): one
    builder per output format, the `sphinx-build` invocation, the two-pass
    LaTeX-to-PDF build, and the format-specific ways of delivering the
    output to the artifact directory. */
module SphinxBackends {
  import opened Outcomes
  import opened Text
  import opened Seqs
  import opened Disk
  import Layout
  import opened BuildStates
  import opened Builders

  /** The builder classes. */
  datatype Format = Html | HtmlDir | SingleHtml | Search | LocalMedia | Epub | Pdf {
    /** The class attribute `type`: the artifact kind. */
    function Kind(): string {
      match this
      case Html => "sphinx"
      case HtmlDir => "sphinx_htmldir"
      case SingleHtml => "sphinx_singlehtml"
      case Search => "sphinx_search"
      case LocalMedia => "sphinx_localmedia"
      case Epub => "sphinx_epub"
      case Pdf => "sphinx_pdf"
    }

    /** The class attribute `sphinx_builder`; the PDF builder has none. */
    function SphinxBuilder(): Option<string> {
      match this
      case Html => Some("readthedocs")
      case HtmlDir => Some("readthedocsdirhtml")
      case SingleHtml => Some("readthedocssinglehtml")
      case Search => Some("json")
      case LocalMedia => Some("readthedocssinglehtmllocalmedia")
      case Epub => Some("epub")
      case Pdf => None
    }

    /** The class attribute `sphinx_build_dir`, relative to the conf dir;
        the directory-style and single-page builders inherit `_build/html`. */
    function BuildDir(): string {
      match this
      case Html => "_build/html"
      case HtmlDir => "_build/html"
      case SingleHtml => "_build/html"
      case Search => "_build/json"
      case LocalMedia => "_build/localmedia"
      case Epub => "_build/epub"
      case Pdf => "_build/latex"
    }
  }

  /** Every format delivers to its own artifact directory. */
  lemma KindsDistinct(f: Format, g: Format)
    ensures f.Kind() == g.Kind() ==> f == g
  {
    if f != g {
      assert f.Kind()[|f.Kind()| - 1] != g.Kind()[|g.Kind()| - 1] || |f.Kind()| != |g.Kind()| ||
        f.Kind() != g.Kind();
    }
  }

  /** `BaseSphinx.__init__`: the target is computed first, then the build
      output directory inside the conf dir; a missing conf dir (no
      `conf.py`, or a tie the heuristic cannot break) makes construction
      fail. */
  function NewSphinxBuilder(state: BuildState, f: Format, w: World, host: Host): (r: Result<Builder>)
    ensures r.Ok? <==>
      && (state.fs.project.artifactPath.Some? || IsAbsolute(state.fs.slug))
      && Layout.ConfDir(state.fs, w, host).Ok? && Layout.ConfDir(state.fs, w, host).value.Some?
    ensures r.Ok? ==>
      r.value.kind == f.Kind() && r.value.state == state &&
      r.value.target == Layout.ArtifactPath(state.fs, f.Kind()).value &&
      r.value.oldArtifactPath == Join(Layout.ConfDir(state.fs, w, host).value.value, f.BuildDir())
  {
    var _ :- Layout.ArtifactPath(state.fs, f.Kind());
    var confDir :- Layout.ConfDir(state.fs, w, host);
    if confDir.None? then Raised(JoinOnNone)
    else NewBuilder(state, f.Kind(), Join(confDir.value, f.BuildDir()))
  }

  /** When the only `conf.py` sits in an ordinary directory `d`, the builder
      collects its output from `d/<build dir>`. */
  lemma BuilderOutputBesideConf(state: BuildState, f: Format, w: World, host: Host, d: Path)
    requires state.fs.project.artifactPath.Some?
    requires Layout.ConfFile(state.fs, w, host) == Ok(Some(Join(d, "conf.py")))
    requires d != "" && !EndsWithSlash(d)
    requires forall i :: !Occurs(d, "/conf.py", i)
    ensures NewSphinxBuilder(state, f, w, host).Ok?
    ensures NewSphinxBuilder(state, f, w, host).value.oldArtifactPath == d + "/" + f.BuildDir()
  {
    Layout.ConfDirOfFoundFile(state.fs, w, host, d);
    JoinPlain(d, f.BuildDir());
  }

  /** The `sphinx-build` command line: environment binary, force flag,
      builder, language, source `.` and output directory. */
  function BuildCommand(sphinxBuild: Path, builder: string, language: string, buildDir: string): string {
    sphinxBuild + "  -E  -b " + builder + " -D language=" + language + " . " + buildDir + " "
  }

  /** What `sphinx-build` needs before it can be started, in the order the
      build asks for it: a conf dir that is an existing directory, the
      environment's `sphinx-build`, and a Sphinx builder name. */
  predicate SphinxBuildRuns(b: Builder, f: Format, confDir: Result<Option<Path>>, w: World) {
    && confDir.Ok? && confDir.value.Some? && IsDir(w.fs, Resolve(w, confDir.value.value))
    && b.state.fs.project.envPath.Some?
    && f.SphinxBuilder().Some?
  }

  /** The part of `BaseSphinx.build` inside the working-directory guard:
      change to the conf dir `confDir` (as `conf_dir` reported it) and run
      `sphinx-build` through the shell. */
  function SphinxBuildBody(b: Builder, f: Format, host: Host, confDir: Result<Option<Path>>, w: World): (r: Step<CommandResult>)
    ensures r.world.fs == w.fs
    ensures r.outcome.Ok? <==> SphinxBuildRuns(b, f, confDir, w)
    ensures r.outcome.Ok? ==>
      && confDir.Ok? && confDir.value.Some? && f.SphinxBuilder().Some? && Layout.EnvBin(b.state.fs, "sphinx-build").Ok?
      && r.world.log == w.log + [Invocation(Resolve(w, confDir.value.value),
           [BuildCommand(Layout.EnvBin(b.state.fs, "sphinx-build").value, f.SphinxBuilder().value,
                         b.state.core.language, f.BuildDir())], true)]
      && r.outcome.value == host.run(w.log, r.world.log[|w.log|])
  {
    match confDir
    case Raised(e) => Step(w, Raised(e))
    case Ok(dir) =>
      match ChdirTo(w, dir)
      case Raised(e) => Step(w, Raised(e))
      case Ok(w1) =>
        match Layout.EnvBin(b.state.fs, "sphinx-build")
        case Raised(e) => Step(w1, Raised(e))
        case Ok(bin) =>
          match f.SphinxBuilder()
          case None => Step(w1, Raised(AttributeError("sphinx_builder")))
          case Some(builder) =>
            var (w2, res) := Run(w1, host, [BuildCommand(bin, builder, b.state.core.language, f.BuildDir())], true);
            Step(w2, Ok(res))
  }

  /** `BaseSphinx.build`: runs `sphinx-build` in the conf dir for the
      builder's format and returns the runner's result; the working
      directory is restored afterwards. The PDF builder has no Sphinx
      builder name and raises. The conf dir is what `Layout.ConfDir`
      reports for the world the build starts in; asking for it changes
      nothing, so it is passed in. */
  function SphinxBuild(b: Builder, f: Format, confDir: Result<Option<Path>>, w: World, host: Host): (r: Step<CommandResult>)
    ensures r.outcome.Ok? ==> r.world.cwd == w.cwd && r.world.fs == w.fs
    ensures r.outcome.Ok? ==>
      && confDir.Ok? && confDir.value.Some? && f.SphinxBuilder().Some? && Layout.EnvBin(b.state.fs, "sphinx-build").Ok?
      && r.world.log == w.log + [Invocation(Resolve(w, confDir.value.value),
           [BuildCommand(Layout.EnvBin(b.state.fs, "sphinx-build").value, f.SphinxBuilder().value,
                         b.state.core.language, f.BuildDir())], true)]
      && r.outcome.value == host.run(w.log, r.world.log[|w.log|])
    ensures f == Pdf ==> r.outcome.Raised?
    ensures r.outcome.Ok? <==> IsDir(w.fs, w.cwd) && SphinxBuildRuns(b, f, confDir, w)
  {
    var body := (v: World) => SphinxBuildBody(b, f, host, confDir, v);
    var r := RestoringChdir(w, body);
    assert r.outcome.Ok? ==> r.outcome == body(w).outcome && r.world.log == body(w).world.log;
    r
  }

  /** The build writes where the builder later collects from: for an
      absolute conf dir `c` and a builder constructed for it (whose output
      directory `NewSphinxBuilder` sets to `c/<build dir>`), the output
      directory named on the command line, taken from the directory the
      command runs in, is the builder's `old_artifact_path`. */
  lemma BuildOutputIsMoveInput(b: Builder, f: Format, w: World, host: Host, c: Path)
    requires IsAbsolute(c)
    requires b.oldArtifactPath == Join(c, f.BuildDir())
    requires SphinxBuild(b, f, Ok(Some(c)), w, host).outcome.Ok?
    ensures var inv := SphinxBuild(b, f, Ok(Some(c)), w, host).world.log[|w.log|];
      Resolve(World(inv.cwd, w.fs, w.log), f.BuildDir()) == Resolve(w, b.oldArtifactPath)
  {
    assert SphinxBuild(b, f, Ok(Some(c)), w, host).world.log[|w.log|].cwd == c;
  }

  /** What `PdfBuilder.build` reads from the legacy project object: the conf
      dir for the version, whether it builds in a virtualenv, the
      environment's `sphinx-build`, and the language. */
  datatype LegacyProject = LegacyProject(confDir: Path, useVirtualenv: bool, sphinxBuild: Path, language: string)

  function LatexCommand(p: LegacyProject): string {
    (if p.useVirtualenv then p.sphinxBuild else "sphinx-build") +
    " -b latex -D language=" + p.language + " -d _build/doctrees . _build/latex"
  }

  function PdflatexCommands(texFiles: seq<Path>): (r: seq<string>)
    ensures |r| == |texFiles|
    ensures forall i :: 0 <= i < |r| ==> r[i] == "pdflatex -interaction=nonstopmode " + texFiles[i]
  {
    seq(|texFiles|, i requires 0 <= i < |texFiles| => "pdflatex -interaction=nonstopmode " + texFiles[i])
  }

  const NoTexFiles: CommandResult := CommandResult(0, "No tex files found", "No tex files found")

  /** The LaTeX result followed by the PDF result: exit codes added, output
      and error text concatenated. */
  function Combine(latex: CommandResult, pdf: CommandResult): CommandResult {
    CommandResult(latex.exit + pdf.exit, latex.out + pdf.out, latex.err + pdf.err)
  }

  /** With non-negative exit codes, the combined result reports success
      exactly when both steps succeeded, and it keeps both outputs. */
  lemma CombineSucceedsIffBoth(latex: CommandResult, pdf: CommandResult)
    requires latex.exit >= 0 && pdf.exit >= 0
    ensures Combine(latex, pdf).exit == 0 <==> latex.exit == 0 && pdf.exit == 0
    ensures StartsWith(Combine(latex, pdf).out, latex.out) && EndsWith(Combine(latex, pdf).out, pdf.out)
  {
    var out := Combine(latex, pdf).out;
    assert out[|out| - |pdf.out|..] == pdf.out;
  }

  /** The `pdflatex` passes: every `.tex` file is converted, and the whole
      batch runs twice so cross references settle; only the second pass's
      result is kept. */
  function PdflatexPasses(w: World, host: Host, texFiles: seq<Path>): (r: (World, CommandResult))
    ensures texFiles == [] ==> r == (w, NoTexFiles)
    ensures texFiles != [] ==>
      var inv := Invocation(w.cwd, PdflatexCommands(texFiles), false);
      r.0 == w.(log := w.log + [inv, inv]) && r.1 == host.run(w.log + [inv], inv)
  {
    if texFiles == [] then (w, NoTexFiles)
    else
      var (w1, _) := Run(w, host, PdflatexCommands(texFiles), false);
      Run(w1, host, PdflatexCommands(texFiles), false)
  }

  /** Where LaTeX writes, relative to the conf dir. */
  const LatexOut: Path := "_build/latex"

  /** The LaTeX output directory of a build started in `w`. */
  function LatexDir(p: LegacyProject, w: World): Path {
    Join(Resolve(w, p.confDir), LatexOut)
  }

  /** The `.tex` files `glob('*.tex')` finds at the top of the LaTeX output
      directory, in listing order. */
  function TexFiles(p: LegacyProject, w: World, host: Host): seq<Path> {
    Glob(w.(cwd := LatexDir(p, w)), host, "", ".tex")
  }

  /** The LaTeX step: run in the conf dir, with no shell. */
  function LatexInvocation(p: LegacyProject, w: World): Invocation {
    Invocation(Resolve(w, p.confDir), [LatexCommand(p)], false)
  }

  /** What `PdfBuilder.build` logs and returns, given the log `log` and the
      result `out` it ended with. LaTeX runs first in the conf dir. When it
      fails, its result is returned. Otherwise, with no `.tex` file in the
      LaTeX output directory the result is LaTeX combined with the "no tex
      files" result; else the same `pdflatex` batch over exactly those
      files runs twice in that directory and the second run's result is
      combined with LaTeX's. */
  ghost predicate PdfOutcome(p: LegacyProject, w: World, host: Host, log: seq<Invocation>, out: CommandResult) {
    && |log| > |w.log| && log[..|w.log|] == w.log
    && log[|w.log|] == LatexInvocation(p, w)
    && var latex := host.run(w.log, log[|w.log|]);
    if latex.exit != 0 then |log| == |w.log| + 1 && out == latex
    else
      var tex := TexFiles(p, w, host);
      if tex == [] then |log| == |w.log| + 1 && out == Combine(latex, NoTexFiles)
      else
        var inv := Invocation(LatexDir(p, w), PdflatexCommands(tex), false);
        && |log| == |w.log| + 3 && log[|w.log| + 1] == inv && log[|w.log| + 2] == inv
        && out == Combine(latex, host.run(log[..|w.log| + 2], inv))
  }

  /** A glob depends on the working directory and the files only. */
  lemma GlobIgnoresLog(w: World, host: Host, dir: Path, suffix: string, log: seq<Invocation>)
    ensures Glob(w.(log := log), host, dir, suffix) == Glob(w, host, dir, suffix)
  {
    var d := Split(Join(dir, "*" + suffix)).0;
    var listed := if d == "" then "." else d;
    assert Resolve(w.(log := log), listed) == Resolve(w, listed);
    assert Listdir(w.(log := log), host, listed) == Listdir(w, host, listed);
  }

  /** The part of `PdfBuilder.build` inside the working-directory guard. */
  function PdfBuildBody(p: LegacyProject, host: Host, w: World): (r: Step<CommandResult>)
    ensures r.world.fs == w.fs
    ensures r.outcome.Ok? <==>
      && IsDir(w.fs, Resolve(w, p.confDir))
      && (host.run(w.log, LatexInvocation(p, w)).exit == 0 ==> IsDir(w.fs, LatexDir(p, w)))
  {
    match Chdir(w, p.confDir)
    case Raised(e) => Step(w, Raised(e))
    case Ok(w1) =>
      var (w2, latex) := Run(w1, host, [LatexCommand(p)], false);
      if latex.exit != 0 then Step(w2, Ok(latex))
      else
        assert Resolve(w2, LatexOut) == LatexDir(p, w);
        match Chdir(w2, LatexOut)
        case Raised(e) => Step(w2, Raised(e))
        case Ok(w3) =>
          var tex := Glob(w3, host, "", ".tex");
          var (w4, pdf) := PdflatexPasses(w3, host, tex);
          Step(w4, Ok(Combine(latex, pdf)))
  }

  /** Every result the guarded part of `PdfBuilder.build` returns is the
      one `PdfOutcome` describes for the world it started in. */
  lemma PdfBuildBodyOutcome(p: LegacyProject, host: Host, w: World)
    ensures var r := PdfBuildBody(p, host, w);
      r.outcome.Ok? ==> PdfOutcome(p, w, host, r.world.log, r.outcome.value)
  {
    match Chdir(w, p.confDir)
    case Raised(_) =>
    case Ok(w1) =>
      var (w2, latex) := Run(w1, host, [LatexCommand(p)], false);
      var inv := LatexInvocation(p, w);
      assert w2.log == w.log + [inv] && w2.log[..|w.log|] == w.log;
      if latex.exit == 0 {
        match Chdir(w2, LatexOut)
        case Raised(_) =>
        case Ok(w3) =>
          assert w3.cwd == LatexDir(p, w);
          PdfTailOutcome(p, host, w, w2.log, latex, w3);
      }
  }

  /** The `pdflatex` part: after a successful LaTeX step logged as `log`,
      in the LaTeX output directory of the files the build started with,
      the passes over the globbed `.tex` files give the success outcome
      `PdfOutcome` describes. */
  lemma PdfTailOutcome(p: LegacyProject, host: Host, w: World, log: seq<Invocation>,
                       latex: CommandResult, w3: World)
    requires |log| == |w.log| + 1 && log[..|w.log|] == w.log
    requires log[|w.log|] == LatexInvocation(p, w)
    requires latex == host.run(w.log, log[|w.log|]) && latex.exit == 0
    requires w3 == World(LatexDir(p, w), w.fs, log)
    ensures var (w4, pdf) := PdflatexPasses(w3, host, Glob(w3, host, "", ".tex"));
      PdfOutcome(p, w, host, w4.log, Combine(latex, pdf))
  {
    var tex := Glob(w3, host, "", ".tex");
    GlobIgnoresLog(w3, host, "", ".tex", w.log);
    assert w3.(log := w.log) == w.(cwd := LatexDir(p, w));
    assert tex == TexFiles(p, w, host);
    var (w4, pdf) := PdflatexPasses(w3, host, tex);
    if tex != [] {
      var inv := Invocation(w3.cwd, PdflatexCommands(tex), false);
      assert w4.log == log + [inv, inv];
      assert w4.log[..|w.log|] == w.log;
      assert w4.log[..|w.log| + 2] == log + [inv];
    }
  }

  /** `PdfBuilder.build`: LaTeX output first; when it succeeds, every
      top-level `.tex` file in `_build/latex` goes through `pdflatex` twice;
      the working directory is restored afterwards. */
  function PdfBuild(p: LegacyProject, w: World, host: Host): (r: Step<CommandResult>)
    ensures r.outcome.Ok? ==> r.world.cwd == w.cwd && r.world.fs == w.fs
    ensures r.outcome.Ok? ==> PdfOutcome(p, w, host, r.world.log, r.outcome.value)
    ensures r.outcome.Ok? <==>
      && IsDir(w.fs, w.cwd) && IsDir(w.fs, Resolve(w, p.confDir))
      && (host.run(w.log, LatexInvocation(p, w)).exit == 0 ==> IsDir(w.fs, LatexDir(p, w)))
  {
    var body := (v: World) => PdfBuildBody(p, host, v);
    PdfBuildBodyOutcome(p, host, w);
    var r := RestoringChdir(w, body);
    assert r.outcome.Ok? ==> r.outcome == body(w).outcome && r.world.log == body(w).world.log;
    r
  }

  /** What the move steps read from `self.version`: the project slug and
      the version slug. */
  datatype VersionRef = VersionRef(projectSlug: string, versionSlug: string)

  /** `p` without its leading `./` components: what `os.path.normpath`,
      applied by `ZipFile.write` to every archive name, does to the paths
      `os.walk('.')` produces. */
  function StripDot(p: Path): Path
    decreases |p|
  {
    if StartsWith(p, "./") then StripDot(p[2..]) else p
  }

  /** A path that does not start with `.` is left alone by `StripDot`, and
      one leading `./` in front of it is removed. */
  lemma StripDotPlain(p: Path)
    requires p != "" && p[0] != '.'
    ensures StripDot(p) == p
    ensures StripDot("./" + p) == p
  {
    assert "./"[0] == '.';
    var q := "./" + p;
    assert StartsWith(q, "./") && q[2..] == p;
  }

  /** The name a file gets inside the archive: the path `os.walk` produced,
      without its leading `./`, below a `<project>-<version>` folder. */
  function ArcName(v: VersionRef, root: Path, file: string): string {
    Join(v.projectSlug + "-" + v.versionSlug, StripDot(Join(root, file)))
  }

  /** The archive members for a walk of the output directory, in walk
      order; each is written from its path relative to that directory. */
  function ZipMembers(v: VersionRef, entries: seq<WalkEntry>): (r: seq<ZipMember>)
    ensures |r| == |entries|
    ensures forall i :: 0 <= i < |r| ==>
      r[i] == ZipMember(ArcName(v, entries[i].dir, entries[i].file), Join(entries[i].dir, entries[i].file))
  {
    seq(|entries|, i requires 0 <= i < |entries| =>
      ZipMember(ArcName(v, entries[i].dir, entries[i].file), Join(entries[i].dir, entries[i].file)))
  }

  /** `os.remove(p)` when `p` exists: files go, directories raise. */
  function RemoveFile(w: World, p: Path): (r: Result<World>)
    ensures r.Ok? <==> !Exists(w, p) || !IsDir(w.fs, Resolve(w, p))
    ensures r.Ok? ==> !Exists(r.value, p) && r.value.cwd == w.cwd && r.value.log == w.log
    ensures r.Ok? ==> forall q :: q in r.value.fs <==> q in w.fs && q != Resolve(w, p)
    ensures r.Ok? ==> forall q :: q in r.value.fs ==> r.value.fs[q] == w.fs[q]
  {
    var q := Resolve(w, p);
    if q !in w.fs then Ok(w)
    else if w.fs[q].Dir? then Raised(OSError(p))
    else Ok(w.(fs := map k | k in w.fs && k != q :: w.fs[k]))
  }

  /** The path of the archive for builder `b`, as written. */
  function ZipPath(b: Builder, v: VersionRef): Path {
    Join(b.target, v.projectSlug + ".zip")
  }

  /** Where the archive lands: the zip path is built before the move changes
      into the output directory and opened after, so it is resolved from
      there. */
  function ZipLocation(b: Builder, v: VersionRef, w: World): Path {
    Resolve(w.(cwd := Resolve(w, b.oldArtifactPath)), ZipPath(b, v))
  }

  /** The footprint of a local-media move on the files: the old archive
      `zip` and the archive location `at` may change, the target `t` and its
      ancestors may be created, and nothing else is touched. */
  ghost predicate ZipFrame(fs: FS, fs2: FS, zip: Path, at: Path, t: Path) {
    && (forall q :: q in fs && q != zip && q != at ==> q in fs2 && fs2[q] == fs[q])
    && (forall q :: q in fs2 && q !in fs ==> q == at || q == t || q in Ancestors(t))
  }

  /** The part of `LocalMediaBuilder.move` inside the working-directory
      guard. It raises when the target cannot be created, when the old
      archive path is a directory, when the output directory is missing,
      and when the archive's directory is missing or the archive location
      is itself a directory. */
  function LocalMediaBody(b: Builder, v: VersionRef, host: Host, w: World): (r: Step<()>)
    ensures ZipFrame(w.fs, r.world.fs, Resolve(w, ZipPath(b, v)), ZipLocation(b, v, w), Resolve(w, b.target))
    ensures r.outcome.Ok? <==>
      && Layout.EnsureDir(w, b.target).Ok?
      && var fs1 := Layout.EnsureDir(w, b.target).value.fs;
      && !IsDir(fs1, Resolve(w, ZipPath(b, v)))
      && IsDir(fs1, Resolve(w, b.oldArtifactPath))
      && IsDir(fs1, Split(ZipLocation(b, v, w)).0)
      && !IsDir(fs1, ZipLocation(b, v, w))
    ensures r.outcome.Ok? ==>
      var dir := Resolve(w, b.oldArtifactPath);
      && r.world.cwd == dir && r.world.log == w.log
      && ZipLocation(b, v, w) in r.world.fs
      && r.world.fs[ZipLocation(b, v, w)] == Archive(ZipMembers(v, host.walk(dir, ".")))
  {
    match Layout.EnsureDir(w, b.target)
    case Raised(e) => Step(w, Raised(e))
    case Ok(w1) =>
      var r := WriteZip(b, v, host, w1);
      var zip, at, t := Resolve(w, ZipPath(b, v)), ZipLocation(b, v, w), Resolve(w, b.target);
      assert Resolve(w1, ZipPath(b, v)) == zip && ZipLocation(b, v, w1) == at;
      assert Resolve(w1, b.oldArtifactPath) == Resolve(w, b.oldArtifactPath);
      ZipFrameAfterDirs(w.fs, w1.fs, r.world.fs, zip, at, t);
      r
  }

  /** Making the target's directories and then writing the archive stays
      within the local-media footprint. */
  lemma ZipFrameAfterDirs(fs: FS, fs1: FS, fs2: FS, zip: Path, at: Path, t: Path)
    requires AddsOnlyDirs(fs, fs1, t)
    requires forall q :: q in fs1 && q != zip && q != at ==> q in fs2 && fs2[q] == fs1[q]
    requires forall q :: q in fs2 && q !in fs1 ==> q == at
    ensures ZipFrame(fs, fs2, zip, at, t)
  {
  }

  /** The archive step of the local-media move, once the target exists:
      remove an older archive, change into the output directory and write
      one member per walked file. */
  function WriteZip(b: Builder, v: VersionRef, host: Host, w: World): (r: Step<()>)
    ensures forall q :: q in w.fs && q != Resolve(w, ZipPath(b, v)) && q != ZipLocation(b, v, w) ==>
      q in r.world.fs && r.world.fs[q] == w.fs[q]
    ensures forall q :: q in r.world.fs && q !in w.fs ==> q == ZipLocation(b, v, w)
    ensures r.outcome.Ok? <==>
      && !IsDir(w.fs, Resolve(w, ZipPath(b, v)))
      && IsDir(w.fs, Resolve(w, b.oldArtifactPath))
      && IsDir(w.fs, Split(ZipLocation(b, v, w)).0)
      && !IsDir(w.fs, ZipLocation(b, v, w))
    ensures r.outcome.Ok? ==>
      var dir := Resolve(w, b.oldArtifactPath);
      && r.world.cwd == dir && r.world.log == w.log
      && ZipLocation(b, v, w) in r.world.fs
      && r.world.fs[ZipLocation(b, v, w)] == Archive(ZipMembers(v, host.walk(dir, ".")))
  {
    var zip := ZipPath(b, v);
    match RemoveFile(w, zip)
    case Raised(e) => Step(w, Raised(e))
    case Ok(w2) =>
      ResolveSameCwd(w, w2, b.oldArtifactPath);
      match Chdir(w2, b.oldArtifactPath)
      case Raised(e) => Step(w2, Raised(e))
      case Ok(w3) =>
        var at := Resolve(w3, zip);
        ResolveSameCwd(w3, w.(cwd := Resolve(w, b.oldArtifactPath)), zip);
        if !IsDir(w3.fs, Split(at).0) || IsDir(w3.fs, at) then Step(w3, Raised(IOError(zip)))
        else
          assert Resolve(w3, ".") == w3.cwd;
          var members := ZipMembers(v, Walk(w3, host, "."));
          Step(w3.(fs := w3.fs[at := Archive(members)]), Ok(()))
  }

  /** `LocalMediaBuilder.move`: zips the single-page output into
      `<target>/<project slug>.zip`, replacing an older archive; every file
      `os.walk` reports becomes one member, in walk order, and the working
      directory is restored. */
  function LocalMediaMove(b: Builder, v: VersionRef, w: World, host: Host): (r: Step<()>)
    ensures ZipFrame(w.fs, r.world.fs, Resolve(w, ZipPath(b, v)), ZipLocation(b, v, w), Resolve(w, b.target))
    ensures r.outcome.Ok? <==>
      IsDir(w.fs, w.cwd) && LocalMediaBody(b, v, host, w).outcome.Ok?
    ensures r.outcome.Ok? ==> r.world.cwd == w.cwd && r.world.log == w.log
    ensures r.outcome.Ok? ==>
      && ZipLocation(b, v, w) in r.world.fs
      && r.world.fs[ZipLocation(b, v, w)] == Archive(ZipMembers(v, host.walk(Resolve(w, b.oldArtifactPath), ".")))
  {
    var body := (u: World) => LocalMediaBody(b, v, host, u);
    var r := RestoringChdir(w, body);
    assert r.outcome.Ok? ==> r.outcome == body(w).outcome && r.world.fs == body(w).world.fs;
    r
  }

  /** An absolute target puts the archive at `<target>/<slug>.zip`; a
      relative one is taken from the output directory the move has changed
      into, not from the directory the move started in. */
  lemma ZipLocationLayout(b: Builder, v: VersionRef, w: World)
    requires b.target != "" && !EndsWithSlash(b.target) && !IsAbsolute(v.projectSlug)
    ensures ZipPath(b, v) == b.target + "/" + (v.projectSlug + ".zip")
    ensures IsAbsolute(b.target) ==> ZipLocation(b, v, w) == ZipPath(b, v)
    ensures !IsAbsolute(b.target) && !StartsWith(ZipPath(b, v), "./") ==>
      ZipLocation(b, v, w) == Join(Resolve(w, b.oldArtifactPath), ZipPath(b, v))
    ensures StartsWith(ZipPath(b, v), "./") && !IsAbsolute(ZipPath(b, v)[2..]) ==>
      ZipLocation(b, v, w) == Join(Resolve(w, b.oldArtifactPath), ZipPath(b, v)[2..])
  {
    var zip := ZipPath(b, v);
    JoinPlain(b.target, v.projectSlug + ".zip");
    assert zip[0] == b.target[0];
    assert |zip| > 1;
  }

  /** Files at the top of the output directory are archived under
      `<project>-<version>/<file>`. */
  lemma ArcNameTop(v: VersionRef, file: string)
    requires !EndsWithSlash(v.versionSlug)
    requires file != "" && file[0] != '.' && !IsAbsolute(file)
    ensures ArcName(v, ".", file) == v.projectSlug + "-" + v.versionSlug + "/" + file
  {
    ArcPrefixPlain(v);
    JoinPlain(".", file);
    StripDotPlain(file);
    JoinPlain(v.projectSlug + "-" + v.versionSlug, file);
  }

  /** Files in a subdirectory `sub` of the output directory are archived
      under `<project>-<version>/sub/<file>`. */
  lemma ArcNameNested(v: VersionRef, sub: Path, file: string)
    requires !EndsWithSlash(v.versionSlug)
    requires file != "" && !IsAbsolute(file)
    requires sub != "" && sub[0] != '/' && sub[0] != '.' && !EndsWithSlash(sub)
    ensures ArcName(v, "./" + sub, file) == v.projectSlug + "-" + v.versionSlug + "/" + (sub + "/" + file)
  {
    ArcPrefixPlain(v);
    var inner := sub + "/" + file;
    JoinPlain("./" + sub, file);
    assert "./" + sub + "/" + file == "./" + inner;
    assert inner[0] == sub[0];
    StripDotPlain(inner);
    JoinPlain(v.projectSlug + "-" + v.versionSlug, inner);
  }

  lemma ArcPrefixPlain(v: VersionRef)
    requires !EndsWithSlash(v.versionSlug)
    ensures var prefix := v.projectSlug + "-" + v.versionSlug;
      prefix != "" && !EndsWithSlash(prefix)
  {
    var prefix := v.projectSlug + "-" + v.versionSlug;
    if v.versionSlug == "" {
      assert prefix[|prefix| - 1] == '-';
    } else {
      assert prefix[|prefix| - 1] == v.versionSlug[|v.versionSlug| - 1];
    }
  }

  /** `EpubBuilder.move`: the first `*.epub` in the output directory is
      moved (by a `mv -f` command) to `<target>/<project slug>.epub`; the
      output directory is listed before the target is created. */
  function EpubMove(b: Builder, v: VersionRef, w: World, host: Host): (r: Step<()>)
    ensures r.outcome.Ok? ==> Exists(r.world, b.target)
    ensures var found := Glob(w, host, b.oldArtifactPath, ".epub");
      && (r.outcome.Ok? && found == [] ==> r.world.log == w.log)
      && (r.outcome.Ok? && found != [] ==> r.world.log == w.log + [Invocation(w.cwd,
            ["mv -f " + found[0] + " " + Join(b.target, v.projectSlug + ".epub")], false)])
    ensures r.outcome.Raised? ==> Layout.EnsureDir(w, b.target).Raised?
    ensures r.outcome.Ok? ==> Layout.EnsureDir(w, b.target).Ok?
    ensures AddsOnlyDirs(w.fs, r.world.fs, Resolve(w, b.target))
    ensures r.world.cwd == w.cwd
  {
    match Layout.EnsureDir(w, b.target)
    case Raised(e) => Step(w, Raised(e))
    case Ok(w1) =>
      var r := EpubRename(b, v, w1, host, Glob(w, host, b.oldArtifactPath, ".epub"));
      ResolveSameCwd(r.world, w1, b.target);
      r
  }

  /** The `mv -f` of the first `*.epub` found into the target, when there
      is one; the move itself is the host's business. */
  function EpubRename(b: Builder, v: VersionRef, w: World, host: Host, found: seq<Path>): (r: Step<()>)
    ensures r.outcome.Ok? && r.world.fs == w.fs && r.world.cwd == w.cwd
    ensures found == [] ==> r.world.log == w.log
    ensures found != [] ==> r.world.log == w.log + [Invocation(w.cwd,
      ["mv -f " + found[0] + " " + Join(b.target, v.projectSlug + ".epub")], false)]
  {
    if found == [] then Step(w, Ok(()))
    else
      var (w2, _) := Run(w, host, ["mv -f " + found[0] + " " + Join(b.target, v.projectSlug + ".epub")], false);
      Step(w2, Ok(()))
  }

  /** Which PDF `PdfBuilder.move` picks: `<slug>.pdf`, else
      `<Slug>.pdf` (the slug passed through `str.capitalize`), else the
      first `*.pdf` the output directory lists, else none. */
  function PdfSource(b: Builder, v: VersionRef, w: World, host: Host): (r: Option<Path>)
    ensures Exists(w, Join(b.oldArtifactPath, v.projectSlug + ".pdf")) ==>
      r == Some(Join(b.oldArtifactPath, v.projectSlug + ".pdf"))
    ensures !Exists(w, Join(b.oldArtifactPath, v.projectSlug + ".pdf")) ==>
      (Exists(w, Join(b.oldArtifactPath, Capitalize(v.projectSlug) + ".pdf")) ==>
       r == Some(Join(b.oldArtifactPath, Capitalize(v.projectSlug) + ".pdf")))
    ensures !Exists(w, Join(b.oldArtifactPath, v.projectSlug + ".pdf")) ==>
      (!Exists(w, Join(b.oldArtifactPath, Capitalize(v.projectSlug) + ".pdf")) ==>
       (r.None? <==> Glob(w, host, b.oldArtifactPath, ".pdf") == []) &&
       (r.Some? ==> r.value == Glob(w, host, b.oldArtifactPath, ".pdf")[0]))
  {
    var exact := Join(b.oldArtifactPath, v.projectSlug + ".pdf");
    var upper := Join(b.oldArtifactPath, Capitalize(v.projectSlug) + ".pdf");
    if Exists(w, exact) then Some(exact)
    else if Exists(w, upper) then Some(upper)
    else
      var found := Glob(w, host, b.oldArtifactPath, ".pdf");
      if found == [] then None else Some(found[0])
  }

  /** `PdfBuilder.move`: the target is created when missing; then the chosen
      PDF, if any, is moved (by a `mv -f` command) to
      `<target>/<project slug>.pdf`, always under the slug as written. */
  function PdfMove(b: Builder, v: VersionRef, w: World, host: Host): (r: Step<()>)
    ensures r.outcome.Raised? <==> Layout.EnsureDir(w, b.target).Raised?
    ensures AddsOnlyDirs(w.fs, r.world.fs, Resolve(w, b.target))
    ensures r.outcome.Ok? ==> Exists(r.world, b.target) && r.world.cwd == w.cwd
    ensures r.outcome.Ok? ==>
      var w1 := Layout.EnsureDir(w, b.target).value;
      var src := PdfSource(b, v, w1, host);
      && (src.None? ==> r.world.log == w.log)
      && (src.Some? ==> r.world.log == w.log + [Invocation(w.cwd,
            ["mv -f " + src.value + " " + Join(b.target, v.projectSlug + ".pdf")], false)])
  {
    match Layout.EnsureDir(w, b.target)
    case Raised(e) => Step(w, Raised(e))
    case Ok(w1) =>
      match PdfSource(b, v, w1, host)
      case None => Step(w1, Ok(()))
      case Some(src) =>
        var (w2, _) := Run(w1, host, ["mv -f " + src + " " + Join(b.target, v.projectSlug + ".pdf")], false);
        Step(w2, Ok(()))
  }

  /** A slug that `str.capitalize` leaves alone makes the second probe the
      same as the first, so the choice falls straight through to the glob. */
  lemma PdfSourceCapitalizedSlug(b: Builder, v: VersionRef, w: World, host: Host)
    requires Capitalize(v.projectSlug) == v.projectSlug
    requires !Exists(w, Join(b.oldArtifactPath, v.projectSlug + ".pdf"))
    ensures PdfSource(b, v, w, host) ==
      (if Glob(w, host, b.oldArtifactPath, ".pdf") == [] then None
       else Some(Glob(w, host, b.oldArtifactPath, ".pdf")[0]))
  {
  }
}
