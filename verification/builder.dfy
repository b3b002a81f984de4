/** The builder API every documentation backend shares
    (readthedocs/doc_builder/base.py): the working-directory guard, the
    virtualenv provisioning, copying and cleaning the build output, and the
    docs-directory and index-file conventions. */
module Builders {
  import opened Outcomes
  import opened Text
  import opened Disk
  import Layout
  import opened BuildStates

  /** A builder: its build state, its type name, the artifact directory it
      delivers to (`target`) and the directory its tool writes to
      (`old_artifact_path`, set by each backend). */
  datatype Builder = Builder(state: BuildState, kind: string, target: Path, oldArtifactPath: Path)

  /** `BaseBuilder.__init__` plus the backend's choice of output directory:
      the target is the version's artifact path for the builder's type, which
      raises when the project has no artifact path (unless the version slug
      is absolute). */
  function NewBuilder(state: BuildState, kind: string, oldArtifactPath: Path): (r: Result<Builder>)
    ensures r.Ok? <==> state.fs.project.artifactPath.Some? || IsAbsolute(state.fs.slug)
    ensures r.Raised? ==> r.error == JoinOnNone
    ensures r.Ok? ==> r.value.target == Layout.ArtifactPath(state.fs, kind).value
    ensures r.Ok? ==> r.value.state == state && r.value.kind == kind && r.value.oldArtifactPath == oldArtifactPath
  {
    var target :- Layout.ArtifactPath(state.fs, kind);
    Ok(Builder(state, kind, target, oldArtifactPath))
  }

  /** `restoring_chdir`: runs `body` and changes back to the directory it
      started in, whether the body returned or raised. Reading the starting
      directory fails when it no longer exists, and then the `finally`
      clause finds `path` unbound; changing back fails when the body removed
      the starting directory, and that error replaces the body's outcome. */
  function RestoringChdir<T>(w: World, body: World -> Step<T>): (r: Step<T>)
    ensures !IsDir(w.fs, w.cwd) ==> r == Step(w, Raised(UnboundLocalError("path")))
    ensures IsDir(w.fs, w.cwd) ==> r.world.fs == body(w).world.fs && r.world.log == body(w).world.log
    ensures IsDir(w.fs, w.cwd) && IsDir(body(w).world.fs, w.cwd) ==>
      r.world.cwd == w.cwd && r.outcome == body(w).outcome
    ensures r.outcome.Ok? ==> r.world.cwd == w.cwd && r.outcome == body(w).outcome
  {
    if !IsDir(w.fs, w.cwd) then Step(w, Raised(UnboundLocalError("path")))
    else
      var s := body(w);
      if IsDir(s.world.fs, w.cwd) then Step(s.world.(cwd := w.cwd), s.outcome)
      else Step(s.world, Raised(OSError(w.cwd)))
  }

  /** Guarding twice is the same as guarding once. */
  lemma RestoringChdirTwice<T>(w: World, body: World -> Step<T>)
    ensures RestoringChdir(w, v => RestoringChdir(v, body)) == RestoringChdir(w, body)
  {
  }

  /** `os.chdir` to a path the state may leave unset. */
  function ChdirTo(w: World, p: Option<Path>): (r: Result<World>)
    ensures r.Ok? <==> p.Some? && IsDir(w.fs, Resolve(w, p.value))
    ensures r.Ok? ==> r.value == w.(cwd := Resolve(w, p.value))
  {
    var q :- Required(p, "os.chdir");
    Chdir(w, q)
  }

  function SitePackagesFlag(systemPackages: bool): string {
    if systemPackages then "--system-site-packages" else "--no-site-packages"
  }

  function EnvCommand(core: CoreState, envPath: Path): string {
    "virtualenv-2.7 -p " + core.interpreter + " " + SitePackagesFlag(core.systemPackages) + " " + envPath
  }

  /** The theme and pinned tool versions every environment receives; `-I`
      forces them into the environment when system packages are visible. */
  const ToolchainPackages: string :=
    " sphinx_rtd_theme sphinx==1.2.2 virtualenv==1.9.1 docutils==0.11" +
    " git+git://github.com/ericholscher/readthedocs-sphinx-ext#egg=readthedocs_ext"

  function SphinxCommand(pip: Path, systemPackages: bool): string {
    pip + " install -U " + (if systemPackages then "-I" else "") + ToolchainPackages
  }

  function RequirementsCommand(pip: Path, requirements: string): string {
    pip + " install --exists-action=w -r " + requirements
  }

  function InstallCommand(python: Path): string {
    python + " setup.py install --force"
  }

  /** The keys of the dictionary `setup_environment` returns. */
  datatype Stage = EnvStage | SphinxStage | RequirementsStage | InstallStage {
    function Key(): string {
      match this
      case EnvStage => "env"
      case SphinxStage => "sphinx"
      case RequirementsStage => "requirements"
      case InstallStage => "install"
    }
  }

  type Results = map<Stage, CommandResult>

  /** The checkout is set and names a directory, seen from `w`: what
      `os.chdir(checkout_path)` needs. */
  predicate CheckoutIsDir(st: BuildState, w: World) {
    st.fs.checkoutPath.Some? && IsDir(w.fs, Resolve(w, st.fs.checkoutPath.value))
  }

  /** Only the working directory and the files matter to `CheckoutIsDir`. */
  lemma CheckoutIsDirSameCwd(st: BuildState, w: World, w': World)
    requires w.cwd == w'.cwd && w.fs == w'.fs
    ensures CheckoutIsDir(st, w) == CheckoutIsDir(st, w')
  {
    if st.fs.checkoutPath.Some? {
      ResolveSameCwd(w, w', st.fs.checkoutPath.value);
    }
  }

  /** When provisioning from `w` gets through: the install step changes to the
      checkout, and when a requirements file is configured the requirements
      step has already changed there, so the second change resolves the
      checkout path from inside the checkout. */
  predicate ProvisionSucceeds(st: BuildState, w: World) {
    && CheckoutIsDir(st, w)
    && (st.core.requirementsFile != "" ==>
          CheckoutIsDir(st, w.(cwd := Resolve(w, st.fs.checkoutPath.value))))
  }

  /** The `requirements` step: only when a requirements file is configured,
      run from the checkout. */
  function RequirementsStep(st: BuildState, pip: Path, w: World, host: Host, done: Results): (r: Step<Results>)
    ensures st.core.requirementsFile == "" ==> r == Step(w, Ok(done))
    ensures r.outcome.Ok? <==> st.core.requirementsFile == "" || CheckoutIsDir(st, w)
    ensures r.outcome.Ok? && st.core.requirementsFile != "" ==>
      st.fs.checkoutPath.Some? &&
      r.world.cwd == Resolve(w, st.fs.checkoutPath.value) &&
      r.world.log == w.log + [Invocation(r.world.cwd, [RequirementsCommand(pip, st.core.requirementsFile)], false)] &&
      r.outcome.value == done[RequirementsStage := host.run(w.log, r.world.log[|w.log|])]
    ensures r.outcome.Raised? ==> r == Step(w, r.outcome) && ChdirTo(w, st.fs.checkoutPath).Raised?
    ensures r.world.fs == w.fs
    ensures |r.world.log| >= |w.log| && r.world.log[..|w.log|] == w.log
  {
    if st.core.requirementsFile == "" then Step(w, Ok(done))
    else
      match ChdirTo(w, st.fs.checkoutPath)
      case Raised(e) => Step(w, Raised(e))
      case Ok(w1) =>
        var (w2, res) := Run(w1, host, [RequirementsCommand(pip, st.core.requirementsFile)], false);
        Step(w2, Ok(done[RequirementsStage := res]))
  }

  /** The `install` step: change to the checkout and install the project
      when it has a `setup.py` there. */
  function InstallStep(st: BuildState, python: Path, w: World, host: Host, done: Results): (r: Step<Results>)
    ensures r.outcome.Ok? <==> CheckoutIsDir(st, w)
    ensures r.outcome.Ok? ==> st.fs.checkoutPath.Some? && r.world.cwd == Resolve(w, st.fs.checkoutPath.value)
    ensures r.outcome.Ok? && !IsFile(w.fs, Resolve(r.world, "setup.py")) ==>
      r.world.log == w.log && r.outcome.value == done
    ensures r.outcome.Ok? && IsFile(w.fs, Resolve(r.world, "setup.py")) ==>
      r.world.log == w.log + [Invocation(r.world.cwd, [InstallCommand(python)], false)] &&
      r.outcome.value == done[InstallStage := host.run(w.log, r.world.log[|w.log|])]
    ensures r.outcome.Raised? ==> r == Step(w, r.outcome) && ChdirTo(w, st.fs.checkoutPath).Raised?
    ensures r.world.fs == w.fs
    ensures |r.world.log| >= |w.log| && r.world.log[..|w.log|] == w.log
  {
    match ChdirTo(w, st.fs.checkoutPath)
    case Raised(e) => Step(w, Raised(e))
    case Ok(w1) =>
      if IsFile(w1.fs, Resolve(w1, "setup.py")) then
        var (w2, res) := Run(w1, host, [InstallCommand(python)], false);
        Step(w2, Ok(done[InstallStage := res]))
      else Step(w1, Ok(done))
  }

  /** The first two commands of every provisioning: create the environment,
      then install the toolchain into it. */
  function Toolchain(st: BuildState, env: Path, w: World, host: Host): (World, Results) {
    var (w1, envResult) := Run(w, host, [EnvCommand(st.core, env)], false);
    var (w2, sphinxResult) := Run(w1, host, [SphinxCommand(Join3(env, "bin", "pip"), st.core.systemPackages)], false);
    (w2, map[EnvStage := envResult, SphinxStage := sphinxResult])
  }

  /** Everything `setup_environment` does once the stale build directory is
      dealt with: create the environment, install the toolchain, then the
      requirements and the project. No step looks at an earlier step's exit
      code. */
  function Provision(st: BuildState, env: Path, w: World, host: Host): (r: Step<Results>)
    ensures r.world.fs == w.fs
    ensures r.outcome.Ok? <==> ProvisionSucceeds(st, w)
  {
    var (w2, done) := Toolchain(st, env, w, host);
    CheckoutIsDirSameCwd(st, w, w2);
    var req := RequirementsStep(st, Join3(env, "bin", "pip"), w2, host, done);
    CheckoutIsDirSameCwd(st, req.world, if st.core.requirementsFile == "" then w else w.(cwd := req.world.cwd));
    if req.outcome.Raised? then req
    else InstallStep(st, Join3(env, "bin", "python"), req.world, host, req.outcome.value)
  }

  /** The dictionary a successful provisioning returns has an entry for
      every step that ran: always `env` and `sphinx`, `requirements` when a
      requirements file is configured, `install` when the checkout has a
      `setup.py`. */
  lemma ProvisionStages(st: BuildState, env: Path, w: World, host: Host)
    requires Provision(st, env, w, host).outcome.Ok?
    ensures var r := Provision(st, env, w, host);
      r.outcome.value.Keys ==
        {EnvStage, SphinxStage} + (if st.core.requirementsFile != "" then {RequirementsStage} else {}) +
        (if IsFile(r.world.fs, Resolve(r.world, "setup.py")) then {InstallStage} else {})
  {
  }

  /** Provisioning always begins with the two toolchain commands, both run
      where the build started: the environment is created, then the pinned
      tools are installed with the environment's `pip`. */
  lemma ProvisionStartsWithToolchain(st: BuildState, env: Path, w: World, host: Host)
    ensures w.log + [Invocation(w.cwd, [EnvCommand(st.core, env)], false),
                     Invocation(w.cwd, [SphinxCommand(Join3(env, "bin", "pip"), st.core.systemPackages)], false)]
            <= Provision(st, env, w, host).world.log
  {
    var t := Toolchain(st, env, w, host);
    var req := RequirementsStep(st, Join3(env, "bin", "pip"), t.0, host, t.1);
    if req.outcome.Ok? {
      var r := InstallStep(st, Join3(env, "bin", "python"), req.world, host, req.outcome.value);
      assert t.0.log <= req.world.log <= r.world.log;
    }
  }

  /** A successful provisioning reports the toolchain commands' results
      under `env` and `sphinx`; later steps only add entries. */
  lemma ProvisionKeepsToolchainResults(st: BuildState, env: Path, w: World, host: Host)
    requires Provision(st, env, w, host).outcome.Ok?
    ensures var r := Provision(st, env, w, host).outcome.value;
      var t := Toolchain(st, env, w, host).1;
      && EnvStage in r && r[EnvStage] == t[EnvStage]
      && SphinxStage in r && r[SphinxStage] == t[SphinxStage]
  {
    var t := Toolchain(st, env, w, host);
    var req := RequirementsStep(st, Join3(env, "bin", "pip"), t.0, host, t.1);
    assert EnvStage in t.1 && SphinxStage in t.1;
  }

  /** `setup_environment` as written: the branch that finds a build
      directory left over from an earlier build logs through `LOG_TEMPLATE`,
      a name the module never defines, so it raises before anything is
      removed or run. */
  function SetupEnvironmentAsWritten(b: Builder, w: World, host: Host): (r: Step<Results>)
    ensures !b.state.core.virtualenv ==> r == Step(w, Ok(map[]))
    ensures b.state.core.virtualenv && b.state.fs.project.envPath.None? ==> r == Step(w, Raised(JoinOnNone))
    ensures b.state.core.virtualenv && b.state.fs.project.envPath.Some? ==>
      (Exists(w, Join(b.state.fs.project.envPath.value, "build")) ==>
       r == Step(w, Raised(NameError("LOG_TEMPLATE"))))
  {
    var st := b.state;
    if !st.core.virtualenv then Step(w, Ok(map[]))
    else
      if st.fs.project.envPath.None? then Step(w, Raised(JoinOnNone))
      else
        var env := st.fs.project.envPath.value;
        if Exists(w, Join(env, "build")) then Step(w, Raised(NameError("LOG_TEMPLATE")))
        else Provision(st, env, w, host)
  }

  /** `shutil.rmtree` of a leftover build directory, when there is one. */
  function ClearBuildDir(w: World, build: Path): (r: Result<World>)
    ensures r.Ok? <==> build !in w.fs || w.fs[build].Dir?
    ensures r.Ok? ==> r.value.cwd == w.cwd && r.value.log == w.log && build !in r.value.fs
    ensures r.Ok? && build in w.fs ==> forall q :: q in r.value.fs ==> !Under(q, build)
    ensures r.Ok? ==> forall q :: q in w.fs && !Under(q, build) ==> q in r.value.fs && r.value.fs[q] == w.fs[q]
  {
    if build !in w.fs then Ok(w)
    else if w.fs[build].Dir? then Ok(w.(fs := RemoveTree(w.fs, build)))
    else Raised(OSError(build))
  }

  /** `setup_environment` as its comment intends: a leftover build directory
      is removed, then the environment is provisioned. Without a virtualenv
      nothing happens and the result is empty. */
  function SetupEnvironment(b: Builder, w: World, host: Host): (r: Step<Results>)
    ensures !b.state.core.virtualenv ==> r == Step(w, Ok(map[]))
    ensures b.state.core.virtualenv && b.state.fs.project.envPath.None? ==> r == Step(w, Raised(JoinOnNone))
    ensures b.state.core.virtualenv && r.outcome.Ok? ==>
      b.state.fs.project.envPath.Some? &&
      ClearBuildDir(w, Resolve(w, Join(b.state.fs.project.envPath.value, "build"))).Ok?
    ensures b.state.core.virtualenv && r.outcome.Ok? ==>
      r.world.fs == ClearBuildDir(w, Resolve(w, Join(b.state.fs.project.envPath.value, "build"))).value.fs
    ensures r.outcome.Ok? <==>
      || !b.state.core.virtualenv
      || (&& b.state.fs.project.envPath.Some?
          && var c := ClearBuildDir(w, Resolve(w, Join(b.state.fs.project.envPath.value, "build")));
             c.Ok? && ProvisionSucceeds(b.state, c.value))
  {
    var st := b.state;
    if !st.core.virtualenv then Step(w, Ok(map[]))
    else
      if st.fs.project.envPath.None? then Step(w, Raised(JoinOnNone))
      else
        var env := st.fs.project.envPath.value;
        match ClearBuildDir(w, Resolve(w, Join(env, "build")))
        case Raised(e) => Step(w, Raised(e))
        case Ok(w1) => Provision(st, env, w1, host)
  }

  /** A successful `setup_environment` with a virtualenv reports `env` and
      `sphinx`, `requirements` exactly when a requirements file is
      configured, and `install` exactly when the checkout has a `setup.py`. */
  lemma SetupEnvironmentStages(b: Builder, w: World, host: Host)
    requires b.state.core.virtualenv && SetupEnvironment(b, w, host).outcome.Ok?
    ensures var r := SetupEnvironment(b, w, host);
      r.outcome.value.Keys ==
        {EnvStage, SphinxStage} + (if b.state.core.requirementsFile != "" then {RequirementsStage} else {}) +
        (if IsFile(r.world.fs, Resolve(r.world, "setup.py")) then {InstallStage} else {})
  {
    var env := b.state.fs.project.envPath.value;
    var c := ClearBuildDir(w, Resolve(w, Join(env, "build")));
    ProvisionStages(b.state, env, c.value, host);
  }

  /** Without a leftover build directory the source's code and the corrected
      one behave the same. */
  lemma SetupEnvironmentAgreesWithoutLeftover(b: Builder, w: World, host: Host)
    requires b.state.fs.project.envPath.Some?
    requires !Exists(w, Join(b.state.fs.project.envPath.value, "build"))
    ensures SetupEnvironmentAsWritten(b, w, host) == SetupEnvironment(b, w, host)
  {
  }

  /** The discrepancy: with a leftover build directory the code as written
      raises a NameError and provisions nothing. */
  lemma SetupEnvironmentLeftoverRaises(b: Builder, w: World, host: Host)
    requires b.state.core.virtualenv && b.state.fs.project.envPath.Some?
    requires IsDir(w.fs, Resolve(w, Join(b.state.fs.project.envPath.value, "build")))
    ensures SetupEnvironmentAsWritten(b, w, host).outcome == Raised(NameError("LOG_TEMPLATE"))
    ensures SetupEnvironment(b, w, host).outcome.Ok? <==>
      SetupEnvironment(b, w.(fs := RemoveTree(w.fs, Resolve(w, Join(b.state.fs.project.envPath.value, "build")))), host).outcome.Ok?
  {
  }

  /** The intended behaviour: a leftover build directory makes no
      difference; provisioning proceeds exactly as on a world where it had
      already been removed. */
  lemma SetupEnvironmentFreshStart(b: Builder, w: World, host: Host)
    requires b.state.core.virtualenv && b.state.fs.project.envPath.Some?
    requires IsDir(w.fs, Resolve(w, Join(b.state.fs.project.envPath.value, "build")))
    ensures SetupEnvironment(b, w, host) ==
      SetupEnvironment(b, w.(fs := RemoveTree(w.fs, Resolve(w, Join(b.state.fs.project.envPath.value, "build")))), host)
  {
    var build := Resolve(w, Join(b.state.fs.project.envPath.value, "build"));
    var w' := w.(fs := RemoveTree(w.fs, build));
    assert Resolve(w', Join(b.state.fs.project.envPath.value, "build")) == build;
    assert ClearBuildDir(w, build) == Ok(w');
    assert ClearBuildDir(w', build) == Ok(w');
  }

  /** The `requirements` step runs the same command in the same place
      whatever the runner answered before. */
  lemma RequirementsStepIgnoresRunner(st: BuildState, pip: Path, w: World, h1: Host, h2: Host, d1: Results, d2: Results)
    requires d1.Keys == d2.Keys
    ensures var q1 := RequirementsStep(st, pip, w, h1, d1); var q2 := RequirementsStep(st, pip, w, h2, d2);
      && q1.world == q2.world && (q1.outcome.Ok? <==> q2.outcome.Ok?)
      && (q1.outcome.Ok? ==> q1.outcome.value.Keys == q2.outcome.value.Keys)
  {
  }

  /** Likewise for the `install` step. */
  lemma InstallStepIgnoresRunner(st: BuildState, python: Path, w: World, h1: Host, h2: Host, d1: Results, d2: Results)
    requires d1.Keys == d2.Keys
    ensures var i1 := InstallStep(st, python, w, h1, d1); var i2 := InstallStep(st, python, w, h2, d2);
      && i1.world == i2.world && (i1.outcome.Ok? <==> i2.outcome.Ok?)
      && (i1.outcome.Ok? ==> i1.outcome.value.Keys == i2.outcome.value.Keys)
  {
  }

  /** The steps after the toolchain issue the same commands whatever the
      runner answered, and report the same stages. */
  lemma ProvisionIgnoresExitCodes(st: BuildState, env: Path, w: World, h1: Host, h2: Host)
    ensures Provision(st, env, w, h1).world == Provision(st, env, w, h2).world
    ensures Provision(st, env, w, h1).outcome.Ok? <==> Provision(st, env, w, h2).outcome.Ok?
    ensures Provision(st, env, w, h1).outcome.Ok? ==>
      Provision(st, env, w, h1).outcome.value.Keys == Provision(st, env, w, h2).outcome.value.Keys
  {
    var t1 := Toolchain(st, env, w, h1);
    var t2 := Toolchain(st, env, w, h2);
    assert t1.0 == t2.0 && t1.1.Keys == t2.1.Keys;
    var pip := Join3(env, "bin", "pip");
    var q1 := RequirementsStep(st, pip, t1.0, h1, t1.1);
    var q2 := RequirementsStep(st, pip, t2.0, h2, t2.1);
    RequirementsStepIgnoresRunner(st, pip, t1.0, h1, h2, t1.1, t2.1);
    if q1.outcome.Ok? {
      InstallStepIgnoresRunner(st, Join3(env, "bin", "python"), q1.world, h1, h2, q1.outcome.value, q2.outcome.value);
    }
  }

  /** Which commands run, and in which directory, never depends on how
      earlier commands ended: two command runners that differ only in their
      answers lead to the same world and the same dictionary keys. */
  lemma SetupEnvironmentIgnoresExitCodes(b: Builder, w: World, h1: Host, h2: Host)
    ensures SetupEnvironment(b, w, h1).world == SetupEnvironment(b, w, h2).world
    ensures SetupEnvironment(b, w, h1).outcome.Ok? <==> SetupEnvironment(b, w, h2).outcome.Ok?
    ensures SetupEnvironment(b, w, h1).outcome.Ok? ==>
      SetupEnvironment(b, w, h1).outcome.value.Keys == SetupEnvironment(b, w, h2).outcome.value.Keys
  {
    if b.state.core.virtualenv && b.state.fs.project.envPath.Some? {
      var env := b.state.fs.project.envPath.value;
      var c := ClearBuildDir(w, Resolve(w, Join(env, "build")));
      if c.Ok? {
        ProvisionIgnoresExitCodes(b.state, env, c.value, h1, h2);
      }
    }
  }

  /** When `move` from `src` to `dst` goes through: there is no build output,
      or the output is a directory, an existing target is a directory that
      does not contain the output, and whatever exists on the way to the
      target is a directory. */
  predicate MoveSucceeds(fs: FS, src: Path, dst: Path) {
    || src !in fs
    || (&& IsDir(fs, src)
        && (dst in fs ==> fs[dst].Dir? && !Under(src, dst))
        && forall a :: a in Ancestors(dst) && a in fs ==> fs[a].Dir?)
  }

  /** `BaseBuilder.move`: when the build output exists, the old target is
      removed and the output is copied into its place; without build output
      nothing happens. Existing entries outside the target keep
      their contents; the target's missing ancestors are created as directories. */
  function Move(b: Builder, w: World): (r: Step<()>)
    ensures !Exists(w, b.oldArtifactPath) ==> r == Step(w, Ok(()))
    ensures r.world.cwd == w.cwd && r.world.log == w.log
    ensures r.outcome.Raised? ==> Exists(w, b.oldArtifactPath)
    ensures r.outcome.Ok? <==> MoveSucceeds(w.fs, Resolve(w, b.oldArtifactPath), Resolve(w, b.target))
    ensures r.outcome.Ok? && Exists(w, b.oldArtifactPath) ==>
      var src := Resolve(w, b.oldArtifactPath);
      var dst := Resolve(w, b.target);
      && IsDir(r.world.fs, dst)
      && (forall q :: q in w.fs && Under(q, src) && q != src && !Under(q, dst) ==>
            Rebase(q, src, dst) in r.world.fs && r.world.fs[Rebase(q, src, dst)] == w.fs[q])
    ensures forall q :: q in w.fs && !Under(q, Resolve(w, b.target)) ==>
      q in r.world.fs && r.world.fs[q] == w.fs[q]
    ensures CopyBounded(w.fs, r.world.fs, Resolve(w, b.oldArtifactPath), Resolve(w, b.target))
  {
    var src := Resolve(w, b.oldArtifactPath);
    var dst := Resolve(w, b.target);
    if src !in w.fs then Step(w, Ok(()))
    else
      match ClearTree(w.fs, dst)
      case Raised(e) => Step(w, Raised(e))
      case Ok(cleared) =>
        match CopyTree(cleared, src, dst)
        case Raised(e) => Step(w.(fs := cleared), Raised(e))
        case Ok(copied) => Step(w.(fs := copied), Ok(()))
  }

  /** `shutil.rmtree(p)` when `p` exists: a directory goes with everything
      below it; anything else makes it raise. */
  function ClearTree(fs: FS, p: Path): (r: Result<FS>)
    ensures r.Ok? <==> p !in fs || fs[p].Dir?
    ensures r.Ok? ==> p !in r.value && forall q :: q in r.value ==> q in fs && r.value[q] == fs[q]
    ensures r.Ok? && p in fs ==> forall q :: q in r.value ==> !Under(q, p)
    ensures r.Ok? ==> forall q :: q in fs && !Under(q, p) ==> q in r.value && r.value[q] == fs[q]
  {
    if p !in fs then Ok(fs)
    else if fs[p].Dir? then Ok(RemoveTree(fs, p))
    else Raised(OSError(p))
  }

  /** Whatever lies below `p` lies inside an existing `p`, as on a real
      filesystem. */
  ghost predicate Rooted(fs: FS, p: Path) {
    forall q :: q in fs && StartsWith(q, p + "/") ==> p in fs
  }

  /** After a move, everything below the target is a copy of something below
      the build output: nothing from an older target survives. */
  lemma MoveReplacesTarget(b: Builder, w: World)
    requires Exists(w, b.oldArtifactPath) && Move(b, w).outcome.Ok?
    requires Rooted(w.fs, Resolve(w, b.target))
    ensures var src := Resolve(w, b.oldArtifactPath);
      var dst := Resolve(w, b.target);
      forall q :: q in Move(b, w).world.fs && Under(q, dst) && q != dst ==>
        exists q0 :: (q0 in w.fs && Under(q0, src) && q0 != src && q == Rebase(q0, src, dst) &&
          Move(b, w).world.fs[q] == w.fs[q0])
  {
    var src := Resolve(w, b.oldArtifactPath);
    var dst := Resolve(w, b.target);
    var cleared := ClearTree(w.fs, dst).value;
    var made := MakeDirs(cleared, dst).value;
    var copied := CopiedEntries(cleared, src, dst);
    assert Move(b, w).world.fs == made + copied;
    forall q | q in made + copied && Under(q, dst) && q != dst
      ensures exists q0 :: (q0 in w.fs && Under(q0, src) && q0 != src && q == Rebase(q0, src, dst) &&
        (made + copied)[q] == w.fs[q0])
    {
      if q in copied {
        var q0 :| q0 in cleared && Under(q0, src) && q0 != src && Rebase(q0, src, dst) == q;
        assert copied[q] == cleared[q0];
      } else {
        assert false;
      }
    }
  }

  /** `BaseBuilder.clean`: the build output directory is removed when it
      exists. */
  function Clean(b: Builder, w: World): (r: Step<()>)
    ensures !Exists(w, b.oldArtifactPath) ==> r == Step(w, Ok(()))
    ensures r.outcome.Raised? <==> Exists(w, b.oldArtifactPath) && !IsDir(w.fs, Resolve(w, b.oldArtifactPath))
    ensures r.outcome.Ok? ==> !Exists(r.world, b.oldArtifactPath)
    ensures r.outcome.Ok? && Exists(w, b.oldArtifactPath) ==>
      forall q :: q in r.world.fs ==> !Under(q, Resolve(w, b.oldArtifactPath))
    ensures forall q :: q in w.fs && !Under(q, Resolve(w, b.oldArtifactPath)) ==>
      q in r.world.fs && r.world.fs[q] == w.fs[q]
    ensures forall q :: q in r.world.fs ==> q in w.fs && r.world.fs[q] == w.fs[q]
    ensures r.world.cwd == w.cwd && r.world.log == w.log
  {
    match ClearTree(w.fs, Resolve(w, b.oldArtifactPath))
    case Raised(e) => Step(w, Raised(e))
    case Ok(fs) => Step(w.(fs := fs), Ok(()))
  }

  /** Cleaning twice is cleaning once. */
  lemma CleanTwice(b: Builder, w: World)
    requires Clean(b, w).outcome.Ok?
    ensures Clean(b, Clean(b, w).world) == Step(Clean(b, w).world, Ok(()))
  {
  }

  /** The directory names `docs_dir` probes, in order. */
  const DocsDirNames: seq<string> := ["docs", "doc", "Doc", "book"]

  /** `BaseBuilder.docs_dir`: a non-empty argument wins; otherwise the first
      conventional name present in the checkout (returned bare, not joined
      onto the checkout); otherwise `.`. The checkout path comes from the
      legacy project object, so it is a parameter here. */
  function DocsDir(w: World, docsDir: Option<string>, checkout: Path): (r: string)
    ensures r != ""
    ensures docsDir.Some? && docsDir.value != "" ==> r == docsDir.value
    ensures (docsDir.None? || docsDir.value == "") ==>
      || (r == "." && forall i :: 0 <= i < |DocsDirNames| ==> !Exists(w, Join(checkout, DocsDirNames[i])))
      || exists i :: 0 <= i < |DocsDirNames| && r == DocsDirNames[i] && FirstExisting(w, checkout, DocsDirNames, i)
  {
    if docsDir.Some? && docsDir.value != "" then docsDir.value
    else
      ProbeSpec(w, checkout, DocsDirNames);
      match Probe(w, checkout, DocsDirNames)
      case Some(name) => assert "" !in DocsDirNames; name
      case None => "."
  }

  /** `docs_dir` and `Version.full_doc_path` agree on the documentation
      directory whenever the latter finds one: both probe `docs`, `doc`,
      `Doc` in that order, and only `docs_dir` goes on to `book`. */
  lemma DocsDirAgreesWithFullDocPath(v: Layout.SphinxVersion, w: World, name: string)
    requires v.checkoutPath.Some?
    requires Probe(w, v.checkoutPath.value, Layout.DocDirNames) == Some(name)
    ensures Layout.FullDocPath(v, w) == Ok(Join(v.checkoutPath.value, name))
    ensures DocsDir(w, None, v.checkoutPath.value) == name
  {
    FullDocPathFound(v, w, name);
    DocsDirFound(w, v.checkoutPath.value, name);
  }

  lemma FullDocPathFound(v: Layout.SphinxVersion, w: World, name: string)
    requires v.checkoutPath.Some?
    requires Probe(w, v.checkoutPath.value, Layout.DocDirNames) == Some(name)
    ensures Layout.FullDocPath(v, w) == Ok(Join(v.checkoutPath.value, name))
  {
  }

  lemma DocsDirFound(w: World, c: Path, name: string)
    requires Probe(w, c, Layout.DocDirNames) == Some(name)
    ensures DocsDir(w, None, c) == name
  {
    assert DocsDirNames == Layout.DocDirNames + ["book"];
    ProbePrefix(w, c, Layout.DocDirNames, ["book"]);
  }

  /** Where the two disagree: without `docs`, `doc` or `Doc`, `docs_dir`
      still picks up a `book` directory while the version's documentation
      path falls back to the checkout. */
  lemma DocsDirBookOnly(v: Layout.SphinxVersion, w: World)
    requires v.checkoutPath.Some?
    requires Probe(w, v.checkoutPath.value, Layout.DocDirNames).None?
    ensures Layout.FullDocPath(v, w) == Ok(v.checkoutPath.value)
    ensures DocsDir(w, None, v.checkoutPath.value) ==
      if Exists(w, Join(v.checkoutPath.value, "book")) then "book" else "."
  {
    var c := v.checkoutPath.value;
    assert Probe(w, c, DocsDirNames) == Probe(w, c, ["book"]) by {
      assert DocsDirNames == Layout.DocDirNames + ["book"];
      ProbeSkip(w, c, Layout.DocDirNames, ["book"]);
    }
    assert Probe(w, c, ["book"]) == (if Exists(w, Join(c, "book")) then Some("book") else None) by {
      assert ["book"][1..] == [];
    }
  }

  const IndexHead: string :=
    "\n\nWelcome to Read the Docs\n------------------------\n\nThis is an autogenerated index file.\n\nPlease create a "

  const IndexTail: string :=
    " file with your own content.\n\nIf you want to use another markup, choose a different builder in your settings.\n                "

  /** The placeholder index text for docs directory `d` and extension `ext`. */
  function IndexText(d: string, ext: string): string {
    Placeholder(IndexHead, d, ext, IndexTail)
  }

  function Placeholder(head: string, d: string, ext: string, tail: string): string {
    head + "``" + d + "/index." + ext + "`` or ``" + d + "/README." + ext + "``" + tail
  }

  /** The placeholder names both files the author may create instead. */
  lemma IndexTextNamesFiles(d: string, ext: string)
    ensures Contains(IndexText(d, ext), d + "/index." + ext)
    ensures Contains(IndexText(d, ext), d + "/README." + ext)
  {
    PlaceholderNamesFiles(IndexHead, d, ext, IndexTail);
  }

  lemma PlaceholderNamesFiles(head: string, d: string, ext: string, tail: string)
    ensures Contains(Placeholder(head, d, ext, tail), d + "/index." + ext)
    ensures Contains(Placeholder(head, d, ext, tail), d + "/README." + ext)
  {
    var index := d + "/index." + ext;
    var readme := d + "/README." + ext;
    var t := Placeholder(head, d, ext, tail);
    assert t == (head + "``") + index + ("`` or ``" + readme + "``" + tail);
    assert t == (head + "``" + index + "`` or ``") + readme + ("``" + tail);
    OccursInMiddle(head + "``", index, "`` or ``" + readme + "``" + tail);
    OccursInMiddle(head + "``" + index + "`` or ``", readme, "``" + tail);
    ContainsIff(t, index);
    ContainsIff(t, readme);
  }

  /** `BaseBuilder.create_index`: when the docs directory has no
      `index.<ext>`, a `README.<ext>` is copied over it with a shell `cp`
      (whose effect on the files is the command runner's business), or else
      a placeholder index is written, which raises when the docs directory
      is not a directory. */
  function CreateIndex(w: World, host: Host, checkout: Path, ext: string): (r: Step<()>)
    ensures var index := Join(DocsDir(w, None, checkout), "index." + ext);
      Exists(w, index) ==> r == Step(w, Ok(()))
    ensures var d := DocsDir(w, None, checkout);
      var index := Join(d, "index." + ext);
      var readme := Join(d, "README." + ext);
      !Exists(w, index) && Exists(w, readme) ==>
        r.outcome.Ok? && r.world.fs == w.fs &&
        r.world.log == w.log + [Invocation(w.cwd, ["cp " + readme + " " + index], true)]
    ensures var d := DocsDir(w, None, checkout);
      var index := Join(d, "index." + ext);
      !Exists(w, index) && !Exists(w, Join(d, "README." + ext)) ==>
        (r.outcome.Ok? <==> IsDir(w.fs, Resolve(w, d))) &&
        (r.outcome.Ok? ==> r.world.fs == w.fs[Resolve(w, index) := File(IndexText(d, ext))]) &&
        (r.outcome.Raised? ==> r.world == w)
    ensures r.world.cwd == w.cwd
  {
    var d := DocsDir(w, None, checkout);
    var index := Join(d, "index." + ext);
    var readme := Join(d, "README." + ext);
    if Exists(w, index) then Step(w, Ok(()))
    else if Exists(w, readme) then
      var (w1, _) := Run(w, host, ["cp " + readme + " " + index], true);
      Step(w1, Ok(()))
    else if IsDir(w.fs, Resolve(w, d)) then
      Step(w.(fs := w.fs[Resolve(w, index) := File(IndexText(d, ext))]), Ok(()))
    else Step(w, Raised(IOError(index)))
  }

  /** Without any conventional docs directory the files are looked up as
      `./index.<ext>` and `./README.<ext>`, that is in the working directory:
      an index already there is kept, and a README there is copied. */
  lemma CreateIndexAtRoot(w: World, host: Host, checkout: Path, ext: string)
    requires forall i :: 0 <= i < |DocsDirNames| ==> !Exists(w, Join(checkout, DocsDirNames[i]))
    ensures Join(w.cwd, "index." + ext) in w.fs ==> CreateIndex(w, host, checkout, ext) == Step(w, Ok(()))
    ensures Join(w.cwd, "index." + ext) !in w.fs && Join(w.cwd, "README." + ext) in w.fs ==>
      var r := CreateIndex(w, host, checkout, ext);
      r.outcome.Ok? && r.world.fs == w.fs
  {
    ProbeSpec(w, checkout, DocsDirNames);
    assert DocsDir(w, None, checkout) == ".";
    assert Resolve(w, Join(".", "index." + ext)) == Join(w.cwd, "index." + ext) by {
      assert Join(".", "index." + ext) == "./" + "index." + ext;
      assert ("./" + "index." + ext)[2..] == "index." + ext;
    }
    assert Resolve(w, Join(".", "README." + ext)) == Join(w.cwd, "README." + ext) by {
      assert Join(".", "README." + ext) == "./" + "README." + ext;
      assert ("./" + "README." + ext)[2..] == "README." + ext;
    }
  }

  /** Once a placeholder has been written, creating the index again does
      nothing: the placeholder never overwrites an existing index. */
  lemma CreateIndexIdempotent(w: World, host: Host, checkout: Path, ext: string)
    requires !Exists(w, Join(DocsDir(w, None, checkout), "README." + ext))
    requires CreateIndex(w, host, checkout, ext).outcome.Ok?
    requires DocsDir(CreateIndex(w, host, checkout, ext).world, None, checkout) == DocsDir(w, None, checkout)
    ensures var w1 := CreateIndex(w, host, checkout, ext).world;
      CreateIndex(w1, host, checkout, ext) == Step(w1, Ok(()))
  {
  }
}
