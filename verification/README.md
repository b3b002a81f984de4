# Read the Docs documentation builders, modelled in Dafny

This project models the core of the Read the Docs build pipeline:

- **Project layout** (`readthedocs/filesystem/__init__.py`). A project's documentation, checkout, environment and artifact paths are derived from a root and a slug. The `Version` helpers find the documentation directory and the Sphinx `conf.py`.
- **The builder API every backend shares** (`readthedocs/doc_builder/base.py`). This covers:
  - the working-directory guard `restoring_chdir`;
  - virtualenv provisioning (`setup_environment`);
  - copying and cleaning the build output (`move`, `clean`);
  - the `docs_dir` probe and the `create_index` fallback.
- **The Sphinx backends** (`readthedocs/doc_builder/backends/sphinx.py`). This covers:
  - the per-format class attributes;
  - the `sphinx-build` command line;
  - the two-pass LaTeX-to-PDF build and how its results are combined;
  - the format-specific delivery: a zip archive for local media, `mv` of the first EPUB, and the PDF choice order.
- **The build state** (`readthedocs/doc_builder/state.py`). The core and settings snapshots ignore their constructor arguments. `username_repo` extracts the GitHub/Bitbucket owner and repository with ordered regular-expression fallbacks.

The world a build acts on is `Disk.World`, which holds three things:

- a filesystem, a finite map from path strings to directories, files and zip archives;
- the current working directory;
- the log of every command handed to the command runner.

Exceptions are values (`Outcomes.Result`). Effects that happened before an exception stay in the world (`Disk.Step`).

The program also learns things from the operating system without changing it. Those come from a `Disk.Host` of oracles, which are inputs of the model:

- the runner's `(exit, out, err)` answer to a command, given every earlier command;
- directory listings in the order the system returns them;
- `os.walk` output.

Paths are plain strings joined with `posixpath.join` semantics and resolved against the working directory. They are not normalised.

Modules follow the program:

| module | file | models |
|---|---|---|
| `Outcomes` | outcomes.dfy | `None`, raised exceptions, `os.chdir(None)` |
| `Text` | text.dfy | `posixpath.join`/`split` (also onto None), `str.find`, `str.replace`, `str.capitalize`, `in` |
| `Seqs` | seqs.dfy | order-preserving filtering (`fnmatch.filter`, `glob`) |
| `Disk` | disk.dfy | filesystem, `makedirs`, `rmtree`, `copytree`, `chdir`, `glob`, `os.walk`, ordered probes |
| `Layout` | layout.dfy | `filesystem/__init__.py` |
| `Patterns` | patterns.dfy | the `re.search` fragment the URL patterns use |
| `BuildStates` | state.dfy | `doc_builder/state.py` |
| `Builders` | builder.dfy | `doc_builder/base.py` |
| `SphinxBackends` | sphinx.dfy | `doc_builder/backends/sphinx.py` |

## Model

| member | source | states |
|---|---|---|
| Text.JoinOnto | readthedocs/filesystem/__init__.py:113 | Python 2's `join(None, b)` returns an absolute `b` and otherwise raises AttributeError; onto a set path it is the ordinary join. |
| Text.Split | readthedocs/doc_builder/backends/sphinx.py:140 | The tail of `posixpath.split` is a suffix of the path and contains no '/'. |
| Text.SplitJoin | readthedocs/doc_builder/backends/sphinx.py:140 | Splitting `join(a, b)` gives back `(a, b)` for an ordinary directory `a` and a single component `b`, which is how `glob` recovers the directory of `join(dir, "*.epub")`. |
| Text.FindFrom | readthedocs/filesystem/__init__.py:121 | `s.find(sub, start)` is the first index at or after `start` where `sub` occurs, and -1 exactly when there is none. |
| Text.RemoveAllAbsent | readthedocs/filesystem/__init__.py:134 | `replace('/conf.py', '')` leaves a string without any occurrence unchanged. |
| Text.RemoveAllAppended | readthedocs/filesystem/__init__.py:134 | Removing every occurrence of a pattern whose first character does not recur, appended once to a string free of it, gives the string back. |
| Text.Capitalize | readthedocs/doc_builder/backends/sphinx.py:194 | `str.capitalize` keeps the length, upper-cases the first character and lower-cases every other one. |
| Text.CapitalizeIdempotent | readthedocs/doc_builder/backends/sphinx.py:194 | Capitalising twice is capitalising once. |
| Seqs.Filter | readthedocs/filesystem/__init__.py:78-79 | The result is no longer than the input. It is empty exactly when no element satisfies the filter, and otherwise its head is the first element that does. |
| Seqs.FilterMembers | readthedocs/filesystem/__init__.py:78-79 | An element is kept exactly when it occurs in the input and satisfies the filter. |
| Seqs.FilterOrder | readthedocs/filesystem/__init__.py:78-79 | Filtering keeps the relative order: the i-th and j-th kept elements, i < j, come from positions k < l of the input. |
| Disk.RemoveTree | readthedocs/doc_builder/base.py:112 | `rmtree(p)` removes exactly `p` and what lies below it and leaves every other entry as it was. |
| Disk.RemoveTreeTwice | readthedocs/doc_builder/base.py:123 | Removing a tree that is already gone changes nothing. |
| Disk.MakeDirs | readthedocs/filesystem/__init__.py:38-45 | `os.makedirs(p)` raises exactly when `p` exists or an ancestor exists as a non-directory. Otherwise it creates `p` and its missing ancestors as directories and nothing else, and keeps every existing entry. |
| Disk.RebaseInjective | readthedocs/doc_builder/base.py:114 | Two distinct paths below the copy source land on distinct paths below the destination. |
| Disk.RebaseUnder | readthedocs/doc_builder/base.py:114 | A path strictly below the source, moved to the destination, lies strictly below the destination. |
| Disk.CopiedEntries | readthedocs/doc_builder/base.py:114 | Every entry strictly below the source appears, with its content, at its re-rooted place. Every produced entry is such a copy, and it lies strictly below the destination. |
| Disk.CopyTree | readthedocs/doc_builder/base.py:114 | `copytree` succeeds exactly when the source is a directory and the destination can be made. The destination is then a directory mirroring everything below the source, and entries outside the destination are kept. Every entry of the result is an unchanged old entry, a directory on the way to the destination (the destination or an ancestor `makedirs` created), or a copy of an entry below the source (`CopyBounded`). |
| Disk.Chdir | readthedocs/doc_builder/base.py:80 | `os.chdir` succeeds exactly on an existing directory and changes only the working directory. Its argument is resolved by `Resolve`: `.` and `./` are the working directory, one leading `./` before a relative path is dropped, and any other relative path is joined onto the working directory. |
| Disk.GlobInDirectory | readthedocs/doc_builder/backends/sphinx.py:140 | For an ordinary directory, `Glob` of `join(dir, "*" + suffix)` is the non-hidden listed names ending in the suffix, in listing order, joined onto the directory. |
| Disk.GlobFirstListed | readthedocs/doc_builder/backends/sphinx.py:140-144 | When the listing holds a matching name the glob is non-empty, and its first result is the directory joined with the first listed name that the glob selects. |
| Disk.GlobSound | readthedocs/doc_builder/backends/sphinx.py:201 | Every glob result names an existing, non-hidden entry carrying the suffix, as long as the listing oracle agrees with the filesystem. |
| Disk.ProbeSpec | readthedocs/filesystem/__init__.py:65-70 | An ordered probe finds nothing exactly when no candidate exists. Otherwise it returns the first candidate that exists. |
| Disk.ProbePrefix | readthedocs/doc_builder/base.py:133-136 | Appending more candidates cannot change a hit among the earlier ones. |
| Disk.ProbeSkip | readthedocs/doc_builder/base.py:133-136 | When no earlier candidate exists, the probe continues with the later ones. |
| Layout.NewFilesystemProject | readthedocs/filesystem/__init__.py:19-24 | `doc_path` is `join(root, slug)` unless a keyword argument overrides it. The other paths are set only by keyword arguments. Every other keyword becomes an attribute. Passing `root` or `slug` again raises TypeError. |
| Layout.DocPathOfTestProject | readthedocs/rtd_tests/tests/test_doc_building.py:28-66 | The test project's root ends in '/', so its doc path is `/Users/eric/checkouts/django-kong/kong`, the value the test expects. |
| Layout.GetArtifactPathShape | readthedocs/filesystem/__init__.py:26-27 | `get_artifact_path` splits into `doc_path/artifacts/<version>` and the type, and lies below `doc_path/artifacts/`. |
| Layout.EnsureDir | readthedocs/filesystem/__init__.py:38-39 | An existing path is left alone. On success the path exists, every earlier entry is kept, and the only new entries are directories: the path and its ancestors. |
| Layout.EnsureDirRaises | readthedocs/filesystem/__init__.py:38-39 | It raises exactly when the path is missing and something on the way to it exists but is not a directory. |
| Layout.EnsureDirs | readthedocs/filesystem/__init__.py:38-45 | When every path already exists nothing changes. On success every path exists. Existing entries, the working directory and the command log are never changed. |
| Layout.EnsureDirsRaises | readthedocs/filesystem/__init__.py:38-45 | Creating the directories in order raises exactly when one of them, in the starting world, is missing and has an ancestor that exists but is not a directory (`Blocked`). Directories made by earlier calls never block a later one. |
| Layout.EnsureDirsAddsOnlyDirs | readthedocs/filesystem/__init__.py:38-45 | Whether or not a call raises, every new entry is a directory, and it is one of the wanted paths or an ancestor of one. |
| Layout.EnsureDirKeepsBlocked | readthedocs/filesystem/__init__.py:38-39 | A successful `makedirs` neither blocks nor unblocks any other path. |
| Layout.NewReadTheDocsProject | readthedocs/filesystem/__init__.py:32-45 | Checkout, env and artifact paths are always `doc_path/checkouts`, `doc_path/envs` and `doc_path/artifacts`, whatever the keyword arguments said. Construction succeeds exactly when the base constructor does and none of those four directories (`ProjectDirs`) is blocked by a non-directory ancestor. On success all four exist. Nothing that existed is changed, and every new entry is a directory on the way to one of the four. |
| Layout.ReadTheDocsProjectIdempotent | readthedocs/filesystem/__init__.py:38-45 | After a successful construction, constructing the project again on the world it left gives the same world and the same project. |
| Layout.NewSphinxVersion | readthedocs/filesystem/__init__.py:50-57 | A version copies the project's checkout path and starts without an explicit `conf`. |
| Layout.FullDocPath | readthedocs/filesystem/__init__.py:60-70 | It is `checkout/X` for the first existing X among `docs`, `doc`, `Doc`, and otherwise the checkout itself. With the checkout path unset, the join raises AttributeError. |
| Layout.Find | readthedocs/filesystem/__init__.py:72-91 | `find` reports one path per walk entry with the wanted name. FindExact gives the paths themselves and FindWalkOrder their order. |
| Layout.FindExact | readthedocs/filesystem/__init__.py:72-91 | Every reported path is a walk entry with the wanted name, joined onto its directory, and every such entry is reported. The walk (`Walk`) is the `os.walk` oracle's answer when the top is a directory, and empty otherwise, as `os.walk` yields nothing for a missing top. |
| Layout.FindWalkOrder | readthedocs/filesystem/__init__.py:72-91 | Paths come in walk order: of two reported paths, the earlier comes from an earlier matching walk entry. |
| Layout.DocTieBreakMeaning | readthedocs/filesystem/__init__.py:121 | The tie-break holds exactly when `doc` occurs at index 70 or later. |
| Layout.ConfCandidates | readthedocs/filesystem/__init__.py:114-116 | The candidates are the matches below the doc directory, or, only when there are none, the matches in the whole checkout. |
| Layout.ConfFile | readthedocs/filesystem/__init__.py:110-129 | Covers the outcomes of `conf_file`, as listed below the table. Where the source decides by a condition (the explicit `conf`, no candidate, one candidate, the tie-break), the contract gives both directions. |
| Layout.ConfDir | readthedocs/filesystem/__init__.py:131-134 | `conf_dir` raises exactly when `conf_file` does. It is None exactly when `conf_file` is None or empty. |
| Layout.ConfDirOfFoundFile | readthedocs/filesystem/__init__.py:131-134 | For a `conf.py` found in an ordinary directory `d` that does not itself contain `/conf.py`, the conf dir is `d`. |
| Layout.StripConfPy | readthedocs/filesystem/__init__.py:134 | Removing `/conf.py` from `join(d, "conf.py")` gives `d` back. |
| Layout.ArtifactPath | readthedocs/filesystem/__init__.py:93-97 | `artifact_path` succeeds exactly when the project has an artifact path or the slug is absolute. Otherwise the join onto None raises AttributeError. |
| Layout.EnvBin | readthedocs/filesystem/__init__.py:99-100 | `env_bin` succeeds exactly when the project has an environment path. Otherwise the join onto None raises AttributeError. |
| Layout.DerivedPathsNest | readthedocs/filesystem/__init__.py:93-100 | For ordinary components, the artifact path lies below the project's artifact path and splits into `<artifact>/<slug>` and the type. An environment binary splits into `<env>/bin` and its name. |
| Patterns.MatchAt | readthedocs/doc_builder/state.py:74 | A match found at a position makes the pattern fit the matched text, with one captured text per group. |
| Patterns.TryGroup | readthedocs/doc_builder/state.py:74 | A group's match is a fit of the group followed by the rest of the pattern. |
| Patterns.SearchFrom | readthedocs/doc_builder/state.py:74 | A search result is a fit of the pattern on some substring. |
| Patterns.MatchAtComplete | readthedocs/doc_builder/state.py:74 | The backtracking matcher is complete: a pattern that fits the text from a position is found there. |
| Patterns.TryGroupFinds | readthedocs/doc_builder/state.py:74 | A group fails only when no end position lets the rest match. |
| Patterns.SearchNoneIff | readthedocs/doc_builder/state.py:74 | `re.search` returns None exactly when the pattern fits no substring. Otherwise its groups fit some substring. |
| Patterns.SearchFromReaches | readthedocs/doc_builder/state.py:74 | A search from an earlier position finds something when a later position matches. |
| Patterns.SearchFromLeftmost | readthedocs/doc_builder/state.py:74 | The search reports the match at the leftmost start position that has one. |
| Patterns.LitsAt | readthedocs/doc_builder/state.py:47 | A literal run matches exactly where the text spells it out. |
| Patterns.SimpleThen | readthedocs/doc_builder/state.py:47 | A group-free prefix is matched character by character before the rest is tried. |
| Patterns.TryGroupLongest | readthedocs/doc_builder/state.py:47 | A greedy group takes the longest text that lets the rest of the pattern match. |
| Patterns.FirstSearchSpec | readthedocs/doc_builder/state.py:73-77 | Trying patterns in list order yields None exactly when none matches. Otherwise it yields the groups of a matching pattern that has no matching pattern before it. |
| BuildStates.NewCoreState | readthedocs/doc_builder/state.py:11-31 | Every field holds its class default (`en`, empty lists, None, virtualenv on, `python2`, no system packages, `sphinx`, empty paths). |
| BuildStates.CoreStateIgnoresArguments | readthedocs/doc_builder/state.py:30-31 | Any two sets of keyword arguments give the same state, the tests' project `Kong`, version `latest` and `virtualenv=True` included. Project and version stay None. |
| BuildStates.NewSettingsState | readthedocs/doc_builder/state.py:33-41 | Every field holds its class default. |
| BuildStates.NewVCSState | readthedocs/doc_builder/state.py:59-63 | Repo and branch are stored, and neither host is displayed. |
| BuildStates.HostPatternsCaptureTwo | readthedocs/doc_builder/state.py:46-56 | Every GitHub and Bitbucket pattern captures exactly two groups. |
| BuildStates.GithubPatternsCaptureTwo | readthedocs/doc_builder/state.py:46-50 | Each of the three GitHub patterns captures two groups. |
| BuildStates.BitbucketPatternsCaptureTwo | readthedocs/doc_builder/state.py:52-56 | Each of the three Bitbucket patterns captures two groups. |
| BuildStates.UsernameRepo | readthedocs/doc_builder/state.py:65-77 | See below the table. |
| BuildStates.UsernameRepoFirstPattern | readthedocs/doc_builder/state.py:73-76 | A non-empty answer is the groups of the first pattern, in list order, whose search succeeds. |
| BuildStates.PairOfFirstSearch | readthedocs/doc_builder/state.py:73-76 | With two-group patterns, the first successful search has two groups, and they are the pair returned. |
| BuildStates.GithubUrlTail | readthedocs/doc_builder/state.py:47 | After the owner, `/NAME.git` matches to the end with NAME as the group. |
| BuildStates.GithubUrlBody | readthedocs/doc_builder/state.py:47 | The greedy owner group stops at the slash before the repository name. |
| BuildStates.GithubUrlHead | readthedocs/doc_builder/state.py:47 | In an HTTPS clone URL, `github.com/` is found at position 8 and nowhere earlier. |
| BuildStates.UsernameRepoGithubUrl | readthedocs/doc_builder/state.py:46-77 | For `https://github.com/OWNER/NAME.git`, with no '/' in NAME, the answer is `(OWNER, NAME)` without `.git`, and only the GitHub display is turned on. |
| Builders.NewBuilder | readthedocs/doc_builder/base.py:35-37 | The target is the version's artifact path for the builder's type. Construction succeeds exactly when the project has an artifact path or the slug is absolute, and otherwise raises AttributeError. |
| Builders.RestoringChdir | readthedocs/doc_builder/base.py:11-20 | See below the table. |
| Builders.RestoringChdirTwice | readthedocs/doc_builder/base.py:11-20 | Guarding a guarded body is the same as guarding it once. |
| Builders.ChdirTo | readthedocs/doc_builder/base.py:80 | Changing to an unset path or a missing directory raises. Otherwise only the working directory changes. |
| Builders.RequirementsStep | readthedocs/doc_builder/base.py:79-84 | Without a requirements file nothing happens. Otherwise it changes to the checkout, runs exactly the `pip install --exists-action=w -r` command there and records its result under `requirements`. It succeeds exactly when there is no requirements file or the checkout path is set and names a directory (`CheckoutIsDir`). |
| Builders.InstallStep | readthedocs/doc_builder/base.py:86-90 | It changes to the checkout and succeeds exactly when the checkout path is set and names a directory. `setup.py install --force` runs, and is recorded under `install`, exactly when `setup.py` is a file there. |
| Builders.Provision | readthedocs/doc_builder/base.py:51-90 | Provisioning never changes the filesystem, because command effects belong to the runner. It succeeds exactly when the checkout is a directory and, with a requirements file, the checkout path still names a directory from inside the checkout, where the install step resolves it (`ProvisionSucceeds`). |
| Builders.ProvisionStages | readthedocs/doc_builder/base.py:57-90 | The result has `env` and `sphinx`, `requirements` exactly when a requirements file is set, and `install` exactly when the checkout has `setup.py`. |
| Builders.ProvisionStartsWithToolchain | readthedocs/doc_builder/base.py:51-77 | The first two commands are exactly `virtualenv-2.7 -p <interpreter> <site flag> <env>` (`EnvCommand`) and `<env>/bin/pip install -U <-I or nothing> …` (`SphinxCommand`). `system_packages` selects both the site flag and `-I`. |
| Builders.ProvisionKeepsToolchainResults | readthedocs/doc_builder/base.py:57-77 | The `env` and `sphinx` entries are the runner's answers to the two toolchain commands; later steps only add entries. |
| Builders.SetupEnvironmentAsWritten | readthedocs/doc_builder/base.py:39-49 | Without virtualenv: no commands and an empty dict. With virtualenv and no env path: AttributeError from the join. With a leftover build directory: NameError before anything is removed or run. |
| Builders.ClearBuildDir | readthedocs/doc_builder/base.py:46-49 | Removing a leftover build directory succeeds exactly when it is absent or a directory. It removes only that tree. |
| Builders.SetupEnvironment | readthedocs/doc_builder/base.py:39-91 | Without virtualenv: no commands and an empty dict. With virtualenv and no env path: AttributeError. Otherwise it succeeds exactly when the leftover build directory can be removed and provisioning succeeds on the cleaned world. On success the files are the cleaned world's. |
| Builders.SetupEnvironmentStages | readthedocs/doc_builder/base.py:43-91 | Same key set as `ProvisionStages`, stated for the whole `setup_environment`. |
| Builders.SetupEnvironmentAgreesWithoutLeftover | readthedocs/doc_builder/base.py:46-49 | Without a leftover build directory the code as written and the corrected one agree. |
| Builders.SetupEnvironmentLeftoverRaises | readthedocs/doc_builder/base.py:46-49 | With a leftover build directory the code as written raises NameError, while the corrected one succeeds exactly when it would on the cleaned world. |
| Builders.SetupEnvironmentFreshStart | readthedocs/doc_builder/base.py:45-49 | Corrected: a leftover build directory makes no difference. The result equals the result on a world where it was already removed. |
| Builders.RequirementsStepIgnoresRunner | readthedocs/doc_builder/base.py:79-84 | The requirements step issues the same commands whatever the runner answered earlier. |
| Builders.InstallStepIgnoresRunner | readthedocs/doc_builder/base.py:86-90 | Same for the install step. |
| Builders.ProvisionIgnoresExitCodes | readthedocs/doc_builder/base.py:57-90 | Two runners with different answers lead to the same world, the same success and the same keys: no step short-circuits on an exit code. |
| Builders.SetupEnvironmentIgnoresExitCodes | readthedocs/doc_builder/base.py:39-91 | Same for the whole `setup_environment`. |
| Builders.Move | readthedocs/doc_builder/base.py:106-116 | Without build output nothing changes. Otherwise the move succeeds exactly when the output is a directory, any existing target is a directory not containing the output, and the target's existing ancestors are directories. On success the target is a directory holding a copy of everything below the output that does not itself lie inside the target. Existing entries outside the target keep their contents. Every entry afterwards is an unchanged old entry, the target or one of its ancestors as a directory, or a copy of something below the output (`CopyBounded`). The working directory and the command log stay as they were. |
| Builders.ClearTree | readthedocs/doc_builder/base.py:111-112 | `rmtree` on an existing path succeeds exactly on a directory and removes exactly its tree. |
| Builders.MoveReplacesTarget | readthedocs/doc_builder/base.py:110-114 | After a move, everything below the target is a copy of something below the build output: no older target content survives. |
| Builders.Clean | readthedocs/doc_builder/base.py:118-124 | Existing build output is removed with its tree. A missing one changes nothing. It raises exactly when the output path is a file. Nothing is added: every entry afterwards existed before with the same contents. |
| Builders.CleanTwice | readthedocs/doc_builder/base.py:118-124 | Cleaning twice is cleaning once. |
| Builders.DocsDir | readthedocs/doc_builder/base.py:126-142 | A non-empty argument wins. Otherwise it is the first existing of `docs`, `doc`, `Doc`, `book`, returned bare, and otherwise `.`. |
| Builders.DocsDirAgreesWithFullDocPath | readthedocs/doc_builder/base.py:131-136 | When `full_doc_path` finds `docs`, `doc` or `Doc`, `docs_dir` picks the same name. |
| Builders.FullDocPathFound | readthedocs/filesystem/__init__.py:65-69 | A hit of the doc-directory probe is what `full_doc_path` returns. |
| Builders.DocsDirFound | readthedocs/doc_builder/base.py:133-136 | A hit among `docs`, `doc`, `Doc` is what `docs_dir` returns. |
| Builders.DocsDirBookOnly | readthedocs/doc_builder/base.py:133 | Where the two differ: only `docs_dir` picks up `book`, and `full_doc_path` falls back to the checkout. |
| Builders.IndexTextNamesFiles | readthedocs/doc_builder/base.py:158-170 | The placeholder text names both `<dir>/index.<ext>` and `<dir>/README.<ext>`. |
| Builders.CreateIndex | readthedocs/doc_builder/base.py:144-171 | An existing index is left alone. Otherwise a README is copied with a shell `cp` and the files are left to the runner. Otherwise the placeholder is written to `index.<ext>`; that succeeds exactly when the docs directory is a directory. |
| Builders.CreateIndexAtRoot | readthedocs/doc_builder/base.py:126-152 | When no conventional docs directory exists, `docs_dir` is `.`, and an `index.<ext>` or `README.<ext>` in the working directory is seen: nothing is written over it. |
| Builders.CreateIndexIdempotent | readthedocs/doc_builder/base.py:151-152 | Once the placeholder is written, creating the index again changes nothing. |
| SphinxBackends.NewSphinxBuilder | readthedocs/doc_builder/backends/sphinx.py:29-31 | Construction succeeds exactly when the artifact path can be formed and there is a conf dir. The output directory is `join(conf_dir, sphinx_build_dir)`. |
| SphinxBackends.BuilderOutputBesideConf | readthedocs/doc_builder/backends/sphinx.py:31 | With the only `conf.py` in an ordinary directory `d`, the output directory is `d/<build dir>`. |
| SphinxBackends.SphinxBuildBody | readthedocs/doc_builder/backends/sphinx.py:35-45 | On success exactly one shell command runs, in the conf dir: `<env>/bin/sphinx-build  -E  -b <builder> -D language=<lang> . <build dir> ` (`BuildCommand`). Its answer is the result. It succeeds exactly when the conf dir is known and is a directory, the project has an environment path, and the format has a Sphinx builder (`SphinxBuildRuns`). |
| SphinxBackends.SphinxBuild | readthedocs/doc_builder/backends/sphinx.py:33-45 | The same, with the working directory restored. It succeeds exactly when the starting directory exists and `SphinxBuildRuns` holds. |
| SphinxBackends.BuildOutputIsMoveInput | readthedocs/doc_builder/backends/sphinx.py:31-44 | The output directory named on the command line, taken from the directory the command runs in, is the builder's `old_artifact_path`. |
| SphinxBackends.PdflatexCommands | readthedocs/doc_builder/backends/sphinx.py:172-173 | One `pdflatex -interaction=nonstopmode <file>` per `.tex` file, in glob order. |
| SphinxBackends.CombineSucceedsIffBoth | readthedocs/doc_builder/backends/sphinx.py:180-184 | With non-negative exit codes, the result `Combine` builds succeeds exactly when both steps did. Its output starts with LaTeX's and ends with pdflatex's. |
| SphinxBackends.PdflatexPasses | readthedocs/doc_builder/backends/sphinx.py:170-178 | No `.tex` files gives the "No tex files found" triple and no command. Otherwise the same batch runs twice and the second answer is kept. |
| SphinxBackends.PdfBuildBody | readthedocs/doc_builder/backends/sphinx.py:154-187 | The PDF build never changes the filesystem itself. It succeeds exactly when the conf dir is a directory and, if LaTeX succeeds, so is `_build/latex` below it. |
| SphinxBackends.PdfBuildBodyOutcome | readthedocs/doc_builder/backends/sphinx.py:159-187 | See below the table. |
| SphinxBackends.PdfTailOutcome | readthedocs/doc_builder/backends/sphinx.py:166-184 | After a successful LaTeX step, the result is LaTeX combined with the no-tex triple exactly when `_build/latex` globs no `.tex` file. Otherwise `pdflatex` over exactly the globbed files runs twice in that directory and the second answer is combined. |
| SphinxBackends.PdfBuild | readthedocs/doc_builder/backends/sphinx.py:152-187 | The outcomes of PdfBuildBodyOutcome, with the working directory restored and the filesystem unchanged. It succeeds exactly when the working directory and conf dir exist and, after a successful LaTeX step, `_build/latex` does too. |
| SphinxBackends.ZipMembers | readthedocs/doc_builder/backends/sphinx.py:122-130 | One archive member per walked file, in walk order, written from `join(root, file)` and named `<project>-<version>/…`. |
| SphinxBackends.RemoveFile | readthedocs/doc_builder/backends/sphinx.py:116-117 | `os.remove` succeeds unless the path is a directory. It removes exactly that entry. |
| SphinxBackends.LocalMediaBody | readthedocs/doc_builder/backends/sphinx.py:112-131 | It succeeds exactly when all of these hold: the target can be made; then the old archive path is not a directory; the output directory exists; the archive's directory exists; and the archive location is not a directory. On success the archive holds exactly the members for the walk of the output directory, and no command runs. Only the old and new archive entries change; the other new entries are the target and its ancestors. |
| SphinxBackends.WriteZip | readthedocs/doc_builder/backends/sphinx.py:116-131 | Removing an older archive, changing into the output directory and writing the archive succeeds exactly when all of these hold: the old archive path is not a directory; the output directory exists; the archive's directory exists; and the archive location is not a directory, which `open(…, 'w')` refuses with IOError. Only the two archive entries change. |
| SphinxBackends.LocalMediaMove | readthedocs/doc_builder/backends/sphinx.py:110-131 | The same archive and frame. It succeeds exactly when the starting directory exists and the guarded part succeeds. Since the archive location must not be a directory, the archive never replaces the starting directory. The working directory is restored. |
| SphinxBackends.ZipLocationLayout | readthedocs/doc_builder/backends/sphinx.py:113-121 | The zip path (`ZipPath`) is `<target>/<slug>.zip`. An absolute target puts the archive there. A relative target is resolved from the output directory (`ZipLocation`), because the move has changed into it before the archive is opened; a leading `./` is dropped. |
| SphinxBackends.ArcNameTop | readthedocs/doc_builder/backends/sphinx.py:124-129 | A top-level file is archived (`ArcName`) as `<project>-<version>/<file>`. |
| SphinxBackends.ArcNameNested | readthedocs/doc_builder/backends/sphinx.py:124-129 | A file in subdirectory `sub` is archived as `<project>-<version>/sub/<file>`. |
| SphinxBackends.EpubMove | readthedocs/doc_builder/backends/sphinx.py:139-146 | It raises exactly when the target cannot be made; otherwise the target exists. With a `*.epub` in the output, exactly one `mv -f <first epub> <target>/<slug>.epub` runs; without one, nothing runs. Only the target and its missing ancestors are added, as directories. |
| SphinxBackends.PdfSource | readthedocs/doc_builder/backends/sphinx.py:193-205 | The choice order is `<slug>.pdf`, then `<Slug>.pdf`, then the first `*.pdf` of the output listing, then none. |
| SphinxBackends.PdfMove | readthedocs/doc_builder/backends/sphinx.py:189-208 | The target is ensured. The chosen PDF, if any, is moved with one `mv -f` to `<target>/<slug>.pdf`, always under the slug as written. It raises exactly when the target cannot be made. Only the target and its missing ancestors are added, as directories. |
| SphinxBackends.PdfSourceCapitalizedSlug | readthedocs/doc_builder/backends/sphinx.py:194-198 | For a slug that `capitalize` leaves alone, the second probe adds nothing and the choice falls through to the glob. |

Helper lemmas have no row: `Text.JoinPlain`, `Text.ContainsIff`, `Seqs.FilterTail`, `Seqs.FilterTailLength`, `SphinxBackends.StripDotPlain`, `SphinxBackends.ArcPrefixPlain`, `Builders.PlaceholderNamesFiles`, `SphinxBackends.KindsDistinct` and the like. They carry the steps the rows' proofs need.

Rows that say "see below the table":

- **Layout.ConfFile.** An explicit `conf` is joined onto the checkout without any search. An absolute `conf` is returned as it is, even without a checkout path. A relative one without a checkout path raises AttributeError. Without an explicit `conf` and without a checkout path, the search's join raises AttributeError. Otherwise the candidates decide:
  - no candidate raises `BuildException`, and the exception is raised only then;
  - with at least one candidate nothing is raised;
  - a single candidate is returned as it is;
  - among several, a returned path is the first candidate, in search order, passing the tie-break;
  - among several, the result is None exactly when no candidate passes it;
  - the only exceptions `conf_file` raises are that AttributeError and `BuildException`.
- **BuildStates.UsernameRepo.** A repo URL mentioning `github` uses the GitHub patterns and turns on only `display_github`. One mentioning only `bitbucket` uses the Bitbucket patterns and turns on only `display_bitbucket`. Any other URL raises. Repo and branch are kept. The answer is `(None, None)` exactly when no pattern of the chosen list matches.
- **Builders.RestoringChdir.** If the starting directory is gone, reading it fails. Otherwise the body's files and commands stand. When the starting directory still exists afterwards, the working directory is restored and the body's outcome, returned or raised, passes through. A successful outcome always means the directory was restored.
- **SphinxBackends.PdfBuildBodyOutcome.** The outcome satisfies `PdfOutcome`. The LaTeX command (`LatexCommand`) runs first, in the conf dir:
  - `<env>/bin/sphinx-build`, or plain `sphinx-build` without a virtualenv, `-b latex -D language=<lang> -d _build/doctrees . _build/latex`.
  - If it fails, its triple is the result and nothing else runs.
  - Otherwise, when the glob of `<conf dir>/_build/latex` finds no `.tex` file, the result is LaTeX combined with the no-tex triple and nothing else runs.
  - Otherwise one `pdflatex` batch over exactly the globbed files runs twice in `<conf dir>/_build/latex`, and the second answer is combined with LaTeX's.

## Left out

- Subprocess execution: `projects.utils.run` is not part of this model. Its answer is the `Host.run` oracle. A batch of several commands in one call is one invocation whose effect is not modelled.
- Command effects on files: commands (`virtualenv`, `pip`, `sphinx-build`, `pdflatex`, `mv`, `cp`) change nothing in the modelled filesystem. Only the command log records them.
- Enumeration order: the order of `os.walk`, `os.listdir` (and so `glob`) and `fnmatch` is an input.
- Logging: every `log.*` call and the `print` in `full_find` are omitted.
- `append_conf`: left out, because it renders a Django template and pickles the state, both foreign code.
- `BaseBuilder.force` and `BaseBuilder.build`: left out. They only set a flag, or raise `NotImplementedError`.
- `self.version`: `BaseBuilder.__init__` never sets it, yet the move methods, `docs_dir` and `PdfBuilder.build` use it. The model passes what they read as parameters (`VersionRef`, `LegacyProject`, the checkout path).
- SphinxBackends.SphinxBuild: takes the conf dir as a parameter. In the source it is the `conf_dir` property, which reads the filesystem but does not change it.
- Path normalisation: `..`, inner `./` and doubled slashes are not normalised, so `a/./b` and `a/b` are different keys. Resolving a relative path drops one leading `./`, and archive names lose the leading `./` that `zipfile` normalises away.
- Glob metacharacters in directory names are not modelled. Only the `*<suffix>` file pattern in a plain directory is.
- SphinxBackends.PdfBuild: returns a `CommandResult` triple whether the source builds a list (success) or returns the runner's tuple (LaTeX failure). The two are not distinguished.
- `PdfBuilder.build` runs LaTeX with a plain `run` call and no `shell=True`; `create_index` uses `os.system`. Both are recorded as invocations; the shell flag marks only `sphinx-build` and `cp`.
- MoveReplacesTarget: assumes that whatever lies below the target lies inside an existing target directory (`Rooted`), as on a real filesystem. The map model would otherwise allow orphans.
- The state tests call `BuildState.json()`, which state.py does not define. JSON encoding is not part of this model.
- The state tests expect `project: "Kong"` and the given arguments in the encoded state. The code (`__init__` is `pass`) keeps the class defaults, and the model follows the code.
- readthedocs/core, the comments, bookmarks and project form modules, the Docker runner, `build.py` and the Gruntfile are outside the build core. They are left out.

## Findings

| source | as written | input that shows it | evidently intended | confidence | as-written member | corrected member |
|---|---|---|---|---|---|---|
| readthedocs/doc_builder/base.py:46-49 | The stale-build-directory branch logs through `LOG_TEMPLATE`, a name base.py never imports, so it raises NameError before `shutil.rmtree` runs and provisions nothing. | A virtualenv build whose `<env_path>/build` directory exists. | Remove the leftover build directory and provision as usual. | not executed | Builders.SetupEnvironmentAsWritten (with Builders.SetupEnvironmentLeftoverRaises) | Builders.SetupEnvironment (with Builders.SetupEnvironmentFreshStart) |
