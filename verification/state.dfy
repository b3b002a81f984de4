/** The per-build configuration snapshot (readthedocs/doc_builder/state.py):
    core settings, site settings, version-control information with the
    GitHub/Bitbucket owner and repository extraction, and the build state
    that bundles them. */
module BuildStates {
  import opened Outcomes
  import opened Text
  import opened Patterns
  import Layout

  /** A keyword-argument value as the callers pass it. */
  datatype Value = NoneValue | BoolValue(b: bool) | StrValue(s: string) | ListValue(items: seq<Value>)

  type Kwargs = map<string, Value>

  datatype CoreState = CoreState(
    language: string,
    downloads: seq<Value>,
    versions: seq<Value>,
    name: Option<string>,
    project: Option<string>,
    version: Option<string>,
    analyticsCode: Option<string>,
    canonicalUrl: Option<string>,
    singleVersion: Option<bool>,
    virtualenv: bool,
    interpreter: string,
    systemPackages: bool,
    documentationType: string,
    requirementsFile: string,
    configPath: string)

  /** `CoreState(**kwargs)`: the constructor body is `pass`, so every field
      keeps its class-level default whatever the arguments say. */
  function NewCoreState(kwargs: Kwargs): (r: CoreState)
    ensures r.language == "en" && r.downloads == [] && r.versions == []
    ensures r.name.None? && r.project.None? && r.version.None?
    ensures r.analyticsCode.None? && r.canonicalUrl.None? && r.singleVersion.None?
    ensures r.virtualenv && r.interpreter == "python2" && !r.systemPackages
    ensures r.documentationType == "sphinx" && r.requirementsFile == "" && r.configPath == ""
  {
    CoreState("en", [], [], None, None, None, None, None, None, true, "python2", false, "sphinx", "", "")
  }

  /** Whatever keyword arguments are passed, the state is the same: the
      project name and version the tests and the build script pass never
      reach the object. */
  lemma CoreStateIgnoresArguments(kwargs: Kwargs, other: Kwargs)
    ensures NewCoreState(kwargs) == NewCoreState(other)
    ensures NewCoreState(kwargs).project.None? && NewCoreState(kwargs).version.None?
  {
  }

  datatype SettingsState = SettingsState(
    apiHost: string,
    mediaUrl: string,
    productionDomain: string,
    staticPath: string,
    templatePath: Option<string>)

  /** `SettingsState(**kwargs)`: like `CoreState`, arguments are ignored and
      the class defaults stand. */
  function NewSettingsState(kwargs: Kwargs): (r: SettingsState)
    ensures r.apiHost == "https://readthedocs.org" && r.productionDomain == "https://readthedocs.org"
    ensures r.mediaUrl == "https://media.readthedocs.org"
    ensures r.staticPath == "/static/" && r.templatePath.None?
  {
    SettingsState("https://readthedocs.org", "https://media.readthedocs.org",
                  "https://readthedocs.org", "/static/", None)
  }

  datatype VCSState = VCSState(repo: string, branch: string, displayGithub: bool, displayBitbucket: bool)

  /** `VCSState(repo, branch)`: neither host is displayed until
      `username_repo` is asked. */
  function NewVCSState(repo: string, branch: string): (r: VCSState)
    ensures r.repo == repo && r.branch == branch
    ensures !r.displayGithub && !r.displayBitbucket
  {
    VCSState(repo, branch, false, false)
  }

  /** `github.` (the `.` is unescaped in the source, so any character but a
      newline) followed by `com` and the given separator. */
  function GithubHead(sep: char): Pattern {
    Lits("github") + [AnyChar] + Lits("com") + [Lit(sep)]
  }

  function BitbucketHead(sep: char): Pattern {
    Lits("bitbucket") + [AnyChar] + Lits("org") + [Lit(sep)]
  }

  /** `GH_REGEXS`, in order:
      `github.com/(.+)/(.+)(?:\.git){1}`, `github.com/(.+)/(.+)`,
      `github.com:(.+)/(.+).git`. */
  function GithubPatterns(): seq<Pattern> {
    [ GithubHead('/') + [Group, Lit('/'), Group] + Lits(".git"),
      GithubHead('/') + [Group, Lit('/'), Group],
      GithubHead(':') + [Group, Lit('/'), Group] + [AnyChar] + Lits("git") ]
  }

  /** `BB_REGEXS`, in order:
      `bitbucket.org/(.+)/(.+)/`, `bitbucket.org/(.+)/(.+)`,
      `bitbucket.org:(.+)/(.+)\.git`. */
  function BitbucketPatterns(): seq<Pattern> {
    [ BitbucketHead('/') + [Group, Lit('/'), Group] + [Lit('/')],
      BitbucketHead('/') + [Group, Lit('/'), Group],
      BitbucketHead(':') + [Group, Lit('/'), Group] + Lits(".git") ]
  }

  lemma {:induction false} GroupCountAppend(a: Pattern, b: Pattern)
    ensures GroupCount(a + b) == GroupCount(a) + GroupCount(b)
    decreases |a|
  {
    if a == [] {
      assert a + b == b;
    } else {
      assert (a + b)[1..] == a[1..] + b;
      GroupCountAppend(a[1..], b);
    }
  }

  lemma {:induction false} GroupCountLits(w: string)
    ensures GroupCount(Lits(w)) == 0
    decreases |w|
  {
    if w != [] {
      assert Lits(w)[1..] == Lits(w[1..]);
      GroupCountLits(w[1..]);
    }
  }

  /** A host head (`<name>.<tld><sep>`) has no groups. */
  lemma HeadGroupFree(name: string, tld: string, sep: char)
    ensures GroupCount(Lits(name) + [AnyChar] + Lits(tld) + [Lit(sep)]) == 0
  {
    GroupCountLits(name);
    GroupCountLits(tld);
    GroupCountAppend(Lits(name), [AnyChar]);
    GroupCountAppend(Lits(name) + [AnyChar], Lits(tld));
    GroupCountAppend(Lits(name) + [AnyChar] + Lits(tld), [Lit(sep)]);
  }

  /** `head`, then `(.+)/(.+)`, then up to two group-free tails, captures
      exactly two groups. */
  lemma OwnerRepoGroups(head: Pattern, t1: Pattern, t2: Pattern)
    requires GroupCount(head) == 0 && GroupCount(t1) == 0 && GroupCount(t2) == 0
    ensures GroupCount(head + [Group, Lit('/'), Group]) == 2
    ensures GroupCount(head + [Group, Lit('/'), Group] + t1) == 2
    ensures GroupCount(head + [Group, Lit('/'), Group] + t1 + t2) == 2
  {
    GroupCountAppend(head, [Group, Lit('/'), Group]);
    GroupCountAppend(head + [Group, Lit('/'), Group], t1);
    GroupCountAppend(head + [Group, Lit('/'), Group] + t1, t2);
  }

  /** Every host pattern captures exactly two groups: owner and repository. */
  lemma HostPatternsCaptureTwo()
    ensures forall i :: 0 <= i < |GithubPatterns()| ==> GroupCount(GithubPatterns()[i]) == 2
    ensures forall i :: 0 <= i < |BitbucketPatterns()| ==> GroupCount(BitbucketPatterns()[i]) == 2
  {
    GithubPatternsCaptureTwo();
    BitbucketPatternsCaptureTwo();
  }

  lemma GithubPatternsCaptureTwo()
    ensures GroupCount(GithubPatterns()[0]) == 2
    ensures GroupCount(GithubPatterns()[1]) == 2
    ensures GroupCount(GithubPatterns()[2]) == 2
  {
    HeadGroupFree("github", "com", '/');
    HeadGroupFree("github", "com", ':');
    GroupCountLits(".git");
    GroupCountLits("git");
    OwnerRepoGroups(GithubHead('/'), Lits(".git"), []);
    OwnerRepoGroups(GithubHead(':'), [AnyChar], Lits("git"));
  }

  lemma BitbucketPatternsCaptureTwo()
    ensures GroupCount(BitbucketPatterns()[0]) == 2
    ensures GroupCount(BitbucketPatterns()[1]) == 2
    ensures GroupCount(BitbucketPatterns()[2]) == 2
  {
    HeadGroupFree("bitbucket", "org", '/');
    HeadGroupFree("bitbucket", "org", ':');
    GroupCountLits(".git");
    OwnerRepoGroups(BitbucketHead('/'), [Lit('/')], []);
    OwnerRepoGroups(BitbucketHead(':'), Lits(".git"), []);
  }

  /** `match.groups()` of a two-group match, or `(None, None)`. */
  function Pair(found: Option<seq<string>>): (Option<string>, Option<string>)
    requires found.Some? ==> |found.value| == 2
  {
    match found
    case Some(gs) => (Some(gs[0]), Some(gs[1]))
    case None => (None, None)
  }

  /** `VCSState.username_repo`. A repository URL mentioning `github` is read
      with the GitHub patterns (even if it also mentions `bitbucket`) and
      turns `display_github` on; one mentioning only `bitbucket` uses the
      Bitbucket patterns and turns `display_bitbucket` on; any other URL
      reaches the loop with `matches` unbound and raises. The result is the
      first pattern's groups that match, or `(None, None)`. */
  function UsernameRepo(v: VCSState): (r: Result<(VCSState, (Option<string>, Option<string>))>)
    ensures r.Raised? <==> !Contains(v.repo, "github") && !Contains(v.repo, "bitbucket")
    ensures r.Ok? ==> r.value.0.repo == v.repo && r.value.0.branch == v.branch
    ensures r.Ok? && Contains(v.repo, "github") ==>
      r.value.0.displayGithub && r.value.0.displayBitbucket == v.displayBitbucket
    ensures r.Ok? && !Contains(v.repo, "github") ==>
      r.value.0.displayBitbucket && r.value.0.displayGithub == v.displayGithub
    ensures r.Ok? ==>
      var ps := if Contains(v.repo, "github") then GithubPatterns() else BitbucketPatterns();
      (r.value.1 == (None, None) <==> forall i :: 0 <= i < |ps| ==> Search(ps[i], v.repo).None?)
  {
    HostPatternsCaptureTwo();
    FirstSearchSpec(GithubPatterns(), v.repo);
    FirstSearchSpec(BitbucketPatterns(), v.repo);
    if Contains(v.repo, "github") then
      Ok((v.(displayGithub := true), Pair(FirstSearch(GithubPatterns(), v.repo))))
    else if Contains(v.repo, "bitbucket") then
      Ok((v.(displayBitbucket := true), Pair(FirstSearch(BitbucketPatterns(), v.repo))))
    else
      Raised(UnboundLocalError("matches"))
  }

  /** When a pattern matches, the pair comes from the first pattern in list
      order that matches. */
  lemma UsernameRepoFirstPattern(v: VCSState)
    requires UsernameRepo(v).Ok? && UsernameRepo(v).value.1 != (None, None)
    ensures var ps := if Contains(v.repo, "github") then GithubPatterns() else BitbucketPatterns();
      exists i :: 0 <= i < |ps| &&
        Search(ps[i], v.repo) == Some([UsernameRepo(v).value.1.0.value, UsernameRepo(v).value.1.1.value]) &&
        forall j :: 0 <= j < i ==> Search(ps[j], v.repo).None?
  {
    HostPatternsCaptureTwo();
    if Contains(v.repo, "github") {
      PairOfFirstSearch(GithubPatterns(), v.repo);
    } else {
      PairOfFirstSearch(BitbucketPatterns(), v.repo);
    }
  }

  lemma PairOfFirstSearch(ps: seq<Pattern>, s: string)
    requires forall i :: 0 <= i < |ps| ==> GroupCount(ps[i]) == 2
    requires FirstSearch(ps, s).Some?
    ensures |FirstSearch(ps, s).value| == 2
    ensures exists i :: 0 <= i < |ps| &&
                        Search(ps[i], s) == Some([Pair(FirstSearch(ps, s)).0.value, Pair(FirstSearch(ps, s)).1.value]) &&
                        forall j :: 0 <= j < i ==> Search(ps[j], s).None?
  {
    var found := FirstSearch(ps, s);
    FirstSearchSpec(ps, s);
    var i :| 0 <= i < |ps| && Search(ps[i], s) == found &&
      forall j :: 0 <= j < i ==> Search(ps[j], s).None?;
    assert found.value == [found.value[0], found.value[1]];
  }

  /** The usual HTTPS clone URL of a GitHub repository. */
  function GithubUrl(owner: string, name: string): string {
    "https://github.com/" + owner + "/" + name + ".git"
  }

  predicate IsComponent(name: string) {
    name != [] && NoNewline(name) && forall k :: 0 <= k < |name| ==> name[k] != '/'
  }

  /** Where the pieces of `GithubUrl(owner, name)` sit. */
  lemma GithubUrlLayout(owner: string, name: string)
    ensures var s := GithubUrl(owner, name); var a := 19 + |owner|;
      |s| == a + 1 + |name| + 4 &&
      s[..19] == "https://github.com/" && s[19..a] == owner && s[a] == '/' &&
      s[a + 1..|s| - 4] == name && s[|s| - 4..] == ".git"
  {
  }

  /** After the owner's slash, the repository name is the group and `.git`
      closes the match at the end of the text. */
  lemma GithubUrlTail(owner: string, name: string)
    requires IsComponent(name)
    ensures var s := GithubUrl(owner, name); var a := 19 + |owner|;
      MatchAt([Lit('/'), Group] + Lits(".git"), s, a) == Some(Match(|s|, [name]))
  {
    var s := GithubUrl(owner, name);
    var a := 19 + |owner|;
    var z := |s|;
    GithubUrlLayout(owner, name);
    assert s[z - 4..z] == s[z - 4..];
    LitsAt(".git", s, z - 4);
    forall e | z - 4 < e <= z ensures MatchAt(Lits(".git"), s, e).None? {
      LitsAt(".git", s, e);
    }
    TryGroupLongest(Lits(".git"), s, a + 1, z, z - 4);
    var g := [Group] + Lits(".git");
    var r := [Lit('/'), Group] + Lits(".git");
    assert g[0] == Group && g[1..] == Lits(".git");
    assert TryGroup(Lits(".git"), s, a + 1, z) == Some(Match(z, [name])) by {
      assert [s[a + 1..z - 4]] + [] == [name];
    }
    assert MatchAt(g, s, a + 1) == Some(Match(z, [name]));
    assert r[0] == Lit('/') && r[1..] == g;
  }

  /** The owner group is greedy but no later slash exists, so it stops at
      the slash before the repository name. */
  lemma GithubUrlBody(owner: string, name: string)
    requires owner != [] && NoNewline(owner) && IsComponent(name)
    ensures var s := GithubUrl(owner, name);
      MatchAt([Group, Lit('/'), Group] + Lits(".git"), s, 19) == Some(Match(|s|, [owner, name]))
  {
    var s := GithubUrl(owner, name);
    var a := 19 + |owner|;
    var z := |s|;
    var r := [Lit('/'), Group] + Lits(".git");
    GithubUrlLayout(owner, name);
    GithubUrlTail(owner, name);
    forall e | a < e <= z ensures MatchAt(r, s, e).None? {
      if e < z {
        if e < z - 4 {
          assert s[e] == s[a + 1..z - 4][e - a - 1] == name[e - a - 1];
        } else {
          assert s[e] == s[z - 4..][e - (z - 4)];
        }
        assert r[0] == Lit('/');
      }
    }
    TryGroupLongest(r, s, 19, z, a);
    assert [s[19..a]] + [name] == [owner, name];
    assert [Group, Lit('/'), Group] + Lits(".git") == [Group] + r;
    assert ([Group] + r)[1..] == r;
  }

  /** `github.com/` is found at position 8 and nowhere earlier. */
  lemma GithubUrlHead(owner: string, name: string, rest: Pattern)
    ensures var s := GithubUrl(owner, name);
      (forall k :: 0 <= k < 8 ==> MatchAt(GithubHead('/') + rest, s, k).None?) &&
      MatchAt(GithubHead('/') + rest, s, 8) == MatchAt(rest, s, 19)
  {
    var s := GithubUrl(owner, name);
    var h := GithubHead('/');
    assert h == [Lit('g'), Lit('i'), Lit('t'), Lit('h'), Lit('u'), Lit('b'), AnyChar,
                 Lit('c'), Lit('o'), Lit('m'), Lit('/')];
    GithubUrlLayout(owner, name);
    forall k | 0 <= k < 8 ensures MatchAt(h + rest, s, k).None? {
      SimpleThen(h, rest, s, k);
      assert s[k] == s[..19][k];
      assert !Accepts(h[0], s[k]);
    }
    SimpleThen(h, rest, s, 8);
    assert SimpleAt(h, s, 8) by {
      forall k | 0 <= k < |h| ensures Accepts(h[k], s[8 + k]) {
        assert s[8 + k] == s[..19][8 + k];
      }
    }
  }

  /** For an HTTPS clone URL, `username_repo` answers with the owner and the
      repository name (without `.git`) from the first GitHub pattern, and
      turns on only the GitHub display. */
  lemma {:induction false} UsernameRepoGithubUrl(owner: string, name: string, branch: string)
    requires owner != [] && NoNewline(owner) && IsComponent(name)
    ensures UsernameRepo(NewVCSState(GithubUrl(owner, name), branch)) ==
      Ok((VCSState(GithubUrl(owner, name), branch, true, false), (Some(owner), Some(name))))
  {
    var s := GithubUrl(owner, name);
    var body := [Group, Lit('/'), Group] + Lits(".git");
    var p := GithubPatterns()[0];
    assert p == GithubHead('/') + body;
    GithubUrlBody(owner, name);
    GithubUrlHead(owner, name, body);
    SearchFromLeftmost(p, s, 0, 8);
    assert Occurs(s, "github", 8) by {
      GithubUrlLayout(owner, name);
      assert s[8..14] == s[..19][8..14];
    }
    ContainsIff(s, "github");
  }

  /** `BuildState(fs, vcs, core, settings)` keeps its four parts as given. */
  datatype BuildState = BuildState(
    fs: Layout.SphinxVersion,
    vcs: VCSState,
    core: CoreState,
    settings: SettingsState)
}
