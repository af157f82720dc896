/**
 * The pure part of the `add` command (src/commands/add.ts): turning the user's argument into a
 * repository identity, the directory it is cloned into, and the URL handed to `git clone`.
 */
module Add {
  import opened Wrappers
  import opened Strings
  import opened Config
  import opened RepoUrl

  /** `ParsedRepo` */
  datatype ParsedRepo = ParsedRepo(hostname: string, owner: string, repo: string, isAlias: bool, hostConfig: Option<HostConfig>)

  /** The two errors `parseRepoUrl` throws. */
  datatype AddError = UnknownAlias(alias: string) | InvalidRepositoryUrl

  function ErrorMessage(e: AddError): (m: string)
    ensures e.UnknownAlias? ==> StartsWith(m, "Unknown alias: ") && m[|"Unknown alias: "|..] == e.alias
    ensures e == InvalidRepositoryUrl <==> m == "Invalid repository URL"
  {
    match e
    case UnknownAlias(a) =>
      assert ("Unknown alias: " + a)[0] != "Invalid repository URL"[0];
      "Unknown alias: " + a
    case InvalidRepositoryUrl => "Invalid repository URL"
  }

  /** `parseRepoUrl`: the alias grammar first, then the URL grammar. */
  function ParseRepoUrl(url: string, config: Config): (r: Result<ParsedRepo, AddError>)
    ensures r.Success? ==> Segment(r.value.owner) && Segment(r.value.repo)
    ensures r.Success? && r.value.isAlias ==> r.value.hostConfig.Some? && r.value.hostConfig.value.hostname == r.value.hostname
    ensures r.Success? && !r.value.isAlias ==>
              HostSegment(r.value.hostname) && r.value.hostConfig == FindHostByHostname(config, r.value.hostname)
  {
    match MatchAlias(url)
    case Some(AliasParts(alias, owner, repo)) =>
      (match FindHostByAlias(config, alias)
       case None => Failure(UnknownAlias(alias))
       case Some(h) => Success(ParsedRepo(h.hostname, owner, repo, true, Some(h))))
    case None =>
      match ParseUrl(url)
      case None => Failure(InvalidRepositoryUrl)
      case Some(id) => Success(ParsedRepo(id.hostname, id.owner, id.repo, false, FindHostByHostname(config, id.hostname)))
  }

  /** Alias input: the host's hostname with the captured owner and repo, or `Unknown alias`; the
   *  URL grammar is never tried. */
  lemma ParseAliasInput(url: string, config: Config, a: string, o: string, r: string)
    requires AliasForm(url, a, o, r)
    ensures FindHostByAlias(config, a).None? ==> ParseRepoUrl(url, config) == Failure(UnknownAlias(a))
    ensures FindHostByAlias(config, a).Some? ==>
              var h := FindHostByAlias(config, a).value;
              ParseRepoUrl(url, config) == Success(ParsedRepo(h.hostname, o, r, true, Some(h)))
  {
    MatchAliasComplete(url, a, o, r);
  }

  /** `Unknown alias: <a>` is the result exactly for alias input whose alias no host has. */
  lemma ParseUnknownAlias(url: string, config: Config, a: string)
    ensures ParseRepoUrl(url, config) == Failure(UnknownAlias(a)) <==>
              (exists o, r :: AliasForm(url, a, o, r)) && forall j :: 0 <= j < |config.host| ==> config.host[j].1.alias != a
  {
    if exists o, r :: AliasForm(url, a, o, r) {
      var o, r :| AliasForm(url, a, o, r);
      ParseAliasInput(url, config, a, o, r);
    }
  }

  /** Input outside the alias grammar is parsed as the leftmost URL match, whether or not a host
   *  is configured for its hostname. */
  lemma ParseUrlInput(url: string, config: Config, id: Identity)
    requires forall a, o, r :: !AliasForm(url, a, o, r)
    requires UrlRegexMatch(url, id)
    ensures ParseRepoUrl(url, config) == Success(ParsedRepo(id.hostname, id.owner, id.repo, false, FindHostByHostname(config, id.hostname)))
  {
    assert MatchAlias(url).None?;
    ParseUrlIff(url, id);
  }

  /** `Invalid repository URL` is the result exactly when neither grammar matches. */
  lemma ParseInvalid(url: string, config: Config)
    ensures ParseRepoUrl(url, config) == Failure(InvalidRepositoryUrl) <==>
              (forall a, o, r :: !AliasForm(url, a, o, r)) && forall p: nat :: !UrlMatchesAt(url, p)
  {
    ParseUrlIff(url, Identity("", "", ""));
    if MatchAlias(url).None? {
      forall a, o, r ensures !AliasForm(url, a, o, r) {
        MatchAliasIff(url, a, o, r);
      }
    } else {
      var m := MatchAlias(url).value;
      assert AliasForm(url, m.alias, m.owner, m.repo);
    }
  }

  /** `constructGitUrl` */
  function ConstructGitUrl(hostname: string, owner: string, repo: string, useSSH: bool): (u: string)
    ensures useSSH ==> StartsWith(u, "git@")
    ensures !useSSH ==> StartsWith(u, "https://")
    ensures EndsWith(u, "/" + repo + ".git")
  {
    var tail := "/" + (repo + ".git");
    var u := if useSSH then "git@" + (hostname + (":" + (owner + tail))) else "https://" + (hostname + ("/" + (owner + tail)));
    assert u[|u| - |tail|..] == tail;
    assert tail == "/" + repo + ".git";
    u
  }

  /** The URL in the form of the URL grammar: scheme, host, separator, owner, `/`, repo, `.git`. */
  lemma ConstructGitUrlSplit(hostname: string, owner: string, repo: string, useSSH: bool)
    ensures ConstructGitUrl(hostname, owner, repo, useSSH) ==
              (if useSSH then "git@" else "https://") + (hostname + ([if useSSH then ':' else '/'] + (owner + ("/" + (repo + ".git")))))
  {
  }

  /** The URL grammar reads a constructed URL back as the identity it was built from. */
  lemma ConstructGitUrlParses(hostname: string, owner: string, repo: string, useSSH: bool)
    requires HostSegment(hostname) && Segment(owner) && Segment(repo)
    ensures ParseUrl(ConstructGitUrl(hostname, owner, repo, useSSH)) == Some(Identity(hostname, owner, repo))
  {
    var u := ConstructGitUrl(hostname, owner, repo, useSSH);
    var pre := if useSSH then "git@" else "https://";
    var sep := if useSSH then ':' else '/';
    ConstructGitUrlSplit(hostname, owner, repo, useSSH);
    MatchTailComplete(u, pre, hostname, sep, owner, repo, ".git");
    assert u[0..] == u;
  }

  /** `git@h:o/r.git` is outside the alias grammar: its alias part would hold an `@`. */
  lemma SshUrlNotAlias(hostname: string, owner: string, repo: string)
    requires HostSegment(hostname)
    ensures MatchAlias(ConstructGitUrl(hostname, owner, repo, true)).None?
  {
    var u := ConstructGitUrl(hostname, owner, repo, true);
    ConstructGitUrlSplit(hostname, owner, repo, true);
    var k := 4 + |hostname|;
    assert u[..k] == "git@" + hostname;
    assert u[k] == ':';
    StopAtIs(u, ':', ':', k);
    assert u[..k][3] == '@';
  }

  /** `https://h/o/r.git` is outside the alias grammar: nothing sits between its `:` and the next `/`. */
  lemma HttpsUrlNotAlias(hostname: string, owner: string, repo: string)
    ensures MatchAlias(ConstructGitUrl(hostname, owner, repo, false)).None?
  {
    var u := ConstructGitUrl(hostname, owner, repo, false);
    assert u[..5] == "https";
    StopAtIs(u, ':', ':', 5);
    var rest := u[6..];
    assert rest[0] == '/';
    StopAtIs(rest, '/', '/', 0);
  }

  /** A constructed URL is parsed back by `parseRepoUrl` as URL input naming the same identity. */
  lemma ConstructGitUrlRoundTrip(hostname: string, owner: string, repo: string, useSSH: bool, config: Config)
    requires HostSegment(hostname) && Segment(owner) && Segment(repo)
    ensures ParseRepoUrl(ConstructGitUrl(hostname, owner, repo, useSSH), config) ==
              Success(ParsedRepo(hostname, owner, repo, false, FindHostByHostname(config, hostname)))
  {
    ConstructGitUrlParses(hostname, owner, repo, useSSH);
    if useSSH {
      SshUrlNotAlias(hostname, owner, repo);
    } else {
      HttpsUrlNotAlias(hostname, owner, repo);
    }
  }

  /** The left operand of `||` at line 77: the host has its own, non-empty `baseDir`. */
  predicate HasOwnBaseDir(hostConfig: Option<HostConfig>) {
    hostConfig.Some? && hostConfig.value.baseDir.Some? && hostConfig.value.baseDir.value != ""
  }

  /** The base directory of line 77: the host's own `baseDir` when it is set and non-empty,
   *  otherwise `<baseDir>/<hostname>`. */
  function HostBaseDir(config: Config, hostname: string, hostConfig: Option<HostConfig>): (d: string)
    ensures HasOwnBaseDir(hostConfig) ==> d == hostConfig.value.baseDir.value
    ensures !HasOwnBaseDir(hostConfig) ==> StartsWith(d, config.baseDir + "/") && EndsWith(d, "/" + hostname)
  {
    if HasOwnBaseDir(hostConfig) then hostConfig.value.baseDir.value
    else
      var d := PathJoin(config.baseDir, hostname);
      assert d[..|config.baseDir + "/"|] == config.baseDir + "/";
      assert d[|d| - |"/" + hostname|..] == "/" + hostname;
      d
  }

  /** The directories line 77 may choose are ones `path.join` leaves as they are. */
  predicate CleanBase(config: Config, hostname: string, hostConfig: Option<HostConfig>) {
    if HasOwnBaseDir(hostConfig) then CleanPath(hostConfig.value.baseDir.value)
    else CleanPath(config.baseDir) && CleanComponent(hostname)
  }

  /** `getTargetDir`: over clean components, the directory lies under the host's base directory and
   *  ends with `/<owner>/<repo>`. */
  function TargetDir(config: Config, hostname: string, owner: string, repo: string, hostConfig: Option<HostConfig>): (d: string)
    ensures CleanBase(config, hostname, hostConfig) && CleanComponent(owner) && CleanComponent(repo) ==>
              StartsWith(d, HostBaseDir(config, hostname, hostConfig) + "/") && EndsWith(d, "/" + owner + "/" + repo)
  {
    var base := HostBaseDir(config, hostname, hostConfig);
    var d := PathJoin(PathJoin(base, owner), repo);
    assert d[..|base + "/"|] == base + "/";
    assert d[|d| - |"/" + owner + "/" + repo|..] == "/" + owner + "/" + repo;
    d
  }

  /** Splitting a path at its last `/` recovers both parts. */
  lemma JoinInjective(a: string, x: string, b: string, y: string)
    requires '/' !in x && '/' !in y
    requires PathJoin(a, x) == PathJoin(b, y)
    ensures a == b && x == y
  {
    var s := PathJoin(a, x);
    assert s[|a|] == '/' && s[|b|] == '/';
    assert forall k :: |a| < k < |s| ==> s[k] == x[k - |a| - 1];
    assert forall k :: |b| < k < |s| ==> s[k] == y[k - |b| - 1];
    assert |a| == |b|;
    assert x == s[|a| + 1..] == y;
    assert a == s[..|a|] == b;
  }

  /** Under one base directory, different repositories with clean owner and repository names are
   *  cloned into different directories. */
  lemma TargetDirInjective(config: Config, hostname: string, o1: string, r1: string, o2: string, r2: string, hostConfig: Option<HostConfig>)
    requires CleanComponent(o1) && CleanComponent(r1) && CleanComponent(o2) && CleanComponent(r2)
    requires TargetDir(config, hostname, o1, r1, hostConfig) == TargetDir(config, hostname, o2, r2, hostConfig)
    ensures o1 == o2 && r1 == r2
  {
    var base := HostBaseDir(config, hostname, hostConfig);
    JoinInjective(PathJoin(base, o1), r1, PathJoin(base, o2), r2);
    JoinInjective(base, o1, base, o2);
  }

  /** Hosts without their own `baseDir` share the global one; there, different identities made of
   *  clean components still get different directories. */
  lemma DefaultTargetDirInjective(config: Config, id1: Identity, id2: Identity)
    requires CleanComponent(id1.hostname) && CleanComponent(id1.owner) && CleanComponent(id1.repo)
    requires CleanComponent(id2.hostname) && CleanComponent(id2.owner) && CleanComponent(id2.repo)
    requires TargetDir(config, id1.hostname, id1.owner, id1.repo, None) == TargetDir(config, id2.hostname, id2.owner, id2.repo, None)
    ensures id1 == id2
  {
    JoinInjective(PathJoin(PathJoin(config.baseDir, id1.hostname), id1.owner), id1.repo,
                  PathJoin(PathJoin(config.baseDir, id2.hostname), id2.owner), id2.repo);
    JoinInjective(PathJoin(config.baseDir, id1.hostname), id1.owner, PathJoin(config.baseDir, id2.hostname), id2.owner);
    JoinInjective(config.baseDir, id1.hostname, config.baseDir, id2.hostname);
  }

  /** `hostConfig?.preferSSH ?? false` */
  function ShouldUseSSH(hostConfig: Option<HostConfig>): (b: bool)
    ensures b <==> hostConfig.Some? && hostConfig.value.preferSSH == Some(true)
  {
    match hostConfig
    case None => false
    case Some(h) => h.preferSSH.GetOr(false)
  }

  /** Lines 109-112: the URL handed to `git clone`. */
  function CloneUrl(repoUrl: string, parsed: ParsedRepo): (u: string)
    ensures !parsed.isAlias ==> u == repoUrl
    ensures parsed.isAlias ==> (StartsWith(u, "git@") <==> ShouldUseSSH(parsed.hostConfig))
  {
    if parsed.isAlias then
      var u := ConstructGitUrl(parsed.hostname, parsed.owner, parsed.repo, ShouldUseSSH(parsed.hostConfig));
      assert !ShouldUseSSH(parsed.hostConfig) ==> u[..4] != "git@" by {
        if !ShouldUseSSH(parsed.hostConfig) { assert u[..4][0] == 'h'; }
      }
      u
    else repoUrl
  }

  /** Whatever was given, the clone URL names the repository that was parsed. */
  lemma CloneUrlIdentifies(repoUrl: string, config: Config)
    requires ParseRepoUrl(repoUrl, config).Success?
    requires var p := ParseRepoUrl(repoUrl, config).value; p.isAlias ==> HostSegment(p.hostname)
    ensures var p := ParseRepoUrl(repoUrl, config).value;
            ParseUrl(CloneUrl(repoUrl, p)) == Some(Identity(p.hostname, p.owner, p.repo))
  {
    var p := ParseRepoUrl(repoUrl, config).value;
    if p.isAlias {
      ConstructGitUrlParses(p.hostname, p.owner, p.repo, ShouldUseSSH(p.hostConfig));
    }
  }

  // ---------------------------------------------------------------- worked examples

  lemma AliasExample(home: string, url: string)
    requires url == "gh:owner/repo"
    ensures ParseRepoUrl(url, DefaultConfig(home)) ==
              Success(ParsedRepo("github.com", "owner", "repo", true, Some(HostConfig("gh", "github.com", None, Some(true)))))
  {
    var c := DefaultConfig(home);
    assert FindHostByAlias(c, "gh") == Some(c.host[0].1);
    assert AliasForm(url, "gh", "owner", "repo");
    ParseAliasInput(url, c, "gh", "owner", "repo");
  }

  lemma AliasCloneExample(p: ParsedRepo)
    requires p == ParsedRepo("github.com", "owner", "repo", true, Some(HostConfig("gh", "github.com", None, Some(true))))
    ensures CloneUrl("gh:owner/repo", p) == "git@github.com:owner/repo.git"
  {
    assert ShouldUseSSH(p.hostConfig);
    assert CloneUrl("gh:owner/repo", p) == ConstructGitUrl(p.hostname, p.owner, p.repo, true);
    ConstructGitUrlSplit(p.hostname, p.owner, p.repo, true);
    SshLiteral(p.hostname, p.owner, p.repo);
  }

  // Solver aid: the literal concatenation, kept apart so that the example above stays cheap.
  lemma SshLiteral(h: string, o: string, r: string)
    requires h == "github.com" && o == "owner" && r == "repo"
    ensures "git@" + (h + ([':'] + (o + ("/" + (r + ".git"))))) == "git@github.com:owner/repo.git"
  {
  }

  lemma TargetDirExample(home: string, h: HostConfig)
    requires h == HostConfig("gh", "github.com", None, Some(true))
    ensures TargetDir(DefaultConfig(home), "github.com", "owner", "repo", Some(h)) == home + "/workspace/github.com/owner/repo"
  {
    var c := DefaultConfig(home);
    assert !HasOwnBaseDir(Some(h));
    assert HostBaseDir(c, "github.com", Some(h)) == PathJoin(PathJoin(home, "workspace"), "github.com");
    var hostDir := PathJoin(PathJoin(home, "workspace"), "github.com");
    assert hostDir == home + "/workspace/github.com";
    assert PathJoin(PathJoin(hostDir, "owner"), "repo") == hostDir + "/owner/repo";
  }

  lemma UnknownAliasExample(home: string, url: string)
    requires url == "unknown:owner/repo"
    ensures ParseRepoUrl(url, DefaultConfig(home)) == Failure(UnknownAlias("unknown"))
  {
    assert AliasForm(url, "unknown", "owner", "repo");
    ParseAliasInput(url, DefaultConfig(home), "unknown", "owner", "repo");
  }

  lemma HttpsUrlExample(h: string, o: string, r: string)
    requires h == "github.com" && o == "owner" && r == "repo"
    ensures ConstructGitUrl(h, o, r, false) == "https://github.com/owner/repo.git"
  {
    ConstructGitUrlSplit(h, o, r, false);
    assert "https://" + (h + (['/'] + (o + ("/" + (r + ".git"))))) == "https://github.com/owner/repo.git";
  }

  lemma HttpsExample(home: string, url: string)
    requires url == "https://github.com/owner/repo.git"
    ensures ParseRepoUrl(url, DefaultConfig(home)) ==
              Success(ParsedRepo("github.com", "owner", "repo", false, Some(HostConfig("gh", "github.com", None, Some(true)))))
  {
    var c := DefaultConfig(home);
    HttpsUrlExample("github.com", "owner", "repo");
    assert url == ConstructGitUrl("github.com", "owner", "repo", false);
    ExampleSegments("github.com", "owner", "repo");
    ConstructGitUrlRoundTrip("github.com", "owner", "repo", false, c);
    assert FindHostByHostname(c, "github.com") == Some(c.host[0].1);
  }

  // Solver aid: the example's parts are well-formed segments.
  lemma ExampleSegments(h: string, o: string, r: string)
    requires h == "github.com" && o == "owner" && r == "repo"
    ensures HostSegment(h) && Segment(o) && Segment(r)
  {
  }

  lemma InvalidExample(home: string)
    ensures ParseRepoUrl("invalid-url", DefaultConfig(home)) == Failure(InvalidRepositoryUrl)
  {
    var s := "invalid-url";
    assert ':' !in s && '@' !in s;
    StopAtIs(s, ':', ':', |s|);
    UrlNeedsScheme(s);
  }
}
