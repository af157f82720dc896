/**
 * The `go` command (src/commands/go.ts): find registered projects by keyword and emit the `cd`
 * command for the one chosen. The prompt, the clipboard and the process exit are effects; the
 * model returns which of them happens as a `GoOutcome`.
 */
module Go {
  import opened Strings
  import opened Seqs
  import opened Cache

  /** The text a keyword is searched in: `"<hostname> <owner> <repo>"`. */
  function SearchText(p: ProjectInfo): (t: string)
    ensures |t| == |p.hostname| + |p.owner| + |p.repo| + 2
    ensures OccursAt(t, p.hostname, 0)
    ensures OccursAt(t, p.owner, |p.hostname| + 1)
    ensures OccursAt(t, p.repo, |p.hostname| + |p.owner| + 2)
  {
    var t := p.hostname + " " + p.owner + " " + p.repo;
    assert t[..|p.hostname|] == p.hostname;
    assert t[|p.hostname| + 1..|p.hostname| + 1 + |p.owner|] == p.owner;
    assert t[|p.hostname| + |p.owner| + 2..] == p.repo;
    t
  }

  /** `matchProject`: a case-insensitive substring test on the search text. */
  function MatchProject(p: ProjectInfo, keyword: string): (b: bool)
    ensures b <==> exists i :: OccursAt(ToLower(SearchText(p)), ToLower(keyword), i)
  {
    Includes(ToLower(SearchText(p)), ToLower(keyword))
  }

  /** Lines 53-55: the matching projects, in registry order. */
  function Matches(projects: seq<ProjectInfo>, keyword: string): (m: seq<ProjectInfo>)
    ensures |m| <= |projects|
    ensures forall p :: p in m <==> p in projects && MatchProject(p, keyword)
  {
    Filter(projects, p => MatchProject(p, keyword))
  }

  /** `cd "<path>"` */
  function CdCommand(path: string): (c: string)
    ensures |c| == |path| + 5
    ensures StartsWith(c, "cd \"") && EndsWith(c, "\"")
    ensures c[4..|c| - 1] == path
  {
    var c := "cd \"" + path + "\"";
    assert c[..4] == "cd \"";
    assert c[4..|c| - 1] == path;
    c
  }

  /** What `go` ends in. */
  datatype GoOutcome =
    | NoProjects                                 // lines 45-50: a warning and a normal return
    | NoMatch(available: seq<ProjectInfo>)       // lines 57-64: the list of all projects, then exit code 1
    | Navigate(command: string)                  // lines 66-72: the single match's `cd` command
    | Choose(candidates: seq<ProjectInfo>)       // lines 73-97: a prompt over the matches

  function ExitCode(o: GoOutcome): (code: int)
    ensures code == 1 <==> o.NoMatch?
    ensures code == 0 <==> !o.NoMatch?
  {
    if o.NoMatch? then 1 else 0
  }

  /** `go(keyword)` over the projects `getAllProjects` returned. */
  function Go(projects: seq<ProjectInfo>, keyword: string): (o: GoOutcome)
    ensures o == NoProjects <==> projects == []
    ensures o.NoMatch? <==> projects != [] && forall p :: p in projects ==> !MatchProject(p, keyword)
    ensures o.NoMatch? ==> o.available == projects
    ensures o.Navigate? ==> exists p :: Matches(projects, keyword) == [p] && o.command == CdCommand(p.path)
    ensures o.Choose? ==> o.candidates == Matches(projects, keyword) && |o.candidates| >= 2
  {
    var matched := Matches(projects, keyword);
    if |projects| == 0 then NoProjects
    else if |matched| == 0 then
      NoMatch(projects)
    else if |matched| == 1 then
      assert matched == [matched[0]];
      assert matched[0] in projects && MatchProject(matched[0], keyword);
      Navigate(CdCommand(matched[0].path))
    else
      assert matched[0] in projects && MatchProject(matched[0], keyword);
      Choose(matched)
  }

  /** Lines 93-96: the `cd` command for the project picked from the prompt. */
  function Select(candidates: seq<ProjectInfo>, choice: nat): (c: string)
    requires choice < |candidates|
    ensures |c| == |candidates[choice].path| + 5
    ensures c[4..|c| - 1] == candidates[choice].path
  {
    CdCommand(candidates[choice].path)
  }

  // ---------------------------------------------------------------- properties

  /** The empty keyword matches every project. */
  lemma EmptyKeywordMatchesAll(p: ProjectInfo)
    ensures MatchProject(p, "")
  {
    assert OccursAt(ToLower(SearchText(p)), ToLower(""), 0);
  }

  /** Matching ignores the case of the keyword (for ASCII letters). */
  lemma MatchIgnoresKeywordCase(p: ProjectInfo, keyword: string)
    ensures MatchProject(p, ToLower(keyword)) == MatchProject(p, keyword)
  {
    assert ToLower(ToLower(keyword)) == ToLower(keyword);
  }

  /** A keyword found in one field is found in the search text, wherever the field sits. */
  lemma FieldMatch(p: ProjectInfo, keyword: string, i: int)
    requires OccursAt(ToLower(p.repo), ToLower(keyword), i) || OccursAt(ToLower(p.owner), ToLower(keyword), i)
             || OccursAt(ToLower(p.hostname), ToLower(keyword), i)
    ensures MatchProject(p, keyword)
  {
    var k := ToLower(keyword);
    var h, o, r := ToLower(p.hostname), ToLower(p.owner), ToLower(p.repo);
    SearchTextLower(p);
    if OccursAt(h, k, i) {
      OccursExtend(h, " ", k, i);
      OccursExtend(h + " ", o, k, i);
      OccursExtend(h + " " + o, " ", k, i);
      OccursExtend(h + " " + o + " ", r, k, i);
    } else if OccursAt(o, k, i) {
      OccursShift(h + " ", o, k, i);
      OccursExtend(h + " " + o, " ", k, |h + " "| + i);
      OccursExtend(h + " " + o + " ", r, k, |h + " "| + i);
    } else {
      OccursShift(h + " " + o + " ", r, k, i);
    }
  }

  /** The lower-cased search text is built from the lower-cased fields. */
  lemma SearchTextLower(p: ProjectInfo)
    ensures ToLower(SearchText(p)) == ToLower(p.hostname) + " " + ToLower(p.owner) + " " + ToLower(p.repo)
  {
    assert ToLower(" ") == " ";
    ToLowerConcat(p.hostname + " " + p.owner + " ", p.repo);
    ToLowerConcat(p.hostname + " " + p.owner, " ");
    ToLowerConcat(p.hostname + " ", p.owner);
    ToLowerConcat(p.hostname, " ");
  }

  /** The matches keep registry order: matching a concatenation is concatenating the matches. */
  lemma MatchesConcat(a: seq<ProjectInfo>, b: seq<ProjectInfo>, keyword: string)
    ensures Matches(a + b, keyword) == Matches(a, keyword) + Matches(b, keyword)
  {
    FilterConcat(a, b, p => MatchProject(p, keyword));
  }

  /** Exactly one matching project: `go` navigates to it without a prompt. */
  lemma SingleMatchNavigates(projects: seq<ProjectInfo>, keyword: string, k: nat)
    requires k < |projects| && MatchProject(projects[k], keyword)
    requires forall j :: 0 <= j < |projects| && j != k ==> !MatchProject(projects[j], keyword)
    ensures Go(projects, keyword) == Navigate(CdCommand(projects[k].path))
  {
    MatchesSingleton(projects, keyword, k);
  }

  lemma MatchesSingleton(projects: seq<ProjectInfo>, keyword: string, k: nat)
    requires k < |projects| && MatchProject(projects[k], keyword)
    requires forall j :: 0 <= j < |projects| && j != k ==> !MatchProject(projects[j], keyword)
    ensures Matches(projects, keyword) == [projects[k]]
  {
    FilterOnly(projects, p => MatchProject(p, keyword), k);
  }

  lemma {:induction false} NoneMatch(ps: seq<ProjectInfo>, keyword: string)
    requires forall i :: 0 <= i < |ps| ==> !MatchProject(ps[i], keyword)
    ensures Matches(ps, keyword) == []
  {
    if ps != [] {
      NoneMatch(ps[1..], keyword);
    }
  }

  /** When every project matches and there are at least two, the prompt offers all of them. */
  lemma {:induction false} AllMatch(projects: seq<ProjectInfo>, keyword: string)
    requires forall i :: 0 <= i < |projects| ==> MatchProject(projects[i], keyword)
    ensures Matches(projects, keyword) == projects
  {
    if projects != [] {
      AllMatch(projects[1..], keyword);
    }
  }

  lemma AllMatchChoose(projects: seq<ProjectInfo>, keyword: string)
    requires |projects| >= 2
    requires forall i :: 0 <= i < |projects| ==> MatchProject(projects[i], keyword)
    ensures Go(projects, keyword) == Choose(projects)
  {
    AllMatch(projects, keyword);
  }

  // ---------------------------------------------------------------- worked examples

  lemma ManyMatchesExample(a: ProjectInfo, b: ProjectInfo)
    requires a == ProjectInfo("github.com", "user1", "my-repo", "/path/to/my-repo", "2024-01-01T00:00:00Z")
    requires b == ProjectInfo("github.com", "user2", "his-repo", "/path/to/his-repo", "2024-01-01T00:00:00Z")
    ensures Go([a, b], "repo") == Choose([a, b])
  {
    RepoMatches(a, 3);
    RepoMatches(b, 4);
    AllMatchChoose([a, b], "repo");
  }

  lemma RepoMatches(p: ProjectInfo, i: nat)
    requires p.repo == "my-repo" || p.repo == "his-repo"
    requires i + 4 <= |p.repo| && p.repo[i..i + 4] == "repo"
    ensures MatchProject(p, "repo")
  {
    assert ToLower("repo") == "repo";
    assert ToLower(p.repo) == p.repo;
    FieldMatch(p, "repo", i);
  }

  lemma CaseInsensitiveExample(p: ProjectInfo)
    requires p == ProjectInfo("github.com", "user1", "MyRepo", "/path/to/MyRepo", "2024-01-01T00:00:00Z")
    ensures Go([p], "myrepo") == Navigate("cd \"/path/to/MyRepo\"")
  {
    assert ToLower(p.repo) == "myrepo" && ToLower("myrepo") == "myrepo";
    FieldMatch(p, "myrepo", 0);
    SingleMatchNavigates([p], "myrepo", 0);
    assert CdCommand(p.path) == "cd \"/path/to/MyRepo\"";
  }

  /** A keyword with a space can match across the field boundary. */
  lemma CrossFieldExample(p: ProjectInfo)
    requires p == ProjectInfo("github.com", "user1", "my-repo", "/p", "")
    ensures MatchProject(p, "user1 my")
  {
    var s := ToLower(SearchText(p));
    assert s == "github.com user1 my-repo";
    assert ToLower("user1 my") == "user1 my";
    assert s[11..19] == "user1 my";
    assert OccursAt(s, "user1 my", 11);
  }
}
