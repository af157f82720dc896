/**
 * The project registry of src/utils/cache.ts: one JSON file `<hostname>.json` per host in the
 * cache directory, each holding an ordered list of project records.
 *
 * The directory is modelled as a map from file name to what parsing that file yields, plus the
 * order in which `readdir` lists the names. The JSON encoding itself is not modelled: a file
 * either parses to a list of records or it does not.
 */
module Cache {
  import opened Wrappers
  import opened Strings
  import opened Seqs

  datatype ProjectInfo = ProjectInfo(hostname: string, owner: string, repo: string, path: string, addedAt: string)

  /** What `JSON.parse(await fs.readFile(file))` gives: the records, or an exception. */
  datatype Partition = Parsed(records: seq<ProjectInfo>) | Corrupt

  /** The cache directory: its files and the order `readdir` lists them in. */
  datatype Store = Store(files: map<string, Partition>, listing: seq<string>)

  /** `readdir` lists every file of the directory exactly once. */
  ghost predicate WellFormed(st: Store) {
    NoDup(st.listing) && forall f :: f in st.listing <==> f in st.files
  }

  /** `CACHE_DIR`: `~/.cache/vpm`. */
  function CacheDir(home: string): (d: string)
    ensures StartsWith(d, home + "/") && EndsWith(d, "/.cache/vpm")
  {
    var d := PathJoin(PathJoin(home, ".cache"), "vpm");
    assert d[..|home + "/"|] == home + "/";
    assert d[|d| - |"/.cache/vpm"|..] == "/.cache/vpm";
    d
  }

  /** `getHostCacheFile`, as a name inside the cache directory. */
  function HostCacheFile(hostname: string): (f: string)
    ensures EndsWith(f, ".json")
    ensures f[..|f| - 5] == hostname
  {
    var f := hostname + ".json";
    assert f[..|f| - 5] == hostname;
    f
  }

  /** Different hosts are stored in different files. */
  lemma HostCacheFileInjective(h1: string, h2: string)
    ensures HostCacheFile(h1) == HostCacheFile(h2) <==> h1 == h2
  {
    if HostCacheFile(h1) == HostCacheFile(h2) {
      assert h1 == HostCacheFile(h1)[..|HostCacheFile(h1)| - 5];
    }
  }

  /** Two records describe the same repository of a partition: `p.owner === owner && p.repo === repo`. */
  predicate SameRepo(a: ProjectInfo, owner: string, repo: string) {
    a.owner == owner && a.repo == repo
  }

  /** `Array.prototype.findIndex` for the repository `owner/repo`: the first position, or -1. */
  function FindIndex(rs: seq<ProjectInfo>, owner: string, repo: string): (i: int)
    ensures -1 <= i < |rs|
    ensures i >= 0 ==> SameRepo(rs[i], owner, repo) && forall j :: 0 <= j < i ==> !SameRepo(rs[j], owner, repo)
    ensures i == -1 <==> forall j :: 0 <= j < |rs| ==> !SameRepo(rs[j], owner, repo)
  {
    if rs == [] then -1
    else if SameRepo(rs[0], owner, repo) then 0
    else
      var k := FindIndex(rs[1..], owner, repo);
      if k == -1 then -1 else k + 1
  }

  /** The upsert of lines 36-44: replace the first record of the same repository, or append. */
  function Upsert(rs: seq<ProjectInfo>, p: ProjectInfo): (r: seq<ProjectInfo>)
    ensures p in r
    ensures |r| == |rs| || |r| == |rs| + 1
    ensures |r| == |rs| + 1 <==> forall j :: 0 <= j < |rs| ==> !SameRepo(rs[j], p.owner, p.repo)
    ensures |r| == |rs| + 1 ==> r == rs + [p]
    ensures |r| == |rs| ==> exists i :: && 0 <= i < |rs| && SameRepo(rs[i], p.owner, p.repo)
                                       && (forall j :: 0 <= j < i ==> !SameRepo(rs[j], p.owner, p.repo))
                                       && r == rs[i := p]
  {
    var i := FindIndex(rs, p.owner, p.repo);
    if i >= 0 then
      assert rs[i := p][i] == p;
      rs[i := p]
    else rs + [p]
  }

  /** No two records of a partition describe the same repository. */
  ghost predicate UniqueRepos(rs: seq<ProjectInfo>) {
    forall i, j :: 0 <= i < j < |rs| ==> !SameRepo(rs[j], rs[i].owner, rs[i].repo)
  }

  /** Upserting keeps a partition free of duplicates. */
  lemma UpsertUnique(rs: seq<ProjectInfo>, p: ProjectInfo)
    requires UniqueRepos(rs)
    ensures UniqueRepos(Upsert(rs, p))
  {
    var r := Upsert(rs, p);
    var k := FindIndex(rs, p.owner, p.repo);
    forall i, j | 0 <= i < j < |r| ensures !SameRepo(r[j], r[i].owner, r[i].repo) {
      if k >= 0 {
        if i == k {
          assert SameRepo(rs[k], r[i].owner, r[i].repo);
        } else if j == k {
          assert SameRepo(rs[k], r[j].owner, r[j].repo);
        }
      }
    }
  }

  /** Saving the same record twice is saving it once. */
  lemma UpsertIdempotent(rs: seq<ProjectInfo>, p: ProjectInfo)
    ensures Upsert(Upsert(rs, p), p) == Upsert(rs, p)
  {
    var r := Upsert(rs, p);
    var k := FindIndex(rs, p.owner, p.repo);
    var m := if k >= 0 then k else |rs|;
    assert r[m] == p;
    assert forall j :: 0 <= j < m ==> r[j] == rs[j];
    assert FindIndex(r, p.owner, p.repo) == m;
    assert r[m := p] == r;
  }

  /** Records other than the replaced one keep their values and positions. */
  lemma UpsertKeepsOthers(rs: seq<ProjectInfo>, p: ProjectInfo, j: nat)
    requires j < |rs| && j != FindIndex(rs, p.owner, p.repo)
    ensures j < |Upsert(rs, p)| && Upsert(rs, p)[j] == rs[j]
  {
  }

  /** Upserting `p` does not change which record a lookup of another repository finds. */
  lemma UpsertFindOther(rs: seq<ProjectInfo>, p: ProjectInfo, owner: string, repo: string)
    requires !(p.owner == owner && p.repo == repo)
    ensures var r := Upsert(rs, p); var i := FindIndex(r, owner, repo);
            i == FindIndex(rs, owner, repo) && (i >= 0 ==> r[i] == rs[i])
  {
    var r := Upsert(rs, p);
    var i := FindIndex(rs, owner, repo);
    var k := FindIndex(rs, p.owner, p.repo);
    assert forall j :: 0 <= j < |r| ==> (SameRepo(r[j], owner, repo) <==> j < |rs| && SameRepo(rs[j], owner, repo)) by {
      forall j | 0 <= j < |r| ensures SameRepo(r[j], owner, repo) <==> j < |rs| && SameRepo(rs[j], owner, repo) {
        if j == k || j == |rs| {
          assert r[j] == p;
        }
      }
    }
    if i >= 0 {
      assert i != k;
    }
  }

  // ---------------------------------------------------------------- the store

  /** Lines 27-33: the partition's records, or none when the file is missing or does not parse. */
  function Load(st: Store, file: string): (rs: seq<ProjectInfo>)
    ensures file in st.files && st.files[file].Parsed? ==> rs == st.files[file].records
    ensures !(file in st.files && st.files[file].Parsed?) ==> rs == []
  {
    if file in st.files && st.files[file].Parsed? then st.files[file].records else []
  }

  /** `saveProjectInfo`: load, upsert, write the partition back. A new file joins the end of the listing. */
  function Save(st: Store, p: ProjectInfo): (r: Store)
    ensures r.files.Keys == st.files.Keys + {HostCacheFile(p.hostname)}
    ensures r.files[HostCacheFile(p.hostname)].Parsed? && p in r.files[HostCacheFile(p.hostname)].records
    ensures forall f :: f in st.files && f != HostCacheFile(p.hostname) ==> r.files[f] == st.files[f]
    ensures st.listing <= r.listing
  {
    var file := HostCacheFile(p.hostname);
    Store(st.files[file := Parsed(Upsert(Load(st, file), p))],
          if file in st.files then st.listing else st.listing + [file])
  }

  /** `getProjectInfo`: the first record of `owner/repo` in the host's partition, if it exists and parses. */
  function Lookup(st: Store, hostname: string, owner: string, repo: string): (r: Option<ProjectInfo>)
    ensures r.Some? <==> exists j :: 0 <= j < |Load(st, HostCacheFile(hostname))| && SameRepo(Load(st, HostCacheFile(hostname))[j], owner, repo)
    ensures r.Some? ==> r.value in Load(st, HostCacheFile(hostname)) && SameRepo(r.value, owner, repo)
    ensures r.Some? ==> var rs := Load(st, HostCacheFile(hostname));
                        exists i :: 0 <= i < |rs| && rs[i] == r.value && forall j :: 0 <= j < i ==> !SameRepo(rs[j], owner, repo)
  {
    var rs := Load(st, HostCacheFile(hostname));
    var i := FindIndex(rs, owner, repo);
    if i >= 0 then Some(rs[i]) else None
  }

  /** Saving writes the host's own partition and nothing else. */
  lemma SaveOnlyOwnPartition(st: Store, p: ProjectInfo, f: string)
    requires f != HostCacheFile(p.hostname)
    ensures f in Save(st, p).files <==> f in st.files
    ensures f in st.files ==> Save(st, p).files[f] == st.files[f]
  {
  }

  /** A missing or unparsable partition is treated as empty: afterwards it holds just the record. */
  lemma SaveIntoFresh(st: Store, p: ProjectInfo)
    requires HostCacheFile(p.hostname) !in st.files || st.files[HostCacheFile(p.hostname)] == Corrupt
    ensures Save(st, p).files[HostCacheFile(p.hostname)] == Parsed([p])
  {
    assert Load(st, HostCacheFile(p.hostname)) == [];
  }

  /** The listing still names every file exactly once. */
  lemma SaveWellFormed(st: Store, p: ProjectInfo)
    requires WellFormed(st)
    ensures WellFormed(Save(st, p))
  {
    var file := HostCacheFile(p.hostname);
    if file !in st.files {
      assert file !in st.listing;
      forall i, j | 0 <= i < j < |st.listing + [file]| ensures (st.listing + [file])[i] != (st.listing + [file])[j] {
        if j == |st.listing| {
          assert (st.listing + [file])[i] == st.listing[i];
        }
      }
    }
  }

  /** After a save, looking the project up returns the saved record. */
  lemma SaveThenLookup(st: Store, p: ProjectInfo)
    ensures Lookup(Save(st, p), p.hostname, p.owner, p.repo) == Some(p)
  {
    var file := HostCacheFile(p.hostname);
    var rs := Load(st, file);
    var r := Upsert(rs, p);
    assert Load(Save(st, p), file) == r;
    var k := FindIndex(rs, p.owner, p.repo);
    var m := if k >= 0 then k else |rs|;
    assert r[m] == p;
    assert forall j :: 0 <= j < m ==> r[j] == rs[j];
    assert FindIndex(r, p.owner, p.repo) == m;
  }

  /** Lookups of any other project give what they gave before the save. */
  lemma SaveLookupOther(st: Store, p: ProjectInfo, hostname: string, owner: string, repo: string)
    requires hostname != p.hostname || owner != p.owner || repo != p.repo
    ensures Lookup(Save(st, p), hostname, owner, repo) == Lookup(st, hostname, owner, repo)
  {
    var file := HostCacheFile(hostname);
    HostCacheFileInjective(hostname, p.hostname);
    if hostname == p.hostname {
      assert Load(Save(st, p), file) == Upsert(Load(st, file), p);
      UpsertFindOther(Load(st, file), p, owner, repo);
    } else {
      assert Load(Save(st, p), file) == Load(st, file);
    }
  }

  /** Saving the same record twice leaves the store as saving it once. */
  lemma SaveIdempotent(st: Store, p: ProjectInfo)
    ensures Save(Save(st, p), p) == Save(st, p)
  {
    var file := HostCacheFile(p.hostname);
    assert Load(Save(st, p), file) == Upsert(Load(st, file), p);
    UpsertIdempotent(Load(st, file), p);
  }

  /** Records saved one after another, in order. */
  function SaveAll(st: Store, rs: seq<ProjectInfo>): (r: Store)
    ensures st.files.Keys <= r.files.Keys && st.listing <= r.listing
    decreases |rs|
  {
    if rs == [] then st else SaveAll(Save(st, rs[0]), rs[1..])
  }

  /** Saving `a` and then `b` is saving `a + b`. */
  lemma {:induction false} SaveAllConcat(st: Store, a: seq<ProjectInfo>, b: seq<ProjectInfo>)
    ensures SaveAll(st, a + b) == SaveAll(SaveAll(st, a), b)
    decreases |a|
  {
    if a == [] {
      assert a + b == b;
    } else {
      assert (a + b)[0] == a[0] && (a + b)[1..] == a[1..] + b;
      SaveAllConcat(Save(st, a[0]), a[1..], b);
    }
  }

  // ---------------------------------------------------------------- all projects

  /** Lines 70-76 over the names `names`: `.json` files contribute their records in order; a
   *  file that cannot be read or parsed throws, which ends the loop with what was gathered. */
  function Gather(files: map<string, Partition>, names: seq<string>): (r: seq<ProjectInfo>)
    ensures (forall i :: 0 <= i < |names| ==> !EndsWith(names[i], ".json")) ==> r == []
  {
    if names == [] then []
    else if !EndsWith(names[0], ".json") then Gather(files, names[1..])
    else if names[0] !in files || files[names[0]].Corrupt? then []
    else files[names[0]].records + Gather(files, names[1..])
  }

  /** `getAllProjects` */
  function AllProjects(st: Store): (r: seq<ProjectInfo>)
    ensures forall x :: x in r ==> exists f :: && f in st.listing && EndsWith(f, ".json") && f in st.files
                                              && st.files[f].Parsed? && x in st.files[f].records
  {
    forall x | x in Gather(st.files, st.listing)
      ensures exists f :: && f in st.listing && EndsWith(f, ".json") && f in st.files
                          && st.files[f].Parsed? && x in st.files[f].records
    {
      GatherSound(st.files, st.listing, x);
    }
    Gather(st.files, st.listing)
  }

  /** A file that names no host partition. */
  predicate Unreadable(files: map<string, Partition>, name: string) {
    EndsWith(name, ".json") && (name !in files || files[name].Corrupt?)
  }

  /** A corrupt partition truncates the result: nothing listed after it contributes. */
  lemma {:induction false} GatherTruncates(files: map<string, Partition>, names: seq<string>, k: nat)
    requires k < |names| && Unreadable(files, names[k])
    ensures Gather(files, names) == Gather(files, names[..k])
  {
    if k > 0 {
      assert names[1..][..k - 1] == names[..k][1..];
      GatherTruncates(files, names[1..], k - 1);
    }
  }

  /** Without a corrupt partition among them, the listing is read in full, in order. */
  lemma {:induction false} GatherConcat(files: map<string, Partition>, a: seq<string>, b: seq<string>)
    requires forall i :: 0 <= i < |a| ==> !Unreadable(files, a[i])
    ensures Gather(files, a + b) == Gather(files, a) + Gather(files, b)
  {
    if a != [] {
      var c := a + b;
      assert c[0] == a[0] && !Unreadable(files, a[0]);
      assert c[1..] == a[1..] + b;
      assert forall i :: 0 <= i < |a[1..]| ==> a[1..][i] == a[i + 1];
      GatherConcat(files, a[1..], b);
      if EndsWith(a[0], ".json") {
        assert Gather(files, c) == files[a[0]].records + Gather(files, c[1..]);
        assert Gather(files, a) == files[a[0]].records + Gather(files, a[1..]);
      } else {
        assert Gather(files, c) == Gather(files, c[1..]);
      }
    } else {
      assert a + b == b;
    }
  }

  /** Every record returned comes from a parsed `.json` file of the listing. */
  lemma {:induction false} GatherSound(files: map<string, Partition>, names: seq<string>, x: ProjectInfo)
    requires x in Gather(files, names)
    ensures exists f :: && f in names && EndsWith(f, ".json") && f in files && files[f].Parsed?
                        && x in files[f].records
  {
    var f := names[0];
    if EndsWith(f, ".json") && f in files && files[f].Parsed? && x in files[f].records {
    } else {
      GatherSound(files, names[1..], x);
      var g :| && g in names[1..] && EndsWith(g, ".json") && g in files && files[g].Parsed? && x in files[g].records;
      assert g in names;
    }
  }

  // ---------------------------------------------------------------- unique projects

  /** The same project: equal hostname, owner and repo. */
  predicate SameProject(a: ProjectInfo, b: ProjectInfo) {
    a.hostname == b.hostname && a.owner == b.owner && a.repo == b.repo
  }

  ghost predicate UniqueProjects(rs: seq<ProjectInfo>) {
    forall i, j :: 0 <= i < j < |rs| ==> !SameProject(rs[i], rs[j])
  }

  /** Every parsed partition holds only records of its own host, each repository once. */
  ghost predicate Consistent(st: Store) {
    forall f :: f in st.files && st.files[f].Parsed? ==>
      && UniqueRepos(st.files[f].records)
      && forall r :: r in st.files[f].records ==> HostCacheFile(r.hostname) == f
  }

  /** `saveProjectInfo` keeps the registry consistent. */
  lemma SaveConsistent(st: Store, p: ProjectInfo)
    requires Consistent(st)
    ensures Consistent(Save(st, p))
  {
    var file := HostCacheFile(p.hostname);
    var rs := Load(st, file);
    UpsertUnique(rs, p);
    assert forall r :: r in Upsert(rs, p) ==> r in rs || r == p by {
      forall r | r in Upsert(rs, p) ensures r in rs || r == p {
        var i :| 0 <= i < |Upsert(rs, p)| && Upsert(rs, p)[i] == r;
        if i < |rs| && Upsert(rs, p)[i] == rs[i] {
          assert r in rs;
        }
      }
    }
  }

  lemma UniqueConcat(a: seq<ProjectInfo>, b: seq<ProjectInfo>)
    requires UniqueProjects(a) && UniqueProjects(b)
    requires forall x, y :: x in a && y in b ==> !SameProject(x, y)
    ensures UniqueProjects(a + b)
  {
    forall i, j | 0 <= i < j < |a + b| ensures !SameProject((a + b)[i], (a + b)[j]) {
      if j < |a| {
        assert (a + b)[i] == a[i] && (a + b)[j] == a[j];
      } else if i >= |a| {
        assert (a + b)[i] == b[i - |a|] && (a + b)[j] == b[j - |a|];
      } else {
        assert (a + b)[i] in a && (a + b)[j] in b;
      }
    }
  }

  lemma UniqueReposOfHost(rs: seq<ProjectInfo>, f: string)
    requires UniqueRepos(rs)
    requires forall r :: r in rs ==> HostCacheFile(r.hostname) == f
    ensures UniqueProjects(rs)
  {
    forall i, j | 0 <= i < j < |rs| ensures !SameProject(rs[i], rs[j]) {
      assert !SameRepo(rs[j], rs[i].owner, rs[i].repo);
    }
  }

  lemma {:induction false} GatherUnique(st: Store, names: seq<string>)
    requires Consistent(st) && NoDup(names)
    ensures UniqueProjects(Gather(st.files, names))
  {
    if names != [] {
      var f := names[0];
      assert NoDup(names[1..]) by {
        forall i, j | 0 <= i < j < |names[1..]| ensures names[1..][i] != names[1..][j] {
          assert names[1..][i] == names[i + 1] && names[1..][j] == names[j + 1];
        }
      }
      GatherUnique(st, names[1..]);
      if EndsWith(f, ".json") && f in st.files && st.files[f].Parsed? {
        var rs := st.files[f].records;
        var rest := Gather(st.files, names[1..]);
        UniqueReposOfHost(rs, f);
        forall x, y | x in rs && y in rest ensures !SameProject(x, y) {
          GatherSound(st.files, names[1..], y);
          var g :| && g in names[1..] && EndsWith(g, ".json") && g in st.files && st.files[g].Parsed?
                   && y in st.files[g].records;
          var k :| 0 <= k < |names[1..]| && names[1..][k] == g;
          assert names[k + 1] == g;
          assert HostCacheFile(x.hostname) == f != g == HostCacheFile(y.hostname);
        }
        UniqueConcat(rs, rest);
      }
    }
  }

  /** Across all partitions, no project appears twice. */
  lemma AllProjectsUnique(st: Store)
    requires WellFormed(st) && Consistent(st)
    ensures UniqueProjects(AllProjects(st))
  {
    GatherUnique(st, st.listing);
  }

  // ---------------------------------------------------------------- the registry object

  /** The cache directory, updated in place by `saveProjectInfo`. */
  class Registry {
    var files: map<string, Partition>
    var listing: seq<string>

    ghost predicate Valid()
      reads this
    {
      WellFormed(State())
    }

    function State(): Store
      reads this
    {
      Store(files, listing)
    }

    constructor (st: Store)
      requires WellFormed(st)
      ensures Valid() && State() == st
    {
      files := st.files;
      listing := st.listing;
    }

    /** `saveProjectInfo` */
    method SaveProjectInfo(p: ProjectInfo)
      requires Valid()
      modifies this
      ensures Valid()
      ensures State() == Save(old(State()), p)
    {
      SaveWellFormed(State(), p);
      var file := HostCacheFile(p.hostname);
      var projects: seq<ProjectInfo> := [];
      if file in files && files[file].Parsed? {
        projects := files[file].records;
      }
      var existingIndex := FindIndex(projects, p.owner, p.repo);
      if existingIndex >= 0 {
        projects := projects[existingIndex := p];
      } else {
        projects := projects + [p];
      }
      if file !in files {
        listing := listing + [file];
      }
      files := files[file := Parsed(projects)];
    }

    /** `getProjectInfo` */
    method GetProjectInfo(hostname: string, owner: string, repo: string) returns (r: Option<ProjectInfo>)
      ensures r == Lookup(State(), hostname, owner, repo)
    {
      var file := HostCacheFile(hostname);
      if file !in files || files[file].Corrupt? {
        return None;
      }
      var projects := files[file].records;
      var i := FindIndex(projects, owner, repo);
      r := if i >= 0 then Some(projects[i]) else None;
    }

    /** `getAllProjects` */
    method GetAllProjects() returns (all: seq<ProjectInfo>)
      ensures all == AllProjects(State())
    {
      all := [];
      var i := 0;
      while i < |listing|
        invariant 0 <= i <= |listing|
        invariant all + Gather(files, listing[i..]) == Gather(files, listing)
      {
        var file := listing[i];
        assert listing[i..][1..] == listing[i + 1..];
        if EndsWith(file, ".json") {
          if file !in files || files[file].Corrupt? {
            break;
          }
          all := all + files[file].records;
        }
        i := i + 1;
      }
    }
  }
}
