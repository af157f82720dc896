/**
 * The `scan` command (src/commands/scan.ts): a depth-bounded walk over a directory tree that
 * registers every git working tree whose `origin` remote is a recognisable URL.
 *
 * The file system is an immutable tree of entries; the registry is the `Cache.Registry` object
 * that `saveProjectInfo` updates. `WalkDir` states what a walk finds and how it fails;
 * `ScanDirectory` performs the walk and is proved to do exactly that.
 */
module Scan {
  import opened Wrappers
  import opened Strings
  import opened Seqs
  import opened RepoUrl
  import opened Cache

  /**
   * A directory entry as `readdir(…, { withFileTypes: true })` reports it, with what the walk may
   * later learn about it:
   *  - `isDir`: `entry.isDirectory()` (a symbolic link is not a directory);
   *  - `gitIsDir`: whether `stat(<entry>/.git)` succeeds and reports a directory (an absent
   *    `.git`, a file or a failing `stat` all count as false);
   *  - `origin`: what `git remote get-url origin` prints, or `None` when git fails;
   *  - `readError`: the message of the exception `readdir` throws on this directory, if any;
   *  - `children`: what `readdir` lists otherwise, in its order.
   */
  datatype Entry = Entry(name: string, isDir: bool, gitIsDir: bool, origin: Option<string>,
                         readError: Option<string>, children: seq<Entry>)

  /** `IGNORED_DIRS` */
  const IgnoredDirs: seq<string> :=
    ["node_modules", ".git", ".DS_Store", "dist", "build", ".next", ".cache", "coverage", ".idea", ".vscode"]

  /** The test of line 77: only directories off the deny-list are looked at further. */
  predicate Explored(e: Entry)
    ensures !e.isDir ==> !Explored(e)
    ensures e.name in IgnoredDirs ==> !Explored(e)
  {
    e.isDir && e.name !in IgnoredDirs
  }

  /** `getGitRepoInfo`: the identity in the trimmed `origin` URL; nothing for a missing or empty
   *  remote or one the URL grammar rejects. */
  function GitRepoInfo(origin: Option<string>): (r: Option<Identity>)
    ensures origin.None? || origin == Some("") ==> r.None?
    ensures origin.Some? && origin.value != "" ==> r == ParseUrl(Trim(origin.value))
  {
    match origin
    case None => None
    case Some(remote) => if remote == "" then None else ParseUrl(Trim(remote))
  }

  /** A registered working tree: what was parsed from its remote and where it sits. */
  datatype Hit = Hit(id: Identity, path: string)

  /** The record `saveProjectInfo` receives for a hit. */
  function Record(h: Hit, now: string): (p: ProjectInfo)
    ensures p.hostname == h.id.hostname && p.owner == h.id.owner && p.repo == h.id.repo
    ensures p.path == h.path && p.addedAt == now
  {
    ProjectInfo(h.id.hostname, h.id.owner, h.id.repo, h.path, now)
  }

  function Records(hs: seq<Hit>, now: string): (rs: seq<ProjectInfo>)
    ensures |rs| == |hs| && forall i :: 0 <= i < |hs| ==> rs[i] == Record(hs[i], now)
  {
    seq(|hs|, i requires 0 <= i < |hs| => Record(hs[i], now))
  }

  lemma RecordsConcat(a: seq<Hit>, b: seq<Hit>, now: string)
    ensures Records(a + b, now) == Records(a, now) + Records(b, now)
  {
  }

  /** The exception `scanDirectory` throws: the failing `readdir`, wrapped once per enclosing level. */
  datatype ScanError = ReadFailed(dir: string, reason: string) | Nested(dir: string, inner: ScanError)

  /** `Error scanning directory <dir>: <message>` at each level. */
  function Message(e: ScanError): (m: string)
    ensures StartsWith(m, "Error scanning directory " + e.dir + ": ")
  {
    var prefix := "Error scanning directory " + e.dir + ": ";
    var m := match e
      case ReadFailed(_, reason) => prefix + reason
      case Nested(_, inner) => prefix + Message(inner);
    assert m[..|prefix|] == prefix;
    m
  }

  /** The `readdir` message that started the chain. */
  function Reason(e: ScanError): string {
    match e
    case ReadFailed(_, reason) => reason
    case Nested(_, inner) => Reason(inner)
  }

  /** The message ends with the original error text, as in `rejects.toThrow('Permission denied')`. */
  lemma {:induction false} MessageEndsWithReason(e: ScanError)
    ensures EndsWith(Message(e), Reason(e))
  {
    var prefix := "Error scanning directory " + e.dir + ": ";
    match e {
      case ReadFailed(_, reason) =>
        assert Message(e)[|Message(e)| - |reason|..] == reason;
      case Nested(_, inner) =>
        MessageEndsWithReason(inner);
        var m := Message(inner);
        assert Message(e) == prefix + m;
        assert (prefix + m)[|prefix + m| - |Reason(e)|..] == m[|m| - |Reason(e)|..];
    }
  }

  /** What a walk finds, in order, and the exception that ended it, if any. */
  datatype Walk = Walk(found: seq<Hit>, failure: Option<ScanError>)

  /** `scanDirectory(path, depth, maxDepth)` on the directory `dir`. The scan root itself is never
   *  registered: every hit lies strictly below it. */
  function WalkDir(path: string, dir: Entry, depth: nat, maxDepth: int): (w: Walk)
    ensures forall h :: h in w.found ==> Below(h, path)
    ensures depth > maxDepth ==> w == Walk([], None)
    ensures w.failure.Some? ==> w.failure.value.dir == path
    decreases dir, 0
  {
    if depth > maxDepth then Walk([], None)
    else if dir.readError.Some? then Walk([], Some(ReadFailed(path, dir.readError.value)))
    else
      var w := WalkEntries(path, dir.children, depth, maxDepth);
      Walk(w.found, if w.failure.Some? then Some(Nested(path, w.failure.value)) else None)
  }

  /** The loop of lines 73-104 over `es`; the first failure ends it. */
  function WalkEntries(path: string, es: seq<Entry>, depth: nat, maxDepth: int): (w: Walk)
    ensures forall h :: h in w.found ==> Below(h, path)
    decreases es, 2
  {
    if es == [] then Walk([], None)
    else
      var here := Visit(path, es[0], depth, maxDepth);
      if here.failure.Some? then here
      else
        var rest := WalkEntries(path, es[1..], depth, maxDepth);
        Walk(here.found + rest.found, rest.failure)
  }

  /** One iteration of the loop: skip, register a working tree, or descend one level. */
  function Visit(path: string, e: Entry, depth: nat, maxDepth: int): (w: Walk)
    ensures forall h :: h in w.found ==> Below(h, path)
    ensures !Explored(e) ==> w == Walk([], None)
    ensures Explored(e) && e.gitIsDir ==>
              w == Walk(if GitRepoInfo(e.origin).Some? then [Hit(GitRepoInfo(e.origin).value, PathJoin(path, e.name))] else [], None)
    ensures Explored(e) && !e.gitIsDir ==> w == WalkDir(PathJoin(path, e.name), e, depth + 1, maxDepth)
    decreases e, 1
  {
    var fullPath := PathJoin(path, e.name);
    assert StartsWith(fullPath, path + "/") by {
      assert fullPath[..|path + "/"|] == path + "/";
    }
    if !Explored(e) then Walk([], None)
    else if e.gitIsDir then
      match GitRepoInfo(e.origin)
      case None => Walk([], None)
      case Some(id) => Walk([Hit(id, fullPath)], None)
    else
      var w := WalkDir(fullPath, e, depth + 1, maxDepth);
      StartsWithConcat(path + "/", fullPath, "/");
      forall h | h in w.found ensures Below(h, path) {
        StartsWithTrans(path + "/", fullPath + "/", h.path);
      }
      w
  }

  // ---------------------------------------------------------------- the walk, imperatively

  /** `scanDirectory`: walks `dir` (found at `path`) and saves every hit unless `dryRun`. It returns
   *  the hits in the order they were saved, and the exception it would throw. */
  method ScanDirectory(cache: Registry, path: string, dir: Entry, depth: nat, maxDepth: int, dryRun: bool, now: string)
    returns (found: seq<Hit>, err: Option<ScanError>)
    requires cache.Valid()
    modifies cache
    ensures cache.Valid()
    ensures found == WalkDir(path, dir, depth, maxDepth).found
    ensures err == WalkDir(path, dir, depth, maxDepth).failure
    ensures cache.State() == Saved(old(cache.State()), found, dryRun, now)
    decreases dir, 0
  {
    if depth > maxDepth {
      return [], None;
    }
    if dir.readError.Some? {
      return [], Some(ReadFailed(path, dir.readError.value));
    }
    var inner;
    found, inner := ScanEntries(cache, path, dir.children, depth, maxDepth, dryRun, now);
    err := if inner.Some? then Some(Nested(path, inner.value)) else None;
  }

  /** The loop of lines 73-104: visits the entries in order and stops at the first exception. */
  method ScanEntries(cache: Registry, path: string, entries: seq<Entry>, depth: nat, maxDepth: int, dryRun: bool, now: string)
    returns (found: seq<Hit>, err: Option<ScanError>)
    requires cache.Valid()
    modifies cache
    ensures cache.Valid()
    ensures found == WalkEntries(path, entries, depth, maxDepth).found
    ensures err == WalkEntries(path, entries, depth, maxDepth).failure
    ensures cache.State() == Saved(old(cache.State()), found, dryRun, now)
    decreases entries, 2
  {
    ghost var st0 := cache.State();
    found := [];
    var i := 0;
    ResumeStart(path, entries, depth, maxDepth);
    while i < |entries|
      invariant 0 <= i <= |entries|
      invariant cache.Valid()
      invariant Resume(path, entries, i, depth, maxDepth, found)
      invariant cache.State() == Saved(st0, found, dryRun, now)
    {
      var here, hereErr := ScanEntry(cache, path, entries[i], depth, maxDepth, dryRun, now);
      ResumeStep(path, entries, i, depth, maxDepth, found);
      SavedConcat(st0, found, here, dryRun, now);
      found := found + here;
      if hereErr.Some? {
        return found, hereErr;
      }
      i := i + 1;
    }
    ResumeEnd(path, entries, depth, maxDepth, found);
    err := None;
  }

  /** One pass of the loop body (lines 74-103) on `entry`: skip it, register it, or descend into it. */
  method ScanEntry(cache: Registry, path: string, entry: Entry, depth: nat, maxDepth: int, dryRun: bool, now: string)
    returns (found: seq<Hit>, err: Option<ScanError>)
    requires cache.Valid()
    modifies cache
    ensures cache.Valid()
    ensures found == Visit(path, entry, depth, maxDepth).found
    ensures err == Visit(path, entry, depth, maxDepth).failure
    ensures cache.State() == Saved(old(cache.State()), found, dryRun, now)
    decreases entry, 1
  {
    var fullPath := PathJoin(path, entry.name);
    if !(entry.isDir && entry.name !in IgnoredDirs) {
      return [], None;
    }
    if entry.gitIsDir {
      var repoInfo := GitRepoInfo(entry.origin);
      if repoInfo.None? {
        return [], None;
      }
      var hit := Hit(repoInfo.value, fullPath);
      if !dryRun {
        cache.SaveProjectInfo(Record(hit, now));
      }
      SavedSnoc(old(cache.State()), [], hit, dryRun, now);
      assert [] + [hit] == [hit] && Records([], now) == [];
      return [hit], None;
    }
    found, err := ScanDirectory(cache, fullPath, entry, depth + 1, maxDepth, dryRun, now);
  }

  /** The loop has gathered `found` from `es[..i]` without failing, and the rest of the walk is what `es[i..]` yields. */
  ghost predicate Resume(path: string, es: seq<Entry>, i: nat, depth: nat, maxDepth: int, found: seq<Hit>)
    requires i <= |es|
  {
    var rest := WalkEntries(path, es[i..], depth, maxDepth);
    found + rest.found == WalkEntries(path, es, depth, maxDepth).found
    && rest.failure == WalkEntries(path, es, depth, maxDepth).failure
  }

  lemma ResumeStart(path: string, es: seq<Entry>, depth: nat, maxDepth: int)
    ensures Resume(path, es, 0, depth, maxDepth, [])
  {
    assert es[0..] == es;
  }

  lemma ResumeEnd(path: string, es: seq<Entry>, depth: nat, maxDepth: int, found: seq<Hit>)
    requires Resume(path, es, |es|, depth, maxDepth, found)
    ensures found == WalkEntries(path, es, depth, maxDepth).found
    ensures WalkEntries(path, es, depth, maxDepth).failure.None?
  {
    assert es[|es|..] == [];
  }

  lemma ResumeStep(path: string, es: seq<Entry>, i: nat, depth: nat, maxDepth: int, found: seq<Hit>)
    requires i < |es| && Resume(path, es, i, depth, maxDepth, found)
    ensures var here := Visit(path, es[i], depth, maxDepth);
            && (here.failure.None? ==> Resume(path, es, i + 1, depth, maxDepth, found + here.found))
            && (here.failure.Some? ==> found + here.found == WalkEntries(path, es, depth, maxDepth).found
                                       && here.failure == WalkEntries(path, es, depth, maxDepth).failure)
  {
    WalkEntriesStep(path, es, i, depth, maxDepth);
  }

  /** The registry after the hits `found` have been saved, or left alone in a dry run. */
  ghost function Saved(st: Store, found: seq<Hit>, dryRun: bool, now: string): Store {
    if dryRun then st else SaveAll(st, Records(found, now))
  }

  lemma SavedSnoc(st: Store, found: seq<Hit>, hit: Hit, dryRun: bool, now: string)
    ensures Saved(st, found + [hit], dryRun, now) ==
            if dryRun then Saved(st, found, dryRun, now) else Save(Saved(st, found, dryRun, now), Record(hit, now))
  {
    if !dryRun {
      RecordsConcat(found, [hit], now);
      SaveAllConcat(st, Records(found, now), Records([hit], now));
      assert Records([hit], now) == [Record(hit, now)];
    }
  }

  lemma SavedConcat(st: Store, found: seq<Hit>, sub: seq<Hit>, dryRun: bool, now: string)
    ensures Saved(st, found + sub, dryRun, now) ==
            if dryRun then Saved(st, found, dryRun, now) else SaveAll(Saved(st, found, dryRun, now), Records(sub, now))
  {
    if !dryRun {
      RecordsConcat(found, sub, now);
      SaveAllConcat(st, Records(found, now), Records(sub, now));
    }
  }

  /** One step of the loop: the walk from `i` is entry `i`'s visit followed, unless it failed, by the walk from `i + 1`. */
  lemma WalkEntriesStep(path: string, es: seq<Entry>, i: nat, depth: nat, maxDepth: int)
    requires i < |es|
    ensures var here := Visit(path, es[i], depth, maxDepth);
            var rest := WalkEntries(path, es[i + 1..], depth, maxDepth);
            WalkEntries(path, es[i..], depth, maxDepth) ==
              if here.failure.Some? then here else Walk(here.found + rest.found, rest.failure)
  {
    assert es[i..][0] == es[i] && es[i..][1..] == es[i + 1..];
  }

  /** The options of `scan`; missing ones take their defaults. */
  datatype ScanOptions = ScanOptions(depth: Option<int>, dryRun: Option<bool>)

  /** `const { depth = 5, dryRun = false } = options` */
  function MaxDepth(options: ScanOptions): (d: int)
    ensures options.depth.None? ==> d == 5
    ensures options.depth.Some? ==> d == options.depth.value
  {
    options.depth.GetOr(5)
  }

  function IsDryRun(options: ScanOptions): (b: bool)
    ensures b <==> options.dryRun == Some(true)
  {
    options.dryRun.GetOr(false)
  }

  /** `scan`: walks `root` (already resolved to the absolute path `target`) from depth 0. */
  method Scan(cache: Registry, target: string, root: Entry, options: ScanOptions, now: string)
    returns (err: Option<ScanError>)
    requires cache.Valid()
    modifies cache
    ensures cache.Valid()
    ensures err == WalkDir(target, root, 0, MaxDepth(options)).failure
    ensures cache.State() ==
      if IsDryRun(options) then old(cache.State())
      else SaveAll(old(cache.State()), Records(WalkDir(target, root, 0, MaxDepth(options)).found, now))
  {
    var found;
    found, err := ScanDirectory(cache, target, root, 0, MaxDepth(options), IsDryRun(options), now);
  }

  // ---------------------------------------------------------------- what the walk promises

  /** A hit below `path`: joined under it, as `path.join(dirPath, entry.name)` is. */
  predicate Below(h: Hit, path: string) {
    StartsWith(h.path, path + "/")
  }

  /** Entries the loop skips (not directories, or on the deny-list) are never looked into:
   *  dropping them, whatever they hold, changes nothing. */
  lemma {:induction false} SkippedEntriesIrrelevant(path: string, es: seq<Entry>, depth: nat, maxDepth: int)
    ensures WalkEntries(path, es, depth, maxDepth) == WalkEntries(path, Filter(es, Explored), depth, maxDepth)
    decreases |es|
  {
    if es != [] {
      SkippedEntriesIrrelevant(path, es[1..], depth, maxDepth);
      if Explored(es[0]) {
        assert Filter(es, Explored) == [es[0]] + Filter(es[1..], Explored);
        assert ([es[0]] + Filter(es[1..], Explored))[1..] == Filter(es[1..], Explored);
      } else {
        assert Filter(es, Explored) == Filter(es[1..], Explored);
      }
    }
  }

  /** A working tree is never descended into: what lies under it, readable or not, does not matter. */
  lemma RepoNotDescended(path: string, e: Entry, depth: nat, maxDepth: int, readError: Option<string>, children: seq<Entry>)
    requires e.gitIsDir
    ensures Visit(path, e, depth, maxDepth) == Visit(path, e.(readError := readError, children := children), depth, maxDepth)
  {
  }

  /** `e` with every directory more than `k` levels below it emptied: what `readdir` would list
   *  there, or whether it would fail. */
  function Cut(e: Entry, k: int): (r: Entry)
    ensures r.name == e.name && r.isDir == e.isDir && r.gitIsDir == e.gitIsDir && r.origin == e.origin
    decreases e
  {
    if k < 0 then e.(readError := None, children := [])
    else e.(children := CutAll(e.children, k - 1))
  }

  function CutAll(es: seq<Entry>, k: int): (rs: seq<Entry>)
    ensures |rs| == |es|
    decreases es
  {
    if es == [] then [] else [Cut(es[0], k)] + CutAll(es[1..], k)
  }

  /** Directories are read only at depth `maxDepth` or less: the tree below does not matter. */
  lemma {:induction false} WalkDirDepth(path: string, dir: Entry, depth: nat, maxDepth: int)
    ensures WalkDir(path, dir, depth, maxDepth) == WalkDir(path, Cut(dir, maxDepth - depth), depth, maxDepth)
    decreases dir, 0
  {
    if depth <= maxDepth && dir.readError.None? {
      WalkEntriesDepth(path, dir.children, depth, maxDepth);
    }
  }

  lemma {:induction false} WalkEntriesDepth(path: string, es: seq<Entry>, depth: nat, maxDepth: int)
    ensures WalkEntries(path, es, depth, maxDepth) == WalkEntries(path, CutAll(es, maxDepth - depth - 1), depth, maxDepth)
    decreases es, 2
  {
    if es != [] {
      var cs := CutAll(es, maxDepth - depth - 1);
      assert cs[0] == Cut(es[0], maxDepth - depth - 1) && cs[1..] == CutAll(es[1..], maxDepth - depth - 1);
      VisitDepth(path, es[0], depth, maxDepth);
      WalkEntriesDepth(path, es[1..], depth, maxDepth);
    }
  }

  lemma {:induction false} VisitDepth(path: string, e: Entry, depth: nat, maxDepth: int)
    ensures Visit(path, e, depth, maxDepth) == Visit(path, Cut(e, maxDepth - depth - 1), depth, maxDepth)
    decreases e, 1
  {
    if Explored(e) && !e.gitIsDir {
      WalkDirDepth(PathJoin(path, e.name), e, depth + 1, maxDepth);
    }
  }

  /** A failure at entry `k` ends the walk: nothing listed after it is visited. */
  lemma {:induction false} FailureStopsWalk(path: string, es: seq<Entry>, depth: nat, maxDepth: int, k: nat)
    requires k < |es| && Visit(path, es[k], depth, maxDepth).failure.Some?
    ensures WalkEntries(path, es, depth, maxDepth) == WalkEntries(path, es[..k + 1], depth, maxDepth)
  {
    if k > 0 {
      assert es[1..][..k] == es[..k + 1][1..];
      FailureStopsWalk(path, es[1..], depth, maxDepth, k - 1);
    } else {
      assert es[..1][0] == es[0];
    }
  }

  /** A readable directory at or above `maxDepth` fails exactly when one of its visited entries does,
   *  with its own path wrapped around that entry's exception. */
  lemma NestedFailure(path: string, dir: Entry, depth: nat, maxDepth: int)
    requires depth <= maxDepth && dir.readError.None?
    ensures var w := WalkEntries(path, dir.children, depth, maxDepth).failure;
            WalkDir(path, dir, depth, maxDepth).failure == if w.Some? then Some(Nested(path, w.value)) else None
  {
  }

  /** The failing `readdir`'s directory is the root, or lies below it. */
  function FailedDir(e: ScanError): string {
    match e
    case ReadFailed(dir, _) => dir
    case Nested(_, inner) => FailedDir(inner)
  }

  lemma {:induction false} WalkDirFailureBelow(path: string, dir: Entry, depth: nat, maxDepth: int)
    requires WalkDir(path, dir, depth, maxDepth).failure.Some?
    ensures var e := WalkDir(path, dir, depth, maxDepth).failure.value;
            e.dir == path && (FailedDir(e) == path || StartsWith(FailedDir(e), path + "/"))
    decreases dir, 0
  {
    if dir.readError.None? {
      WalkEntriesFailureBelow(path, dir.children, depth, maxDepth);
    }
  }

  lemma {:induction false} WalkEntriesFailureBelow(path: string, es: seq<Entry>, depth: nat, maxDepth: int)
    requires WalkEntries(path, es, depth, maxDepth).failure.Some?
    ensures StartsWith(FailedDir(WalkEntries(path, es, depth, maxDepth).failure.value), path + "/")
    decreases es, 2
  {
    if Visit(path, es[0], depth, maxDepth).failure.Some? {
      var fullPath := PathJoin(path, es[0].name);
      WalkDirFailureBelow(fullPath, es[0], depth + 1, maxDepth);
      var f := FailedDir(WalkDir(fullPath, es[0], depth + 1, maxDepth).failure.value);
      assert fullPath[..|path + "/"|] == path + "/";
      if f != fullPath {
        StartsWithConcat(path + "/", fullPath, "/");
        StartsWithTrans(path + "/", fullPath + "/", f);
      }
    } else {
      WalkEntriesFailureBelow(path, es[1..], depth, maxDepth);
    }
  }

  // ---------------------------------------------------------------- what the walk registers

  /** `h` is a working tree the walk of `dir` (at `path`, `depth`) can reach: it hangs below a chain of
   *  readable directories no deeper than `maxDepth`, each explored, and is an explored entry with a
   *  `.git` directory whose remote names `h.id`, joined under its parent as `h.path`. */
  ghost predicate Reachable(path: string, dir: Entry, depth: nat, maxDepth: int, h: Hit)
    decreases dir, 0
  {
    depth <= maxDepth && dir.readError.None? && ReachableIn(path, dir.children, depth, maxDepth, h)
  }

  ghost predicate ReachableIn(path: string, es: seq<Entry>, depth: nat, maxDepth: int, h: Hit)
    decreases es, 2
  {
    exists k :: 0 <= k < |es| && InEntry(path, es[k], depth, maxDepth, h)
  }

  ghost predicate InEntry(path: string, e: Entry, depth: nat, maxDepth: int, h: Hit)
    decreases e, 1
  {
    Explored(e) &&
    if e.gitIsDir then GitRepoInfo(e.origin) == Some(h.id) && h.path == PathJoin(path, e.name)
    else Reachable(PathJoin(path, e.name), e, depth + 1, maxDepth, h)
  }

  /** Every hit the walk registers is a reachable working tree. */
  lemma {:induction false} WalkDirSound(path: string, dir: Entry, depth: nat, maxDepth: int, h: Hit)
    requires h in WalkDir(path, dir, depth, maxDepth).found
    ensures Reachable(path, dir, depth, maxDepth, h)
    decreases dir, 0
  {
    WalkEntriesSound(path, dir.children, depth, maxDepth, h);
  }

  lemma {:induction false} WalkEntriesSound(path: string, es: seq<Entry>, depth: nat, maxDepth: int, h: Hit)
    requires h in WalkEntries(path, es, depth, maxDepth).found
    ensures ReachableIn(path, es, depth, maxDepth, h)
    decreases es, 2
  {
    var here := Visit(path, es[0], depth, maxDepth);
    if h in here.found {
      VisitSound(path, es[0], depth, maxDepth, h);
      assert InEntry(path, es[0], depth, maxDepth, h);
    } else {
      WalkEntriesSound(path, es[1..], depth, maxDepth, h);
      var k :| 0 <= k < |es[1..]| && InEntry(path, es[1..][k], depth, maxDepth, h);
      assert es[1..][k] == es[k + 1];
    }
  }

  lemma {:induction false} VisitSound(path: string, e: Entry, depth: nat, maxDepth: int, h: Hit)
    requires h in Visit(path, e, depth, maxDepth).found
    ensures InEntry(path, e, depth, maxDepth, h)
    decreases e, 1
  {
    if !e.gitIsDir {
      WalkDirSound(PathJoin(path, e.name), e, depth + 1, maxDepth, h);
    }
  }

  /** A walk that does not fail registers every reachable working tree. */
  lemma {:induction false} WalkDirComplete(path: string, dir: Entry, depth: nat, maxDepth: int, h: Hit)
    requires WalkDir(path, dir, depth, maxDepth).failure.None? && Reachable(path, dir, depth, maxDepth, h)
    ensures h in WalkDir(path, dir, depth, maxDepth).found
    decreases dir, 0
  {
    WalkEntriesComplete(path, dir.children, depth, maxDepth, h);
  }

  lemma {:induction false} WalkEntriesComplete(path: string, es: seq<Entry>, depth: nat, maxDepth: int, h: Hit)
    requires WalkEntries(path, es, depth, maxDepth).failure.None? && ReachableIn(path, es, depth, maxDepth, h)
    ensures h in WalkEntries(path, es, depth, maxDepth).found
    decreases es, 2
  {
    var k :| 0 <= k < |es| && InEntry(path, es[k], depth, maxDepth, h);
    if k == 0 {
      VisitComplete(path, es[0], depth, maxDepth, h);
    } else {
      assert es[1..][k - 1] == es[k];
      WalkEntriesComplete(path, es[1..], depth, maxDepth, h);
    }
  }

  lemma {:induction false} VisitComplete(path: string, e: Entry, depth: nat, maxDepth: int, h: Hit)
    requires Visit(path, e, depth, maxDepth).failure.None? && InEntry(path, e, depth, maxDepth, h)
    ensures h in Visit(path, e, depth, maxDepth).found
    decreases e, 1
  {
    if !e.gitIsDir {
      WalkDirComplete(PathJoin(path, e.name), e, depth + 1, maxDepth, h);
    }
  }

  /** A walk that does not fail registers exactly the reachable working trees. */
  lemma WalkDirExact(path: string, dir: Entry, depth: nat, maxDepth: int, h: Hit)
    requires WalkDir(path, dir, depth, maxDepth).failure.None?
    ensures h in WalkDir(path, dir, depth, maxDepth).found <==> Reachable(path, dir, depth, maxDepth, h)
  {
    if h in WalkDir(path, dir, depth, maxDepth).found {
      WalkDirSound(path, dir, depth, maxDepth, h);
    }
    if Reachable(path, dir, depth, maxDepth, h) {
      WalkDirComplete(path, dir, depth, maxDepth, h);
    }
  }

  /** Whatever entry `k` yields is registered once no entry before it failed, even when a later one
   *  does; in particular an explored working tree with a recognisable remote is. */
  lemma {:induction false} WalkEntriesFinds(path: string, es: seq<Entry>, depth: nat, maxDepth: int, k: nat)
    requires k < |es|
    requires forall j :: 0 <= j < k ==> Visit(path, es[j], depth, maxDepth).failure.None?
    ensures forall h :: h in Visit(path, es[k], depth, maxDepth).found ==> h in WalkEntries(path, es, depth, maxDepth).found
    ensures Explored(es[k]) && es[k].gitIsDir && GitRepoInfo(es[k].origin).Some? ==>
              Hit(GitRepoInfo(es[k].origin).value, PathJoin(path, es[k].name)) in WalkEntries(path, es, depth, maxDepth).found
  {
    if k > 0 {
      assert Visit(path, es[0], depth, maxDepth).failure.None?;
      forall j | 0 <= j < k - 1 ensures Visit(path, es[1..][j], depth, maxDepth).failure.None? {
        assert es[1..][j] == es[j + 1];
      }
      assert es[1..][k - 1] == es[k];
      WalkEntriesFinds(path, es[1..], depth, maxDepth, k - 1);
    }
  }

  // ---------------------------------------------------------------- remotes

  lemma TrimNewline(url: string, pre: string)
    requires pre == "git@" || pre == "https://" || pre == "http://"
    requires |url| > |pre| && url[..|pre|] == pre && url[|url| - 1] == 't'
    ensures Trim(url + "\n") == url
  {
    assert url[0] == pre[0];
    TrimTrailing(url, "\n");
  }

  /** `git remote` prints the URL followed by a newline; trimming it recovers the URL, so a
   *  well-formed remote is registered under its own identity. */
  lemma RemoteWithNewline(pre: string, hostname: string, sep: char, owner: string, repo: string)
    requires pre == "git@" || pre == "https://" || pre == "http://"
    requires HostSegment(hostname) && (sep == '/' || sep == ':') && Segment(owner) && Segment(repo)
    ensures GitRepoInfo(Some(pre + (hostname + ([sep] + (owner + ("/" + (repo + ".git"))))) + "\n")) ==
              Some(Identity(hostname, owner, repo))
  {
    var url := pre + (hostname + ([sep] + (owner + ("/" + (repo + ".git")))));
    assert Trim(url + "\n") == url by {
      TrimNewline(url, pre);
    }
    assert ParseUrl(url) == Some(Identity(hostname, owner, repo)) by {
      MatchTailComplete(url, pre, hostname, sep, owner, repo, ".git");
      assert url[0..] == url;
    }
  }
}
