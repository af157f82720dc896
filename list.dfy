/**
 * The `list` command (src/commands/list.ts): filter the registered projects by host and by
 * directory, then show them as an aligned table or as a host / owner tree.
 * `formatPath` (`path.relative` against the base directory) and `formatDate` (locale
 * formatting) are passed in as functions; the model knows nothing about them.
 */
module List {
  import opened Wrappers
  import opened Strings
  import opened Seqs
  import opened Cache
  import Config

  datatype ListOptions = ListOptions(host: Option<string>, dir: Option<string>, format: Option<string>)

  /** `if (host)` / `if (dir)`: an absent or empty option is falsy and filters nothing. */
  predicate Given(o: Option<string>) {
    o.Some? && o.value != ""
  }

  // ---------------------------------------------------------------- filters (lines 145-154)

  function HostFilter(ps: seq<ProjectInfo>, host: Option<string>): (r: seq<ProjectInfo>)
    ensures !Given(host) ==> r == ps
    ensures Given(host) ==> forall p :: p in r <==> p in ps && p.hostname == host.value
  {
    if Given(host) then Filter(ps, (p: ProjectInfo) => p.hostname == host.value) else ps
  }

  /** Drops trailing '/' characters, keeping a lone leading one: the root stays `/`. */
  function DropTrailingSlashes(s: string): (r: string)
    ensures |r| <= |s| && r == s[..|r|]
    ensures forall i :: |r| <= i < |s| ==> s[i] == '/'
    ensures s != [] ==> r != [] && r[0] == s[0]
    ensures |r| > 1 ==> r[|r| - 1] != '/'
  {
    if |s| > 1 && s[|s| - 1] == '/' then DropTrailingSlashes(s[..|s| - 1]) else s
  }

  /** `path.resolve(dir)`: a relative directory is joined under the current directory, and
   *  trailing slashes are dropped (`/a/b/` resolves to `/a/b`, `/` to `/`). */
  function ResolveDir(dir: string, cwd: string): (r: string)
    ensures Config.IsAbsolute(dir) ==> r == DropTrailingSlashes(dir)
    ensures !Config.IsAbsolute(dir) ==> r == DropTrailingSlashes(PathJoin(cwd, dir))
  {
    DropTrailingSlashes(Config.ResolveBaseDir(dir, cwd))
  }

  /** A trailing slash on the dir option makes no difference. */
  lemma TrailingSlashIgnored(dir: string, cwd: string)
    requires dir != ""
    ensures ResolveDir(dir + "/", cwd) == ResolveDir(dir, cwd)
  {
    if Config.IsAbsolute(dir) {
      assert Config.IsAbsolute(dir + "/") by {
        assert (dir + "/")[..1] == dir[..1];
      }
      assert (dir + "/")[..|dir|] == dir;
    } else {
      assert !Config.IsAbsolute(dir + "/") by {
        assert |dir + "/"| >= 1 && (dir + "/")[0] == dir[0];
        if |dir| >= 1 {
          assert (dir + "/")[..1] == dir[..1];
        }
      }
      var j := PathJoin(cwd, dir);
      assert PathJoin(cwd, dir + "/") == j + "/";
      assert (j + "/")[..|j|] == j;
    }
  }

  /** The dir filter is a plain string-prefix test against `path.resolve(dir)`. */
  function DirFilter(ps: seq<ProjectInfo>, cwd: string, dir: Option<string>): (r: seq<ProjectInfo>)
    ensures !Given(dir) ==> r == ps
    ensures Given(dir) ==> forall p :: p in r <==> p in ps && StartsWith(p.path, ResolveDir(dir.value, cwd))
  {
    if Given(dir) then
      var target := ResolveDir(dir.value, cwd);
      Filter(ps, (p: ProjectInfo) => StartsWith(p.path, target))
    else ps
  }

  /** Whether a project passes both filters. */
  predicate Keep(opts: ListOptions, cwd: string, p: ProjectInfo)
    ensures Keep(opts, cwd, p) <==> p in HostFilter([p], opts.host) && p in DirFilter([p], cwd, opts.dir)
  {
    && (Given(opts.host) ==> p.hostname == opts.host.value)
    && (Given(opts.dir) ==> StartsWith(p.path, ResolveDir(opts.dir.value, cwd)))
  }

  function Selected(ps: seq<ProjectInfo>, opts: ListOptions, cwd: string): (r: seq<ProjectInfo>)
    ensures forall p :: p in r <==> p in ps && Keep(opts, cwd, p)
  {
    DirFilter(HostFilter(ps, opts.host), cwd, opts.dir)
  }

  /** The two filters compose into one order-preserving filter by their conjunction. */
  lemma {:induction false} SelectedIsFilter(ps: seq<ProjectInfo>, opts: ListOptions, cwd: string)
    ensures Selected(ps, opts, cwd) == Filter(ps, (p: ProjectInfo) => Keep(opts, cwd, p))
  {
    var keep := (p: ProjectInfo) => Keep(opts, cwd, p);
    var h := HostFilter(ps, opts.host);
    if Given(opts.host) {
      var host := opts.host.value;
      if Given(opts.dir) {
        var target := ResolveDir(opts.dir.value, cwd);
        FilterFilter(ps, (p: ProjectInfo) => p.hostname == host, (p: ProjectInfo) => StartsWith(p.path, target), keep);
      } else {
        FilterCongruent(ps, (p: ProjectInfo) => p.hostname == host, keep);
      }
    } else if Given(opts.dir) {
      var target := ResolveDir(opts.dir.value, cwd);
      FilterCongruent(ps, (p: ProjectInfo) => StartsWith(p.path, target), keep);
    } else {
      FilterAll(ps, keep);
    }
  }

  lemma {:induction false} FilterAll<T(!new)>(s: seq<T>, f: T -> bool)
    requires forall x :: x in s ==> f(x)
    ensures Filter(s, f) == s
  {
    if s != [] {
      FilterAll(s[1..], f);
    }
  }

  /** The dir filter compares strings, not path components: `/a/bc` passes for `/a/b`, also when
   *  the option is written `/a/b/`. */
  lemma DirPrefixExample()
    ensures var p := ProjectInfo("github.com", "o", "bc", "/a/bc", "");
            DirFilter([p], "/", Some("/a/b")) == [p] && DirFilter([p], "/", Some("/a/b/")) == [p]
  {
    var p := ProjectInfo("github.com", "o", "bc", "/a/bc", "");
    assert ResolveDir("/a/b", "/") == "/a/b" by {
      assert Config.IsAbsolute("/a/b");
    }
    TrailingSlashIgnored("/a/b", "/");
    assert StartsWith(p.path, "/a/b");
  }

  // ---------------------------------------------------------------- table (lines 28-84)

  /** One printed line's cells, in column order. */
  datatype Row = Row(host: string, owner: string, repo: string, path: string, added: string)

  const Header := Row("Host", "Owner", "Repository", "Path", "Added At")

  datatype Widths = Widths(host: nat, owner: nat, repo: nat, path: nat, added: nat)

  function RowOf(p: ProjectInfo, formatPath: string -> string, formatDate: string -> string): Row {
    Row(p.hostname, p.owner, p.repo, formatPath(p.path), formatDate(p.addedAt))
  }

  function Rows(ps: seq<ProjectInfo>, formatPath: string -> string, formatDate: string -> string): (rows: seq<Row>)
    ensures |rows| == |ps|
    ensures forall i :: 0 <= i < |ps| ==> rows[i] == RowOf(ps[i], formatPath, formatDate)
  {
    seq(|ps|, i requires 0 <= i < |ps| => RowOf(ps[i], formatPath, formatDate))
  }

  /** `Math.max(title.length, ...cells.map(c => c.length))` */
  function ColumnWidth(title: string, cells: seq<string>): (w: nat)
    ensures |title| <= w
    ensures forall i :: 0 <= i < |cells| ==> |cells[i]| <= w
    ensures w == |title| || exists i :: 0 <= i < |cells| && w == |cells[i]|
    decreases |cells|
  {
    if cells == [] then |title|
    else
      var rest := ColumnWidth(title, cells[1..]);
      assert forall i :: 1 <= i < |cells| ==> cells[i] == cells[1..][i - 1];
      if |cells[0]| > rest then |cells[0]| else rest
  }

  datatype Column = HostColumn | OwnerColumn | RepoColumn | PathColumn | DateColumn

  function Cell(r: Row, c: Column): string {
    match c
    case HostColumn => r.host
    case OwnerColumn => r.owner
    case RepoColumn => r.repo
    case PathColumn => r.path
    case DateColumn => r.added
  }

  function WidthOf(w: Widths, c: Column): nat {
    match c
    case HostColumn => w.host
    case OwnerColumn => w.owner
    case RepoColumn => w.repo
    case PathColumn => w.path
    case DateColumn => w.added
  }

  /** One column's width over the header and `rows`. */
  function ColumnWidthOf(rows: seq<Row>, c: Column): (n: nat)
    ensures |Cell(Header, c)| <= n
    ensures forall i :: 0 <= i < |rows| ==> |Cell(rows[i], c)| <= n
    ensures n == |Cell(Header, c)| || exists i :: 0 <= i < |rows| && n == |Cell(rows[i], c)|
  {
    var cells := seq(|rows|, i requires 0 <= i < |rows| => Cell(rows[i], c));
    assert forall i :: 0 <= i < |rows| ==> cells[i] == Cell(rows[i], c);
    ColumnWidth(Cell(Header, c), cells)
  }

  /** Every cell of `r` fits its column. */
  predicate Fits(r: Row, w: Widths) {
    |r.host| <= w.host && |r.owner| <= w.owner && |r.repo| <= w.repo && |r.path| <= w.path && |r.added| <= w.added
  }

  /** Lines 39-58: each width is the longest of the header label and the column's cells. */
  function TableWidths(rows: seq<Row>): (w: Widths)
    ensures Fits(Header, w)
    ensures forall i :: 0 <= i < |rows| ==> Fits(rows[i], w)
    ensures forall c: Column :: WidthOf(w, c) == |Cell(Header, c)|
                                || exists i :: 0 <= i < |rows| && WidthOf(w, c) == |Cell(rows[i], c)|
  {
    Widths(ColumnWidthOf(rows, HostColumn), ColumnWidthOf(rows, OwnerColumn), ColumnWidthOf(rows, RepoColumn),
           ColumnWidthOf(rows, PathColumn), ColumnWidthOf(rows, DateColumn))
  }

  /** The width of every line printed with widths `w`. */
  function LineWidth(w: Widths): nat {
    w.host + w.owner + w.repo + w.path + w.added + 8
  }

  /** `cells.join('  ')` */
  function JoinCells(cells: seq<string>): string
    decreases |cells|
  {
    if cells == [] then "" else if |cells| == 1 then cells[0] else cells[0] + ("  " + JoinCells(cells[1..]))
  }

  /** Where cell `j` starts in the joined line. */
  function CellStart(cells: seq<string>, j: nat): nat
    requires j < |cells|
    decreases j
  {
    if j == 0 then 0 else |cells[0]| + 2 + CellStart(cells[1..], j - 1)
  }

  /** Each cell appears intact at its start... */
  lemma {:induction false} JoinCellsAt(cells: seq<string>, j: nat)
    requires j < |cells|
    ensures OccursAt(JoinCells(cells), cells[j], CellStart(cells, j))
    decreases j
  {
    var line := JoinCells(cells);
    if j == 0 {
      if |cells| > 1 {
        assert line[..|cells[0]|] == cells[0];
      }
    } else {
      JoinCellsAt(cells[1..], j - 1);
      var rest := JoinCells(cells[1..]);
      var k := CellStart(cells[1..], j - 1);
      assert line == (cells[0] + "  ") + rest;
      assert line[|cells[0]| + 2 + k..|cells[0]| + 2 + k + |cells[j]|] == rest[k..k + |cells[j]|];
    }
  }

  /** ... and the line ends with the last cell. */
  lemma {:induction false} JoinCellsLength(cells: seq<string>)
    requires cells != []
    ensures |JoinCells(cells)| == CellStart(cells, |cells| - 1) + |cells[|cells| - 1]|
    decreases |cells|
  {
    if |cells| > 1 {
      JoinCellsLength(cells[1..]);
    }
  }

  /** The padded cells of one line. */
  function Padded(r: Row, w: Widths): (p: seq<string>)
    ensures |p| == 5
    ensures StartsWith(p[0], r.host) && StartsWith(p[1], r.owner) && StartsWith(p[2], r.repo)
    ensures StartsWith(p[3], r.path) && StartsWith(p[4], r.added)
    ensures |p[0]| >= w.host && |p[1]| >= w.owner && |p[2]| >= w.repo && |p[3]| >= w.path && |p[4]| >= w.added
  {
    [PadEnd(r.host, w.host), PadEnd(r.owner, w.owner), PadEnd(r.repo, w.repo), PadEnd(r.path, w.path),
     PadEnd(r.added, w.added)]
  }

  /** Lines 61-67 and 74-80: the padded cells joined by two spaces. Since `padEnd` never truncates,
   *  a line is never narrower than the widths, and it starts with its first cell's text. */
  function Line(r: Row, w: Widths): (l: string)
    ensures |l| >= LineWidth(w)
    ensures StartsWith(l, r.host)
  {
    var p := Padded(r, w);
    CellStarts(p, |p[0]|, |p[1]|, |p[2]|, |p[3]|);
    JoinCellsLength(p);
    StartsWithTrans(r.host, p[0], JoinCells(p));
    JoinCells(p)
  }

  /** When every cell fits, each cell starts at its column (the width is `LineLength`). */
  lemma LineLayout(r: Row, w: Widths)
    requires Fits(r, w)
    ensures OccursAt(Line(r, w), r.host, 0) && OccursAt(Line(r, w), r.owner, w.host + 2)
            && OccursAt(Line(r, w), r.repo, w.host + w.owner + 4)
            && OccursAt(Line(r, w), r.path, w.host + w.owner + w.repo + 6)
            && OccursAt(Line(r, w), r.added, w.host + w.owner + w.repo + w.path + 8)
  {
    PaddedCells(r, w);
    JoinFive(Padded(r, w), r.host, r.owner, r.repo, r.path, r.added, w.host, w.owner, w.repo, w.path, w.added);
  }

  /** Five joined cells of widths `a`..`e`, each starting with the given text: the line's width and each text's column. */
  lemma JoinFive(p: seq<string>, s0: string, s1: string, s2: string, s3: string, s4: string,
                 a: nat, b: nat, c: nat, d: nat, e: nat)
    requires |p| == 5 && |p[0]| == a && |p[1]| == b && |p[2]| == c && |p[3]| == d && |p[4]| == e
    requires StartsWith(p[0], s0) && StartsWith(p[1], s1) && StartsWith(p[2], s2)
    requires StartsWith(p[3], s3) && StartsWith(p[4], s4)
    ensures |JoinCells(p)| == a + b + c + d + e + 8
    ensures OccursAt(JoinCells(p), s0, 0) && OccursAt(JoinCells(p), s1, a + 2)
    ensures OccursAt(JoinCells(p), s2, a + b + 4)
    ensures OccursAt(JoinCells(p), s3, a + b + c + 6)
    ensures OccursAt(JoinCells(p), s4, a + b + c + d + 8)
  {
    CellStarts(p, a, b, c, d);
    JoinCellsLength(p);
    LineCell(p, 0, s0);
    LineCell(p, 1, s1);
    LineCell(p, 2, s2);
    LineCell(p, 3, s3);
    LineCell(p, 4, s4);
  }

  lemma LineLength(r: Row, w: Widths)
    requires Fits(r, w)
    ensures |Line(r, w)| == LineWidth(w)
  {
    var p := Padded(r, w);
    PaddedCells(r, w);
    CellStarts(p, w.host, w.owner, w.repo, w.path);
    JoinCellsLength(p);
  }

  lemma LineCell(p: seq<string>, j: nat, s: string)
    requires j < |p| && StartsWith(p[j], s)
    ensures OccursAt(JoinCells(p), s, CellStart(p, j))
  {
    JoinCellsAt(p, j);
    CellAt(JoinCells(p), p[j], CellStart(p, j), s);
  }

  lemma PaddedCells(r: Row, w: Widths)
    requires Fits(r, w)
    ensures var p := Padded(r, w);
            && |p| == 5
            && |p[0]| == w.host && |p[1]| == w.owner && |p[2]| == w.repo && |p[3]| == w.path && |p[4]| == w.added
            && StartsWith(p[0], r.host) && StartsWith(p[1], r.owner) && StartsWith(p[2], r.repo)
            && StartsWith(p[3], r.path) && StartsWith(p[4], r.added)
  {
  }

  lemma CellStarts(p: seq<string>, a: nat, b: nat, c: nat, d: nat)
    requires |p| == 5 && |p[0]| == a && |p[1]| == b && |p[2]| == c && |p[3]| == d
    ensures CellStart(p, 1) == a + 2 && CellStart(p, 2) == a + b + 4
    ensures CellStart(p, 3) == a + b + c + 6 && CellStart(p, 4) == a + b + c + d + 8
  {
    var p1 := p[1..];
    var p2 := p1[1..];
    var p3 := p2[1..];
    assert p3[0] == p[3] && p2[0] == p[2] && p1[0] == p[1];
    assert CellStart(p3, 1) == d + 2;
    assert CellStart(p2, 2) == c + d + 4;
    assert CellStart(p1, 3) == b + c + d + 6;
  }

  lemma CellAt(line: string, cell: string, k: nat, s: string)
    requires OccursAt(line, cell, k) && StartsWith(cell, s)
    ensures OccursAt(line, s, k)
  {
    assert line[k..k + |s|] == cell[..|s|];
  }

  /** The rule under the header: `'─'.repeat(header.length)`. */
  function Rule(n: nat): (r: string)
    ensures |r| == n
    ensures forall i :: 0 <= i < n ==> r[i] == '\U{2500}'
  {
    seq(n, _ => '\U{2500}')
  }

  /** One line per row, in row order. */
  function BodyLines(rows: seq<Row>, w: Widths): (ls: seq<string>)
    ensures |ls| == |rows| && forall i :: 0 <= i < |rows| ==> ls[i] == Line(rows[i], w)
  {
    seq(|rows|, i requires 0 <= i < |rows| => Line(rows[i], w))
  }

  /** Everything `printTable` prints, in order: header, rule, one line per project. */
  function TableLines(rows: seq<Row>): (lines: seq<string>)
    ensures |lines| == |rows| + 2
    ensures lines[0] == Line(Header, TableWidths(rows)) && lines[1] == Rule(|lines[0]|)
    ensures lines[2..] == BodyLines(rows, TableWidths(rows))
  {
    var w := TableWidths(rows);
    var header := Line(Header, w);
    DropTwo(header, Rule(|header|), BodyLines(rows, w));
    [header, Rule(|header|)] + BodyLines(rows, w)
  }

  /** The table is aligned: the header, the rule and every row have the same length. */
  lemma TableAligned(rows: seq<Row>)
    ensures forall l :: l in TableLines(rows) ==> |l| == LineWidth(TableWidths(rows))
  {
    var lines := TableLines(rows);
    var w := TableWidths(rows);
    LineLength(Header, w);
    forall i | 0 <= i < |lines| ensures |lines[i]| == LineWidth(w) {
      if i >= 2 {
        assert lines[i] == lines[2..][i - 2] == Line(rows[i - 2], w);
        LineLength(rows[i - 2], w);
      }
    }
  }


  // ---------------------------------------------------------------- tree (lines 86-136)

  /** The two keys `printTree` groups by. */
  datatype Level = ByHost | ByOwner

  function KeyOf(level: Level, p: ProjectInfo): string {
    match level
    case ByHost => p.hostname
    case ByOwner => p.owner
  }

  /** The members of group `k`, in input order (the array the `reduce` pushes onto). */
  function GroupOf(ps: seq<ProjectInfo>, level: Level, k: string): (g: seq<ProjectInfo>)
    ensures forall p :: p in g <==> p in ps && KeyOf(level, p) == k
    decreases |ps|
  {
    if ps == [] then []
    else
      var init, last := ps[..|ps| - 1], ps[|ps| - 1];
      assert ps == init + [last];
      GroupOf(init, level, k) + (if KeyOf(level, last) == k then [last] else [])
  }

  /** A group is the order-preserving filter of the input by its key. */
  lemma {:induction false} GroupOfIsFilter(ps: seq<ProjectInfo>, level: Level, k: string)
    ensures GroupOf(ps, level, k) == Filter(ps, (p: ProjectInfo) => KeyOf(level, p) == k)
    decreases |ps|
  {
    if ps != [] {
      var init, last := ps[..|ps| - 1], ps[|ps| - 1];
      assert ps == init + [last];
      GroupOfIsFilter(init, level, k);
      FilterConcat(init, [last], (p: ProjectInfo) => KeyOf(level, p) == k);
      assert [last][1..] == [];
    }
  }

  /** The group keys in order of first appearance, which is the key order `Object.entries` gives. */
  function GroupKeys(ps: seq<ProjectInfo>, level: Level): (ks: seq<string>)
    ensures NoDup(ks)
    ensures forall k :: k in ks <==> exists i :: 0 <= i < |ps| && KeyOf(level, ps[i]) == k
    decreases |ps|
  {
    if ps == [] then []
    else
      var init := ps[..|ps| - 1];
      var ks := GroupKeys(init, level);
      var k := KeyOf(level, ps[|ps| - 1]);
      assert forall i :: 0 <= i < |init| ==> init[i] == ps[i];
      if k in ks then ks else ks + [k]
  }

  lemma GroupOfSnoc(ps: seq<ProjectInfo>, level: Level, k: string, x: ProjectInfo)
    ensures GroupOf(ps + [x], level, k) == GroupOf(ps, level, k) + (if KeyOf(level, x) == k then [x] else [])
  {
    assert (ps + [x])[..|ps|] == ps;
  }

  /** The accumulator the `reduce` builds: each key mapped to its group. */
  function GroupMap(ps: seq<ProjectInfo>, level: Level): map<string, seq<ProjectInfo>>
    decreases |ps|
  {
    if ps == [] then map[]
    else
      var m := GroupMap(ps[..|ps| - 1], level);
      var x := ps[|ps| - 1];
      var k := KeyOf(level, x);
      m[k := (if k in m then m[k] else []) + [x]]
  }

  /** The accumulator holds exactly the keys that occur, each with its group. */
  lemma {:induction false} GroupMapSpec(ps: seq<ProjectInfo>, level: Level)
    ensures forall k :: k in GroupMap(ps, level) <==> k in GroupKeys(ps, level)
    ensures forall k :: k in GroupMap(ps, level) ==> GroupMap(ps, level)[k] == GroupOf(ps, level, k)
    decreases |ps|
  {
    if ps != [] {
      var init, x := ps[..|ps| - 1], ps[|ps| - 1];
      assert ps == init + [x];
      GroupMapSpec(init, level);
      GroupKeysSnoc(init, level, x);
      var k := KeyOf(level, x);
      if k !in GroupMap(init, level) {
        GroupOfAbsent(init, level, k);
      }
      forall j | j in GroupMap(ps, level) ensures GroupMap(ps, level)[j] == GroupOf(ps, level, j) {
        GroupOfSnoc(init, level, j, x);
      }
    }
  }

  /** A key that never occurs has an empty group. */
  lemma {:induction false} GroupOfAbsent(ps: seq<ProjectInfo>, level: Level, k: string)
    requires k !in GroupKeys(ps, level)
    ensures GroupOf(ps, level, k) == []
    decreases |ps|
  {
    if ps != [] {
      GroupOfAbsent(ps[..|ps| - 1], level, k);
    }
  }

  lemma GroupKeysSnoc(ps: seq<ProjectInfo>, level: Level, x: ProjectInfo)
    ensures GroupKeys(ps + [x], level) ==
            if KeyOf(level, x) in GroupKeys(ps, level) then GroupKeys(ps, level) else GroupKeys(ps, level) + [KeyOf(level, x)]
  {
    assert (ps + [x])[..|ps|] == ps;
  }

  /** The properties a plain object `{}` inherits from `Object.prototype` in Node.js. Reading one on
   *  the accumulator gives a truthy value (a function, or the prototype itself for `__proto__`). */
  const InheritedKeys: set<string> :=
    {"constructor", "__defineGetter__", "__defineSetter__", "hasOwnProperty", "__lookupGetter__",
     "__lookupSetter__", "isPrototypeOf", "propertyIsEnumerable", "toString", "valueOf", "__proto__",
     "toLocaleString"}

  /** The `reduce` at `level` throws a TypeError: for an inherited key `acc[key]` is truthy, so it is
   *  never set to `[]`, and the inherited value has no `push`. */
  predicate GroupThrows(ps: seq<ProjectInfo>, level: Level) {
    Clashes(ps, level, InheritedKeys)
  }

  /** Some project's key at `level` is one of the accumulator's inherited properties `proto`. */
  predicate Clashes(ps: seq<ProjectInfo>, level: Level, proto: set<string>) {
    exists i :: 0 <= i < |ps| && KeyOf(level, ps[i]) in proto
  }

  /** One project with an inherited key makes the whole run throw. */
  lemma ClashAt(ps: seq<ProjectInfo>, level: Level, proto: set<string>, i: nat)
    requires i < |ps| && KeyOf(level, ps[i]) in proto
    ensures Clashes(ps, level, proto)
  {
  }

  /** When no group key is in `proto`, the run does not clash. */
  lemma NoClash(ps: seq<ProjectInfo>, level: Level, proto: set<string>)
    requires GroupMap(ps, level).Keys !! proto
    ensures !Clashes(ps, level, proto)
  {
    GroupMapSpec(ps, level);
    forall j | 0 <= j < |ps| ensures KeyOf(level, ps[j]) !in proto {
      assert KeyOf(level, ps[j]) in GroupKeys(ps, level);
    }
  }

  /** One step of the `reduce` on the prefix of length `i`: open the group if it is new, then push. */
  lemma GroupMapStep(ps: seq<ProjectInfo>, level: Level, i: nat)
    requires i < |ps|
    ensures var k := KeyOf(level, ps[i]);
            var m := GroupMap(ps[..i], level);
            && GroupMap(ps[..i + 1], level) == m[k := (if k in m then m[k] else []) + [ps[i]]]
            && GroupKeys(ps[..i + 1], level) == if k in m then GroupKeys(ps[..i], level) else GroupKeys(ps[..i], level) + [k]
  {
    var pre := ps[..i + 1];
    assert pre[..i] == ps[..i];
    GroupMapSpec(ps[..i], level);
  }

  /** The `reduce` of lines 97-106 and 113-122: push each project onto its key's group, or throw at
   *  the first project whose key is one of `proto`, the property names the accumulator inherits
   *  (`InheritedKeys` for the `{}` the source starts from). */
  method GroupBy(ps: seq<ProjectInfo>, level: Level, proto: set<string>)
    returns (thrown: bool, keys: seq<string>, groups: map<string, seq<ProjectInfo>>)
    ensures thrown <==> Clashes(ps, level, proto)
    ensures !thrown ==> keys == GroupKeys(ps, level) && groups == GroupMap(ps, level)
  {
    thrown, keys, groups := false, [], map[];
    var i := 0;
    while i < |ps|
      invariant 0 <= i <= |ps|
      invariant keys == GroupKeys(ps[..i], level) && groups == GroupMap(ps[..i], level)
      invariant groups.Keys !! proto
    {
      var p := ps[i];
      var k := KeyOf(level, p);
      if k in proto {
        ClashAt(ps, level, proto, i);
        return true, keys, groups;
      }
      GroupMapStep(ps, level, i);
      if k !in groups {
        keys := keys + [k];
      }
      groups := groups[k := (if k in groups then groups[k] else []) + [p]];
      i := i + 1;
    }
    assert ps[..i] == ps;
    NoClash(ps, level, proto);
  }

  datatype OwnerGroup = OwnerGroup(owner: string, projects: seq<ProjectInfo>)
  datatype HostGroup = HostGroup(hostname: string, owners: seq<OwnerGroup>)

  /** The owner groups of one host's projects. */
  function OwnerGroups(ps: seq<ProjectInfo>): (gs: seq<OwnerGroup>)
    ensures |gs| == |GroupKeys(ps, ByOwner)|
    ensures forall j :: 0 <= j < |gs| ==> gs[j] == OwnerGroup(GroupKeys(ps, ByOwner)[j], GroupOf(ps, ByOwner, GroupKeys(ps, ByOwner)[j]))
  {
    var ks := GroupKeys(ps, ByOwner);
    seq(|ks|, j requires 0 <= j < |ks| => OwnerGroup(ks[j], GroupOf(ps, ByOwner, ks[j])))
  }

  function HostGroupOf(ps: seq<ProjectInfo>, h: string): HostGroup {
    HostGroup(h, OwnerGroups(GroupOf(ps, ByHost, h)))
  }

  /** The tree `printTree` prints: hosts, then owners, then projects. */
  function Tree(ps: seq<ProjectInfo>): (t: seq<HostGroup>)
    ensures |t| == |GroupKeys(ps, ByHost)|
    ensures forall i :: 0 <= i < |t| ==> t[i] == HostGroupOf(ps, GroupKeys(ps, ByHost)[i])
  {
    var hs := GroupKeys(ps, ByHost);
    seq(|hs|, i requires 0 <= i < |hs| => HostGroupOf(ps, hs[i]))
  }

  /** The owner level of one host, built from the `reduce` over that host's projects; `None` when
   *  that `reduce` throws. */
  method BuildOwnerGroups(ps: seq<ProjectInfo>) returns (gs: Option<seq<OwnerGroup>>)
    ensures gs.None? <==> GroupThrows(ps, ByOwner)
    ensures gs.Some? ==> gs.value == OwnerGroups(ps)
  {
    var thrown, keys, groups := GroupBy(ps, ByOwner, InheritedKeys);
    if thrown {
      return None;
    }
    GroupMapSpec(ps, ByOwner);
    var owners := seq(|keys|, j requires 0 <= j < |keys| => OwnerGroup(keys[j], groups[keys[j]]));
    SamePointwise(owners, OwnerGroups(ps));
    gs := Some(owners);
  }

  /** One host's subtree, from the projects the outer `reduce` collected for it. */
  method BuildHostGroup(ps: seq<ProjectInfo>, h: string, members: seq<ProjectInfo>) returns (g: Option<HostGroup>)
    requires members == GroupOf(ps, ByHost, h)
    ensures g.None? <==> GroupThrows(members, ByOwner)
    ensures g.Some? ==> g.value == HostGroupOf(ps, h)
  {
    var owners := BuildOwnerGroups(members);
    if owners.None? {
      return None;
    }
    g := Some(HostGroup(h, owners.value));
  }

  /** `printTree` throws when either level's `reduce` does. */
  predicate TreeThrows(ps: seq<ProjectInfo>) {
    GroupThrows(ps, ByHost) || GroupThrows(ps, ByOwner)
  }

  /** Lines 97-135: the tree `printTree` prints, or `None` for the TypeError it throws. */
  method BuildTree(ps: seq<ProjectInfo>) returns (t: Option<seq<HostGroup>>)
    ensures t.None? <==> TreeThrows(ps)
    ensures t.Some? ==> t.value == Tree(ps)
  {
    var thrown, hosts, groups := GroupBy(ps, ByHost, InheritedKeys);
    if thrown {
      return None;
    }
    GroupMapSpec(ps, ByHost);
    ghost var tree := Tree(ps);
    var built := [];
    var i := 0;
    while i < |hosts|
      invariant 0 <= i <= |hosts|
      invariant |built| == i
      invariant forall k :: 0 <= k < i ==> built[k] == tree[k]
      invariant forall k :: 0 <= k < i ==> !GroupThrows(GroupOf(ps, ByHost, hosts[k]), ByOwner)
    {
      var g := BuildHostGroup(ps, hosts[i], groups[hosts[i]]);
      if g.None? {
        OwnerThrowsInHost(ps, hosts[i]);
        return None;
      }
      SnocPointwise(built, g.value, tree);
      built := built + [g.value];
      i := i + 1;
    }
    SamePointwise(built, tree);
    NoOwnerThrows(ps, hosts);
    t := Some(built);
  }

  /** A host group whose owner `reduce` throws makes the whole tree throw. */
  lemma OwnerThrowsInHost(ps: seq<ProjectInfo>, h: string)
    requires GroupThrows(GroupOf(ps, ByHost, h), ByOwner)
    ensures GroupThrows(ps, ByOwner)
  {
    var g := GroupOf(ps, ByHost, h);
    var j :| 0 <= j < |g| && KeyOf(ByOwner, g[j]) in InheritedKeys;
    assert g[j] in ps;
    var n :| 0 <= n < |ps| && ps[n] == g[j];
  }

  /** When no host group's owner `reduce` throws, no owner of the input is an inherited key. */
  lemma NoOwnerThrows(ps: seq<ProjectInfo>, hosts: seq<string>)
    requires hosts == GroupKeys(ps, ByHost)
    requires forall k :: 0 <= k < |hosts| ==> !GroupThrows(GroupOf(ps, ByHost, hosts[k]), ByOwner)
    ensures !GroupThrows(ps, ByOwner)
  {
    forall n | 0 <= n < |ps| ensures KeyOf(ByOwner, ps[n]) !in InheritedKeys {
      var h := ps[n].hostname;
      assert KeyOf(ByHost, ps[n]) == h;
      assert h in hosts;
      var k :| 0 <= k < |hosts| && hosts[k] == h;
      var g := GroupOf(ps, ByHost, h);
      assert ps[n] in g;
      var j :| 0 <= j < |g| && g[j] == ps[n];
      assert KeyOf(ByOwner, g[j]) !in InheritedKeys;
    }
  }


  /** Every project in the tree sits under its own host and owner. */
  lemma TreeSound(ps: seq<ProjectInfo>, i: nat, j: nat, p: ProjectInfo)
    requires i < |Tree(ps)| && j < |Tree(ps)[i].owners|
    requires p in Tree(ps)[i].owners[j].projects
    ensures p in ps
    ensures p.hostname == Tree(ps)[i].hostname && p.owner == Tree(ps)[i].owners[j].owner
  {
    var h := GroupKeys(ps, ByHost)[i];
    var hp := GroupOf(ps, ByHost, h);
    assert Tree(ps)[i].owners[j] == OwnerGroups(hp)[j];
  }

  /** Every project appears in the tree ... */
  lemma TreeComplete(ps: seq<ProjectInfo>, p: ProjectInfo)
    requires p in ps
    ensures exists i, j :: 0 <= i < |Tree(ps)| && 0 <= j < |Tree(ps)[i].owners| && p in Tree(ps)[i].owners[j].projects
  {
    var t := Tree(ps);
    var hs := GroupKeys(ps, ByHost);
    var n :| 0 <= n < |ps| && ps[n] == p;
    assert p.hostname in hs by { assert KeyOf(ByHost, ps[n]) == p.hostname; }
    var i :| 0 <= i < |hs| && hs[i] == p.hostname;
    var hp := GroupOf(ps, ByHost, hs[i]);
    assert p in hp;
    var os := GroupKeys(hp, ByOwner);
    var m :| 0 <= m < |hp| && hp[m] == p;
    assert p.owner in os by { assert KeyOf(ByOwner, hp[m]) == p.owner; }
    var j :| 0 <= j < |os| && os[j] == p.owner;
    assert t[i].owners[j] == OwnerGroups(hp)[j];
    assert p in t[i].owners[j].projects;
  }

  /** ... and in only one place. */
  lemma TreeUnique(ps: seq<ProjectInfo>, p: ProjectInfo, i: nat, j: nat, i': nat, j': nat)
    requires i < |Tree(ps)| && j < |Tree(ps)[i].owners| && p in Tree(ps)[i].owners[j].projects
    requires i' < |Tree(ps)| && j' < |Tree(ps)[i'].owners| && p in Tree(ps)[i'].owners[j'].projects
    ensures i == i' && j == j'
  {
    TreeSound(ps, i, j, p);
    TreeSound(ps, i', j', p);
    assert GroupKeys(ps, ByHost)[i] == GroupKeys(ps, ByHost)[i'];
    assert i == i';
    var hp := GroupOf(ps, ByHost, GroupKeys(ps, ByHost)[i]);
    assert GroupKeys(hp, ByOwner)[j] == GroupKeys(hp, ByOwner)[j'];
  }

  /** Within a leaf, projects keep their input order: the leaf is a filter of the input. */
  lemma TreeLeafOrder(ps: seq<ProjectInfo>, i: nat, j: nat)
    requires i < |Tree(ps)| && j < |Tree(ps)[i].owners|
    ensures var h, o := Tree(ps)[i].hostname, Tree(ps)[i].owners[j].owner;
            Tree(ps)[i].owners[j].projects == Filter(ps, (p: ProjectInfo) => p.hostname == h && p.owner == o)
  {
    var h := GroupKeys(ps, ByHost)[i];
    var hp := GroupOf(ps, ByHost, h);
    var o := GroupKeys(hp, ByOwner)[j];
    assert Tree(ps)[i].owners[j] == OwnerGroups(hp)[j];
    GroupOfIsFilter(ps, ByHost, h);
    GroupOfIsFilter(hp, ByOwner, o);
    FilterFilter(ps, (p: ProjectInfo) => KeyOf(ByHost, p) == h, (p: ProjectInfo) => KeyOf(ByOwner, p) == o, (p: ProjectInfo) => p.hostname == h && p.owner == o);
  }

  /** Groups come in order of first appearance: the keys of a prefix are a prefix of the keys. */
  lemma {:induction false} GroupKeysPrefix(ps: seq<ProjectInfo>, level: Level, n: nat)
    requires n <= |ps|
    ensures GroupKeys(ps[..n], level) <= GroupKeys(ps, level)
    decreases |ps|
  {
    if n < |ps| {
      var init := ps[..|ps| - 1];
      assert init[..n] == ps[..n];
      GroupKeysPrefix(init, level, n);
    } else {
      assert ps[..n] == ps;
    }
  }

  // ---------------------------------------------------------------- list (lines 138-172)

  datatype ListOutcome =
    | NoneFound                                             // lines 156-159: a warning only
    | TableOut(count: nat, lines: seq<string>)              // `Found <n> projects`, then the table
    | TreeOut(count: nat, tree: seq<HostGroup>)             // `Found <n> projects`, then the tree
    | TreeFailed                                            // lines 166-171: `printTree` throws; logged, rethrown

  function ListProjects(ps: seq<ProjectInfo>, opts: ListOptions, cwd: string,
                        formatPath: string -> string, formatDate: string -> string): (o: ListOutcome)
    ensures o == NoneFound <==> Selected(ps, opts, cwd) == []
    ensures o.TableOut? <==> Selected(ps, opts, cwd) != [] && opts.format.GetOr("table") == "table"
    ensures o.TableOut? ==> o.count == |Selected(ps, opts, cwd)|
                            && o.lines == TableLines(Rows(Selected(ps, opts, cwd), formatPath, formatDate))
    ensures o.TreeFailed? <==> Selected(ps, opts, cwd) != [] && opts.format.GetOr("table") != "table"
                               && TreeThrows(Selected(ps, opts, cwd))
    ensures o.TreeOut? ==> o.count == |Selected(ps, opts, cwd)| && o.tree == Tree(Selected(ps, opts, cwd))
                           && !TreeThrows(Selected(ps, opts, cwd))
  {
    var selected := Selected(ps, opts, cwd);
    if |selected| == 0 then NoneFound
    else if opts.format.GetOr("table") == "table" then
      TableOut(|selected|, TableLines(Rows(selected, formatPath, formatDate)))
    else if TreeThrows(selected) then TreeFailed
    else TreeOut(|selected|, Tree(selected))
  }
}
