/**
 * The tool's configuration: the host table, lookups in it, and how the user's
 * settings are merged over the defaults (src/config.ts).
 */
module Config {
  import opened Wrappers
  import opened Strings
  import opened Seqs

  /** One configured git host. */
  datatype HostConfig = HostConfig(alias: string, hostname: string, baseDir: Option<string>, preferSSH: Option<bool>)

  /** A `Record<string, HostConfig>`: its entries in insertion order, the order `Object.values` yields them. */
  type HostTable = seq<(string, HostConfig)>

  datatype Config = Config(baseDir: string, host: HostTable)

  /** The parsed user file: every field may be absent. */
  datatype RawConfig = RawConfig(baseDir: Option<string>, host: Option<HostTable>)

  /** `DEFAULT_CONFIG`, for the user's home directory `home`. */
  function DefaultConfig(home: string): (c: Config)
    ensures c.baseDir == PathJoin(home, "workspace")
    ensures Keys(c.host) == ["github", "gitlab"]
    ensures forall i :: 0 <= i < |c.host| ==> c.host[i].1.baseDir.None? && c.host[i].1.preferSSH == Some(true)
  {
    Config(PathJoin(home, "workspace"),
      [("github", HostConfig("gh", "github.com", None, Some(true))),
       ("gitlab", HostConfig("gl", "gitlab.com", None, Some(true)))])
  }

  function Keys(t: HostTable): seq<string> {
    seq(|t|, i requires 0 <= i < |t| => t[i].0)
  }

  // ---------------------------------------------------------------- lookups

  datatype HostField = AliasField | HostnameField

  function FieldOf(h: HostConfig, f: HostField): string {
    match f
    case AliasField => h.alias
    case HostnameField => h.hostname
  }

  /** `Object.values(t).findIndex(host => host[f] === v)`, as an option. */
  function FirstHost(t: HostTable, f: HostField, v: string): (i: Option<nat>)
    ensures i.Some? ==> i.value < |t| && FieldOf(t[i.value].1, f) == v
    ensures i.Some? ==> forall j :: 0 <= j < i.value ==> FieldOf(t[j].1, f) != v
    ensures i.None? ==> forall j :: 0 <= j < |t| ==> FieldOf(t[j].1, f) != v
  {
    if t == [] then None
    else if FieldOf(t[0].1, f) == v then Some(0)
    else
      match FirstHost(t[1..], f, v)
      case None => None
      case Some(j) => Some(j + 1)
  }

  /** `findHostByAlias`: the first host, in table order, whose alias is `alias`. */
  function FindHostByAlias(config: Config, alias: string): (r: Option<HostConfig>)
    ensures r.None? <==> forall j :: 0 <= j < |config.host| ==> config.host[j].1.alias != alias
    ensures r.Some? ==> exists i :: 0 <= i < |config.host| && config.host[i].1 == r.value
                                   && r.value.alias == alias
                                   && forall j :: 0 <= j < i ==> config.host[j].1.alias != alias
  {
    match FirstHost(config.host, AliasField, alias)
    case None => None
    case Some(i) => Some(config.host[i].1)
  }

  /** `findHostByHostname`: the first host, in table order, whose hostname is `hostname`. */
  function FindHostByHostname(config: Config, hostname: string): (r: Option<HostConfig>)
    ensures r.None? <==> forall j :: 0 <= j < |config.host| ==> config.host[j].1.hostname != hostname
    ensures r.Some? ==> exists i :: 0 <= i < |config.host| && config.host[i].1 == r.value
                                   && r.value.hostname == hostname
                                   && forall j :: 0 <= j < i ==> config.host[j].1.hostname != hostname
  {
    match FirstHost(config.host, HostnameField, hostname)
    case None => None
    case Some(i) => Some(config.host[i].1)
  }

  // ---------------------------------------------------------------- merging

  /** The value stored under key `k`. */
  function Lookup(t: HostTable, k: string): Option<HostConfig> {
    if t == [] then None else if t[0].0 == k then Some(t[0].1) else Lookup(t[1..], k)
  }

  /** Setting property `k` of an object: an existing key keeps its place and takes the new value, a new key goes last. */
  function Assign(t: HostTable, k: string, v: HostConfig): (r: HostTable)
    ensures Lookup(r, k) == Some(v)
    ensures |r| == |t| || |r| == |t| + 1
  {
    if t == [] then [(k, v)]
    else if t[0].0 == k then [(k, v)] + t[1..]
    else [t[0]] + Assign(t[1..], k, v)
  }

  /** `{...base, ...over}`: the entries of `over` set one after the other onto `base`. */
  function Spread(base: HostTable, over: HostTable): (r: HostTable)
    ensures forall k :: Lookup(r, k).Some? <==> Lookup(base, k).Some? || Lookup(over, k).Some?
    decreases |over|
  {
    if over == [] then base
    else
      var a := Assign(base, over[0].0, over[0].1);
      forall k ensures Lookup(a, k).Some? <==> Lookup(base, k).Some? || k == over[0].0 {
        AssignLookup(base, over[0].0, over[0].1, k);
      }
      Spread(a, over[1..])
  }

  /** The object built at lines 47-54: user fields over the defaults, host tables merged key by key. */
  function Merge(defaults: Config, raw: RawConfig): (c: Config)
    ensures c.baseDir == if raw.baseDir.Some? then raw.baseDir.value else defaults.baseDir
    ensures forall k :: Lookup(c.host, k).Some? <==>
                          Lookup(defaults.host, k).Some? || (raw.host.Some? && Lookup(raw.host.value, k).Some?)
  {
    Config(raw.baseDir.GetOr(defaults.baseDir), Spread(defaults.host, raw.host.GetOr([])))
  }

  lemma {:induction false} LookupAbsent(t: HostTable, k: string)
    requires k !in Keys(t)
    ensures Lookup(t, k) == None
  {
    if t != [] {
      assert Keys(t)[0] == t[0].0;
      assert Keys(t[1..]) == Keys(t)[1..];
      LookupAbsent(t[1..], k);
    }
  }

  lemma {:induction false} AssignLookup(t: HostTable, k: string, v: HostConfig, k': string)
    ensures Lookup(Assign(t, k, v), k') == if k' == k then Some(v) else Lookup(t, k')
  {
    if t != [] && t[0].0 != k {
      AssignLookup(t[1..], k, v, k');
    }
  }

  lemma {:induction false} AssignKeys(t: HostTable, k: string, v: HostConfig)
    ensures Keys(Assign(t, k, v)) == if k in Keys(t) then Keys(t) else Keys(t) + [k]
  {
    if t != [] {
      assert t == [t[0]] + t[1..];
      KeysCons(t[0], t[1..]);
      if t[0].0 == k {
        KeysCons((k, v), t[1..]);
      } else {
        AssignKeys(t[1..], k, v);
        KeysCons(t[0], Assign(t[1..], k, v));
        AppendAssoc([t[0].0], Keys(t[1..]), [k]);
      }
    }
  }

  // Solver aid: `Keys` of a sequence with a first element.
  lemma KeysCons(e: (string, HostConfig), t: HostTable)
    ensures Keys([e] + t) == [e.0] + Keys(t)
  {
    assert forall i :: 0 <= i < |t| + 1 ==> Keys([e] + t)[i] == ([e.0] + Keys(t))[i];
    SamePointwise(Keys([e] + t), [e.0] + Keys(t));
  }

  /**
   * Merge rule for hosts: a key present in the user's table takes the user's entry
   * whole; every other key keeps the default entry.
   */
  lemma {:induction false} SpreadLookup(base: HostTable, over: HostTable, k: string)
    requires NoDup(Keys(over))
    ensures Lookup(Spread(base, over), k) == if Lookup(over, k).Some? then Lookup(over, k) else Lookup(base, k)
    decreases |over|
  {
    if over != [] {
      var k0, v0 := over[0].0, over[0].1;
      assert Keys(over[1..]) == Keys(over)[1..];
      SpreadLookup(Assign(base, k0, v0), over[1..], k);
      AssignLookup(base, k0, v0, k);
      if k == k0 {
        assert Keys(over)[0] == k0;
        assert forall j :: 0 <= j < |over| - 1 ==> Keys(over[1..])[j] == Keys(over)[j + 1] != k0;
        LookupAbsent(over[1..], k);
      }
    }
  }

  /**
   * Order of the merged host table: the default keys first, in their own order, then
   * the user's new keys in the user's order.
   */
  lemma {:induction false} SpreadKeys(base: HostTable, over: HostTable)
    requires NoDup(Keys(over))
    ensures Keys(Spread(base, over)) == Keys(base) + Filter(Keys(over), k => k !in Keys(base))
    decreases |over|
  {
    if over != [] {
      var k0, v0 := over[0].0, over[0].1;
      var a := Assign(base, k0, v0);
      var rest := Keys(over[1..]);
      var f, g := k => k !in Keys(base), k => k !in Keys(a);
      assert Keys(over) == [k0] + rest;
      assert rest == Keys(over)[1..];
      assert NoDup(rest);
      SpreadKeys(a, over[1..]);
      AssignKeys(base, k0, v0);
      assert k0 !in rest by {
        assert forall j :: 0 <= j < |rest| ==> rest[j] == Keys(over)[j + 1];
      }
      assert forall k :: (k in Keys(a)) == (k in Keys(base) || k == k0);
      FilterCongruent(rest, g, f);
      FilterCons(k0, rest, f);
      assert Keys(Spread(base, over)) == Keys(a) + Filter(rest, f);
      if k0 in Keys(base) {
        assert Filter(Keys(over), f) == Filter(rest, f);
      } else {
        assert Filter(Keys(over), f) == [k0] + Filter(rest, f);
        AppendAssoc(Keys(base), [k0], Filter(rest, f));
      }
    }
  }

  // ---------------------------------------------------------------- base directories

  /** `path.isAbsolute` on POSIX paths. */
  predicate IsAbsolute(p: string) {
    StartsWith(p, "/")
  }

  /** `resolveBaseDir`: an absolute directory stays as it is; a clean relative one is placed under a
   *  clean root. */
  function ResolveBaseDir(baseDir: string, rootBaseDir: string): (r: string)
    ensures IsAbsolute(baseDir) ==> r == baseDir
    ensures !IsAbsolute(baseDir) && CleanPath(rootBaseDir) && CleanRelative(baseDir) ==>
              StartsWith(r, rootBaseDir + "/") && EndsWith(r, baseDir)
    ensures IsAbsolute(rootBaseDir) ==> IsAbsolute(r)
  {
    if IsAbsolute(baseDir) then baseDir
    else
      var r := PathJoin(rootBaseDir, baseDir);
      assert r[|r| - |baseDir|..] == baseDir;
      assert r[..|rootBaseDir + "/"|] == rootBaseDir + "/";
      assert IsAbsolute(rootBaseDir) ==> r[..1] == rootBaseDir[..1];
      r
  }

  /** One step of the loop at lines 57-61: a set, non-empty `baseDir` is resolved in place. */
  function ResolveHost(h: HostConfig, root: string): (r: HostConfig)
    ensures r.alias == h.alias && r.hostname == h.hostname && r.preferSSH == h.preferSSH
    ensures h.baseDir.None? || h.baseDir == Some("") ==> r == h
    ensures h.baseDir.Some? && h.baseDir.value != "" ==>
              r.baseDir.Some? && (IsAbsolute(h.baseDir.value) ==> r.baseDir == h.baseDir)
  {
    if h.baseDir.Some? && h.baseDir.value != "" then h.(baseDir := Some(ResolveBaseDir(h.baseDir.value, root)))
    else h
  }

  /** The configuration after the loop at lines 56-61. */
  function Resolved(c: Config): (r: Config)
    ensures r.baseDir == c.baseDir && Keys(r.host) == Keys(c.host)
  {
    Config(c.baseDir, seq(|c.host|, i requires 0 <= i < |c.host| => (c.host[i].0, ResolveHost(c.host[i].1, c.baseDir))))
  }

  /** The loop at lines 56-61, which overwrites `hostConfig.baseDir` entry by entry. */
  method ResolveHostDirs(c: Config) returns (r: Config)
    ensures r == Resolved(c)
  {
    var hosts := c.host;
    var i := 0;
    while i < |hosts|
      invariant 0 <= i <= |hosts| == |c.host|
      invariant forall j :: 0 <= j < i ==> hosts[j] == (c.host[j].0, ResolveHost(c.host[j].1, c.baseDir))
      invariant forall j :: i <= j < |hosts| ==> hosts[j] == c.host[j]
    {
      var (key, host) := hosts[i];
      if host.baseDir.Some? && host.baseDir.value != "" {
        hosts := hosts[i := (key, host.(baseDir := Some(ResolveBaseDir(host.baseDir.value, c.baseDir))))];
      }
      i := i + 1;
    }
    SamePointwise(hosts, Resolved(c).host);
    r := Config(c.baseDir, hosts);
  }

  /**
   * `getConfig`. `raw` is what reading and parsing the user's file produced, `None`
   * when either failed.
   */
  method GetConfig(home: string, raw: Option<RawConfig>) returns (c: Config)
    ensures raw.None? ==> c == DefaultConfig(home)
    ensures raw.Some? ==> c == Resolved(Merge(DefaultConfig(home), raw.value))
  {
    if raw.None? {
      return DefaultConfig(home);
    }
    var merged := Merge(DefaultConfig(home), raw.value);
    c := ResolveHostDirs(merged);
  }

  /** After resolution every host keeps its key, alias, hostname and `preferSSH`, and only a set `baseDir` changes. */
  lemma ResolvedHost(c: Config, i: nat)
    requires i < |c.host|
    ensures |Resolved(c).host| == |c.host|
    ensures var (k, h) := c.host[i]; var (k', h') := Resolved(c).host[i];
      && k' == k && h'.alias == h.alias && h'.hostname == h.hostname && h'.preferSSH == h.preferSSH
      && (h.baseDir.None? || h.baseDir == Some("") ==> h'.baseDir == h.baseDir)
      && (h.baseDir.Some? && h.baseDir.value != "" ==> h'.baseDir == Some(ResolveBaseDir(h.baseDir.value, c.baseDir)))
  {
  }

  /**
   * The configuration a successful read yields, key by key: the user's entry for a key the
   * user set and the default entry otherwise, with its `baseDir` resolved against the merged root.
   */
  lemma {:induction false} GetConfigHost(home: string, raw: RawConfig, k: string)
    requires raw.host.Some? ==> NoDup(Keys(raw.host.value))
    ensures var c := Resolved(Merge(DefaultConfig(home), raw));
            var chosen := if raw.host.Some? && Lookup(raw.host.value, k).Some? then Lookup(raw.host.value, k)
                          else Lookup(DefaultConfig(home).host, k);
            && c.baseDir == raw.baseDir.GetOr(PathJoin(home, "workspace"))
            && Lookup(c.host, k) == (if chosen.Some? then Some(ResolveHost(chosen.value, c.baseDir)) else None)
  {
    var m := Merge(DefaultConfig(home), raw);
    var over := raw.host.GetOr([]);
    if raw.host.None? {
      assert over == [];
    }
    SpreadLookup(DefaultConfig(home).host, over, k);
    LookupResolved(m.host, m.baseDir, k);
    assert Resolved(Config(m.baseDir, m.host)) == Resolved(m);
  }

  lemma {:induction false} LookupResolved(t: HostTable, root: string, k: string)
    ensures var r := Resolved(Config(root, t)).host;
            Lookup(r, k) == if Lookup(t, k).Some? then Some(ResolveHost(Lookup(t, k).value, root)) else None
  {
    if t != [] {
      LookupResolved(t[1..], root, k);
      assert Resolved(Config(root, t)).host[1..] == Resolved(Config(root, t[1..])).host;
    }
  }
}
