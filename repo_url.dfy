/**
 * The two input grammars of the tool, written out as string functions:
 *  - the alias form `^([^:@]+):([^/]+)\/([^/]+)$` (src/commands/add.ts:24), and
 *  - the git URL form `(?:https?:\/\/|git@)([^/:]+)[/:]([^/]+)\/([^/]+?)(?:\.git)?$`,
 *    which is not anchored at the start (src/commands/add.ts:43-44, src/commands/scan.ts:46).
 * Each comes with a declarative description of what the regular expression accepts and
 * a proof that the function returns exactly the groups of the match.
 */
module RepoUrl {
  import opened Wrappers
  import opened Strings

  /** The canonical name of a remote repository. */
  datatype Identity = Identity(hostname: string, owner: string, repo: string)

  /** `[^/]+` */
  predicate Segment(s: string) {
    |s| > 0 && '/' !in s
  }

  /** `[^/:]+` */
  predicate HostSegment(s: string) {
    |s| > 0 && '/' !in s && ':' !in s
  }

  /** `[^:@]+` */
  predicate AliasSegment(s: string) {
    |s| > 0 && ':' !in s && '@' !in s
  }

  // ================================================================ alias:owner/repo

  datatype AliasParts = AliasParts(alias: string, owner: string, repo: string)

  /** `s` is `a:o/r` with the three groups drawn from their character classes. */
  ghost predicate AliasForm(s: string, a: string, o: string, r: string) {
    AliasSegment(a) && Segment(o) && Segment(r) && s == a + ":" + o + "/" + r
  }

  /** `s.match(aliasPattern)` */
  function MatchAlias(s: string): (m: Option<AliasParts>)
    ensures m.Some? ==> AliasForm(s, m.value.alias, m.value.owner, m.value.repo)
  {
    var i := StopAt(s, ':', ':');
    if i == 0 || i == |s| || '@' in s[..i] then None
    else
      var rest := s[i + 1..];
      var j := StopAt(rest, '/', '/');
      if j == 0 || j + 1 >= |rest| || '/' in rest[j + 1..] then None
      else
        assert rest == rest[..j] + "/" + rest[j + 1..];
        assert s == s[..i] + ":" + rest;
        Some(AliasParts(s[..i], rest[..j], rest[j + 1..]))
  }

  /** Every string of the alias form is matched, with exactly its groups. */
  lemma MatchAliasComplete(s: string, a: string, o: string, r: string)
    requires AliasForm(s, a, o, r)
    ensures MatchAlias(s) == Some(AliasParts(a, o, r))
  {
    assert s[..|a|] == a;
    assert s[|a|] == ':';
    StopAtIs(s, ':', ':', |a|);
    var rest := s[|a| + 1..];
    assert rest == o + "/" + r;
    assert rest[..|o|] == o;
    assert rest[|o|] == '/';
    StopAtIs(rest, '/', '/', |o|);
    assert rest[|o| + 1..] == r;
  }

  /** The alias grammar accepts `s` exactly when `MatchAlias` does, and with the same groups. */
  lemma MatchAliasIff(s: string, a: string, o: string, r: string)
    ensures MatchAlias(s) == Some(AliasParts(a, o, r)) <==> AliasForm(s, a, o, r)
  {
    if AliasForm(s, a, o, r) {
      MatchAliasComplete(s, a, o, r);
    }
  }

  // ================================================================ git URLs

  /** `https?:\/\/|git@` */
  ghost predicate IsScheme(pre: string) {
    pre == "https://" || pre == "http://" || pre == "git@"
  }

  /** What `([^/]+?)(?:\.git)?$` accepts: the repo group is lazy, so it leaves a final `.git`
   *  to the optional part whenever that still leaves it non-empty. */
  ghost predicate RepoSplit(repo: string, ext: string) {
    && Segment(repo)
    && (ext == "" || ext == ".git")
    && (ext == "" ==> !(|repo| > 4 && EndsWith(repo, ".git")))
  }

  /**
   * `t` splits as scheme, host group, separator, owner group, `/`, repo group and an optional
   * `.git`, running to the end of `t`.
   */
  ghost predicate UrlSplit(t: string, pre: string, host: string, sep: char, owner: string, repo: string, ext: string) {
    && IsScheme(pre)
    && HostSegment(host)
    && (sep == '/' || sep == ':')
    && Segment(owner)
    && RepoSplit(repo, ext)
    && t == pre + (host + ([sep] + (owner + ("/" + (repo + ext)))))
  }

  /** The URL pattern matches `s` starting at index `p`, with groups `id`. */
  ghost predicate UrlMatchAt(s: string, p: nat, id: Identity) {
    p <= |s| && exists pre, sep, ext :: UrlSplit(s[p..], pre, id.hostname, sep, id.owner, id.repo, ext)
  }

  ghost predicate UrlMatchesAt(s: string, p: nat) {
    exists id :: UrlMatchAt(s, p, id)
  }

  /** The result of `s.match(urlPattern)`: the groups of the match that starts leftmost. */
  ghost predicate UrlRegexMatch(s: string, id: Identity) {
    exists p: nat :: UrlMatchAt(s, p, id) && forall q: nat :: q < p ==> !UrlMatchesAt(s, q)
  }

  /** Length of the scheme `t` starts with, or 0. */
  function SchemeLength(t: string): nat {
    if StartsWith(t, "https://") then 8
    else if StartsWith(t, "http://") then 7
    else if StartsWith(t, "git@") then 4
    else 0
  }

  /** What `([^/]+?)(?:\.git)?$` leaves in the repo group of the final segment. */
  function StripGit(rest: string): string {
    if |rest| > 4 && EndsWith(rest, ".git") then rest[..|rest| - 4] else rest
  }

  /** `([^/]+?)(?:\.git)?$` on what follows the owner's `/`. */
  function MatchRepo(w: string): (r: Option<string>)
    ensures r.Some? ==> Segment(r.value)
  {
    if w == [] || '/' in w then None
    else
      assert forall k :: 0 <= k < |StripGit(w)| ==> StripGit(w)[k] == w[k];
      Some(StripGit(w))
  }

  /** `([^/]+)\/` followed by the repo part. */
  function MatchOwner(v: string): (r: Option<(string, string)>)
    ensures r.Some? ==> Segment(r.value.0) && Segment(r.value.1)
  {
    var o := StopAt(v, '/', '/');
    if o == 0 || o == |v| then None
    else
      match MatchRepo(v[o + 1..])
      case None => None
      case Some(repo) => Some((v[..o], repo))
  }

  /** `([^/:]+)[/:]` followed by the owner part. */
  function MatchHost(u: string): (r: Option<Identity>)
    ensures r.Some? ==> HostSegment(r.value.hostname) && Segment(r.value.owner) && Segment(r.value.repo)
  {
    var h := StopAt(u, '/', ':');
    if h == 0 || h == |u| then None
    else
      match MatchOwner(u[h + 1..])
      case None => None
      case Some((owner, repo)) => Some(Identity(u[..h], owner, repo))
  }

  /** The whole pattern, anchored at the start of `t`. */
  function MatchTail(t: string): (r: Option<Identity>)
    ensures r.Some? ==> HostSegment(r.value.hostname) && Segment(r.value.owner) && Segment(r.value.repo)
  {
    var n := SchemeLength(t);
    if n == 0 then None else MatchHost(t[n..])
  }

  /** The regular expression tried at index `p` only. */
  function MatchUrlAt(s: string, p: nat): Option<Identity>
    requires p <= |s|
  {
    MatchTail(s[p..])
  }

  /** Tries the start positions `p`, `p + 1`, ... in turn, as the regular expression engine does. */
  function FindUrl(s: string, p: nat): (m: Option<Identity>)
    requires p <= |s|
    ensures m.Some? ==> HostSegment(m.value.hostname) && Segment(m.value.owner) && Segment(m.value.repo)
    decreases |s| - p
  {
    if MatchUrlAt(s, p).Some? then MatchUrlAt(s, p)
    else if p == |s| then None
    else FindUrl(s, p + 1)
  }

  /** `s.match(urlPattern)`, as the identity it captures. */
  function ParseUrl(s: string): (m: Option<Identity>)
    ensures m.Some? ==> HostSegment(m.value.hostname) && Segment(m.value.owner) && Segment(m.value.repo)
  {
    FindUrl(s, 0)
  }

  // ---------------------------------------------------------------- one layer at a time

  lemma RepoLayer(repo: string, ext: string)
    requires RepoSplit(repo, ext)
    ensures MatchRepo(repo + ext) == Some(repo)
  {
    var w := repo + ext;
    assert '/' !in w;
    if ext == ".git" {
      assert w[|w| - 4..] == ".git";
      assert w[..|w| - 4] == repo;
    } else {
      assert w == repo;
    }
  }

  lemma RepoLayerSound(w: string)
    requires MatchRepo(w).Some?
    ensures var repo := MatchRepo(w).value;
            var ext := if |w| > 4 && EndsWith(w, ".git") then ".git" else "";
            RepoSplit(repo, ext) && w == repo + ext
  {
    if |w| > 4 && EndsWith(w, ".git") {
      assert w == w[..|w| - 4] + w[|w| - 4..];
    }
  }

  lemma OwnerLayer(owner: string, w: string)
    requires Segment(owner)
    ensures MatchOwner(owner + ("/" + w)) == if MatchRepo(w).Some? then Some((owner, MatchRepo(w).value)) else None
  {
    var v := owner + ("/" + w);
    assert v[..|owner|] == owner;
    assert v[|owner|] == '/';
    StopAtIs(v, '/', '/', |owner|);
    assert v[|owner| + 1..] == w;
  }

  lemma OwnerLayerSound(v: string)
    requires MatchOwner(v).Some?
    ensures var o := StopAt(v, '/', '/');
            v == v[..o] + ("/" + v[o + 1..]) && MatchOwner(v) == Some((v[..o], MatchRepo(v[o + 1..]).value))
  {
    var o := StopAt(v, '/', '/');
    assert v == v[..o] + v[o..];
    assert v[o..] == "/" + v[o + 1..];
  }

  lemma HostLayer(host: string, sep: char, v: string)
    requires HostSegment(host) && (sep == '/' || sep == ':')
    ensures MatchHost(host + ([sep] + v)) ==
      if MatchOwner(v).Some? then Some(Identity(host, MatchOwner(v).value.0, MatchOwner(v).value.1)) else None
  {
    var u := host + ([sep] + v);
    assert u[..|host|] == host;
    assert u[|host|] == sep;
    StopAtIs(u, '/', ':', |host|);
    assert u[|host| + 1..] == v;
  }

  lemma HostLayerSound(u: string)
    requires MatchHost(u).Some?
    ensures var h := StopAt(u, '/', ':');
            u == u[..h] + ([u[h]] + u[h + 1..]) && (u[h] == '/' || u[h] == ':')
            && MatchOwner(u[h + 1..]).Some?
            && MatchHost(u) == Some(Identity(u[..h], MatchOwner(u[h + 1..]).value.0, MatchOwner(u[h + 1..]).value.1))
  {
    var h := StopAt(u, '/', ':');
    assert u == u[..h] + u[h..];
    assert u[h..] == [u[h]] + u[h + 1..];
  }

  lemma SchemeLayer(pre: string, u: string)
    requires IsScheme(pre)
    ensures MatchTail(pre + u) == MatchHost(u)
  {
    var t := pre + u;
    assert t[..|pre|] == pre;
    if pre == "http://" {
      assert t[4] == ':';
    } else if pre == "git@" {
      assert t[0] == 'g';
    }
    assert SchemeLength(t) == |pre|;
    assert t[|pre|..] == u;
  }

  lemma SchemeLayerSound(t: string) returns (n: nat)
    requires MatchTail(t).Some?
    ensures n <= |t| && IsScheme(t[..n]) && MatchTail(t) == MatchHost(t[n..])
  {
    n := SchemeLength(t);
  }

  // ---------------------------------------------------------------- the pattern at one index

  lemma MatchOwnerSound(v: string) returns (ext: string)
    requires MatchOwner(v).Some?
    ensures Segment(MatchOwner(v).value.0) && RepoSplit(MatchOwner(v).value.1, ext)
    ensures v == MatchOwner(v).value.0 + ("/" + (MatchOwner(v).value.1 + ext))
  {
    OwnerLayerSound(v);
    var o := StopAt(v, '/', '/');
    var w := v[o + 1..];
    RepoLayerSound(w);
    ext := if |w| > 4 && EndsWith(w, ".git") then ".git" else "";
    assert RepoSplit(MatchRepo(w).value, ext) && w == MatchRepo(w).value + ext;
  }

  lemma MatchHostSound(u: string) returns (sep: char, ext: string)
    requires MatchHost(u).Some?
    ensures var id := MatchHost(u).value;
            && (sep == '/' || sep == ':') && HostSegment(id.hostname) && Segment(id.owner) && RepoSplit(id.repo, ext)
            && u == id.hostname + ([sep] + (id.owner + ("/" + (id.repo + ext))))
  {
    HostLayerSound(u);
    var h := StopAt(u, '/', ':');
    var v := u[h + 1..];
    ext := MatchOwnerSound(v);
    sep := u[h];
  }

  /** What `MatchTail` returns is a match of the pattern anchored at the start of `t`. */
  lemma MatchTailSound(t: string) returns (pre: string, sep: char, ext: string)
    requires MatchTail(t).Some?
    ensures UrlSplit(t, pre, MatchTail(t).value.hostname, sep, MatchTail(t).value.owner, MatchTail(t).value.repo, ext)
  {
    var n := SchemeLayerSound(t);
    sep, ext := MatchHostSound(t[n..]);
    UrlSplitOf(t, n, MatchHost(t[n..]).value, sep, ext);
    pre := t[..n];
  }

  lemma UrlSplitOf(t: string, n: nat, id: Identity, sep: char, ext: string)
    requires n <= |t| && IsScheme(t[..n])
    requires (sep == '/' || sep == ':') && HostSegment(id.hostname) && Segment(id.owner) && RepoSplit(id.repo, ext)
    requires t[n..] == id.hostname + ([sep] + (id.owner + ("/" + (id.repo + ext))))
    ensures UrlSplit(t, t[..n], id.hostname, sep, id.owner, id.repo, ext)
  {
    assert t == t[..n] + t[n..];
  }

  /** Any match of the pattern anchored at the start of `t` is the one `MatchTail` returns. */
  lemma MatchTailComplete(t: string, pre: string, host: string, sep: char, owner: string, repo: string, ext: string)
    requires UrlSplit(t, pre, host, sep, owner, repo, ext)
    ensures MatchTail(t) == Some(Identity(host, owner, repo))
  {
    RepoLayer(repo, ext);
    OwnerLayer(owner, repo + ext);
    HostLayer(host, sep, owner + ("/" + (repo + ext)));
    SchemeLayer(pre, host + ([sep] + (owner + ("/" + (repo + ext)))));
  }

  /** The pattern matches at `p` with groups `id` exactly when `MatchUrlAt(s, p)` is `id`. */
  lemma MatchUrlAtIff(s: string, p: nat)
    requires p <= |s|
    ensures forall id :: UrlMatchAt(s, p, id) <==> MatchUrlAt(s, p) == Some(id)
    ensures UrlMatchesAt(s, p) <==> MatchUrlAt(s, p).Some?
  {
    forall id ensures UrlMatchAt(s, p, id) <==> MatchUrlAt(s, p) == Some(id) {
      if UrlMatchAt(s, p, id) {
        var pre, sep, ext :| UrlSplit(s[p..], pre, id.hostname, sep, id.owner, id.repo, ext);
        MatchTailComplete(s[p..], pre, id.hostname, sep, id.owner, id.repo, ext);
      }
      if MatchUrlAt(s, p) == Some(id) {
        var pre, sep, ext := MatchTailSound(s[p..]);
      }
    }
    if MatchUrlAt(s, p).Some? {
      assert UrlMatchAt(s, p, MatchUrlAt(s, p).value);
    }
  }

  // ---------------------------------------------------------------- leftmost match

  /** No match can start past the end of the input. */
  lemma NoMatchPastEnd(s: string, q: nat)
    ensures UrlMatchesAt(s, q) ==> q <= |s|
  {
  }

  /** Searching from `p` finds a match exactly when one starts at or after `p`. */
  lemma {:induction false} FindUrlNone(s: string, p: nat)
    requires p <= |s|
    ensures FindUrl(s, p).None? <==> forall q: nat :: p <= q ==> !UrlMatchesAt(s, q)
    decreases |s| - p
  {
    MatchesAtIff(s, p);
    if MatchUrlAt(s, p).None? {
      if p == |s| {
        forall q: nat | p <= q ensures !UrlMatchesAt(s, q) {
          NoMatchPastEnd(s, q);
        }
      } else {
        FindUrlNone(s, p + 1);
        assert FindUrl(s, p) == FindUrl(s, p + 1);
        if forall q: nat :: p + 1 <= q ==> !UrlMatchesAt(s, q) {
          forall q: nat | p <= q ensures !UrlMatchesAt(s, q) {
            if q != p {
              assert p + 1 <= q;
            }
          }
        }
      }
    }
  }

  /** Whether the pattern matches at `p` at all. */
  lemma MatchesAtIff(s: string, p: nat)
    requires p <= |s|
    ensures UrlMatchesAt(s, p) <==> MatchUrlAt(s, p).Some?
  {
    MatchUrlAtIff(s, p);
  }

  /** `m` is the leftmost start, at or after `p`, of a match with groups `id`. */
  ghost predicate LeftmostFrom(s: string, p: nat, m: nat, id: Identity) {
    p <= m && UrlMatchAt(s, m, id) && forall q: nat :: p <= q < m ==> !UrlMatchesAt(s, q)
  }

  /** Searching from `p` yields the groups of the leftmost match at or after `p`. */
  lemma {:induction false} FindUrlLeftmost(s: string, p: nat, id: Identity)
    requires p <= |s|
    ensures FindUrl(s, p) == Some(id) <==> exists m: nat :: LeftmostFrom(s, p, m, id)
    decreases |s| - p
  {
    MatchUrlAtIff(s, p);
    if MatchUrlAt(s, p).Some? {
      if MatchUrlAt(s, p) == Some(id) {
        assert LeftmostFrom(s, p, p, id);
      } else {
        forall m: nat ensures !LeftmostFrom(s, p, m, id) {
          if m == p {
            assert !UrlMatchAt(s, p, id);
          } else {
            assert UrlMatchesAt(s, p);
          }
        }
      }
    } else if p == |s| {
      forall m: nat ensures !LeftmostFrom(s, p, m, id) {
        NoMatchPastEnd(s, m);
      }
    } else {
      FindUrlLeftmost(s, p + 1, id);
      if FindUrl(s, p + 1) == Some(id) {
        var m: nat :| LeftmostFrom(s, p + 1, m, id);
        assert LeftmostFrom(s, p, m, id);
      } else {
        var next: nat := p + 1;
        forall m: nat ensures !LeftmostFrom(s, p, m, id) {
          assert !UrlMatchesAt(s, p);
          assert LeftmostFrom(s, p, m, id) ==> LeftmostFrom(s, next, m, id);
        }
      }
    }
  }

  /** `ParseUrl` returns exactly the groups of the leftmost match of the URL pattern, and nothing when there is none. */
  lemma ParseUrlIff(s: string, id: Identity)
    ensures ParseUrl(s) == Some(id) <==> UrlRegexMatch(s, id)
    ensures ParseUrl(s).None? <==> forall p: nat :: !UrlMatchesAt(s, p)
  {
    FindUrlLeftmost(s, 0, id);
    FindUrlNone(s, 0);
    if UrlRegexMatch(s, id) {
      var m: nat :| UrlMatchAt(s, m, id) && forall q: nat :: q < m ==> !UrlMatchesAt(s, q);
      assert LeftmostFrom(s, 0, m, id);
    }
    if ParseUrl(s) == Some(id) {
      var m: nat :| LeftmostFrom(s, 0, m, id);
      assert UrlMatchAt(s, m, id) && forall q: nat :: q < m ==> !UrlMatchesAt(s, q);
    }
  }

  /** Every scheme holds a `:` or an `@`, so text with neither is never a URL. */
  lemma {:induction false} NoUrlFrom(s: string, p: nat)
    requires p <= |s| && ':' !in s && '@' !in s
    ensures FindUrl(s, p).None?
    decreases |s| - p
  {
    var t := s[p..];
    assert !StartsWith(t, "git@") by {
      if |t| >= 4 { assert t[..4][3] == t[3] && t[3] in s; }
    }
    assert !StartsWith(t, "http://") by {
      if |t| >= 7 { assert t[..7][4] == t[4] && t[4] in s; }
    }
    assert !StartsWith(t, "https://") by {
      if |t| >= 8 { assert t[..8][5] == t[5] && t[5] in s; }
    }
    if p < |s| {
      NoUrlFrom(s, p + 1);
    }
  }

  lemma UrlNeedsScheme(s: string)
    requires ':' !in s && '@' !in s
    ensures ParseUrl(s).None?
  {
    NoUrlFrom(s, 0);
  }
}
