/**
 * The JavaScript string operations the tool relies on, over `string = seq<char>`.
 * Lengths are counted in characters; the original counts UTF-16 code units, and the two
 * agree on the Basic Multilingual Plane.
 */
module Strings {

  /** `s.startsWith(prefix)` */
  predicate StartsWith(s: string, prefix: string) {
    |prefix| <= |s| && s[..|prefix|] == prefix
  }

  /** `s.endsWith(suffix)` */
  predicate EndsWith(s: string, suffix: string) {
    |suffix| <= |s| && s[|s| - |suffix|..] == suffix
  }

  lemma StartsWithConcat(a: string, b: string, c: string)
    requires StartsWith(b, a)
    ensures StartsWith(b + c, a)
  {
    assert (b + c)[..|a|] == b[..|a|];
  }

  lemma StartsWithTrans(a: string, b: string, c: string)
    requires StartsWith(b, a) && StartsWith(c, b)
    ensures StartsWith(c, a)
  {
    assert c[..|a|] == c[..|b|][..|a|];
  }

  /** Index of the first `c1` or `c2` in `s`, or `|s|` when neither occurs. */
  function StopAt(s: string, c1: char, c2: char): (i: nat)
    ensures i <= |s|
    ensures c1 !in s[..i] && c2 !in s[..i]
    ensures i < |s| ==> s[i] == c1 || s[i] == c2
  {
    if s == [] || s[0] == c1 || s[0] == c2 then 0
    else
      var j := StopAt(s[1..], c1, c2);
      assert s[..1 + j] == [s[0]] + s[1..][..j];
      1 + j
  }

  /** The stop index is determined by where the first stop character sits. */
  lemma StopAtIs(s: string, c1: char, c2: char, k: nat)
    requires k <= |s| && c1 !in s[..k] && c2 !in s[..k]
    requires k < |s| ==> s[k] == c1 || s[k] == c2
    ensures StopAt(s, c1, c2) == k
  {
  }

  /** `t` occurs in `s` starting at index `i`. */
  predicate OccursAt(s: string, t: string, i: int) {
    0 <= i <= |s| - |t| && s[i..i + |t|] == t
  }

  /** `s.includes(t)`: a contiguous occurrence of `t` in `s`. */
  function Includes(s: string, t: string): (b: bool)
    ensures b <==> exists i :: OccursAt(s, t, i)
  {
    if |t| > |s| then false
    else if s[..|t|] == t then assert OccursAt(s, t, 0); true
    else
      var rest := Includes(s[1..], t);
      assert forall i :: OccursAt(s[1..], t, i) <==> OccursAt(s, t, i + 1) by {
        forall i ensures OccursAt(s[1..], t, i) <==> OccursAt(s, t, i + 1) {
          if 0 <= i <= |s| - 1 - |t| {
            assert s[1..][i..i + |t|] == s[i + 1..i + 1 + |t|];
          }
        }
      }
      assert rest <==> exists i :: OccursAt(s, t, i) by {
        if exists i :: OccursAt(s, t, i) {
          var i :| OccursAt(s, t, i);
          assert i != 0;
          assert OccursAt(s[1..], t, i - 1);
        }
      }
      rest
  }

  /** ASCII `toLowerCase` on one character. */
  function LowerChar(c: char): char {
    if 'A' <= c <= 'Z' then (c as int + 32) as char else c
  }

  /** `s.toLowerCase()`, restricted to ASCII letters. */
  function ToLower(s: string): (r: string)
    ensures |r| == |s|
  {
    seq(|s|, i requires 0 <= i < |s| => LowerChar(s[i]))
  }

  /** Lower-casing leaves no upper-case letter and changes nothing else. */
  lemma ToLowerLowers(s: string)
    ensures forall i :: 0 <= i < |s| ==> !('A' <= ToLower(s)[i] <= 'Z')
    ensures forall i :: 0 <= i < |s| && !('A' <= s[i] <= 'Z') ==> ToLower(s)[i] == s[i]
  {
  }

  /** Lower-casing works character by character, so it distributes over concatenation. */
  lemma ToLowerConcat(a: string, b: string)
    ensures ToLower(a + b) == ToLower(a) + ToLower(b)
  {
    assert forall k :: 0 <= k < |a| + |b| ==> ToLower(a + b)[k] == (ToLower(a) + ToLower(b))[k];
  }

  /** An occurrence survives appending text after it. */
  lemma OccursExtend(s: string, u: string, t: string, i: int)
    requires OccursAt(s, t, i)
    ensures OccursAt(s + u, t, i)
  {
    assert (s + u)[i..i + |t|] == s[i..i + |t|];
  }

  /** An occurrence moves right by the length of text put before it. */
  lemma OccursShift(u: string, s: string, t: string, i: int)
    requires OccursAt(s, t, i)
    ensures OccursAt(u + s, t, |u| + i)
  {
    assert (u + s)[|u| + i..|u| + i + |t|] == s[i..i + |t|];
  }

  /** `' '.repeat(n)` */
  function Spaces(n: nat): (r: string)
    ensures |r| == n
  {
    seq(n, _ => ' ')
  }

  /** `s.padEnd(width)`: right-pads with spaces up to `width`, never truncates. */
  function PadEnd(s: string, width: nat): (r: string)
    ensures |r| == if |s| < width then width else |s|
    ensures StartsWith(r, s)
  {
    if |s| < width then s + Spaces(width - |s|) else s
  }

  /** Whitespace and line terminators as `String.prototype.trim` removes them. */
  predicate IsWhitespace(c: char) {
    || c == ' ' || c == '\t' || c == '\n' || c == '\r'
    || c == '\U{0B}' || c == '\U{0C}' || c == '\U{A0}' || c == '\U{1680}'
    || ('\U{2000}' <= c <= '\U{200A}')
    || c == '\U{2028}' || c == '\U{2029}' || c == '\U{202F}' || c == '\U{205F}'
    || c == '\U{3000}' || c == '\U{FEFF}'
  }

  /** Drops leading whitespace. */
  function TrimStart(s: string): (r: string)
    ensures |r| <= |s| && r == s[|s| - |r|..]
    ensures forall i :: 0 <= i < |s| - |r| ==> IsWhitespace(s[i])
    ensures r != [] ==> !IsWhitespace(r[0])
  {
    if s != [] && IsWhitespace(s[0]) then TrimStart(s[1..]) else s
  }

  /** Drops trailing whitespace. */
  function TrimEnd(s: string): (r: string)
    ensures |r| <= |s| && r == s[..|r|]
    ensures forall i :: |r| <= i < |s| ==> IsWhitespace(s[i])
    ensures r != [] ==> !IsWhitespace(r[|r| - 1])
  {
    if s != [] && IsWhitespace(s[|s| - 1]) then TrimEnd(s[..|s| - 1]) else s
  }

  /** `s.trim()` */
  function Trim(s: string): (r: string)
    ensures |r| <= |s|
    ensures r != [] ==> !IsWhitespace(r[0]) && !IsWhitespace(r[|r| - 1])
  {
    TrimEnd(TrimStart(s))
  }

  /** What `trim` keeps is a slice of its input that starts after the leading whitespace. */
  lemma TrimSlice(s: string)
    ensures var a := |s| - |TrimStart(s)|;
            a + |Trim(s)| <= |s| && Trim(s) == s[a..a + |Trim(s)|]
  {
    var t := TrimStart(s);
    var r := TrimEnd(t);
    assert t == s[|s| - |t|..] && r == t[..|r|];
  }

  /** Whatever `trim` cuts after the slice it keeps is whitespace. */
  lemma TrimCutsWhitespace(s: string)
    ensures forall i :: |s| - |TrimStart(s)| + |Trim(s)| <= i < |s| ==> IsWhitespace(s[i])
  {
    var t := TrimStart(s);
    var a := |s| - |t|;
    var r := TrimEnd(t);
    forall i | a + |r| <= i < |s| ensures IsWhitespace(s[i]) {
      assert s[i] == t[i - a];
    }
  }

  /** Trailing whitespace after text that neither begins nor ends with whitespace is all that `trim` removes. */
  lemma {:induction false} TrimTrailing(s: string, w: string)
    requires s != [] && !IsWhitespace(s[0]) && !IsWhitespace(s[|s| - 1])
    requires forall i :: 0 <= i < |w| ==> IsWhitespace(w[i])
    ensures Trim(s + w) == s
  {
    assert TrimStart(s + w) == s + w by {
      assert (s + w)[0] == s[0];
    }
    if w == [] {
      assert s + w == s;
    } else {
      var v := w[..|w| - 1];
      assert (s + w)[..|s + w| - 1] == s + v;
      assert (s + w)[|s + w| - 1] == w[|w| - 1];
      TrimTrailing(s, v);
      assert TrimStart(s + v) == s + v by {
        assert (s + v)[0] == s[0];
      }
    }
  }

  /** `path.join(a, b)` over clean segments: no normalisation of `.`, `..` or repeated `/`. */
  function PathJoin(a: string, b: string): string {
    a + "/" + b
  }

  /** A path component that `path.normalize` keeps as it is: non-empty, not `.` or `..`, no `/`. */
  predicate CleanComponent(c: string) {
    c != "" && c != "." && c != ".." && '/' !in c
  }

  /** Clean components separated by single `/`s: a relative path that `path.join` neither
   *  shortens nor rewrites. */
  predicate CleanRelative(p: string)
    decreases |p|
  {
    var k := StopAt(p, '/', '/');
    CleanComponent(p[..k]) && (k < |p| ==> CleanRelative(p[k + 1..]))
  }

  /** A clean relative path, possibly after one leading `/`. On such a path, and clean components
   *  joined to it, `path.join` is `PathJoin`. */
  predicate CleanPath(p: string) {
    if StartsWith(p, "/") then CleanRelative(p[1..]) else CleanRelative(p)
  }
}
