/** `Array.prototype.filter` and facts about it. */
module Seqs {

  /** `s.filter(f)`: the elements of `s` satisfying `f`, in their original order. */
  function Filter<T(!new)>(s: seq<T>, f: T -> bool): (r: seq<T>)
    ensures |r| <= |s|
    ensures forall x :: x in r <==> x in s && f(x)
  {
    if s == [] then [] else (if f(s[0]) then [s[0]] else []) + Filter(s[1..], f)
  }

  /** Filtering distributes over concatenation: the relative order of kept elements is the input order. */
  lemma {:induction false} FilterConcat<T(!new)>(a: seq<T>, b: seq<T>, f: T -> bool)
    ensures Filter(a + b, f) == Filter(a, f) + Filter(b, f)
  {
    if a == [] {
      assert a + b == b;
    } else {
      assert (a + b)[1..] == a[1..] + b;
      FilterConcat(a[1..], b, f);
    }
  }

  /** Solver aid: sequences that agree at every index are equal. */
  lemma SamePointwise<T>(a: seq<T>, b: seq<T>)
    requires |a| == |b| && forall k :: 0 <= k < |a| ==> a[k] == b[k]
    ensures a == b
  {
  }

  /** Solver aid: appending the next element keeps a sequence a pointwise prefix of `whole`. */
  lemma SnocPointwise<T>(t: seq<T>, x: T, whole: seq<T>)
    requires |t| < |whole| && x == whole[|t|]
    requires forall k :: 0 <= k < |t| ==> t[k] == whole[k]
    ensures forall k :: 0 <= k < |t + [x]| ==> (t + [x])[k] == whole[k]
  {
  }

  /** Solver aid: dropping two leading elements. */
  lemma DropTwo<T>(a: T, b: T, s: seq<T>)
    ensures ([a, b] + s)[2..] == s
  {
  }

  /** Solver aid: extending a prefix by one element. */
  lemma PrefixSnoc<T>(s: seq<T>, i: nat)
    requires i < |s|
    ensures s[..i + 1] == s[..i] + [s[i]]
  {
  }

  /** Solver aid: concatenation is associative. */
  lemma AppendAssoc<T>(a: seq<T>, b: seq<T>, c: seq<T>)
    ensures (a + b) + c == a + (b + c)
  {
  }

  /** Filtering a sequence with a first element: that element is kept exactly when it passes. */
  lemma FilterCons<T(!new)>(x: T, s: seq<T>, f: T -> bool)
    ensures Filter([x] + s, f) == (if f(x) then [x] else []) + Filter(s, f)
  {
    assert ([x] + s)[1..] == s;
  }

  /** Nothing passes: nothing is kept. */
  lemma {:induction false} FilterNone<T(!new)>(s: seq<T>, f: T -> bool)
    requires forall j :: 0 <= j < |s| ==> !f(s[j])
    ensures Filter(s, f) == []
  {
    if s != [] {
      FilterNone(s[1..], f);
    }
  }

  /** Exactly one element passes: it alone is kept. */
  lemma {:induction false} FilterOnly<T(!new)>(s: seq<T>, f: T -> bool, k: nat)
    requires k < |s| && f(s[k])
    requires forall j :: 0 <= j < |s| && j != k ==> !f(s[j])
    ensures Filter(s, f) == [s[k]]
  {
    if k == 0 {
      FilterNone(s[1..], f);
    } else {
      FilterOnly(s[1..], f, k - 1);
    }
  }

  /** Filtering twice keeps exactly what satisfies both conditions. */
  lemma {:induction false} FilterFilter<T(!new)>(s: seq<T>, f: T -> bool, g: T -> bool, h: T -> bool)
    requires forall x :: x in s ==> h(x) == (f(x) && g(x))
    ensures Filter(Filter(s, f), g) == Filter(s, h)
  {
    if s != [] {
      FilterFilter(s[1..], f, g, h);
      if f(s[0]) {
        assert Filter(s, f) == [s[0]] + Filter(s[1..], f);
        assert Filter(s, f)[1..] == Filter(s[1..], f);
      } else {
        assert Filter(s, f) == Filter(s[1..], f);
      }
    }
  }

  /** Two conditions that agree on every element of `s` keep the same elements. */
  lemma {:induction false} FilterCongruent<T(!new)>(s: seq<T>, f: T -> bool, g: T -> bool)
    requires forall x :: x in s ==> f(x) == g(x)
    ensures Filter(s, f) == Filter(s, g)
  {
    if s != [] {
      FilterCongruent(s[1..], f, g);
    }
  }

  /** No element occurs twice. */
  predicate NoDup<T(==)>(s: seq<T>) {
    forall i, j :: 0 <= i < j < |s| ==> s[i] != s[j]
  }
}
