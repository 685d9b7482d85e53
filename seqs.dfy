/** `Array.prototype.filter`, `map` and `findIndex` over sequences, and what they preserve. */
module Seqs {
  import opened Wrappers

  /** `a` can be obtained from `b` by deleting elements: same relative order. */
  predicate SubsequenceOf<T(==)>(a: seq<T>, b: seq<T>)
    decreases |b|
  {
    if a == [] then true
    else if b == [] then false
    else (a[0] == b[0] && SubsequenceOf(a[1..], b[1..])) || SubsequenceOf(a, b[1..])
  }

  /** `s.filter(p)` */
  function Filter<T>(p: T -> bool, s: seq<T>): (r: seq<T>)
    ensures |r| <= |s|
  {
    if s == [] then []
    else if p(s[0]) then [s[0]] + Filter(p, s[1..])
    else Filter(p, s[1..])
  }

  /** A filter keeps exactly the elements that satisfy its predicate. */
  lemma {:induction false} FilterMembers<T>(p: T -> bool, s: seq<T>)
    ensures forall x :: x in Filter(p, s) <==> x in s && p(x)
  {
    if s != [] {
      FilterMembers(p, s[1..]);
      assert s == [s[0]] + s[1..];
    }
  }

  /** A filter keeps the relative order of what it keeps. */
  lemma {:induction false} FilterSubsequence<T>(p: T -> bool, s: seq<T>)
    ensures SubsequenceOf(Filter(p, s), s)
  {
    if s != [] {
      FilterSubsequence(p, s[1..]);
      if p(s[0]) {
        assert Filter(p, s)[1..] == Filter(p, s[1..]);
      }
    }
  }

  /** `s.map(f)` */
  function Map<A, B>(f: A -> B, s: seq<A>): (r: seq<B>)
    ensures |r| == |s|
    ensures forall i :: 0 <= i < |s| ==> r[i] == f(s[i])
  {
    if s == [] then [] else [f(s[0])] + Map(f, s[1..])
  }

  /** Filtering a sequence extended by one element. */
  lemma {:induction false} FilterSnoc<T>(p: T -> bool, s: seq<T>, x: T)
    ensures Filter(p, s + [x]) == Filter(p, s) + (if p(x) then [x] else [])
  {
    if s == [] {
      assert s + [x] == [x];
    } else {
      assert (s + [x])[1..] == s[1..] + [x];
      FilterSnoc(p, s[1..], x);
    }
  }

  /** Mapping over a sequence extended by one element. */
  lemma MapSnoc<A, B>(f: A -> B, s: seq<A>, x: A)
    ensures Map(f, s + [x]) == Map(f, s) + [f(x)]
  {
  }

  /** Filtering twice keeps exactly what one filter by the conjunction keeps. */
  lemma {:induction false} FilterFilter<T(!new)>(p: T -> bool, q: T -> bool, s: seq<T>)
    ensures Filter(q, Filter(p, s)) == Filter(x => p(x) && q(x), s)
  {
    if s != [] {
      FilterFilter(p, q, s[1..]);
    }
  }

  /** Filters by predicates that agree everywhere keep the same elements. */
  lemma {:induction false} FilterExt<T>(p: T -> bool, q: T -> bool, s: seq<T>)
    requires forall x :: p(x) == q(x)
    ensures Filter(p, s) == Filter(q, s)
  {
    if s != [] {
      FilterExt(p, q, s[1..]);
    }
  }

  /** A filter whose predicate holds everywhere keeps everything. */
  lemma {:induction false} FilterAll<T>(p: T -> bool, s: seq<T>)
    requires forall x :: p(x)
    ensures Filter(p, s) == s
  {
    if s != [] {
      FilterAll(p, s[1..]);
      assert s == [s[0]] + s[1..];
    }
  }

  /** A filter by a weaker predicate keeps at least as many elements. */
  lemma {:induction false} FilterWeaker<T(!new)>(p: T -> bool, q: T -> bool, s: seq<T>)
    requires forall x :: p(x) ==> q(x)
    ensures |Filter(p, s)| <= |Filter(q, s)|
  {
    if s != [] {
      FilterWeaker(p, q, s[1..]);
    }
  }

  /** `s.findIndex(p)`, with `None` standing for -1: the first position whose
      element satisfies `p`. */
  function IndexWhere<T>(p: T -> bool, s: seq<T>): (r: Option<nat>)
    ensures r.Some? ==> r.value < |s| && p(s[r.value])
    ensures r.Some? ==> forall j :: 0 <= j < r.value ==> !p(s[j])
    ensures r.None? ==> forall j :: 0 <= j < |s| ==> !p(s[j])
  {
    if s == [] then None
    else if p(s[0]) then Some(0)
    else match IndexWhere(p, s[1..])
      case None => None
      case Some(i) => Some(i + 1)
  }

  /** The contract of IndexWhere pins its result down. */
  lemma IndexWhereAt<T>(p: T -> bool, s: seq<T>, k: nat)
    requires k < |s| && p(s[k])
    requires forall j :: 0 <= j < k ==> !p(s[j])
    ensures IndexWhere(p, s) == Some(k)
  {
  }

  /** `s.splice(i, 1)`: the element at `i` removed, the others kept in order. */
  function RemoveAt<T>(s: seq<T>, i: nat): (r: seq<T>)
    requires i < |s|
    ensures |r| == |s| - 1
    ensures forall j :: 0 <= j < i ==> r[j] == s[j]
    ensures forall j :: i <= j < |r| ==> r[j] == s[j + 1]
  {
    s[..i] + s[i + 1..]
  }

  /** Every sequence is a subsequence of itself. */
  lemma {:induction false} SubsequenceRefl<T>(s: seq<T>)
    ensures SubsequenceOf(s, s)
  {
    if s != [] {
      SubsequenceRefl(s[1..]);
    }
  }

  /** Splicing one element out leaves a subsequence. */
  lemma {:induction false} RemoveAtSubsequence<T>(s: seq<T>, k: nat)
    requires k < |s|
    ensures SubsequenceOf(RemoveAt(s, k), s)
  {
    if k == 0 {
      assert RemoveAt(s, 0) == s[1..];
      SubsequenceRefl(s[1..]);
    } else {
      RemoveAtSubsequence(s[1..], k - 1);
      assert RemoveAt(s, k)[1..] == RemoveAt(s[1..], k - 1);
    }
  }
}
