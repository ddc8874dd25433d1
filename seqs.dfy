/** Selecting the elements of a sequence that satisfy a test, keeping their order. */
module Seqs {

  /** No element occurs twice. */
  predicate Distinct<T(==)>(s: seq<T>)
  {
    forall i, j :: 0 <= i < j < |s| ==> s[i] != s[j]
  }

  /** The elements of `s` that pass `p`, in their order in `s`. */
  function Filter<T(!new)>(s: seq<T>, p: T -> bool): (r: seq<T>)
    ensures forall x :: x in r <==> x in s && p(x)
    ensures forall x :: multiset(r)[x] == if p(x) then multiset(s)[x] else 0
    ensures multiset(r) <= multiset(s) && |r| <= |s|
  {
    if s == [] then []
    else
      var rest := Filter(s[1..], p);
      assert s == [s[0]] + s[1..];
      if p(s[0]) then [s[0]] + rest
      else rest
  }

  /** Filtering twice is filtering once by both tests. */
  lemma {:induction false} FilterTwice<T(!new)>(s: seq<T>, p: T -> bool, q: T -> bool, pq: T -> bool)
    requires forall x :: pq(x) == (p(x) && q(x))
    ensures Filter(Filter(s, p), q) == Filter(s, pq)
  {
    if s != [] {
      FilterTwice(s[1..], p, q, pq);
    }
  }

  /** A test that admits more never yields fewer elements. */
  lemma {:induction false} FilterMonotone<T(!new)>(s: seq<T>, p: T -> bool, q: T -> bool)
    requires forall x :: p(x) ==> q(x)
    ensures |Filter(s, p)| <= |Filter(s, q)|
  {
    if s != [] {
      FilterMonotone(s[1..], p, q);
    }
  }

  /** Filtering by a test that every element passes changes nothing. */
  lemma {:induction false} FilterAll<T(!new)>(s: seq<T>, p: T -> bool)
    requires forall x :: x in s ==> p(x)
    ensures Filter(s, p) == s
  {
    if s != [] {
      assert forall x :: x in s[1..] ==> x in s;
      FilterAll(s[1..], p);
    }
  }

  /** Filtering by a test that no element passes leaves nothing. */
  lemma FilterNone<T(!new)>(s: seq<T>, p: T -> bool)
    requires forall x :: x in s ==> !p(x)
    ensures Filter(s, p) == []
  {
    if Filter(s, p) != [] {
      assert Filter(s, p)[0] in Filter(s, p);
    }
  }

  /** A sequence has no repeated element exactly when each element occurs
      in it at most once. */
  lemma {:induction false} DistinctIffOnce<T>(s: seq<T>)
    ensures Distinct(s) <==> forall x :: multiset(s)[x] <= 1
  {
    if s != [] {
      DistinctIffOnce(s[1..]);
      assert s == [s[0]] + s[1..];
      if Distinct(s) {
        assert s[0] !in s[1..];
      }
      if forall x :: multiset(s)[x] <= 1 {
        forall i, j | 0 <= i < j < |s| ensures s[i] != s[j] {
          assert s == s[..j] + s[j..];
          var front, back := multiset(s[..j]), multiset(s[j..]);
          assert multiset(s) == front + back;
          assert s[i] in front && s[j] in back;
          assert multiset(s)[s[i]] == front[s[i]] + back[s[i]];
        }
      }
    }
  }

  /** In a sequence made of `w` alone, `w` occurs as often as the length. */
  lemma {:induction false} OccurrencesOfOnlyElement<T>(r: seq<T>, w: T)
    requires forall x :: x in r ==> x == w
    ensures multiset(r)[w] == |r|
  {
    if r != [] {
      assert r == [r[0]] + r[1..];
      assert r[0] in r;
      assert forall x :: x in r[1..] ==> x in r;
      OccurrencesOfOnlyElement(r[1..], w);
    }
  }

  /** A sequence whose only element is `w`, occurring once, is `[w]`. */
  lemma OnlyElementOnce<T>(r: seq<T>, w: T)
    requires w in r
    requires forall x :: x in r ==> x == w
    requires multiset(r)[w] <= 1
    ensures r == [w]
  {
    OccurrencesOfOnlyElement(r, w);
    assert r[0] in r;
  }
}
