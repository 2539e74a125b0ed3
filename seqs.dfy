/** Generic searches and filters over sequences: the shapes of the handler's
    first-match `for` loops and of its list comprehensions. */
module Seqs {

  /** `r` can be obtained from `s` by deleting elements, keeping the order of the rest. */
  ghost predicate IsSubsequence<T>(r: seq<T>, s: seq<T>)
    decreases |s|
  {
    r == [] ||
    (s != [] &&
     ((r[0] == s[0] && IsSubsequence(r[1..], s[1..])) || IsSubsequence(r, s[1..])))
  }

  /** Every element of a subsequence occurs at most as often as in the sequence. */
  lemma {:induction false} SubsequenceMultiset<T>(r: seq<T>, s: seq<T>)
    requires IsSubsequence(r, s)
    ensures multiset(r) <= multiset(s)
    decreases |s|
  {
    if r == [] {
    } else if r[0] == s[0] && IsSubsequence(r[1..], s[1..]) {
      SubsequenceMultiset(r[1..], s[1..]);
      assert r == [r[0]] + r[1..];
      assert s == [s[0]] + s[1..];
    } else {
      SubsequenceMultiset(r, s[1..]);
      assert s == [s[0]] + s[1..];
    }
  }

  /** Index of the first element satisfying `p`, or `|s|` when there is none
      (a `for` loop that stops at the first match). */
  function FirstIndex<T>(s: seq<T>, p: T -> bool): (k: nat)
    ensures k <= |s|
    ensures forall j :: 0 <= j < k ==> !p(s[j])
    ensures k < |s| ==> p(s[k])
  {
    if s == [] then 0
    else if p(s[0]) then 0
    else 1 + FirstIndex(s[1..], p)
  }

  /** The elements of `s` that satisfy `p`, in their original order
      (a list comprehension `[x for x in s if p(x)]`). */
  function Filter<T(==,!new)>(s: seq<T>, p: T -> bool): (r: seq<T>)
    ensures forall i :: 0 <= i < |r| ==> p(r[i])
    ensures forall x :: p(x) ==> multiset(r)[x] == multiset(s)[x]
    ensures IsSubsequence(r, s)
  {
    if s == [] then []
    else if p(s[0]) then
      var rest := Filter(s[1..], p);
      assert s == [s[0]] + s[1..];
      assert ([s[0]] + rest)[1..] == rest;
      [s[0]] + rest
    else
      assert s == [s[0]] + s[1..];
      Filter(s[1..], p)
  }

  /** The three properties in Filter's contract determine its result: any sequence
      that has them is the filtered sequence. */
  lemma {:induction false} FilterUnique<T(!new)>(r: seq<T>, s: seq<T>, p: T -> bool)
    requires forall i :: 0 <= i < |r| ==> p(r[i])
    requires forall x :: p(x) ==> multiset(r)[x] == multiset(s)[x]
    requires IsSubsequence(r, s)
    ensures r == Filter(s, p)
    decreases |s|
  {
    if s == [] {
    } else {
      var a, t := s[0], s[1..];
      assert s == [a] + t;
      if p(a) {
        assert r != [] && r[0] == a && IsSubsequence(r[1..], t) by {
          if !(r != [] && r[0] == a && IsSubsequence(r[1..], t)) {
            SubsequenceMultiset(r, t);
            assert false;
          }
        }
        assert r == [a] + r[1..];
        forall x | p(x) ensures multiset(r[1..])[x] == multiset(t)[x] {
          assert multiset(r)[x] == multiset(r[1..])[x] + (if x == a then 1 else 0);
          assert multiset(s)[x] == multiset(t)[x] + (if x == a then 1 else 0);
        }
        FilterUnique(r[1..], t, p);
      } else {
        assert r != [] ==> r[0] != a;
        assert IsSubsequence(r, t);
        forall x | p(x) ensures multiset(r)[x] == multiset(t)[x] {
          assert x != a;
          assert multiset(s)[x] == multiset(t)[x] + (if x == a then 1 else 0);
        }
        FilterUnique(r, t, p);
      }
    }
  }
}
