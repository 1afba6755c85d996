/** Sequence operations that stand for the java.util list operations the
    games use: `removeIf` and `removeAll` on an ArrayList keep the surviving
    elements in their original order. */
module Seqs {

  /** `t` can be obtained from `s` by deleting elements: the order of what
      is kept is the order in `s`. */
  predicate IsSubsequence<T(==)>(t: seq<T>, s: seq<T>)
    decreases |s|
  {
    t == [] ||
    (s != [] && ((t[0] == s[0] && IsSubsequence(t[1..], s[1..])) || IsSubsequence(t, s[1..])))
  }

  /** The elements of `s` that satisfy `keep`, in order. */
  function Filter<T(!new)>(s: seq<T>, keep: T -> bool): (r: seq<T>)
    ensures |r| <= |s|
    ensures forall x :: x in r <==> x in s && keep(x)
    ensures IsSubsequence(r, s)
  {
    if s == [] then []
    else if keep(s[0]) then [s[0]] + Filter(s[1..], keep)
    else Filter(s[1..], keep)
  }

  /** `Filter` keeps every copy of a kept value and no copy of a rejected one. */
  lemma {:induction false} FilterCounts<T(!new)>(s: seq<T>, keep: T -> bool)
    ensures forall x :: multiset(Filter(s, keep))[x] == if keep(x) then multiset(s)[x] else 0
  {
    if s != [] {
      FilterCounts(s[1..], keep);
      assert s == [s[0]] + s[1..];
    }
  }

  /** `ArrayList.removeAll(c)`: drop every element equal to a member of `c`. */
  function RemoveAll<T(==,!new)>(s: seq<T>, c: seq<T>): (r: seq<T>)
    ensures |r| <= |s|
    ensures forall x :: x in r <==> x in s && x !in c
    ensures IsSubsequence(r, s)
  {
    Filter(s, x => x !in c)
  }

  /** `removeAll` keeps every copy of an element not in `c` and drops every
      copy of one in `c`. */
  lemma RemoveAllCounts<T(!new)>(s: seq<T>, c: seq<T>)
    ensures forall x :: multiset(RemoveAll(s, c))[x] == if x !in c then multiset(s)[x] else 0
  {
    FilterCounts(s, x => x !in c);
  }

  /** Filtering keeps everything exactly when nothing is rejected. */
  lemma {:induction false} FilterKeepsAll<T(!new)>(s: seq<T>, keep: T -> bool)
    ensures Filter(s, keep) == s <==> forall x :: x in s ==> keep(x)
  {
    if s != [] {
      FilterKeepsAll(s[1..], keep);
      if !keep(s[0]) {
        assert |Filter(s, keep)| < |s| by { assert Filter(s, keep) == Filter(s[1..], keep); }
      }
    }
  }
}
