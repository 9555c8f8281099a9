/** Datatypes and sequence facts shared by every module. */
module Prelude {

  datatype Option<+T> = None | Some(value: T)

  datatype Result<+T, +E> = Ok(value: T) | Err(error: E)

  /** No element occurs twice. */
  ghost predicate Distinct<T(!new)>(s: seq<T>) {
    forall i, j :: 0 <= i < j < |s| ==> s[i] != s[j]
  }

  /** `Array.prototype.slice(0, n)` for a non-negative `n`: past the end it is the whole list. */
  function Take<T>(s: seq<T>, n: nat): seq<T> {
    if n <= |s| then s[..n] else s
  }

  /** `Array.prototype.slice(n)` for a non-negative `n`. */
  function Drop<T>(s: seq<T>, n: nat): seq<T> {
    if n <= |s| then s[n..] else []
  }

  /** `Math.round`: halves go up. */
  function Round(x: real): int {
    (x + 0.5).Floor
  }

  function InsertAt<T>(list: seq<T>, i: nat, x: T): seq<T> {
    Take(list, i) + [x] + Drop(list, i)
  }

  lemma InsertAtAdds<T>(list: seq<T>, i: nat, x: T)
    requires i <= |list|
    ensures multiset(InsertAt(list, i, x)) == multiset(list) + multiset{x}
  {
    assert list == list[..i] + list[i..];
  }

  lemma InsertAtPrepend<T>(head: T, list: seq<T>, i: nat, x: T)
    requires i <= |list|
    ensures InsertAt([head] + list, i + 1, x) == [head] + InsertAt(list, i, x)
  {
  }

  /** One more place, if it qualifies. */
  lemma OneMorePlace(before: set<nat>, all: set<nat>, n: nat, qualifies: bool)
    requires forall i: nat :: i in all <==> i in before || (qualifies && i == n)
    requires n !in before
    ensures |all| == |before| + (if qualifies then 1 else 0)
  {
    assert all == if qualifies then before + {n} else before;
  }

  lemma {:induction false} DistinctCounts<T(!new)>(s: seq<T>, x: T)
    requires Distinct(s)
    ensures multiset(s)[x] == if x in s then 1 else 0
  {
    if s != [] {
      assert s == [s[0]] + s[1..];
      DistinctCounts(s[1..], x);
    }
  }

  /** A permutation of a list without repetitions has none. */
  lemma PermutationDistinct<T(!new)>(s: seq<T>, t: seq<T>)
    requires Distinct(s) && multiset(s) == multiset(t)
    ensures Distinct(t)
    ensures forall x :: x in s <==> x in t
  {
    forall i, j | 0 <= i < j < |t|
      ensures t[i] != t[j]
    {
      if t[i] == t[j] {
        assert t == t[..i] + [t[i]] + t[i + 1..j] + [t[j]] + t[j + 1..];
        DistinctCounts(s, t[i]);
        assert false;
      }
    }
    forall x
      ensures x in s <==> x in t
    {
      assert x in s <==> x in multiset(s);
      assert x in t <==> x in multiset(t);
    }
  }
}
