/** Sequence vocabulary shared by the other modules. */
module Seqs {

  /** The position of the first element from i on that satisfies p, or |s| when there is none. */
  function FirstFrom<T>(s: seq<T>, p: T -> bool, i: nat): (j: nat)
    requires i <= |s|
    ensures i <= j <= |s|
    ensures j < |s| ==> p(s[j])
    ensures forall k :: i <= k < j ==> !p(s[k])
    decreases |s| - i
  {
    if i == |s| || p(s[i]) then i else FirstFrom(s, p, i + 1)
  }

  /** The position of the first element that satisfies p, or |s| when there is none. */
  function FirstIndex<T>(s: seq<T>, p: T -> bool): (j: nat)
    ensures j <= |s|
    ensures j < |s| ==> p(s[j])
    ensures forall k :: 0 <= k < j ==> !p(s[k])
  {
    FirstFrom(s, p, 0)
  }

  /** s without its first element that satisfies p; s itself when there is none. */
  function RemoveFirst<T>(s: seq<T>, p: T -> bool): seq<T> {
    var i := FirstIndex(s, p);
    if i == |s| then s else RemoveAt(s, i)
  }

  /** s without the element at position k. */
  function RemoveAt<T>(s: seq<T>, k: nat): (r: seq<T>)
    requires k < |s|
    ensures |r| == |s| - 1
    ensures forall i :: 0 <= i < |r| ==> r[i] == if i < k then s[i] else s[i + 1]
  {
    s[..k] + s[k + 1..]
  }

  /** The elements of s that satisfy p, in order. */
  function Select<T(!new)>(s: seq<T>, p: T -> bool): (r: seq<T>)
    ensures |r| <= |s|
    ensures forall x :: x in r <==> x in s && p(x)
  {
    if s == [] then [] else (if p(s[0]) then [s[0]] else []) + Select(s[1..], p)
  }

  function Reverse<T>(s: seq<T>): seq<T> {
    if s == [] then [] else Reverse(s[1..]) + [s[0]]
  }

  ghost predicate Distinct<T>(s: seq<T>) {
    forall i, j :: 0 <= i < j < |s| ==> s[i] != s[j]
  }

  function Last<T>(s: seq<T>): T
    requires s != []
  {
    s[|s| - 1]
  }

  lemma FirstIndexIs<T>(s: seq<T>, p: T -> bool, i: nat)
    requires i <= |s|
    requires i < |s| ==> p(s[i])
    requires forall k :: 0 <= k < i ==> !p(s[k])
    ensures FirstIndex(s, p) == i
  {
  }

  /** Two sequences whose elements agree pointwise on their tests have the same first index. */
  lemma FirstIndexAgrees<A, B>(s: seq<A>, p: A -> bool, t: seq<B>, q: B -> bool)
    requires |s| == |t|
    requires forall i :: 0 <= i < |s| ==> p(s[i]) == q(t[i])
    ensures FirstIndex(s, p) == FirstIndex(t, q)
  {
    FirstIndexIs(s, p, FirstIndex(t, q));
  }

  /** Removing from a concatenation whose left part has a match removes it there. */
  lemma RemoveFirstPrefix<T>(s: seq<T>, t: seq<T>, p: T -> bool, k: nat)
    requires k < |s| && p(s[k])
    ensures FirstIndex(s + t, p) == FirstIndex(s, p) <= k
    ensures RemoveFirst(s + t, p) == RemoveFirst(s, p) + t
  {
    var i := FirstIndex(s, p);
    assert (s + t)[i] == s[i];
    FirstIndexIs(s + t, p, i);
    assert RemoveAt(s + t, i) == RemoveAt(s, i) + t;
  }

  lemma SliceAfterRemove<T>(s: seq<T>, m: nat, k: nat)
    requires m <= k < |s|
    ensures RemoveAt(s, m)[k..] == s[k + 1..]
  {
  }

  lemma {:induction false} ReverseMultiset<T>(s: seq<T>)
    ensures multiset(Reverse(s)) == multiset(s)
    ensures |Reverse(s)| == |s|
  {
    if s != [] {
      ReverseMultiset(s[1..]);
      assert s == [s[0]] + s[1..];
    }
  }
}
