/** Sequences kept in the order of their keys, as search trees with a cached first element hold them. */
module Ordered {

  ghost predicate Distinct<T>(order: seq<T>) {
    forall i, j :: 0 <= i < j < |order| ==> order[i] != order[j]
  }

  ghost predicate Ascending(keys: seq<int>) {
    forall i, j :: 0 <= i < j < |keys| ==> keys[i] <= keys[j]
  }

  function Without<T(==)>(order: seq<T>, g: T, ghost k: nat): (r: seq<T>)
    requires Distinct(order) && k < |order| && order[k] == g
    ensures r == order[..k] + order[k + 1..]
  {
    if order[0] == g then order[1..] else [order[0]] + Without(order[1..], g, k - 1)
  }

  lemma DistinctWith<T>(order: seq<T>, g: T, k: nat)
    requires Distinct(order) && g !in order && k <= |order|
    ensures Distinct(order[..k] + [g] + order[k..])
  {
    var o := order[..k] + [g] + order[k..];
    forall i, j | 0 <= i < j < |o| ensures o[i] != o[j] {
      assert o[i] == if i < k then order[i] else if i == k then g else order[i - 1];
      assert o[j] == if j < k then order[j] else if j == k then g else order[j - 1];
    }
  }

  lemma DistinctWithout<T>(order: seq<T>, k: nat)
    requires Distinct(order) && k < |order|
    ensures Distinct(order[..k] + order[k + 1..])
  {
    var o := order[..k] + order[k + 1..];
    forall i, j | 0 <= i < j < |o| ensures o[i] != o[j] {
      assert o[i] == if i < k then order[i] else order[i + 1];
      assert o[j] == if j < k then order[j] else order[j + 1];
    }
  }

  lemma AscendingFrom(keys: seq<int>, k: nat)
    requires Ascending(keys) && k < |keys|
    ensures forall i :: k <= i < |keys| ==> keys[k] <= keys[i]
  {
  }

  lemma AscendingWith(keys: seq<int>, k: nat, key: int)
    requires Ascending(keys) && k <= |keys|
    requires forall i :: 0 <= i < k ==> keys[i] <= key
    requires k < |keys| ==> key <= keys[k]
    ensures Ascending(keys[..k] + [key] + keys[k..])
  {
    var o := keys[..k] + [key] + keys[k..];
    forall i, j | 0 <= i < j < |o| ensures o[i] <= o[j] {
      assert o[i] == if i < k then keys[i] else if i == k then key else keys[i - 1];
      assert o[j] == if j < k then keys[j] else if j == k then key else keys[j - 1];
    }
  }

  lemma AscendingWithout(keys: seq<int>, k: nat)
    requires Ascending(keys) && k < |keys|
    ensures Ascending(keys[..k] + keys[k + 1..])
  {
    var o := keys[..k] + keys[k + 1..];
    forall i, j | 0 <= i < j < |o| ensures o[i] <= o[j] {
      assert o[i] == if i < k then keys[i] else keys[i + 1];
      assert o[j] == if j < k then keys[j] else keys[j + 1];
    }
  }

  lemma MultisetWith<T>(a: seq<T>, x: T, b: seq<T>)
    ensures multiset(a + [x] + b) == multiset(a + b) + multiset{x}
  {
  }

  /** Taking an element out and putting it in elsewhere keeps the elements. */
  lemma MovedElements<T>(o: seq<T>, w: seq<T>, k: nat, j: nat)
    requires k < |o| && w == o[..k] + o[k + 1..] && j <= |w|
    ensures multiset(w[..j] + [o[k]] + w[j..]) == multiset(o)
  {
    assert o == o[..k] + [o[k]] + o[k + 1..];
    MultisetWith(o[..k], o[k], o[k + 1..]);
    assert w == w[..j] + w[j..];
    MultisetWith(w[..j], o[k], w[j..]);
  }

  /** What stands where after an element is put in at position k. */
  lemma PutAt<T>(s: seq<T>, x: T, k: nat, i: nat)
    requires k <= |s| && i <= |s|
    ensures (s[..k] + [x] + s[k..])[i] == if i < k then s[i] else if i == k then x else s[i - 1]
  {
  }
}
