/** Two facts about taking one matched element off two sequences. */
module Multisets {

  /** Taking the same element off both sides keeps a multiset inclusion. */
  lemma RemoveMatched<T>(a: seq<T>, b: seq<T>, k: nat)
    requires a != [] && k < |b| && b[k] == a[0]
    requires multiset(a) <= multiset(b)
    ensures b == b[..k] + [a[0]] + b[k + 1..]
    ensures multiset(a[1..]) <= multiset(b[..k] + b[k + 1..])
  {
    var x, rest := a[0], b[..k] + b[k + 1..];
    assert b == b[..k] + [x] + b[k + 1..];
    assert a == [x] + a[1..];
    assert multiset(b) == multiset(rest) + multiset{x};
    assert multiset(a) == multiset(a[1..]) + multiset{x};
    forall y ensures multiset(a[1..])[y] <= multiset(rest)[y] {
      assert multiset(a)[y] <= multiset(b)[y];
    }
  }

  /** Taking the same element off both sides keeps a multiset equality. */
  lemma RemoveMatchedEq<T>(a: seq<T>, b: seq<T>, k: nat)
    requires a != [] && k < |b| && b[k] == a[0]
    requires multiset(a) == multiset(b)
    ensures b == b[..k] + [a[0]] + b[k + 1..]
    ensures multiset(a[1..]) == multiset(b[..k] + b[k + 1..])
  {
    var x, rest := a[0], b[..k] + b[k + 1..];
    assert b == b[..k] + [x] + b[k + 1..];
    assert a == [x] + a[1..];
    assert multiset(b) == multiset(rest) + multiset{x};
    assert multiset(a) == multiset(a[1..]) + multiset{x};
    forall y ensures multiset(a[1..])[y] == multiset(rest)[y] {
      assert multiset(a)[y] == multiset(b)[y];
    }
  }
}
