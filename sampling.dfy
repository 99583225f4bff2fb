/**
 * `random.sample(population, k)`: k elements drawn without repetition.
 * The draw itself is a parameter, the list of distinct positions that
 * were picked; only its size and distinctness are modelled, not its
 * distribution.
 */
module Sampling {

  /** `picks` is a possible draw of k distinct positions out of n. No
      draw of more than n positions exists, which is why `random.sample`
      raises `ValueError` when k exceeds the population. */
  predicate IsSample(picks: seq<nat>, k: nat, n: nat)
    ensures IsSample(picks, k, n) ==> k <= n
  {
    if && |picks| == k
       && (forall j :: 0 <= j < k ==> picks[j] < n)
       && (forall j, l :: 0 <= j < l < k ==> picks[j] != picks[l])
    then
      DistinctBelow(picks, n);
      true
    else
      false
  }

  /** Pigeonhole: distinct positions below n number at most n. */
  lemma {:induction false} DistinctBelow(picks: seq<nat>, n: nat)
    requires forall j :: 0 <= j < |picks| ==> picks[j] < n
    requires forall j, l :: 0 <= j < l < |picks| ==> picks[j] != picks[l]
    ensures |picks| <= n
    decreases n
  {
    if picks != [] {
      assert picks[0] < n;
      var m := n - 1;
      if j :| 0 <= j < |picks| && picks[j] == m {
        var rest := picks[..j] + picks[j + 1..];
        assert forall i :: 0 <= i < |rest| ==> rest[i] == (if i < j then picks[i] else picks[i + 1]);
        DistinctBelow(rest, m);
      } else {
        DistinctBelow(picks, m);
      }
    }
  }

  /** The elements at the picked positions, in the order drawn. */
  function Pick<T>(xs: seq<T>, picks: seq<nat>): (r: seq<T>)
    requires forall j :: 0 <= j < |picks| ==> picks[j] < |xs|
    ensures |r| == |picks|
    ensures forall j :: 0 <= j < |picks| ==> r[j] == xs[picks[j]]
  {
    seq(|picks|, j requires 0 <= j < |picks| => xs[picks[j]])
  }

  function Range(k: nat): (r: seq<nat>)
    ensures |r| == k
    ensures forall j :: 0 <= j < k ==> r[j] == j
  {
    seq(k, j => j)
  }

  /** Whenever k <= n a draw exists: the first k positions. */
  lemma SampleExists(k: nat, n: nat)
    requires k <= n
    ensures IsSample(Range(k), k, n)
  {
  }

  lemma PickAppend<T>(xs: seq<T>, p: seq<nat>, q: seq<nat>)
    requires forall j :: 0 <= j < |p| ==> p[j] < |xs|
    requires forall j :: 0 <= j < |q| ==> q[j] < |xs|
    ensures Pick(xs, p + q) == Pick(xs, p) + Pick(xs, q)
  {
  }

  /** Positions inside a prefix pick the same elements from the prefix. */
  lemma PickPrefix<T>(xs: seq<T>, m: nat, picks: seq<nat>)
    requires m <= |xs|
    requires forall j :: 0 <= j < |picks| ==> picks[j] < m
    ensures Pick(xs, picks) == Pick(xs[..m], picks)
  {
  }

  /** Dropping one position from a draw leaves a draw. */
  lemma RemovePick(picks: seq<nat>, j: nat, n: nat)
    requires IsSample(picks, |picks|, n + 1)
    requires j < |picks| && picks[j] == n
    ensures IsSample(picks[..j] + picks[j + 1..], |picks| - 1, n)
  {
  }

  /** The element at the dropped position accounts for the difference. */
  lemma PickWithout<T>(xs: seq<T>, picks: seq<nat>, j: nat)
    requires xs != [] && IsSample(picks, |picks|, |xs|)
    requires j < |picks| && picks[j] == |xs| - 1
    ensures multiset(Pick(xs, picks))
         == multiset(Pick(xs[..|xs| - 1], picks[..j] + picks[j + 1..])) + multiset{xs[|xs| - 1]}
  {
    var m := |xs| - 1;
    var before, after := picks[..j], picks[j + 1..];
    RemovePick(picks, j, m);
    assert picks == before + [m] + after;
    PickAppend(xs, before + [m], after);
    PickAppend(xs, before, [m]);
    PickAppend(xs, before, after);
    PickPrefix(xs, m, before + after);
    assert Pick(xs, [m]) == [xs[m]];
  }

  /** A draw without repetition takes every element of the population at
      most as often as it occurs there. */
  lemma {:induction false} SampleIsSubMultiset<T>(xs: seq<T>, picks: seq<nat>)
    requires IsSample(picks, |picks|, |xs|)
    ensures multiset(Pick(xs, picks)) <= multiset(xs)
    decreases |xs|
  {
    if xs != [] {
      var m := |xs| - 1;
      var init := xs[..m];
      assert xs == init + [xs[m]];
      if j :| 0 <= j < |picks| && picks[j] == m {
        RemovePick(picks, j, m);
        PickWithout(xs, picks, j);
        SampleIsSubMultiset(init, picks[..j] + picks[j + 1..]);
      } else {
        PickPrefix(xs, m, picks);
        SampleIsSubMultiset(init, picks);
      }
    }
  }

  /** A draw of all n positions is a reordering of the whole population. */
  lemma SampleOfAll<T>(xs: seq<T>, picks: seq<nat>)
    requires IsSample(picks, |xs|, |xs|)
    ensures multiset(Pick(xs, picks)) == multiset(xs)
  {
    SampleIsSubMultiset(xs, picks);
    var a, b := multiset(Pick(xs, picks)), multiset(xs);
    assert |b - a| == |b| - |a| == 0;
    assert b == a + (b - a);
  }
}
