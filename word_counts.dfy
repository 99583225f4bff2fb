/**
 * Counting words of a whitespace split by their estimated syllable count.
 * The estimator (`syllables.estimate`) is a parameter `syl`: nothing is
 * assumed about it except that it returns a natural number.
 */
module WordCounts {

  import opened Multisets

  /** `sum(1 for word in ws if keep(word))`. */
  function CountIf(ws: seq<string>, keep: string -> bool): (n: nat)
    ensures n <= |ws|
    ensures n == 0 <==> forall j :: 0 <= j < |ws| ==> !keep(ws[j])
  {
    if ws == [] then 0
    else (if keep(ws[0]) then 1 else 0) + CountIf(ws[1..], keep)
  }

  /** Words with exactly one estimated syllable. */
  function CountMonosyllabic(ws: seq<string>, syl: string -> nat): (n: nat)
    ensures n <= |ws|
    ensures n == 0 <==> forall j :: 0 <= j < |ws| ==> syl(ws[j]) != 1
  {
    CountIf(ws, w => syl(w) == 1)
  }

  /** Words with two or more estimated syllables (the source calls them bisyllabic). */
  function CountBisyllabic(ws: seq<string>, syl: string -> nat): (n: nat)
    ensures n <= |ws|
    ensures n == 0 <==> forall j :: 0 <= j < |ws| ==> syl(ws[j]) < 2
  {
    CountIf(ws, w => syl(w) >= 2)
  }

  /** Words the estimator gives no syllable at all. */
  function CountSilent(ws: seq<string>, syl: string -> nat): (n: nat)
    ensures n <= |ws|
    ensures n == 0 <==> forall j :: 0 <= j < |ws| ==> syl(ws[j]) > 0
  {
    CountIf(ws, w => syl(w) == 0)
  }

  /** Every word is in exactly one of the three classes, so the
      monosyllabic and bisyllabic counts are disjoint parts of the total. */
  lemma {:induction false} SyllableClassesPartition(ws: seq<string>, syl: string -> nat)
    ensures CountMonosyllabic(ws, syl) + CountBisyllabic(ws, syl) + CountSilent(ws, syl) == |ws|
  {
    if ws != [] {
      SyllableClassesPartition(ws[1..], syl);
    }
  }

  /** Equality holds exactly when the estimator finds a syllable in every word. */
  lemma MonoBisyllabicBound(ws: seq<string>, syl: string -> nat)
    ensures CountMonosyllabic(ws, syl) + CountBisyllabic(ws, syl) <= |ws|
    ensures CountMonosyllabic(ws, syl) + CountBisyllabic(ws, syl) == |ws|
      <==> forall j :: 0 <= j < |ws| ==> syl(ws[j]) > 0
  {
    SyllableClassesPartition(ws, syl);
  }

  lemma {:induction false} CountIfAppend(a: seq<string>, b: seq<string>, keep: string -> bool)
    ensures CountIf(a + b, keep) == CountIf(a, keep) + CountIf(b, keep)
  {
    if a == [] {
      assert a + b == b;
    } else {
      assert (a + b)[0] == a[0];
      assert (a + b)[1..] == a[1..] + b;
      CountIfAppend(a[1..], b, keep);
    }
  }

  /** A count over a sub-multiset of words is at most the count over the
      whole; in particular the count depends only on the multiset of words,
      not on their order. */
  lemma {:induction false} CountIfSubMultiset(a: seq<string>, b: seq<string>, keep: string -> bool)
    requires multiset(a) <= multiset(b)
    ensures CountIf(a, keep) <= CountIf(b, keep)
    decreases |a|
  {
    if a != [] {
      var x := a[0];
      assert x in multiset(b);
      var k :| 0 <= k < |b| && b[k] == x;
      var before, after := b[..k], b[k + 1..];
      RemoveMatched(a, b, k);
      CountIfSubMultiset(a[1..], before + after, keep);
      CountIfAppend(before, after, keep);
      CountIfAppend(before, [x] + after, keep);
      CountIfAppend([x], after, keep);
      assert before + ([x] + after) == b;
    }
  }

  lemma CountIfPermutation(a: seq<string>, b: seq<string>, keep: string -> bool)
    requires multiset(a) == multiset(b)
    ensures CountIf(a, keep) == CountIf(b, keep)
  {
    CountIfSubMultiset(a, b, keep);
    CountIfSubMultiset(b, a, keep);
  }
}
