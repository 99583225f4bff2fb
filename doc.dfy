/**
 * What the tokenizer (spaCy) hands to the readability statistics: a
 * document is the sequence of its sentence spans, each with its text and
 * its tokens; a token carries its text and the `is_alpha` flag. The
 * tokenizer itself is not part of this model.
 */
module Doc {

  import opened Multisets

  /** A token and whether spaCy flags it `is_alpha`. */
  datatype Token = Token(text: string, isAlpha: bool)

  /** A sentence span: `str(span)` and the tokens it covers. */
  datatype Sentence = Sentence(text: string, tokens: seq<Token>)

  /** Number of tokens flagged alphabetic. */
  function CountAlpha(ts: seq<Token>): (n: nat)
    ensures n <= |ts|
    ensures n == 0 <==> forall i :: 0 <= i < |ts| ==> !ts[i].isAlpha
    ensures n == |ts| <==> forall i :: 0 <= i < |ts| ==> ts[i].isAlpha
  {
    if ts == [] then 0
    else (if ts[0].isAlpha then 1 else 0) + CountAlpha(ts[1..])
  }

  /** Counting alphabetic tokens is additive over concatenation. */
  lemma {:induction false} CountAlphaAppend(a: seq<Token>, b: seq<Token>)
    ensures CountAlpha(a + b) == CountAlpha(a) + CountAlpha(b)
  {
    if a == [] {
      assert a + b == b;
    } else {
      assert (a + b)[0] == a[0];
      assert (a + b)[1..] == a[1..] + b;
      CountAlphaAppend(a[1..], b);
    }
  }

  /** Every token of the document, sentence after sentence. Sentence spans
      partition a spaCy document, so iterating the document visits exactly these. */
  function Tokens(doc: seq<Sentence>): (ts: seq<Token>)
    ensures |doc| == 1 ==> ts == doc[0].tokens
    ensures doc != [] ==> doc[0].tokens <= ts
    ensures forall j :: 0 <= j < |doc| ==> multiset(doc[j].tokens) <= multiset(ts)
    ensures forall t :: t in ts ==> exists j :: 0 <= j < |doc| && t in doc[j].tokens
  {
    if doc == [] then [] else doc[0].tokens + Tokens(doc[1..])
  }

  /** The tokens of consecutive stretches of sentences follow one another:
      with the single-sentence case this makes `Tokens` the concatenation,
      in order, each token visited once. */
  lemma {:induction false} TokensAppend(a: seq<Sentence>, b: seq<Sentence>)
    ensures Tokens(a + b) == Tokens(a) + Tokens(b)
  {
    if a == [] {
      assert a + b == b;
    } else {
      assert (a + b)[0] == a[0];
      assert (a + b)[1..] == a[1..] + b;
      TokensAppend(a[1..], b);
    }
  }

  /** `sum(1 for token in processed_text if token.is_alpha)`. */
  function AlphaTokenCount(doc: seq<Sentence>): (n: nat)
    ensures n <= |Tokens(doc)|
    ensures doc == [] ==> n == 0
  {
    CountAlpha(Tokens(doc))
  }

  /** The alphabetic count of a document is the sum of its sentences' counts. */
  lemma {:induction false} AlphaTokenCountBySentence(doc: seq<Sentence>)
    ensures doc != [] ==> AlphaTokenCount(doc) == CountAlpha(doc[0].tokens) + AlphaTokenCount(doc[1..])
  {
    if doc != [] {
      CountAlphaAppend(doc[0].tokens, Tokens(doc[1..]));
    }
  }

  /** The text of each sentence, in order. */
  function Texts(sentences: seq<Sentence>): (ts: seq<string>)
    ensures |ts| == |sentences|
    ensures forall j :: 0 <= j < |ts| ==> ts[j] == sentences[j].text
  {
    if sentences == [] then [] else [sentences[0].text] + Texts(sentences[1..])
  }

  lemma TextsAppend(a: seq<Sentence>, b: seq<Sentence>)
    ensures Texts(a + b) == Texts(a) + Texts(b)
  {
  }

  /** Reordering sentences reorders their texts. */
  lemma {:induction false} TextsPermutation(a: seq<Sentence>, b: seq<Sentence>)
    requires multiset(a) == multiset(b)
    ensures multiset(Texts(a)) == multiset(Texts(b))
    decreases |a|
  {
    if a == [] {
      assert b == [];
    } else {
      var x := a[0];
      assert x in multiset(b);
      var k :| 0 <= k < |b| && b[k] == x;
      var before, after := b[..k], b[k + 1..];
      RemoveMatchedEq(a, b, k);
      TextsPermutation(a[1..], before + after);
      TextsAppend(before, after);
      TextsAppend(before + [x], after);
      TextsAppend(before, [x]);
    }
  }
}
