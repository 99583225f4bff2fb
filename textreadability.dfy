/**
 * `TextReadability` of textreadability.py. The constructor counts, once,
 * the alphabetic tokens and the sentences the tokenizer found, the
 * guarded average sentence length, the syllables of the whole text and
 * the whitespace words with one and with two or more estimated syllables;
 * each readability formula is then one expression over these counts.
 *
 * The tokenizer output (`doc`), the syllable estimator (`syl`), the easy
 * word list (`easy`) and the positions drawn by `random.sample` (`picks`)
 * are parameters. Scores are exact reals, not floats.
 */
module Readability {

  import opened PyErrors
  import opened PyStr
  import opened Doc
  import opened WordCounts
  import opened Sampling
  import opened SentenceLength

  /** The fields `__init__` assigns; none is ever updated afterwards. */
  datatype TextReadability = TextReadability(
    source: string,
    sentences: seq<Sentence>,
    numTokens: nat,
    numSentences: nat,
    averageSentenceLength: real,
    numSyllables: nat,
    numBisyllabicTokens: nat,
    numMonosyllabicTokens: nat)

  /** What every object built by `__init__` satisfies, whatever the estimator. */
  predicate Valid(tr: TextReadability) {
    && tr.numSentences == |tr.sentences|
    && tr.numTokens == AlphaTokenCount(tr.sentences)
    && tr.averageSentenceLength == AverageSentenceLength(tr.numTokens, tr.numSentences)
    && tr.numMonosyllabicTokens + tr.numBisyllabicTokens <= |Split(tr.source)|
  }

  /** The object was built by `__init__` with the syllable estimator `syl`. */
  predicate BuiltWith(tr: TextReadability, syl: string -> nat) {
    && Valid(tr)
    && tr.numSyllables == syl(tr.source)
    && tr.numMonosyllabicTokens == CountMonosyllabic(Split(tr.source), syl)
    && tr.numBisyllabicTokens == CountBisyllabic(Split(tr.source), syl)
  }

  /** `TextReadability(source)`, given the tokenizer's sentences for `source`. */
  function Init(source: string, doc: seq<Sentence>, syl: string -> nat): (tr: TextReadability)
    ensures BuiltWith(tr, syl)
    ensures tr.source == source && tr.sentences == doc
    ensures tr.numTokens <= |Tokens(doc)|
    ensures tr.numSentences == |doc|
    ensures tr.numSentences == 0 ==> tr.numTokens == 0 && tr.averageSentenceLength == 0.0
    ensures tr.averageSentenceLength == 0.0 <==> tr.numTokens == 0
  {
    var words := Split(source);
    var numTokens := AlphaTokenCount(doc);
    MonoBisyllabicBound(words, syl);
    TextReadability(
      source, doc, numTokens, |doc|, AverageSentenceLength(numTokens, |doc|),
      syl(source), CountBisyllabic(words, syl), CountMonosyllabic(words, syl))
  }

  /** The guarded average is zero for a text that has sentences but no
      alphabetic token, not only for a text without sentences. */
  lemma AverageZeroWithOneSentence(syl: string -> nat)
    ensures var tr := Init("...", [Sentence("...", [Token("...", false)])], syl);
      tr.numSentences == 1 && tr.averageSentenceLength == 0.0
  {
    var doc := [Sentence("...", [Token("...", false)])];
    assert Tokens(doc) == [Token("...", false)];
  }

  // ----------------------------------------------------------------------
  // Flesch formulas
  // ----------------------------------------------------------------------

  /** `206.835 - 1.015 * ASL - 84.6 * (num_syllables / num_tokens)`. */
  function FleschReadingEaseOriginal(tr: TextReadability): (r: Result<real>)
    requires Valid(tr)
    ensures r.Ok? <==> tr.numTokens > 0
    ensures r.Err? ==> r.error == ZeroDivisionError
    ensures r.Ok? ==> r.value <= 206.835
  {
    if tr.numTokens == 0 then Err(ZeroDivisionError)
    else
      var syllablesPerWord := tr.numSyllables as real / tr.numTokens as real;
      Ok(206.835 - 1.015 * tr.averageSentenceLength - 84.6 * syllablesPerWord)
  }

  /** Each extra word per sentence costs 1.015 points, as in the revised formula. */
  lemma FleschOriginalAslSlope(a: TextReadability, b: TextReadability)
    requires Valid(a) && Valid(b)
    requires a.numTokens == b.numTokens > 0 && a.numSyllables == b.numSyllables
    requires b.averageSentenceLength == a.averageSentenceLength + 1.0
    ensures FleschReadingEaseOriginal(a).value - FleschReadingEaseOriginal(b).value == 1.015
  {
  }

  /** `1.599 * mono - 1.015 * ASL - 31.517`: no division, always defined. */
  function FleschReadingEaseRevised(tr: TextReadability): (score: real)
    requires Valid(tr)
    ensures score <= 1.599 * tr.numMonosyllabicTokens as real - 31.517
    ensures tr.numTokens == 0 ==> score == 1.599 * tr.numMonosyllabicTokens as real - 31.517
  {
    1.599 * tr.numMonosyllabicTokens as real - 1.015 * tr.averageSentenceLength - 31.517
  }

  /** With the monosyllabic count fixed, longer sentences give a strictly lower score. */
  lemma FleschRevisedDecreasing(a: TextReadability, b: TextReadability)
    requires Valid(a) && Valid(b)
    requires a.numMonosyllabicTokens == b.numMonosyllabicTokens
    requires a.averageSentenceLength < b.averageSentenceLength
    ensures FleschReadingEaseRevised(a) > FleschReadingEaseRevised(b)
  {
  }

  /** `0.39 * (num_tokens / num_sentences) + 11.8 * (num_syllables / num_tokens) - 15.59`. */
  function FleschKincaidGradeLevel(tr: TextReadability): (r: Result<real>)
    requires Valid(tr)
    ensures r.Ok? <==> tr.numTokens > 0 && tr.numSentences > 0
    ensures r.Ok? <==> tr.numTokens > 0
    ensures r.Err? ==> r.error == ZeroDivisionError
    ensures r.Ok? ==> r.value >= -15.59
  {
    if tr.numSentences == 0 || tr.numTokens == 0 then Err(ZeroDivisionError)
    else
      var wordsPerSentence := tr.numTokens as real / tr.numSentences as real;
      var syllablesPerWord := tr.numSyllables as real / tr.numTokens as real;
      Ok(0.39 * wordsPerSentence + 11.8 * syllablesPerWord - 15.59)
  }

  /** The grade level divides directly, yet it agrees with the guarded average. */
  lemma FleschKincaidUsesAverage(tr: TextReadability)
    requires Valid(tr) && tr.numTokens > 0
    ensures FleschKincaidGradeLevel(tr).Ok?
    ensures FleschKincaidGradeLevel(tr).value
         == 0.39 * tr.averageSentenceLength + 11.8 * (tr.numSyllables as real / tr.numTokens as real) - 15.59
  {
  }

  // ----------------------------------------------------------------------
  // Dale-Chall
  // ----------------------------------------------------------------------

  /** What `str.translate` (punctuation deleted) and `lower` do to the text. */
  function Normalize(s: string): (r: string)
    ensures |r| <= |s|
    ensures forall i :: 0 <= i < |r| ==> !IsPunctuation(r[i]) && !IsUpper(r[i])
  {
    var stripped := StripPunctuation(s);
    LowerFacts(stripped);
    Lower(stripped)
  }

  /** Texts that differ only in the case of letters normalize alike. */
  lemma NormalizeCaseInsensitive(s: string, t: string)
    requires |s| == |t| && forall i :: 0 <= i < |s| ==> CaseVariant(s[i], t[i])
    ensures Normalize(s) == Normalize(t)
  {
    LowerCaseInsensitive(s, t);
    StripLowerCommute(s);
    StripLowerCommute(t);
  }

  lemma {:induction false} SetOfSeqSize<T>(xs: seq<T>)
    ensures |set x | x in xs| <= |xs|
  {
    if xs != [] {
      SetOfSeqSize(xs[1..]);
      assert (set x | x in xs) == (set x | x in xs[1..]) + {xs[0]};
    }
  }

  /** `set(source.translate(...).lower().split())`. */
  function DaleChallWords(source: string): (bag: set<string>)
    ensures |bag| <= |source|
    ensures forall w :: w in bag ==> IsWord(w)
    ensures forall w, i :: w in bag && 0 <= i < |w| ==> !IsPunctuation(w[i]) && !IsUpper(w[i])
  {
    var words := Split(Normalize(source));
    SetOfSeqSize(words);
    SplitChars(Normalize(source));
    set w | w in words
  }

  /** The bag does not see letter case: "The cat" and "the Cat" give the same words. */
  lemma DaleChallCaseInsensitive(s: string, t: string)
    requires |s| == |t| && forall i :: 0 <= i < |s| ==> CaseVariant(s[i], t[i])
    ensures DaleChallWords(s) == DaleChallWords(t)
  {
    NormalizeCaseInsensitive(s, t);
  }

  lemma SubsetSize<T>(a: set<T>, b: set<T>)
    requires a <= b
    ensures |a| <= |b|
  {
    assert b == a + (b - a);
    assert a !! (b - a);
  }

  /** `len(source_words.intersection(dale_chall_wordlist))`. */
  function DaleChallIntersectionCount(source: string, easy: set<string>): (n: nat)
    ensures n <= |DaleChallWords(source)|
    ensures n <= |easy|
    ensures n == 0 <==> DaleChallWords(source) !! easy
  {
    var bag := DaleChallWords(source);
    SubsetSize(bag * easy, bag);
    SubsetSize(bag * easy, easy);
    assert bag * easy == {} <==> bag !! easy by {
      if bag * easy != {} {
        var x :| x in bag * easy;
        assert x in bag && x in easy;
      }
      if !(bag !! easy) {
        var x :| x in bag && x in easy;
        assert x in bag * easy;
      }
    }
    |bag * easy|
  }

  lemma NormalizeAppend(a: string, b: string)
    ensures Normalize(a + b) == Normalize(a) + Normalize(b)
  {
    StripPunctuationAppend(a, b);
    LowerAppend(StripPunctuation(a), StripPunctuation(b));
  }

  function NormalizeEach(parts: seq<string>): (r: seq<string>)
    ensures |r| == |parts|
    ensures forall i :: 0 <= i < |parts| ==> r[i] == Normalize(parts[i])
  {
    if parts == [] then [] else [Normalize(parts[0])] + NormalizeEach(parts[1..])
  }

  /** Normalizing works character by character and keeps the joining spaces. */
  lemma {:induction false} NormalizeJoin(parts: seq<string>)
    ensures Normalize(Join(parts)) == Join(NormalizeEach(parts))
  {
    if |parts| > 1 {
      var first, rest := parts[0], parts[1..];
      var normalized := NormalizeEach(parts);
      assert Normalize(" ") == " " by {
        assert StripPunctuation(" ") == " ";
      }
      assert normalized[1..] == NormalizeEach(rest);
      calc {
        Normalize(Join(parts));
        Normalize(first + " " + Join(rest));
        { NormalizeAppend(first + " ", Join(rest)); }
        Normalize(first + " ") + Normalize(Join(rest));
        { NormalizeAppend(first, " "); }
        Normalize(first) + " " + Normalize(Join(rest));
        { NormalizeJoin(rest); }
        normalized[0] + " " + Join(normalized[1..]);
        Join(normalized);
      }
    }
  }

  /** A word is in the bag of `' '.join(parts)` exactly when it is in the bag of one part. */
  lemma DaleChallWordsOfJoin(parts: seq<string>, w: string)
    ensures w in DaleChallWords(Join(parts)) <==> exists p :: p in parts && w in DaleChallWords(p)
  {
    var normalized := NormalizeEach(parts);
    NormalizeJoin(parts);
    SplitJoin(normalized);
    SplitEachMember(normalized, w);
    assert w in DaleChallWords(Join(parts)) <==> w in SplitEach(normalized);
    if w in SplitEach(normalized) {
      var i :| 0 <= i < |normalized| && w in Split(normalized[i]);
      assert w in DaleChallWords(parts[i]);
    }
    if exists p :: p in parts && w in DaleChallWords(p) {
      var p :| p in parts && w in DaleChallWords(p);
      var i :| 0 <= i < |parts| && parts[i] == p;
      assert w in Split(normalized[i]);
    }
  }

  /** The easy-word count sees a set of words: for a source written as
      `' '.join(parts)`, reordering the parts does not change it. */
  lemma DaleChallReorder(parts: seq<string>, reordered: seq<string>, easy: set<string>)
    requires multiset(parts) == multiset(reordered)
    ensures DaleChallIntersectionCount(Join(parts), easy) == DaleChallIntersectionCount(Join(reordered), easy)
  {
    forall w ensures w in DaleChallWords(Join(parts)) <==> w in DaleChallWords(Join(reordered)) {
      DaleChallWordsOfJoin(parts, w);
      DaleChallWordsOfJoin(reordered, w);
      assert forall p :: p in parts <==> p in multiset(reordered);
    }
    assert DaleChallWords(Join(parts)) == DaleChallWords(Join(reordered));
  }

  /** A whitespace character survives normalizing unchanged. */
  lemma NormalizeSpace(c: char, x: string)
    requires IsSpace(c)
    ensures Normalize([c] + x) == [c] + Normalize(x)
  {
    NormalizeAppend([c], x);
    assert StripPunctuation([c]) == [c] by {
      assert [c][1..] == [];
    }
  }

  lemma NormalizeEachCons(w: string, ws: seq<string>)
    ensures NormalizeEach([w] + ws) == [Normalize(w)] + NormalizeEach(ws)
  {
  }

  lemma SplitEachCons(x: string, xs: seq<string>)
    ensures SplitEach([x] + xs) == Split(x) + SplitEach(xs)
  {
    assert ([x] + xs)[0] == x;
    assert ([x] + xs)[1..] == xs;
  }

  /** A leading word, then either nothing or whitespace and more text. */
  lemma WordThenRest(s: string)
    requires s != [] && !IsSpace(s[0])
    ensures var n := WordEnd(s);
      Split(s) == [s[..n]] + Split(s[n..]) && s == s[..n] + s[n..]
  {
  }

  /** Normalizing deletes and lower-cases characters but keeps every
      whitespace character, so it never merges or splits words: the words
      of the normalized text are the normalized words, empty ones dropped. */
  lemma {:induction false} SplitNormalize(s: string)
    ensures Split(Normalize(s)) == SplitEach(NormalizeEach(Split(s)))
    decreases |s|, 1
  {
    if s == [] {
    } else if IsSpace(s[0]) {
      NormalizeSpace(s[0], s[1..]);
      assert s == [s[0]] + s[1..];
      SplitNormalize(s[1..]);
    } else {
      var n := WordEnd(s);
      var w, rest := s[..n], s[n..];
      WordThenRest(s);
      NormalizeAppend(w, rest);
      NormalizeEachCons(w, Split(rest));
      SplitEachCons(Normalize(w), NormalizeEach(Split(rest)));
      if rest == [] {
        assert w + rest == w;
      } else {
        SplitNormalizeAfterWord(Normalize(w), rest);
      }
    }
  }

  /** The step after a word: whitespace separates its normalized form from
      the normalized remainder. */
  lemma {:induction false} SplitNormalizeAfterWord(nw: string, rest: string)
    requires rest != [] && IsSpace(rest[0])
    ensures Split(nw + Normalize(rest)) == Split(nw) + SplitEach(NormalizeEach(Split(rest)))
    decreases |rest|, 0
  {
    var c := rest[0];
    assert rest == [c] + rest[1..];
    NormalizeSpace(c, rest[1..]);
    assert nw + Normalize(rest) == nw + [c] + Normalize(rest[1..]);
    SplitAppend(nw, c, Normalize(rest[1..]));
    assert Split(rest) == Split(rest[1..]);
    SplitNormalize(rest[1..]);
  }

  /** The easy-word set depends only on the whitespace words of the source:
      re-joining them with single spaces changes nothing. */
  lemma DaleChallWordsResplit(s: string)
    ensures DaleChallWords(s) == DaleChallWords(Join(Split(s)))
  {
    var parts := Split(s);
    NormalizeJoin(parts);
    SplitJoin(NormalizeEach(parts));
    SplitNormalize(s);
  }

  /** Two sources with the same whitespace words, in any order and with any
      separators, have the same easy-word count. */
  lemma DaleChallWordOrder(s: string, t: string, easy: set<string>)
    requires multiset(Split(s)) == multiset(Split(t))
    ensures DaleChallIntersectionCount(s, easy) == DaleChallIntersectionCount(t, easy)
  {
    DaleChallWordsResplit(s);
    DaleChallWordsResplit(t);
    DaleChallReorder(Split(s), Split(t), easy);
  }

  /** `64 - 0.95 * (num_tokens - intersection) - 0.69 * ASL`. */
  function DaleChallFormula(tr: TextReadability, easy: set<string>): (score: real)
    requires Valid(tr)
    ensures DaleChallIntersectionCount(tr.source, easy) <= tr.numTokens ==> score <= 64.0
    ensures score <= 64.0 + 0.95 * |easy| as real
  {
    var easyCount := DaleChallIntersectionCount(tr.source, easy);
    64.0 - 0.95 * (tr.numTokens as real - easyCount as real) - 0.69 * tr.averageSentenceLength
  }

  /** A larger easy-word list never lowers the score. */
  lemma DaleChallMoreEasyWords(tr: TextReadability, easy: set<string>, more: set<string>)
    requires Valid(tr) && easy <= more
    ensures DaleChallFormula(tr, easy) <= DaleChallFormula(tr, more)
  {
    var bag := DaleChallWords(tr.source);
    SubsetSize(bag * easy, bag * more);
  }

  // ----------------------------------------------------------------------
  // Gunning Fog
  // ----------------------------------------------------------------------

  /** `0.4 * (ASL + num_bisyllabic_tokens)`. */
  function GunningFogFormula(tr: TextReadability): (fog: real)
    requires Valid(tr)
    ensures fog >= 0.0
    ensures fog == 0.0 <==> tr.numTokens == 0 && tr.numBisyllabicTokens == 0
  {
    0.4 * (tr.averageSentenceLength + tr.numBisyllabicTokens as real)
  }

  // ----------------------------------------------------------------------
  // SMOG (up to the square root) and FORCAST
  // ----------------------------------------------------------------------

  /** `min(30, num_sentences)`. */
  function SmogSampleSize(tr: TextReadability): (k: nat)
    ensures k <= 30 && k <= tr.numSentences
    ensures k == 30 || k == tr.numSentences
  {
    if tr.numSentences < 30 then tr.numSentences else 30
  }

  /** `random.sample(self.sentences, min(30, num_sentences))`, drawn at `picks`. */
  function SmogSample(tr: TextReadability, picks: seq<nat>): (sample: seq<Sentence>)
    requires Valid(tr) && IsSample(picks, SmogSampleSize(tr), tr.numSentences)
    ensures |sample| == SmogSampleSize(tr)
    ensures multiset(sample) <= multiset(tr.sentences)
    ensures tr.numSentences <= 30 ==> multiset(sample) == multiset(tr.sentences)
  {
    SampleIsSubMultiset(tr.sentences, picks);
    var sample := Pick(tr.sentences, picks);
    assert tr.numSentences <= 30 ==> multiset(sample) == multiset(tr.sentences) by {
      if tr.numSentences <= 30 {
        SampleOfAll(tr.sentences, picks);
      }
    }
    sample
  }

  /** The words with two or more syllables in the space-joined sample: the
      integer whose square root the SMOG score adds to 3. */
  function SmogPolysyllableCount(tr: TextReadability, syl: string -> nat, picks: seq<nat>): (n: nat)
    requires Valid(tr) && IsSample(picks, SmogSampleSize(tr), tr.numSentences)
    ensures n == CountBisyllabic(SplitEach(Texts(SmogSample(tr, picks))), syl)
    ensures n <= |SplitEach(Texts(SmogSample(tr, picks)))|
    ensures tr.numSentences <= 30 ==> n == CountBisyllabic(SplitEach(Texts(tr.sentences)), syl)
  {
    var sample := SmogSample(tr, picks);
    SplitJoin(Texts(sample));
    var all := SplitEach(Texts(tr.sentences));
    assert tr.numSentences <= 30 ==> CountBisyllabic(SplitEach(Texts(sample)), syl) == CountBisyllabic(all, syl) by {
      if tr.numSentences <= 30 {
        TextsPermutation(sample, tr.sentences);
        SplitEachPermutation(Texts(sample), Texts(tr.sentences));
        CountIfPermutation(SplitEach(Texts(sample)), all, w => syl(w) >= 2);
      }
    }
    CountBisyllabic(Split(Join(Texts(sample))), syl)
  }

  /** `min(150, num_tokens)`. */
  function ForcastSampleSize(tr: TextReadability): (k: nat)
    ensures k <= 150 && k <= tr.numTokens
    ensures k == 150 || k == tr.numTokens
  {
    if tr.numTokens < 150 then tr.numTokens else 150
  }

  /** `20 - mono_in_sample / 10` for a drawn sample of words. */
  function ForcastScore(sample: seq<string>, syl: string -> nat): (score: real)
    ensures 20.0 - |sample| as real / 10.0 <= score <= 20.0
    ensures score == 20.0 <==> forall j :: 0 <= j < |sample| ==> syl(sample[j]) != 1
  {
    20.0 - CountMonosyllabic(sample, syl) as real / 10.0
  }

  /** `forcast_formula` over `random.sample(source.split(), min(150, num_tokens))`,
      drawn at `picks`; `random.sample` raises `ValueError` when the sample
      size exceeds the number of whitespace words. */
  function ForcastFormula(tr: TextReadability, syl: string -> nat, picks: seq<nat>): (r: Result<real>)
    requires BuiltWith(tr, syl)
    requires ForcastSampleSize(tr) <= |Split(tr.source)| ==>
      IsSample(picks, ForcastSampleSize(tr), |Split(tr.source)|)
    ensures r.Ok? <==> ForcastSampleSize(tr) <= |Split(tr.source)|
    ensures r.Err? ==> r.error == ValueError
    ensures r.Ok? ==> r.value <= 20.0
    ensures r.Ok? ==> r.value >= 20.0 - ForcastSampleSize(tr) as real / 10.0
    ensures r.Ok? ==> r.value >= 20.0 - tr.numMonosyllabicTokens as real / 10.0
  {
    var words := Split(tr.source);
    if ForcastSampleSize(tr) > |words| then Err(ValueError)
    else
      var sample := Pick(words, picks);
      SampleIsSubMultiset(words, picks);
      CountIfSubMultiset(sample, words, w => syl(w) == 1);
      Ok(ForcastScore(sample, syl))
  }

  /** `min(150, len(source.split()))`: the size the comment on the draw describes. */
  function ForcastCappedSampleSize(tr: TextReadability): (k: nat)
    ensures k <= 150 && k <= |Split(tr.source)|
    ensures k == 150 || k == |Split(tr.source)|
  {
    var n := |Split(tr.source)|;
    if n < 150 then n else 150
  }

  /** FORCAST with the draw sized by the words it is drawn from: always defined. */
  function ForcastFormulaCapped(tr: TextReadability, syl: string -> nat, picks: seq<nat>): (score: real)
    requires BuiltWith(tr, syl)
    requires IsSample(picks, ForcastCappedSampleSize(tr), |Split(tr.source)|)
    ensures 5.0 <= score <= 20.0
    ensures score >= 20.0 - tr.numMonosyllabicTokens as real / 10.0
  {
    var words := Split(tr.source);
    var sample := Pick(words, picks);
    SampleIsSubMultiset(words, picks);
    CountIfSubMultiset(sample, words, w => syl(w) == 1);
    ForcastScore(sample, syl)
  }

  /** When the two sample sizes coincide (tokenizer and `split()` count
      alike, or both reach 150), the capped version and the code give the
      same score for the same draw. */
  lemma ForcastCappedAgrees(tr: TextReadability, syl: string -> nat, picks: seq<nat>)
    requires BuiltWith(tr, syl)
    requires ForcastSampleSize(tr) == ForcastCappedSampleSize(tr)
    requires IsSample(picks, ForcastCappedSampleSize(tr), |Split(tr.source)|)
    ensures ForcastFormula(tr, syl, picks) == Ok(ForcastFormulaCapped(tr, syl, picks))
  {
  }

  /** The draw can fail: in "a,b" the tokenizer finds two alphabetic
      tokens but `split()` finds one word. */
  lemma ForcastValueErrorExample(syl: string -> nat)
    ensures var tr := Init("a,b",
        [Sentence("a,b", [Token("a", true), Token(",", false), Token("b", true)])], syl);
      ForcastFormula(tr, syl, []) == Err(ValueError)
  {
    var s := "a,b";
    var tokens := [Token("a", true), Token(",", false), Token("b", true)];
    var doc := [Sentence(s, tokens)];
    assert |Split(s)| == 1 by {
      assert IsWord(s);
      SplitWord(s);
    }
    assert AlphaTokenCount(doc) == 2 by {
      assert Tokens(doc) == tokens;
      assert tokens[1..] == [Token(",", false), Token("b", true)];
      assert tokens[1..][1..] == [Token("b", true)];
    }
    ForcastNeedsEnoughWords(Init(s, doc, syl), syl);
  }

  lemma ForcastNeedsEnoughWords(tr: TextReadability, syl: string -> nat)
    requires BuiltWith(tr, syl) && |Split(tr.source)| < tr.numTokens <= 150
    ensures ForcastFormula(tr, syl, []) == Err(ValueError)
  {
  }
}
