/**
 * `TextReadability` of text-readability.py, the earlier and shorter
 * version: the same counts without the sentence list, the source text or
 * the bisyllabic count, and three formulas. Its original Flesch formula
 * multiplies the average sentence length by 1015 where the later version
 * (and the revised formula beside it) uses 1.015; this module follows its
 * own file.
 */
module EarlyReadability {

  import opened PyErrors
  import opened PyStr
  import opened Doc
  import opened WordCounts
  import opened SentenceLength

  /** The fields `__init__` assigns; none is ever updated afterwards. */
  datatype TextReadability = TextReadability(
    totalWords: nat,
    totalSentences: nat,
    averageSentenceLength: real,
    totalSyllables: nat,
    totalMonosyllabicWords: nat)

  /** What every object built by `__init__` satisfies. */
  predicate Valid(tr: TextReadability) {
    && (tr.totalSentences == 0 ==> tr.totalWords == 0)
    && tr.averageSentenceLength == AverageSentenceLength(tr.totalWords, tr.totalSentences)
  }

  /** `TextReadability(source)`, given the tokenizer's sentences for `source`. */
  function Init(source: string, doc: seq<Sentence>, syl: string -> nat): (tr: TextReadability)
    ensures Valid(tr)
    ensures tr.totalWords == AlphaTokenCount(doc)
    ensures tr.totalWords <= |Tokens(doc)|
    ensures tr.totalSentences == |doc|
    ensures tr.totalSentences == 0 ==> tr.averageSentenceLength == 0.0
    ensures tr.averageSentenceLength == 0.0 <==> tr.totalWords == 0
    ensures tr.totalSyllables == syl(source)
    ensures tr.totalMonosyllabicWords == CountMonosyllabic(Split(source), syl)
    ensures tr.totalMonosyllabicWords <= |Split(source)|
  {
    var totalWords := AlphaTokenCount(doc);
    TextReadability(
      totalWords, |doc|, AverageSentenceLength(totalWords, |doc|),
      syl(source), CountMonosyllabic(Split(source), syl))
  }

  /** `206.835 - 1015 * ASL - 84.6 * (total_syllables / total_words)`. */
  function FleschReadingEaseOriginal(tr: TextReadability): (r: Result<real>)
    requires Valid(tr)
    ensures r.Ok? <==> tr.totalWords > 0
    ensures r.Err? ==> r.error == ZeroDivisionError
    ensures r.Ok? ==> r.value <= 206.835
  {
    if tr.totalWords == 0 then Err(ZeroDivisionError)
    else
      var syllablesPerWord := tr.totalSyllables as real / tr.totalWords as real;
      Ok(206.835 - 1015.0 * tr.averageSentenceLength - 84.6 * syllablesPerWord)
  }

  /** Each extra word per sentence costs 1015 points here, a thousand times
      the 1.015 of the revised formula in the same class. */
  lemma FleschOriginalAslSlope(a: TextReadability, b: TextReadability)
    requires Valid(a) && Valid(b)
    requires a.totalWords == b.totalWords > 0 && a.totalSyllables == b.totalSyllables
    requires b.averageSentenceLength == a.averageSentenceLength + 1.0
    ensures FleschReadingEaseOriginal(a).value - FleschReadingEaseOriginal(b).value == 1015.0
  {
  }

  /** Any text with at least one word per sentence on average scores below
      -808, whatever its syllables. */
  lemma FleschOriginalNegative(tr: TextReadability)
    requires Valid(tr) && tr.averageSentenceLength >= 1.0
    ensures FleschReadingEaseOriginal(tr).Ok?
    ensures FleschReadingEaseOriginal(tr).value < -808.0
  {
  }

  /** `1.599 * mono - 1.015 * ASL - 31.517`: no division, always defined. */
  function FleschReadingEaseRevised(tr: TextReadability): (score: real)
    requires Valid(tr)
    ensures score <= 1.599 * tr.totalMonosyllabicWords as real - 31.517
    ensures tr.totalWords == 0 ==> score == 1.599 * tr.totalMonosyllabicWords as real - 31.517
  {
    1.599 * tr.totalMonosyllabicWords as real - 1.015 * tr.averageSentenceLength - 31.517
  }

  /** With the monosyllabic count fixed, longer sentences give a strictly lower score. */
  lemma FleschRevisedDecreasing(a: TextReadability, b: TextReadability)
    requires Valid(a) && Valid(b)
    requires a.totalMonosyllabicWords == b.totalMonosyllabicWords
    requires a.averageSentenceLength < b.averageSentenceLength
    ensures FleschReadingEaseRevised(a) > FleschReadingEaseRevised(b)
  {
  }

  /** `0.39 * (total_words / total_sentences) + 11.8 * (total_syllables / total_words) - 15.59`. */
  function FleschKincaidGradeLevel(tr: TextReadability): (r: Result<real>)
    requires Valid(tr)
    ensures r.Ok? <==> tr.totalWords > 0 && tr.totalSentences > 0
    ensures r.Ok? <==> tr.totalWords > 0
    ensures r.Err? ==> r.error == ZeroDivisionError
    ensures r.Ok? ==> r.value >= -15.59
  {
    if tr.totalSentences == 0 || tr.totalWords == 0 then Err(ZeroDivisionError)
    else
      var wordsPerSentence := tr.totalWords as real / tr.totalSentences as real;
      var syllablesPerWord := tr.totalSyllables as real / tr.totalWords as real;
      Ok(0.39 * wordsPerSentence + 11.8 * syllablesPerWord - 15.59)
  }
}
