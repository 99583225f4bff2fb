/**
 * The guarded average sentence length both versions of `TextReadability`
 * compute in `__init__`: alphabetic tokens per sentence, or 0 for a text
 * without sentences.
 */
module SentenceLength {

  /** `num_tokens / num_sentences if num_sentences > 0 else 0`. */
  function AverageSentenceLength(tokens: nat, sentences: nat): (asl: real)
    ensures asl >= 0.0
    ensures sentences == 0 ==> asl == 0.0
    ensures sentences > 0 ==> asl * sentences as real == tokens as real
    ensures asl == 0.0 <==> tokens == 0 || sentences == 0
  {
    if sentences > 0 then tokens as real / sentences as real else 0.0
  }
}
