# text-readability in Dafny

A model of the `TextReadability` class, which computes classic readability
scores for an English text. The class exists in two versions:
`textreadability.py` (current) and `text-readability.py` (earlier, shorter).

Both versions count everything once, when the object is built:

- the alphabetic tokens the tokenizer found (`is_alpha`);
- the sentences;
- the average sentence length, guarded against zero sentences;
- the syllables of the whole text;
- the whitespace-split words with exactly one estimated syllable, and (current
  version only) with two or more.

Each formula is then one expression over these counts. The current version
adds Dale-Chall, Gunning Fog, SMOG and FORCAST. SMOG and FORCAST draw a random
sample first.

Modules:

- `PyStr` (`py_str.dfy`): the Python string operations the class uses, on ASCII.
  These are `str.split()`, `' '.join`, deleting `string.punctuation` with
  `str.translate`, and `str.lower()`.
- `Doc` (`doc.dfy`): the tokenizer's output. It is a sequence of sentence spans.
  Each span has its text and its tokens, and each token has its text and its
  `is_alpha` flag.
- `WordCounts` (`word_counts.dfy`): counting words by their estimated syllable
  count.
- `Sampling` (`sampling.dfy`): `random.sample` as a draw of distinct positions.
- `SentenceLength` (`sentence_length.dfy`): the guarded average sentence length.
  Both classes compute it the same way.
- `Multisets` (`multisets.dfy`): two helper facts about multisets.
- `PyErrors` (`py_errors.dfy`): the exceptions a formula can raise.
  `ZeroDivisionError` comes from dividing by a zero count. `ValueError` comes
  from a sample larger than its population.
- `Readability` (`textreadability.dfy`): the current class.
- `EarlyReadability` (`text_readability_early.dfy`): the earlier class. It
  follows its own file, including the coefficient `1015` in the original Flesch
  formula.

Each class is a datatype holding the fields `__init__` assigns. `Init` builds
it. Each formula method is a function of it.

External code becomes a parameter:

- The tokenizer's result is `doc`.
- `syllables.estimate` is `syl: string -> nat`. Nothing is assumed about it.
  The whole-text syllable count is `syl(source)`, the same call the source
  makes.
- The easy-word list is `easy: set<string>`.
- The positions `random.sample` drew are `picks`.

A formula that can raise in Python returns `Result<real>`. The model proves
exactly when it is `Err`.

Two facts about the code worth stating plainly:

- The average sentence length is 0 for a text that has sentences but no
  alphabetic token, not only for a text without sentences
  (`AverageZeroWithOneSentence`).
- The comment on the SMOG count says "more than two syllables". The code counts
  words with two or more (`>= 2`), so `SmogPolysyllableCount` counts `>= 2`.

## Model

| member | source | states |
|---|---|---|
| `PyStr.PunctuationShape` | textreadability.py:97 | `string.punctuation` has 32 characters. Each is one of the four ASCII punctuation ranges. None is whitespace or an upper-case letter. |
| `PyStr.StripPunctuation` | textreadability.py:97 | The result contains no punctuation mark. Every other character keeps its number of occurrences. The result is never longer than the input. |
| `PyStr.StripPunctuationFixpoint` | textreadability.py:97 | A text without punctuation is returned unchanged. |
| `PyStr.StripPunctuationIdempotent` | textreadability.py:97 | Stripping a second time changes nothing. |
| `PyStr.StripPunctuationAppend` | textreadability.py:97 | Stripping distributes over concatenation. |
| `PyStr.LowerChar` | textreadability.py:100 | An upper-case letter becomes its own lower-case letter (code + 32). The result is never an upper-case letter. Any other character is unchanged. Whitespace and punctuation stay what they were. |
| `PyStr.Lower` | textreadability.py:100 | `lower()` keeps the length and lower-cases each character in place. |
| `PyStr.LowerFacts` | textreadability.py:100 | After `lower()`, no upper-case letter remains. Other characters keep their place, and whitespace and punctuation do not move. |
| `PyStr.LowerIdempotent` | textreadability.py:100 | Lower-casing a second time changes nothing. |
| `PyStr.LowerAppend` | textreadability.py:100 | Lower-casing distributes over concatenation. |
| `PyStr.LowerCaseInsensitive` | textreadability.py:100 | Two strings lower-case alike exactly when they have the same length and differ only in the case of letters. |
| `PyStr.StripLowerCommute` | textreadability.py:97-100 | Deleting punctuation and lower-casing give the same result in either order. |
| `PyStr.Split` | textreadability.py:39 | Every piece of `split()` is non-empty and contains no whitespace. There are no more pieces than characters. |
| `PyStr.Join` | textreadability.py:129 | `' '.join(parts)` of no part is empty. Otherwise it starts with the first part, ends with the last, and is as long as the parts together plus one space between each two. |
| `PyStr.SplitAppend` | textreadability.py:129-132 | Splitting `a + c + b`, where `c` is whitespace, gives the words of `a` followed by the words of `b`. |
| `PyStr.SplitJoin` | textreadability.py:129-132 | Splitting `' '.join(parts)` gives each part's words, in order. Joining never merges words of two sentences. |
| `PyStr.SplitJoinWords` | textreadability.py:39 | Round trip: joining words with spaces and splitting again gives back the same words. |
| `PyStr.SplitNormalises` | textreadability.py:39 | Re-joining the words of `split()` and splitting again changes nothing. |
| `PyStr.SplitChars` | textreadability.py:100 | Every character of a split word comes from the split text. |
| `PyStr.SplitEachPermutation` | textreadability.py:129-132 | Splitting reordered parts gives the same words, reordered. |
| `Doc.CountAlpha` | textreadability.py:22 | The alphabetic count is at most the token count. It is 0 exactly when no token is alphabetic. It equals the token count exactly when every token is alphabetic. |
| `Doc.CountAlphaAppend` | textreadability.py:22 | The alphabetic count is additive over concatenation. |
| `Doc.Tokens` | textreadability.py:22 | Iterating a one-sentence document visits exactly that sentence's tokens. Every sentence's tokens are visited, and no other token. |
| `Doc.TokensAppend` | textreadability.py:22 | The traversal of consecutive stretches of sentences is the concatenation of their traversals. With the one-sentence case, this makes the traversal every sentence's tokens in order, each once. |
| `Doc.AlphaTokenCount` | textreadability.py:22 | `num_tokens` never exceeds the number of tokens in the document. An empty document has none. |
| `Doc.AlphaTokenCountBySentence` | textreadability.py:22 | The document's count is the first sentence's count plus the rest's. |
| `Doc.Texts` | textreadability.py:129 | `str(element)` for each sampled sentence, in the same order, one text per sentence. |
| `Doc.TextsPermutation` | textreadability.py:129 | Reordering sentences reorders their texts. |
| `WordCounts.CountIf` | textreadability.py:39-42 | `sum(1 for word in ws if keep(word))` is at most the number of words, and 0 exactly when no word is kept. |
| `WordCounts.CountMonosyllabic` | textreadability.py:42 | At most the number of words. Zero exactly when no word has exactly one estimated syllable. |
| `WordCounts.CountBisyllabic` | textreadability.py:39 | At most the number of words. Zero exactly when no word has two or more estimated syllables. |
| `WordCounts.SyllableClassesPartition` | textreadability.py:39-42 | Monosyllabic, `>= 2` and zero-syllable counts add up to the number of whitespace words. The first two classes are disjoint. |
| `WordCounts.MonoBisyllabicBound` | textreadability.py:39-42 | Monosyllabic plus bisyllabic is at most `len(source.split())`. Equality holds exactly when every word has at least one estimated syllable. |
| `WordCounts.CountIfSubMultiset` | textreadability.py:146 | A count over a sub-multiset of words never exceeds the count over the whole. |
| `WordCounts.CountIfPermutation` | textreadability.py:132 | A word count does not depend on word order. |
| `Sampling.IsSample` | textreadability.py:128 | A draw of k distinct positions below n. No such draw exists when `k > n`, which is why `random.sample` raises `ValueError` at textreadability.py:143. |
| `Sampling.DistinctBelow` | textreadability.py:143 | Pigeonhole: distinct positions below n number at most n. |
| `Sampling.Pick` | textreadability.py:128 | The drawn elements, one per position, in the order drawn. |
| `Sampling.SampleExists` | textreadability.py:128 | When `k <= n`, a draw of k distinct positions out of n exists. |
| `Sampling.SampleIsSubMultiset` | textreadability.py:143 | A draw without repetition takes no element more often than it occurs in the population. |
| `Sampling.SampleOfAll` | textreadability.py:128 | Drawing as many elements as the population holds reorders the whole population. |
| `SentenceLength.AverageSentenceLength` | textreadability.py:29-33 | Never negative. 0 when there are no sentences. Otherwise, times the sentence count, it gives the token count. It is 0 exactly when there are no tokens or no sentences. |
| `Readability.Init` | textreadability.py:10-42 | The result is consistent with `source`, `doc` and `syl`. Tokens never exceed the document's tokens. No sentence implies no token and an average of 0. The average is 0 exactly when there is no alphabetic token. Monosyllabic plus bisyllabic is at most the whitespace word count. |
| `Readability.AverageZeroWithOneSentence` | textreadability.py:29-33 | A one-sentence text with no alphabetic token has an average sentence length of 0. |
| `Readability.FleschReadingEaseOriginal` | textreadability.py:61-68 | Defined exactly when `num_tokens > 0`; otherwise `ZeroDivisionError`. The score never exceeds 206.835. |
| `Readability.FleschOriginalAslSlope` | textreadability.py:63-66 | One more word per sentence lowers the score by exactly 1.015. |
| `Readability.FleschReadingEaseRevised` | textreadability.py:71-78 | Always defined, since there is no division. At most `1.599 * mono - 31.517`, with equality when there is no token. |
| `Readability.FleschRevisedDecreasing` | textreadability.py:73-77 | With the monosyllabic count fixed, a longer average sentence gives a strictly lower score. |
| `Readability.FleschKincaidGradeLevel` | textreadability.py:81-88 | Defined exactly when `num_tokens > 0` and `num_sentences > 0`. For a built object this is the same as `num_tokens > 0`. Otherwise `ZeroDivisionError`. Never below -15.59. |
| `Readability.FleschKincaidUsesAverage` | textreadability.py:83-87 | The grade's direct division `num_tokens / num_sentences` equals the guarded average sentence length. |
| `Readability.Normalize` | textreadability.py:97-100 | After deleting punctuation and lower-casing, no punctuation mark and no upper-case letter remains. |
| `Readability.NormalizeJoin` | textreadability.py:97-100 | Normalizing `' '.join(parts)` equals joining the normalized parts. |
| `Readability.DaleChallWords` | textreadability.py:97-100 | Every word in the bag is a non-empty, whitespace-free word with no punctuation and no upper case. The bag is no larger than the text. |
| `Readability.DaleChallIntersectionCount` | textreadability.py:101-107 | At most the number of distinct normalized words. At most the size of the word list. 0 exactly when they are disjoint. |
| `Readability.DaleChallWordsOfJoin` | textreadability.py:97-104 | A word is in the bag of `' '.join(parts)` exactly when it is in the bag of one of the parts. |
| `Readability.NormalizeCaseInsensitive` | textreadability.py:97-100 | Texts that differ only in letter case normalize to the same text. |
| `Readability.DaleChallCaseInsensitive` | textreadability.py:97-104 | Texts that differ only in letter case give the same set of Dale-Chall words. |
| `Readability.DaleChallReorder` | textreadability.py:97-107 | For a source written as `' '.join(parts)`, reordering the parts does not change the intersection count. |
| `Readability.SplitNormalize` | textreadability.py:97-100 | Deleting punctuation and lower-casing never merges or splits words. The words of the normalized text are the normalized whitespace words, with words that became empty dropped. |
| `Readability.DaleChallWordsResplit` | textreadability.py:97-104 | The set of Dale-Chall words depends only on the whitespace words of the source. Re-joining them with single spaces changes nothing. |
| `Readability.DaleChallWordOrder` | textreadability.py:97-107 | Two sources with the same whitespace words have the same intersection count. The words may come in any order, with any whitespace between them. |
| `Readability.DaleChallFormula` | textreadability.py:110-114 | At most 64 when the easy-word count does not exceed `num_tokens`. Never above `64 + 0.95 * len(word list)`. |
| `Readability.DaleChallMoreEasyWords` | textreadability.py:110-114 | A larger easy-word list never lowers the score. |
| `Readability.GunningFogFormula` | textreadability.py:120-123 | Never negative. 0 exactly when there is no alphabetic token and no bisyllabic word. |
| `Readability.SmogSampleSize` | textreadability.py:128 | `min(30, num_sentences)`: at most 30, at most the sentence count, and equal to one of them. |
| `Readability.SmogSample` | textreadability.py:128 | Exactly `min(30, num_sentences)` sentences, drawn without repetition. With 30 sentences or fewer, the sample is all the sentences, reordered. |
| `Readability.SmogPolysyllableCount` | textreadability.py:128-132 | Counts the `>= 2`-syllable words of each sampled sentence. At most the number of words in the sample. With 30 sentences or fewer, it equals the count over all sentences. |
| `Readability.ForcastSampleSize` | textreadability.py:143 | `min(150, num_tokens)`: at most 150, at most the token count, and equal to one of them. |
| `Readability.ForcastScore` | textreadability.py:146-152 | Between `20 - len(sample)/10` and 20. Exactly 20 when the sample has no monosyllabic word. |
| `Readability.ForcastFormula` | textreadability.py:141-153 | Defined exactly when `min(150, num_tokens)` is at most the number of whitespace words; otherwise `ValueError`. The score is at most 20, at least `20 - sample size / 10`, and at least `20 - num_monosyllabic_tokens / 10`. |
| `Readability.ForcastValueErrorExample` | textreadability.py:143 | For `"a,b"`, the tokenizer finds two alphabetic tokens but `split()` finds one word, so the draw raises `ValueError`. |
| `Readability.ForcastNeedsEnoughWords` | textreadability.py:143 | With fewer whitespace words than alphabetic tokens (at most 150), the formula raises `ValueError`. |
| `Readability.ForcastCappedSampleSize` | textreadability.py:142 | `min(150, len(source.split()))`, never larger than the population. |
| `Readability.ForcastFormulaCapped` | textreadability.py:142-152 | With the draw sized by its own population, the score is always defined. It lies between 5 and 20 and is at least `20 - num_monosyllabic_tokens / 10`. |
| `Readability.ForcastCappedAgrees` | textreadability.py:143-152 | When the two sample sizes coincide, the capped formula and the code give the same score for the same draw. |
| `EarlyReadability.Init` | text-readability.py:5-29 | `total_words` is the document's alphabetic-token count, the syllable count is the estimate for the whole text, and the monosyllabic count counts the whitespace words with one estimated syllable. Words never exceed the document's tokens. No sentence gives an average of 0. The average is 0 exactly when there is no alphabetic token. The monosyllabic count is at most `len(source.split())`. |
| `EarlyReadability.FleschReadingEaseOriginal` | text-readability.py:40-46 | Defined exactly when `total_words > 0`; otherwise `ZeroDivisionError`. Never above 206.835. |
| `EarlyReadability.FleschOriginalAslSlope` | text-readability.py:41-45 | One more word per sentence lowers the score by exactly 1015. |
| `EarlyReadability.FleschOriginalNegative` | text-readability.py:41-45 | Any text averaging at least one word per sentence scores below -808. |
| `EarlyReadability.FleschReadingEaseRevised` | text-readability.py:49-55 | Always defined. At most `1.599 * mono - 31.517`, with equality when there is no word. |
| `EarlyReadability.FleschRevisedDecreasing` | text-readability.py:50-54 | With the monosyllabic count fixed, a longer average sentence gives a strictly lower score. |
| `EarlyReadability.FleschKincaidGradeLevel` | text-readability.py:58-64 | Defined exactly when `total_words > 0` and `total_sentences > 0`. This is the same as `total_words > 0`. Otherwise `ZeroDivisionError`. Never below -15.59. |

## Left out

- spaCy model loading and tokenization (textreadability.py:16-19, text-readability.py:7-10). This is an external NLP library. Its output is the `doc` parameter, and the `is_alpha` flag is taken as given.
- The internals of `syllables.estimate`. This is an external heuristic, modelled as the parameter `syl`.
- Reading the Dale-Chall word list from disk (textreadability.py:93-94). This is file I/O; the list is the `easy` parameter.
- `print_stats` and the module-level demo instance (textreadability.py:45-58, text-readability.py:32-37, 66-68). These are console output.
- The distribution of `random.sample`. Only the size of the draw and the distinctness of its positions are modelled.
- `math.sqrt` and the SMOG score itself (textreadability.py:135-138). `Readability.SmogPolysyllableCount` stops at the integer fed to the square root.
- Floating-point rounding. All scores are exact reals.
- Python's `int` zero for the average when there is no sentence. It is the real `0.0` here.
- Non-ASCII whitespace in `str.split` and non-ASCII case mapping in `str.lower`. Only ASCII is modelled.
- How spaCy renders `str(span)`. Each sentence's text is taken from the tokenizer's output.

## Findings

| source | as written | input that shows it | evidently intended | confidence | as-written member | corrected member |
|---|---|---|---|---|---|---|
| text-readability.py:43 | subtracts `1015 * average_sentence_length` | the file's own demo text "hello dog woof. my name is nadr." has two sentences and seven alphabetic tokens (average 3.5), so it scores below -3345 | `1.015 * average_sentence_length`, as in the revised formula at text-readability.py:52 and in textreadability.py:65 | high; not executed | `EarlyReadability.FleschOriginalNegative` | `Readability.FleschOriginalAslSlope` |
| textreadability.py:143 | draws `min(150, num_tokens)` words from `source.split()` | `"a,b"`: two alphabetic tokens but one whitespace word, so `random.sample` raises `ValueError` | a sample of 150 words, or all words if fewer, as the comment at line 142 says | medium; not executed | `Readability.ForcastValueErrorExample` | `Readability.ForcastFormulaCapped` |
