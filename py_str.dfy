/**
 * The three pieces of Python's `str` behaviour that the readability
 * statistics rely on, restricted to ASCII:
 *  - `s.split()` with no separator: split on runs of whitespace, drop the
 *    empty pieces;
 *  - `s.translate(str.maketrans('', '', string.punctuation))`: delete every
 *    one of the 32 ASCII punctuation marks;
 *  - `s.lower()`: map `A`..`Z` to `a`..`z`;
 * and `' '.join(parts)`, which the SMOG sample uses to glue sentences back
 * into one string.
 */
module PyStr {

  import opened Multisets

  /** The ASCII characters for which Python's `str.isspace()` holds:
      tab, line feed, vertical tab, form feed, carriage return (9..13),
      the four information separators (28..31) and the space (32). */
  predicate IsSpace(c: char) {
    var n := c as int;
    9 <= n <= 13 || 28 <= n <= 32
  }

  /** Python's `string.punctuation`. */
  const Punctuation: string := "!\"#$%&'()*+,-./:;<=>?@[\\]^_`{|}~"

  /** Membership in `string.punctuation`, by character code ranges. */
  predicate IsPunctuation(c: char) {
    var n := c as int;
    33 <= n <= 47 || 58 <= n <= 64 || 91 <= n <= 96 || 123 <= n <= 126
  }

  predicate IsUpper(c: char) {
    'A' <= c <= 'Z'
  }

  /** A piece that `str.split()` can return: non-empty, no whitespace. */
  predicate IsWord(w: string) {
    |w| > 0 && forall i :: 0 <= i < |w| ==> !IsSpace(w[i])
  }

  /** The ranges are exactly the 32 characters of `string.punctuation`,
      and none of them is whitespace or an upper-case letter. */
  lemma PunctuationShape()
    ensures |Punctuation| == 32
    ensures forall c :: IsPunctuation(c) <==> c in Punctuation
    ensures forall c :: IsPunctuation(c) ==> !IsSpace(c) && !IsUpper(c)
  {
  }

  // ----------------------------------------------------------------------
  // str.translate(str.maketrans('', '', string.punctuation))
  // ----------------------------------------------------------------------

  /** Deletes every punctuation mark and keeps every other character, in order. */
  function StripPunctuation(s: string): (r: string)
    ensures |r| <= |s|
    ensures forall i :: 0 <= i < |r| ==> !IsPunctuation(r[i])
    ensures forall c :: !IsPunctuation(c) ==> multiset(r)[c] == multiset(s)[c]
  {
    if s == [] then []
    else
      var rest := StripPunctuation(s[1..]);
      assert s == [s[0]] + s[1..];
      if IsPunctuation(s[0]) then rest else [s[0]] + rest
  }

  /** A string without punctuation is left as it is. */
  lemma {:induction false} StripPunctuationFixpoint(s: string)
    requires forall i :: 0 <= i < |s| ==> !IsPunctuation(s[i])
    ensures StripPunctuation(s) == s
  {
    if s != [] {
      StripPunctuationFixpoint(s[1..]);
    }
  }

  /** Stripping a second time changes nothing. */
  lemma StripPunctuationIdempotent(s: string)
    ensures StripPunctuation(StripPunctuation(s)) == StripPunctuation(s)
  {
    StripPunctuationFixpoint(StripPunctuation(s));
  }

  /** Stripping works character by character, so it distributes over `+`. */
  lemma {:induction false} StripPunctuationAppend(a: string, b: string)
    ensures StripPunctuation(a + b) == StripPunctuation(a) + StripPunctuation(b)
  {
    if a == [] {
      assert a + b == b;
    } else {
      assert (a + b)[0] == a[0];
      assert (a + b)[1..] == a[1..] + b;
      StripPunctuationAppend(a[1..], b);
    }
  }

  // ----------------------------------------------------------------------
  // str.lower()
  // ----------------------------------------------------------------------

  /** `A`..`Z` become `a`..`z`; every other character is kept. */
  function LowerChar(c: char): (d: char)
    ensures !IsUpper(d)
    ensures IsUpper(c) ==> d as int == c as int + 32
    ensures !IsUpper(c) ==> d == c
    ensures IsSpace(d) <==> IsSpace(c)
    ensures IsPunctuation(d) <==> IsPunctuation(c)
  {
    if IsUpper(c) then (c as int + 32) as char else c
  }

  /** Lower-cases every character in place. */
  function Lower(s: string): (r: string)
    ensures |r| == |s|
    ensures forall i :: 0 <= i < |s| ==> r[i] == LowerChar(s[i])
  {
    if s == [] then [] else [LowerChar(s[0])] + Lower(s[1..])
  }

  /** Lower-casing leaves no upper-case letter behind, keeps every
      character that is not one, and moves no whitespace or punctuation. */
  lemma LowerFacts(s: string)
    ensures forall i :: 0 <= i < |s| ==> !IsUpper(Lower(s)[i])
    ensures forall i :: 0 <= i < |s| && !IsUpper(s[i]) ==> Lower(s)[i] == s[i]
    ensures forall i :: 0 <= i < |s| ==> (IsSpace(Lower(s)[i]) <==> IsSpace(s[i]))
    ensures forall i :: 0 <= i < |s| ==> (IsPunctuation(Lower(s)[i]) <==> IsPunctuation(s[i]))
  {
  }

  /** Lower-casing a second time changes nothing. */
  lemma LowerIdempotent(s: string)
    ensures Lower(Lower(s)) == Lower(s)
  {
  }

  lemma LowerAppend(a: string, b: string)
    ensures Lower(a + b) == Lower(a) + Lower(b)
  {
  }

  /** Two characters that are equal, or an upper-case letter and its lower case. */
  predicate CaseVariant(a: char, b: char) {
    || a == b
    || (IsUpper(a) && b as int == a as int + 32)
    || (IsUpper(b) && a as int == b as int + 32)
  }

  lemma LowerCharCaseVariant(a: char, b: char)
    ensures LowerChar(a) == LowerChar(b) <==> CaseVariant(a, b)
  {
  }

  /** Two strings lower-case alike exactly when they differ only in the
      case of letters: "The" and "the" give the same word. */
  lemma LowerCaseInsensitive(s: string, t: string)
    ensures Lower(s) == Lower(t) <==>
      |s| == |t| && forall i :: 0 <= i < |s| ==> CaseVariant(s[i], t[i])
  {
    if Lower(s) == Lower(t) {
      LowerEqualVariants(s, t);
    }
    if |s| == |t| && forall i :: 0 <= i < |s| ==> CaseVariant(s[i], t[i]) {
      VariantsLowerEqual(s, t);
    }
  }

  lemma LowerEqualVariants(s: string, t: string)
    requires Lower(s) == Lower(t)
    ensures |s| == |t| && forall i :: 0 <= i < |s| ==> CaseVariant(s[i], t[i])
  {
    forall i | 0 <= i < |s| ensures CaseVariant(s[i], t[i]) {
      assert LowerChar(s[i]) == Lower(s)[i] == Lower(t)[i] == LowerChar(t[i]);
      LowerCharCaseVariant(s[i], t[i]);
    }
  }

  lemma VariantsLowerEqual(s: string, t: string)
    requires |s| == |t| && forall i :: 0 <= i < |s| ==> CaseVariant(s[i], t[i])
    ensures Lower(s) == Lower(t)
  {
    forall i | 0 <= i < |s| ensures Lower(s)[i] == Lower(t)[i] {
      LowerCharCaseVariant(s[i], t[i]);
    }
  }

  /** Deleting punctuation and lower-casing can be done in either order. */
  lemma {:induction false} StripLowerCommute(s: string)
    ensures StripPunctuation(Lower(s)) == Lower(StripPunctuation(s))
  {
    if s != [] {
      var l := Lower(s);
      assert l[0] == LowerChar(s[0]);
      assert l[1..] == Lower(s[1..]);
      StripLowerCommute(s[1..]);
      LowerAppend([s[0]], StripPunctuation(s[1..]));
    }
  }

  // ----------------------------------------------------------------------
  // str.split() and ' '.join(...)
  // ----------------------------------------------------------------------

  /** Length of the leading run of non-whitespace characters. */
  function WordEnd(s: string): (n: nat)
    ensures n <= |s|
    ensures forall i :: 0 <= i < n ==> !IsSpace(s[i])
    ensures n < |s| ==> IsSpace(s[n])
  {
    if s == [] || IsSpace(s[0]) then 0 else 1 + WordEnd(s[1..])
  }

  /** Python's `s.split()`: the maximal runs of non-whitespace, in order. */
  function Split(s: string): (ws: seq<string>)
    ensures |ws| <= |s|
    ensures forall j :: 0 <= j < |ws| ==> IsWord(ws[j])
    decreases |s|
  {
    if s == [] then []
    else if IsSpace(s[0]) then Split(s[1..])
    else
      var n := WordEnd(s);
      [s[..n]] + Split(s[n..])
  }

  /** Total number of characters in the parts. */
  function TotalLength(parts: seq<string>): nat {
    if parts == [] then 0 else |parts[0]| + TotalLength(parts[1..])
  }

  /** Python's `' '.join(parts)`: the parts in order, one space between
      each two, nothing before the first or after the last. */
  function Join(parts: seq<string>): (s: string)
    ensures parts == [] ==> s == []
    ensures parts != [] ==> |s| == TotalLength(parts) + |parts| - 1
    ensures parts != [] ==> parts[0] <= s
    ensures parts != [] ==> var last := parts[|parts| - 1];
      |last| <= |s| && s[|s| - |last|..] == last
  {
    if parts == [] then []
    else if |parts| == 1 then parts[0]
    else
      var rest := Join(parts[1..]);
      var s := parts[0] + " " + rest;
      assert s[|s| - |rest|..] == rest;
      s
  }

  /** The concatenation of the splits of each part. */
  function SplitEach(parts: seq<string>): seq<string> {
    if parts == [] then [] else Split(parts[0]) + SplitEach(parts[1..])
  }

  /** Whitespace between two strings keeps their words apart. */
  lemma {:induction false} WordEndAppend(a: string, c: char, b: string)
    requires IsSpace(c)
    ensures WordEnd(a + [c] + b) == WordEnd(a)
  {
    if a != [] && !IsSpace(a[0]) {
      assert (a + [c] + b)[1..] == a[1..] + [c] + b;
      WordEndAppend(a[1..], c, b);
    }
  }

  /** Splitting at a whitespace character splits the two sides independently. */
  lemma {:induction false} SplitAppend(a: string, c: char, b: string)
    requires IsSpace(c)
    ensures Split(a + [c] + b) == Split(a) + Split(b)
    decreases |a|
  {
    var s := a + [c] + b;
    if a == [] {
      assert s[1..] == b;
    } else if IsSpace(a[0]) {
      assert s[1..] == a[1..] + [c] + b;
      SplitAppend(a[1..], c, b);
    } else {
      var n := WordEnd(a);
      WordEndAppend(a, c, b);
      assert s[..n] == a[..n];
      assert s[n..] == a[n..] + [c] + b;
      SplitAppend(a[n..], c, b);
    }
  }

  /** A word splits to itself. */
  lemma {:induction false} SplitWord(w: string)
    requires IsWord(w)
    ensures Split(w) == [w]
  {
    assert WordEnd(w) == |w| by {
      WordEndAll(w);
    }
    assert w[..|w|] == w;
    assert w[|w|..] == [];
  }

  lemma WordEndAll(s: string)
    requires forall i :: 0 <= i < |s| ==> !IsSpace(s[i])
    ensures WordEnd(s) == |s|
  {
  }

  /** Splitting `' '.join(parts)` gives the words of every part, in order. */
  lemma {:induction false} SplitJoin(parts: seq<string>)
    ensures Split(Join(parts)) == SplitEach(parts)
  {
    if parts == [] {
    } else if |parts| == 1 {
      assert SplitEach(parts[1..]) == [];
    } else {
      SplitAppend(parts[0], ' ', Join(parts[1..]));
      assert parts[0] + " " + Join(parts[1..]) == parts[0] + [' '] + Join(parts[1..]);
      SplitJoin(parts[1..]);
    }
  }

  /** Round trip: joining words with spaces and splitting again gives the words back. */
  lemma {:induction false} SplitJoinWords(ws: seq<string>)
    requires forall j :: 0 <= j < |ws| ==> IsWord(ws[j])
    ensures Split(Join(ws)) == ws
  {
    SplitJoin(ws);
    SplitEachWords(ws);
  }

  lemma {:induction false} SplitEachWords(ws: seq<string>)
    requires forall j :: 0 <= j < |ws| ==> IsWord(ws[j])
    ensures SplitEach(ws) == ws
  {
    if ws != [] {
      SplitWord(ws[0]);
      SplitEachWords(ws[1..]);
    }
  }

  /** `split()` normalises: re-joining its words and splitting again changes nothing. */
  lemma SplitNormalises(s: string)
    ensures Split(Join(Split(s))) == Split(s)
  {
    SplitJoinWords(Split(s));
  }

  /** A word of `' '.join(parts)` is a word of one of the parts. */
  lemma {:induction false} SplitEachMember(parts: seq<string>, w: string)
    ensures w in SplitEach(parts) <==> exists i :: 0 <= i < |parts| && w in Split(parts[i])
  {
    if parts != [] {
      SplitEachMember(parts[1..], w);
      if w in SplitEach(parts[1..]) {
        var i :| 0 <= i < |parts[1..]| && w in Split(parts[1..][i]);
        assert w in Split(parts[i + 1]);
      }
      if exists i :: 0 <= i < |parts| && w in Split(parts[i]) {
        var i :| 0 <= i < |parts| && w in Split(parts[i]);
        if i > 0 {
          assert w in Split(parts[1..][i - 1]);
        }
      }
    }
  }

  /** Every character of a word of `s.split()` is a character of `s`. */
  lemma {:induction false} SplitChars(s: string)
    ensures forall w, i :: w in Split(s) && 0 <= i < |w| ==> w[i] in s
    decreases |s|
  {
    if s != [] {
      if IsSpace(s[0]) {
        SplitChars(s[1..]);
      } else {
        var n := WordEnd(s);
        SplitChars(s[n..]);
        forall w, i | w in Split(s) && 0 <= i < |w| ensures w[i] in s {
          if w == s[..n] {
            assert w[i] == s[i];
          } else {
            assert w in Split(s[n..]);
            assert w[i] in s[n..];
          }
        }
      }
    }
  }

  lemma {:induction false} SplitEachAppend(a: seq<string>, b: seq<string>)
    ensures SplitEach(a + b) == SplitEach(a) + SplitEach(b)
  {
    if a == [] {
      assert a + b == b;
    } else {
      assert (a + b)[0] == a[0];
      assert (a + b)[1..] == a[1..] + b;
      SplitEachAppend(a[1..], b);
    }
  }

  /** Splitting the parts in another order gives the same words in another order. */
  lemma {:induction false} SplitEachPermutation(a: seq<string>, b: seq<string>)
    requires multiset(a) == multiset(b)
    ensures multiset(SplitEach(a)) == multiset(SplitEach(b))
    decreases |a|
  {
    if a == [] {
      assert b == [];
    } else {
      var x := a[0];
      assert x in multiset(b);
      var k :| 0 <= k < |b| && b[k] == x;
      var before, after := b[..k], b[k + 1..];
      RemoveMatchedEq(a, b, k);
      SplitEachPermutation(a[1..], before + after);
      SplitEachAppend(before, after);
      SplitEachAppend(before + [x], after);
      SplitEachAppend(before, [x]);
      assert SplitEach([x]) == Split(x);
    }
  }
}
