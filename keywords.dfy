/**
 * Keyword extraction of the relevance scorer (`extractKeywords`): lower-case
 * the text, turn every character that is neither an ASCII word character nor
 * whitespace into a space, split on whitespace, drop short words and Polish
 * stop words, keep each word once in order of first appearance, and keep at
 * most fifteen of them.
 */
module Keywords {
  import opened JsText

  /** At most this many keywords are kept. */
  const MaxKeywords: nat := 15

  /** Shorter words are dropped. */
  const MinKeywordLength: nat := 3

  /** The stop words spelled in ASCII letters only. */
  const AsciiStopWords: set<string> := {
    "i", "oraz", "lub", "ale", "na", "w", "z", "do", "od", "po", "przed",
    "pod", "nad", "dla", "przez", "o", "a", "jest", "to", "ten", "ta", "te",
    "jego", "jej", "ich", "nasz", "wasz", "co", "jak", "gdzie", "kiedy",
    "dlaczego", "czy"
  }

  /**
   * The stop words spelled with a Polish diacritic. They can never be met:
   * normalisation has already broken their diacritics into spaces.
   */
  const DiacriticStopWords: set<string> := {
    "że", "się", "są", "być", "swój", "który", "która", "które"
  }

  /** The fixed Polish stop-word list, split by spelling. */
  const StopWords: set<string> := AsciiStopWords + DiacriticStopWords

  /** Lower-cases the text and turns every character that is neither a word character nor whitespace into a space. */
  function Normalize(text: string): (r: string)
    ensures |r| == |text|
    ensures forall i :: 0 <= i < |r| ==> IsLowerWordChar(r[i]) || IsSpace(r[i])
  {
    var lower := ToLower(text);
    seq(|lower|, i requires 0 <= i < |lower| =>
      if IsWordChar(lower[i]) || IsSpace(lower[i]) then lower[i] else ' ')
  }

  /** The filter of line 348, with the stop-word set as a parameter. */
  predicate IsCandidateFor(stops: set<string>, w: string) {
    |w| >= MinKeywordLength && w !in stops
  }

  /** Keeps the words of at least three characters that are no stop word. */
  function KeepCandidates(stops: set<string>, words: seq<string>): (r: seq<string>)
    ensures forall w :: w in r ==> w in words && IsCandidateFor(stops, w)
    ensures forall w :: w in words && IsCandidateFor(stops, w) ==> w in r
  {
    if |words| == 0 then []
    else if IsCandidateFor(stops, words[0]) then [words[0]] + KeepCandidates(stops, words[1..])
    else KeepCandidates(stops, words[1..])
  }

  /** The candidate words of `text`, before duplicates are removed, in text order. */
  function Candidates(text: string): seq<string> {
    KeepCandidates(StopWords, Words(Normalize(text)))
  }

  /** Removing duplicates through a `Set`: each element once, where it first appears. */
  function Dedup(xs: seq<string>): (r: seq<string>)
    ensures forall x :: x in r <==> x in xs
  {
    if |xs| == 0 then []
    else
      var d := Dedup(xs[..|xs| - 1]);
      var x := xs[|xs| - 1];
      assert forall y :: y in xs <==> y in xs[..|xs| - 1] || y == x;
      if x in d then d else d + [x]
  }

  /** No element occurs twice. */
  predicate NoDuplicates(xs: seq<string>) {
    forall i, j :: 0 <= i < j < |xs| ==> xs[i] != xs[j]
  }

  /** Index of the first occurrence of `x` in `xs`. */
  function FirstIndex(xs: seq<string>, x: string): (k: nat)
    requires x in xs
    ensures k < |xs| && xs[k] == x && x !in xs[..k]
  {
    if xs[0] == x then 0 else 1 + FirstIndex(xs[1..], x)
  }

  /**
   * `extractKeywords` (lines 334-353): at most fifteen keywords, each a
   * candidate word of the text; it drops a candidate only when the list is
   * already full.
   */
  function ExtractKeywords(text: string): (r: seq<string>)
    ensures |r| <= MaxKeywords
    ensures forall w :: w in r ==> w in Candidates(text)
    ensures |r| < MaxKeywords ==> forall w :: w in Candidates(text) ==> w in r
  {
    var unique := Dedup(Candidates(text));
    if |unique| <= MaxKeywords then unique else unique[..MaxKeywords]
  }

  lemma {:induction false} DedupNoDuplicates(xs: seq<string>)
    ensures NoDuplicates(Dedup(xs))
  {
    if |xs| > 0 {
      DedupNoDuplicates(xs[..|xs| - 1]);
    }
  }

  lemma FirstIndexOfPrefix(xs: seq<string>, x: string, n: nat)
    requires n <= |xs| && x in xs[..n]
    ensures x in xs && FirstIndex(xs, x) == FirstIndex(xs[..n], x)
  {
    var k := FirstIndex(xs[..n], x);
    assert xs[..n][..k] == xs[..k];
    FirstIndexUnique(xs, x, k);
  }

  lemma FirstIndexUnique(xs: seq<string>, x: string, k: nat)
    requires k < |xs| && xs[k] == x && x !in xs[..k]
    ensures FirstIndex(xs, x) == k
  {
  }

  /** `Dedup` lists elements in increasing order of first appearance. */
  lemma {:induction false} DedupFirstOccurrenceOrder(xs: seq<string>)
    ensures forall i, j :: 0 <= i < j < |Dedup(xs)| ==>
      FirstIndex(xs, Dedup(xs)[i]) < FirstIndex(xs, Dedup(xs)[j])
  {
    if |xs| > 0 {
      var n := |xs| - 1;
      var front := xs[..n];
      var d := Dedup(front);
      var x := xs[n];
      assert Dedup(xs) == if x in d then d else d + [x];
      DedupFirstOccurrenceOrder(front);
      OrderOverPrefix(xs, n, d);
      if x !in d {
        assert x !in xs[..n];
        FirstIndexUnique(xs, x, n);
        forall y | y in d ensures FirstIndex(xs, y) < FirstIndex(xs, x) {
          FirstIndexOfPrefix(xs, y, n);
        }
        OrderKeptByAppend(xs, d, x);
      }
    }
  }

  /** An order by first appearance in a prefix is the order by first appearance in the whole. */
  lemma OrderOverPrefix(xs: seq<string>, n: nat, d: seq<string>)
    requires n <= |xs| && forall y :: y in d ==> y in xs[..n]
    requires forall i, j :: 0 <= i < j < |d| ==> FirstIndex(xs[..n], d[i]) < FirstIndex(xs[..n], d[j])
    ensures forall y :: y in d ==> y in xs
    ensures forall i, j :: 0 <= i < j < |d| ==> FirstIndex(xs, d[i]) < FirstIndex(xs, d[j])
  {
    forall y | y in d ensures y in xs && FirstIndex(xs, y) == FirstIndex(xs[..n], y) {
      FirstIndexOfPrefix(xs, y, n);
    }
  }

  /** Appending an element that first occurs after all of `d` keeps `d` in order of first occurrence. */
  lemma OrderKeptByAppend(xs: seq<string>, d: seq<string>, x: string)
    requires x in xs && forall y :: y in d ==> y in xs
    requires forall y :: y in d ==> FirstIndex(xs, y) < FirstIndex(xs, x)
    requires forall i, j :: 0 <= i < j < |d| ==> FirstIndex(xs, d[i]) < FirstIndex(xs, d[j])
    ensures forall i, j :: 0 <= i < j < |d + [x]| ==> FirstIndex(xs, (d + [x])[i]) < FirstIndex(xs, (d + [x])[j])
  {
    var r := d + [x];
    forall i, j | 0 <= i < j < |r| ensures FirstIndex(xs, r[i]) < FirstIndex(xs, r[j]) {
      assert r[i] == d[i];
      if j < |d| {
        assert r[j] == d[j];
      }
    }
  }

  /** An element missing from a prefix of `Dedup(xs)` first appears after it. */
  lemma DedupPrefixComplete(xs: seq<string>, n: nat, x: string)
    requires n <= |Dedup(xs)| && x in xs && x !in Dedup(xs)[..n] && n > 0
    ensures FirstIndex(xs, x) > FirstIndex(xs, Dedup(xs)[n - 1])
  {
    var d := Dedup(xs);
    var k :| 0 <= k < |d| && d[k] == x;
    assert k >= n;
    DedupFirstOccurrenceOrder(xs);
    if k > n - 1 {
      assert FirstIndex(xs, d[n - 1]) < FirstIndex(xs, d[k]);
    }
  }

  /** The words of normalised text are made of lower-case ASCII word characters only. */
  lemma NormalizedWordsAreLower(text: string)
    ensures forall w :: w in Words(Normalize(text)) ==> forall i :: 0 <= i < |w| ==> IsLowerWordChar(w[i])
  {
    var norm := Normalize(text);
    WordsAreWords(norm);
    forall w | w in Words(norm) ensures forall i :: 0 <= i < |w| ==> IsLowerWordChar(w[i]) {
      forall i | 0 <= i < |w| ensures IsLowerWordChar(w[i]) {
        assert w[i] in w;
        var j :| 0 <= j < |norm| && norm[j] == w[i];
      }
    }
  }

  /** Every candidate passes the filter and is made of lower-case ASCII word characters. */
  lemma CandidatesWellFormed(text: string)
    ensures forall w :: w in Candidates(text) ==>
      IsCandidateFor(StopWords, w) && forall i :: 0 <= i < |w| ==> IsLowerWordChar(w[i])
  {
    NormalizedWordsAreLower(text);
  }

  /**
   * Every keyword is a word of the normalised text: at least three
   * characters, not a stop word, made only of lower-case ASCII word characters
   * (so a Polish letter never survives), and no keyword occurs twice.
   */
  lemma KeywordsWellFormed(text: string)
    ensures |ExtractKeywords(text)| <= MaxKeywords
    ensures NoDuplicates(ExtractKeywords(text))
    ensures forall w :: w in ExtractKeywords(text) ==>
      && |w| >= MinKeywordLength
      && w !in StopWords
      && forall i :: 0 <= i < |w| ==> IsLowerWordChar(w[i])
  {
    var cs := Candidates(text);
    var unique := Dedup(cs);
    var r := ExtractKeywords(text);
    assert NoDuplicates(r) && forall w :: w in r ==> w in cs by {
      DedupNoDuplicates(cs);
      assert forall w :: w in r ==> w in unique;
    }
    CandidatesWellFormed(text);
  }

  /**
   * The keywords are the first distinct candidate words in order of first
   * appearance: each is a candidate, they keep text order, and a candidate
   * is left out only when fifteen keywords that appear before it were
   * already kept.
   */
  lemma KeywordsInFirstOccurrenceOrder(text: string)
    ensures forall w :: w in ExtractKeywords(text) ==> w in Candidates(text)
    ensures forall i, j :: 0 <= i < j < |ExtractKeywords(text)| ==>
      FirstIndex(Candidates(text), ExtractKeywords(text)[i]) < FirstIndex(Candidates(text), ExtractKeywords(text)[j])
    ensures forall w :: w in Candidates(text) && w !in ExtractKeywords(text) ==>
      && |ExtractKeywords(text)| == MaxKeywords
      && FirstIndex(Candidates(text), w) > FirstIndex(Candidates(text), ExtractKeywords(text)[MaxKeywords - 1])
  {
    var cs := Candidates(text);
    var d := Dedup(cs);
    var r := ExtractKeywords(text);
    DedupFirstOccurrenceOrder(cs);
    if |d| <= MaxKeywords {
      assert r == d;
    } else {
      assert r == d[..MaxKeywords];
      forall w | w in cs && w !in r
        ensures FirstIndex(cs, w) > FirstIndex(cs, r[MaxKeywords - 1])
      {
        DedupPrefixComplete(cs, MaxKeywords, w);
      }
    }
  }

  /** A list without duplicates is its own `Dedup`. */
  lemma {:induction false} DedupOfDistinct(xs: seq<string>)
    requires NoDuplicates(xs)
    ensures Dedup(xs) == xs
  {
    if |xs| > 0 {
      var n := |xs| - 1;
      DedupOfDistinct(xs[..n]);
      assert xs[n] !in xs[..n];
    }
  }

  lemma {:induction false} KeepAllCandidates(stops: set<string>, ws: seq<string>)
    requires forall w :: w in ws ==> IsCandidateFor(stops, w)
    ensures KeepCandidates(stops, ws) == ws
  {
    if |ws| > 0 {
      KeepAllCandidates(stops, ws[1..]);
    }
  }

  /** Text already made of lower-case words and spaces is normalised. */
  lemma NormalizeIdentity(text: string)
    requires forall i :: 0 <= i < |text| ==> IsLowerWordChar(text[i]) || text[i] == ' '
    ensures Normalize(text) == text
  {
  }

  lemma {:induction false} JoinChars(ws: seq<string>, i: nat)
    requires forall w :: w in ws ==> forall k :: 0 <= k < |w| ==> IsLowerWordChar(w[k])
    requires i < |Join(ws, " ")|
    ensures IsLowerWordChar(Join(ws, " ")[i]) || Join(ws, " ")[i] == ' '
  {
    if |ws| == 1 {
    } else if |ws| > 1 {
      var w := ws[0];
      var rest := Join(ws[1..], " ");
      var joined := w + " " + rest;
      assert Join(ws, " ") == joined;
      if i < |w| {
        assert joined[i] == w[i];
      } else if i == |w| {
        assert joined[i] == ' ';
      } else {
        assert joined[i] == rest[i - |w| - 1];
        JoinChars(ws[1..], i - |w| - 1);
      }
    }
  }

  /**
   * Extraction is idempotent: extracting keywords again from the keywords
   * joined by spaces gives back the same keywords in the same order.
   */
  lemma KeywordsIdempotent(text: string)
    ensures ExtractKeywords(Join(ExtractKeywords(text), " ")) == ExtractKeywords(text)
  {
    var r := ExtractKeywords(text);
    KeywordsWellFormed(text);
    var joined := Join(r, " ");
    forall i | 0 <= i < |joined| ensures IsLowerWordChar(joined[i]) || joined[i] == ' ' {
      JoinChars(r, i);
    }
    NormalizeIdentity(joined);
    forall w | w in r ensures IsWord(w) {
      assert forall i :: 0 <= i < |w| ==> !IsSpace(w[i]) by {
        forall i | 0 <= i < |w| ensures !IsSpace(w[i]) {
          assert IsLowerWordChar(w[i]);
        }
      }
    }
    WordsOfJoin(r);
    KeepAllCandidates(StopWords, r);
    DedupOfDistinct(r);
  }

  /** Two stop lists that no word of `ws` tells apart filter `ws` alike. */
  lemma {:induction false} KeepCandidatesAgree(stops: set<string>, other: set<string>, ws: seq<string>)
    requires forall w :: w in ws ==> (w in stops <==> w in other)
    ensures KeepCandidates(stops, ws) == KeepCandidates(other, ws)
  {
    if |ws| > 0 {
      assert ws[0] in ws;
      KeepCandidatesAgree(stops, other, ws[1..]);
    }
  }

  lemma AsciiStopWordsSuffice(ws: seq<string>)
    requires forall w :: w in ws ==> forall i :: 0 <= i < |w| ==> IsLowerWordChar(w[i])
    ensures KeepCandidates(StopWords, ws) == KeepCandidates(AsciiStopWords, ws)
  {
    forall w | w in ws ensures w in StopWords <==> w in AsciiStopWords {
      AsciiWordIsStopWord(w);
    }
    KeepCandidatesAgree(StopWords, AsciiStopWords, ws);
  }

  /** Every diacritic stop word has a character that is not a lower-case ASCII word character. */
  lemma DiacriticStopWordsNotAscii()
    ensures forall d :: d in DiacriticStopWords ==> exists i :: 0 <= i < |d| && !IsLowerWordChar(d[i])
  {
    assert !IsLowerWordChar("że"[0]) && !IsLowerWordChar("są"[1]);
    assert !IsLowerWordChar("się"[2]) && !IsLowerWordChar("być"[2]) && !IsLowerWordChar("swój"[2]);
    assert !IsLowerWordChar("który"[2]) && !IsLowerWordChar("która"[2]) && !IsLowerWordChar("które"[2]);
  }

  /** On a word of lower-case ASCII word characters, only the ASCII stop words can match. */
  lemma AsciiWordIsStopWord(w: string)
    requires forall i :: 0 <= i < |w| ==> IsLowerWordChar(w[i])
    ensures w in StopWords <==> w in AsciiStopWords
  {
    DiacriticStopWordsNotAscii();
  }

  /**
   * Because `\w` is ASCII-only, the stop words spelled with a diacritic play
   * no part: dropping them from the list changes no extraction.
   */
  lemma DiacriticStopWordsInert(text: string)
    ensures Candidates(text) == KeepCandidates(AsciiStopWords, Words(Normalize(text)))
  {
    NormalizedWordsAreLower(text);
    AsciiStopWordsSuffice(Words(Normalize(text)));
  }
}
