/**
 * The JavaScript string primitives the scoring code relies on: the regular
 * expression classes `\s`, `\d` and `\w`, `toLowerCase`, the case folding of
 * a case-insensitive (`/i`) regular expression, `String.prototype.includes`,
 * `Array.prototype.join`, splitting on whitespace and `parseInt`.
 *
 * A JavaScript string is a sequence of UTF-16 code units; here it is a
 * sequence of Unicode scalar values. Every character the model inspects
 * lies in the Basic Multilingual Plane, so the two agree on it.
 */
module JsText {

  /** `\s`: the ECMAScript WhiteSpace and LineTerminator code points. */
  predicate IsSpace(c: char) {
    || c == ' ' || c == '\t' || c == '\n' || c == '\r'
    || c == '\U{000B}' || c == '\U{000C}' || c == '\U{00A0}' || c == '\U{1680}'
    || ('\U{2000}' <= c <= '\U{200A}')
    || c == '\U{2028}' || c == '\U{2029}' || c == '\U{202F}' || c == '\U{205F}'
    || c == '\U{3000}' || c == '\U{FEFF}'
  }

  /** `\s*` at `i`: the first position at or after `i` that is not whitespace. */
  function SkipSpaces(s: string, i: nat): (j: nat)
    requires i <= |s|
    ensures i <= j <= |s|
    ensures j < |s| ==> !IsSpace(s[j])
    decreases |s| - i
  {
    if i < |s| && IsSpace(s[i]) then SkipSpaces(s, i + 1) else i
  }

  /** `\d`: the ASCII digits only. */
  predicate IsDigit(c: char) {
    '0' <= c <= '9'
  }

  /** `\w`: ASCII letters, digits and the underscore; never a Polish letter. */
  predicate IsWordChar(c: char) {
    ('a' <= c <= 'z') || ('A' <= c <= 'Z') || IsDigit(c) || c == '_'
  }

  /** A character that `toLowerCase` leaves unchanged among the word characters. */
  predicate IsLowerWordChar(c: char) {
    ('a' <= c <= 'z') || IsDigit(c) || c == '_'
  }

  /** The nine Polish capital letters with a diacritic. */
  predicate IsPolishCapital(c: char) {
    c == 'Ą' || c == 'Ć' || c == 'Ę' || c == 'Ł' || c == 'Ń' || c == 'Ó' || c == 'Ś' || c == 'Ź' || c == 'Ż'
  }

  /** The nine Polish small letters with a diacritic. */
  predicate IsPolishSmall(c: char) {
    c == 'ą' || c == 'ć' || c == 'ę' || c == 'ł' || c == 'ń' || c == 'ó' || c == 'ś' || c == 'ź' || c == 'ż'
  }

  /** `toLowerCase` on one character: ASCII and Polish capitals. */
  function ToLowerChar(c: char): (r: char)
    ensures IsWordChar(c) ==> IsLowerWordChar(r)
    ensures IsLowerWordChar(c) ==> r == c
    ensures IsSpace(c) ==> r == c
  {
    if 'A' <= c <= 'Z' then (c as int + 32) as char
    else if c == 'Ó' then 'ó'
    else if IsPolishCapital(c) then (c as int + 1) as char   // each small form follows its capital
    else c
  }

  /** `toUpperCase` on one character, as a case-insensitive regular expression folds it. */
  function ToUpperChar(c: char): char {
    if 'a' <= c <= 'z' then (c as int - 32) as char
    else if c == 'ó' then 'Ó'
    else if IsPolishSmall(c) then (c as int - 1) as char
    else c
  }

  /** `String.prototype.toLowerCase`. */
  function ToLower(s: string): (r: string)
    ensures |r| == |s|
    ensures forall i :: 0 <= i < |s| ==> r[i] == ToLowerChar(s[i])
  {
    seq(|s|, i requires 0 <= i < |s| => ToLowerChar(s[i]))
  }

  /** Lower-casing lower-cased text changes nothing. */
  lemma ToLowerIdempotent(s: string)
    ensures ToLower(ToLower(s)) == ToLower(s)
  {
    assert forall i :: 0 <= i < |s| ==> ToLowerChar(ToLowerChar(s[i])) == ToLowerChar(s[i]);
  }

  /** The small letters a month name or a currency word of the scorer is spelled with. */
  predicate IsSmallLetter(c: char) {
    ('a' <= c <= 'z') || IsPolishSmall(c)
  }

  /** Two characters are equal for a case-insensitive regular expression. */
  predicate SameIgnoringCase(c: char, d: char) {
    ToUpperChar(c) == ToUpperChar(d)
  }

  /** A character that matches a small letter case-insensitively lower-cases to it. */
  lemma LowerOfFoldedLetter(c: char, l: char)
    requires IsSmallLetter(l) && SameIgnoringCase(c, l)
    ensures ToLowerChar(c) == l
  {
  }

  /** `s` has `lit` at position `i`, compared case-insensitively. */
  predicate MatchesIgnoringCase(s: string, i: nat, lit: string) {
    i + |lit| <= |s| && forall k :: 0 <= k < |lit| ==> SameIgnoringCase(s[i + k], lit[k])
  }

  /** `"abc".startsWith(p)`. */
  predicate StartsWith(s: string, p: string) {
    |p| <= |s| && s[..|p|] == p
  }

  /** `String.prototype.includes`: `p` occurs in `s` as a contiguous substring. */
  predicate Contains(s: string, p: string)
    decreases |s|
  {
    StartsWith(s, p) || (|s| > 0 && Contains(s[1..], p))
  }

  /** `p` occurs in `s` starting at offset `i`. */
  predicate OccursAt(s: string, p: string, i: nat) {
    i + |p| <= |s| && s[i..i + |p|] == p
  }

  /** `includes` means what it says: an occurrence at some offset. */
  lemma ContainsAt(s: string, p: string)
    ensures Contains(s, p) <==> exists i: nat :: OccursAt(s, p, i)
  {
    if Contains(s, p) {
      var i := OffsetOfContained(s, p);
    }
    if exists i: nat :: OccursAt(s, p, i) {
      var i: nat :| OccursAt(s, p, i);
      OccurrenceContained(s, p, i);
    }
  }

  lemma {:induction false} OffsetOfContained(s: string, p: string) returns (i: nat)
    requires Contains(s, p)
    ensures OccursAt(s, p, i)
    decreases |s|
  {
    if StartsWith(s, p) {
      i := 0;
    } else {
      var j := OffsetOfContained(s[1..], p);
      assert s[1..][j..j + |p|] == s[j + 1..j + 1 + |p|];
      i := j + 1;
    }
  }

  lemma {:induction false} OccurrenceContained(s: string, p: string, i: nat)
    requires OccursAt(s, p, i)
    ensures Contains(s, p)
    decreases i
  {
    if i == 0 {
      assert StartsWith(s, p);
    } else {
      assert s[1..][i - 1..i - 1 + |p|] == s[i..i + |p|];
      OccurrenceContained(s[1..], p, i - 1);
    }
  }

  /** Text put in front keeps an occurrence. */
  lemma {:induction false} ContainsPrepend(x: string, t: string, p: string)
    requires Contains(t, p)
    ensures Contains(x + t, p)
  {
    if |x| > 0 {
      assert (x + t)[1..] == x[1..] + t;
      ContainsPrepend(x[1..], t, p);
      assert Contains((x + t)[1..], p);
    } else {
      assert x + t == t;
    }
  }

  /** Text put behind keeps an occurrence. */
  lemma {:induction false} ContainsAppend(t: string, v: string, p: string)
    requires Contains(t, p)
    ensures Contains(t + v, p)
    decreases |t|
  {
    if StartsWith(t, p) {
      assert (t + v)[..|p|] == t[..|p|];
    } else {
      assert (t + v)[1..] == t[1..] + v;
      ContainsAppend(t[1..], v, p);
    }
  }

  /** `Array.prototype.join(sep)`. */
  function Join(xs: seq<string>, sep: string): string {
    if |xs| == 0 then ""
    else if |xs| == 1 then xs[0]
    else xs[0] + sep + Join(xs[1..], sep)
  }

  /** Every joined element occurs in the joined text. */
  lemma {:induction false} JoinContains(xs: seq<string>, sep: string, k: nat)
    requires k < |xs|
    ensures Contains(Join(xs, sep), xs[k])
  {
    var p := xs[k];
    assert StartsWith(p, p);
    if |xs| == 1 {
    } else if k == 0 {
      ContainsAppend(p, sep + Join(xs[1..], sep), p);
      assert p + (sep + Join(xs[1..], sep)) == Join(xs, sep);
    } else {
      JoinContains(xs[1..], sep, k - 1);
      ContainsPrepend(xs[0] + sep, Join(xs[1..], sep), p);
    }
  }

  /** Length of the longest prefix of `s` without whitespace. */
  function WordLength(s: string): (n: nat)
    ensures n <= |s|
    ensures forall i :: 0 <= i < n ==> !IsSpace(s[i])
    ensures n < |s| ==> IsSpace(s[n])
  {
    if |s| == 0 || IsSpace(s[0]) then 0 else 1 + WordLength(s[1..])
  }

  /**
   * The non-empty pieces of `s.split(/\s+/)`, that is, the maximal runs of
   * non-whitespace characters in order. JavaScript's `split` also yields an
   * empty first or last piece when `s` starts or ends with whitespace; every
   * caller here drops pieces shorter than three characters, so those empty
   * pieces never matter.
   */
  function Words(s: string): (ws: seq<string>)
    decreases |s|
  {
    if |s| == 0 then []
    else if IsSpace(s[0]) then Words(s[1..])
    else
      var n := WordLength(s);
      [s[..n]] + Words(s[n..])
  }

  /** A word contains no whitespace and is not empty. */
  predicate IsWord(w: string) {
    |w| > 0 && forall i :: 0 <= i < |w| ==> !IsSpace(w[i])
  }

  /** Every piece is a non-empty run of characters of `s`. */
  lemma {:induction false} WordsAreWords(s: string)
    ensures forall w :: w in Words(s) ==> IsWord(w) && forall c :: c in w ==> c in s
  {
    if |s| == 0 {
    } else if IsSpace(s[0]) {
      WordsAreWords(s[1..]);
    } else {
      var n := WordLength(s);
      WordsAreWords(s[n..]);
      assert Words(s) == [s[..n]] + Words(s[n..]);
      forall w | w in Words(s) ensures IsWord(w) && forall c :: c in w ==> c in s {
        if w == s[..n] {
          assert s[0] == w[0];
        } else {
          assert w in Words(s[n..]);
        }
      }
    }
  }

  /** Splitting words joined by single spaces gives the words back. */
  lemma {:induction false} WordsOfJoin(ws: seq<string>)
    requires forall w :: w in ws ==> IsWord(w)
    ensures Words(Join(ws, " ")) == ws
  {
    if |ws| == 0 {
    } else if |ws| == 1 {
      WordsOfWord(ws[0], "");
      assert ws[0] + "" == ws[0];
    } else {
      WordsOfJoin(ws[1..]);
      var rest := Join(ws[1..], " ");
      assert Join(ws, " ") == ws[0] + (" " + rest);
      WordsOfWord(ws[0], " " + rest);
      assert (" " + rest)[1..] == rest;
    }
  }

  /** A word followed by text that starts with whitespace (or nothing) is split off first. */
  lemma {:induction false} WordsOfWord(w: string, rest: string)
    requires IsWord(w)
    requires |rest| == 0 || IsSpace(rest[0])
    ensures Words(w + rest) == [w] + Words(rest)
    ensures |rest| > 0 ==> Words(rest) == Words(rest[1..])
  {
    WordLengthOfWord(w, rest);
    assert (w + rest)[..|w|] == w;
    assert (w + rest)[|w|..] == rest;
  }

  lemma {:induction false} WordLengthOfWord(w: string, rest: string)
    requires forall i :: 0 <= i < |w| ==> !IsSpace(w[i])
    requires |rest| == 0 || IsSpace(rest[0])
    ensures WordLength(w + rest) == |w|
  {
    if |w| > 0 {
      assert (w + rest)[1..] == w[1..] + rest;
      WordLengthOfWord(w[1..], rest);
    }
  }

  /** Numeric value of one decimal digit (0 for any other character, which the model never reads). */
  function DigitValue(c: char): nat {
    if IsDigit(c) then c as int - '0' as int else 0
  }

  /** Numeric value of the decimal digits `s`. */
  function DigitsValue(s: string): nat {
    if |s| == 0 then 0
    else 10 * DigitsValue(s[..|s| - 1]) + DigitValue(s[|s| - 1])
  }

  /** Length of the longest prefix of `s` made of digits. */
  function DigitPrefixLength(s: string): (n: nat)
    ensures n <= |s|
    ensures forall i :: 0 <= i < n ==> IsDigit(s[i])
    ensures n < |s| ==> !IsDigit(s[n])
  {
    if |s| == 0 || !IsDigit(s[0]) then 0 else 1 + DigitPrefixLength(s[1..])
  }

  /**
   * `parseInt(s, 10)` on a string that starts with a digit: the value of its
   * leading digits. Leading signs and whitespace never occur where the model
   * calls it.
   */
  function ParseIntPrefix(s: string): nat {
    var n := DigitPrefixLength(s);
    DigitsValue(s[..n])
  }

  /** `s.replace(/\s/g, '')`. */
  function RemoveSpaces(s: string): (r: string)
    ensures forall c :: c in r ==> c in s && !IsSpace(c)
    ensures (forall i :: 0 <= i < |s| ==> !IsSpace(s[i])) ==> r == s
    ensures |s| == 1 && IsSpace(s[0]) ==> r == ""
  {
    if |s| == 0 then ""
    else if IsSpace(s[0]) then RemoveSpaces(s[1..])
    else [s[0]] + RemoveSpaces(s[1..])
  }

  /**
   * Removing whitespace works piece by piece: with the one-character cases
   * above, the result is the input's non-space characters in their order.
   */
  lemma {:induction false} RemoveSpacesConcat(a: string, b: string)
    ensures RemoveSpaces(a + b) == RemoveSpaces(a) + RemoveSpaces(b)
  {
    if |a| > 0 {
      assert (a + b)[0] == a[0];
      assert (a + b)[1..] == a[1..] + b;
      RemoveSpacesConcat(a[1..], b);
    } else {
      assert a + b == b;
    }
  }

  /** Decimal digits of a natural number. */
  function NatToString(n: nat): (s: string)
    ensures |s| > 0
    ensures forall i :: 0 <= i < |s| ==> IsDigit(s[i])
    ensures DigitsValue(s) == n
  {
    var last := ['0' + (n % 10) as char];
    if n < 10 then
      assert last[..0] == [];
      last
    else
      var front := NatToString(n / 10);
      var s := front + last;
      assert s[..|s| - 1] == front;
      s
  }

  /** `String(n)` for an integer. */
  function IntToString(n: int): string {
    if n < 0 then "-" + NatToString(-n) else NatToString(n)
  }
}
