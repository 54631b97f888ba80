/**
 * Budget compatibility of the relevance scorer (`calculateBudgetCompatibility`).
 *
 * Three regular expressions built on the amount grammar
 * `\d{1,3}(?:\s?\d{3})*` are modelled by the way JavaScript's backtracking
 * matcher explores them: at a start position `\d{1,3}` first takes three
 * digits, then two, then one; after it the repetition `(?:\s?\d{3})*` takes
 * as many groups as it can, and on failure gives them back one at a time;
 * the first end whose continuation matches wins, and start positions are
 * tried from left to right.
 *
 * Because the amount grammar is greedy, an amount followed by a suffix (a
 * currency word, or the dash of a range) is recovered whole, while an amount
 * with nothing after it (the range maximum, the single amount) keeps only as
 * many leading digits as fill complete groups of three.
 */
module Budget {
  import opened Wrappers
  import opened JsText

  /** `n` digits start at `i`, for the one to three digits the grammar ever asks for. */
  predicate DigitsAt(s: string, i: nat, n: nat)
    requires n <= 3
  {
    && i + n <= |s|
    && (n >= 1 ==> IsDigit(s[i]))
    && (n >= 2 ==> IsDigit(s[i + 1]))
    && (n >= 3 ==> IsDigit(s[i + 2]))
  }

  /** One repetition of `(?:\s?\d{3})` at `i`: its end, trying the optional space first. */
  function GroupStep(s: string, i: nat): (r: Option<nat>)
    ensures r.Some? ==> i + 3 <= r.value <= |s|
  {
    if i < |s| && IsSpace(s[i]) && DigitsAt(s, i + 1, 3) then Some(i + 4)
    else if DigitsAt(s, i, 3) then Some(i + 3)
    else None
  }

  /** `(?:pln|zł|zloty|zlotych)` with the `i` flag. */
  const CurrencyWords: seq<string> := ["pln", "zł", "zloty", "zlotych"]

  /** `\s*(?:pln|zł|zloty|zlotych)` matches at `e`. */
  predicate CurrencyAt(s: string, e: nat) {
    e <= |s| &&
    var q := SkipSpaces(s, e);
    exists w :: w in CurrencyWords && MatchesIgnoringCase(s, q, w)
  }

  /** `(?:\s?\d{3})*` at `i` when nothing has to follow it: as many groups as there are. */
  function StarGreedy(s: string, i: nat): (e: nat)
    requires i <= |s|
    ensures i <= e <= |s|
    decreases |s| - i
  {
    match GroupStep(s, i)
    case Some(j) => StarGreedy(s, j)
    case None => i
  }

  /** `\d{1,3}(?:\s?\d{3})*` at `p` when nothing has to follow it: its end, if it matches. */
  function AmountGreedy(s: string, p: nat): (r: Option<nat>)
    requires p <= |s|
    ensures r.Some? ==> p < r.value <= |s|
    ensures r.Some? <==> p < |s| && IsDigit(s[p])
  {
    if DigitsAt(s, p, 3) then Some(StarGreedy(s, p + 3))
    else if DigitsAt(s, p, 2) then Some(StarGreedy(s, p + 2))
    else if DigitsAt(s, p, 1) then Some(StarGreedy(s, p + 1))
    else None
  }

  /** The rest of a range after its minimum ends at `e`: `\s*-\s*(amount)`, giving the span of the maximum. */
  function RangeRest(s: string, e: nat): (r: Option<(nat, nat)>)
    requires e <= |s|
    ensures r.Some? ==> e < r.value.0 < r.value.1 <= |s| && AmountSpan(s, r.value.0, r.value.1)
  {
    var d := SkipSpaces(s, e);
    if d < |s| && s[d] == '-' then
      var q := SkipSpaces(s, d + 1);
      match AmountGreedy(s, q)
      case Some(f) =>
        AmountGreedySpan(s, q);
        Some((q, f))
      case None => None
    else None
  }

  /** The continuation of the currency pattern after an amount that ends at `e`. */
  function CurrencyFollows(s: string): nat -> bool {
    (e: nat) => CurrencyAt(s, e)
  }

  /** The continuation of the range pattern after a minimum that ends at `e`. */
  function RangeFollows(s: string): nat -> bool {
    (e: nat) => e <= |s| && RangeRest(s, e).Some?
  }

  /** No continuation matches where a digit follows: neither a currency word nor a dash starts with one. */
  ghost predicate NoneAtDigits(s: string, ok: nat -> bool) {
    forall e: nat :: e < |s| && IsDigit(s[e]) ==> !ok(e)
  }

  /**
   * `(?:\s?\d{3})*` at `i` followed by a continuation `ok`: the most repetitions
   * first, giving them back one at a time until the suffix matches.
   */
  function StarSearch(s: string, i: nat, ok: nat -> bool): (r: Option<nat>)
    requires i <= |s|
    ensures r.Some? ==> i <= r.value <= |s| && ok(r.value)
    decreases |s| - i
  {
    var deeper := match GroupStep(s, i) case Some(j) => StarSearch(s, j, ok) case None => None;
    if deeper.Some? then deeper
    else if ok(i) then Some(i)
    else None
  }

  /**
   * `\d{1,3}(?:\s?\d{3})*` at `p` followed by a continuation `ok`, when `\d{1,3}`
   * is down to at most `lead` digits: the most it can take first.
   */
  function LeadSearch(s: string, p: nat, lead: nat, ok: nat -> bool): (r: Option<nat>)
    requires p <= |s| && lead <= 3
    ensures r.Some? ==> p < r.value <= |s| && ok(r.value)
    decreases lead
  {
    if lead == 0 then None
    else if DigitsAt(s, p, lead) && StarSearch(s, p + lead, ok).Some? then StarSearch(s, p + lead, ok)
    else LeadSearch(s, p, lead - 1, ok)
  }

  /** `\d{1,3}(?:\s?\d{3})*` at `p` followed by a continuation `ok`: three, two, then one leading digit. */
  function AmountSearch(s: string, p: nat, ok: nat -> bool): (r: Option<nat>)
    requires p <= |s|
    ensures r.Some? ==> p < r.value <= |s| && ok(r.value)
  {
    LeadSearch(s, p, 3, ok)
  }

  /** Leftmost match at or after `p` of `(amount)\s*(?:pln|zł|zloty|zlotych)`: the span of the amount. */
  function CaseAmountFrom(s: string, p: nat): (r: Option<(nat, nat)>)
    requires p <= |s|
    ensures r.Some? ==> p <= r.value.0 < r.value.1 <= |s| && CurrencyAt(s, r.value.1)
    ensures r.Some? ==> AmountSpan(s, r.value.0, r.value.1)
    decreases |s| - p
  {
    if p == |s| then None
    else match AmountSearch(s, p, CurrencyFollows(s))
      case Some(e) =>
        AmountSearchSpan(s, p, CurrencyFollows(s));
        Some((p, e))
      case None => CaseAmountFrom(s, p + 1)
  }

  /** Leftmost match at or after `p` of `(amount)\s*-\s*(amount)`: the spans of minimum and maximum. */
  function RangeFrom(s: string, p: nat): (r: Option<(nat, nat, nat, nat)>)
    requires p <= |s|
    ensures r.Some? ==> p <= r.value.0 < r.value.1 < r.value.2 < r.value.3 <= |s|
    ensures r.Some? ==> AmountSpan(s, r.value.0, r.value.1) && RangeRest(s, r.value.1) == Some((r.value.2, r.value.3))
    decreases |s| - p
  {
    if p == |s| then None
    else match AmountSearch(s, p, RangeFollows(s))
      case Some(e) =>
        AmountSearchSpan(s, p, RangeFollows(s));
        var rest := RangeRest(s, e).value;
        Some((p, e, rest.0, rest.1))
      case None => RangeFrom(s, p + 1)
  }

  /** Leftmost match at or after `p` of `(amount)` alone: its span. */
  function SingleFrom(s: string, p: nat): (r: Option<(nat, nat)>)
    requires p <= |s|
    ensures r.Some? ==> p <= r.value.0 < r.value.1 <= |s|
    ensures r.None? <==> forall k :: p <= k < |s| ==> !IsDigit(s[k])
    decreases |s| - p
  {
    if p == |s| then None
    else match AmountGreedy(s, p)
      case Some(e) => Some((p, e))
      case None => SingleFrom(s, p + 1)
  }

  /** A matched amount read as a decimal integer once its spaces are removed. */
  function AmountValue(s: string, span: (nat, nat)): nat
    requires span.0 <= span.1 <= |s|
  {
    ParseIntPrefix(RemoveSpaces(s[span.0..span.1]))
  }

  /** The amount the case description names in a currency (lines 393-401). */
  function CaseBudget(description: string): Option<nat> {
    match CaseAmountFrom(description, 0)
    case Some(span) => Some(AmountValue(description, span))
    case None => None
  }

  /** The minimum and maximum of a range in the amount text (lines 404-410). */
  function OpportunityRange(amountRange: string): Option<(nat, nat)> {
    match RangeFrom(amountRange, 0)
    case Some(m) => Some((AmountValue(amountRange, (m.0, m.1)), AmountValue(amountRange, (m.2, m.3))))
    case None => None
  }

  /** The first amount in the amount text (lines 424-428): there is one exactly when the text has a digit. */
  function OpportunitySingle(amountRange: string): (r: Option<nat>)
    ensures r.Some? <==> exists k :: 0 <= k < |amountRange| && IsDigit(amountRange[k])
  {
    match SingleFrom(amountRange, 0)
    case Some(span) => Some(AmountValue(amountRange, span))
    case None => None
  }

  /** Score when the case amount lies in, below or above a range (lines 412-420). */
  const InRangeScore: real := 1.0
  const BelowRangeScore: real := 0.3
  const AboveRangeScore: real := 0.2
  const NeutralScore: real := 0.5

  /**
   * The smaller amount divided by the larger, with the one input JavaScript leaves
   * undefined, two zero amounts, scored as equal amounts (see Findings).
   */
  function AmountRatio(a: nat, b: nat): (r: real)
    ensures 0.0 <= r <= 1.0
    ensures r == 1.0 <==> a == b
  {
    if a == 0 && b == 0 then 1.0
    else if a <= b then a as real / b as real
    else b as real / a as real
  }

  /** The ratio does not depend on which amount is the case's. */
  lemma AmountRatioSymmetric(a: nat, b: nat)
    ensures AmountRatio(a, b) == AmountRatio(b, a)
  {
  }

  /** A larger numerator gives a larger quotient. */
  lemma NumeratorMonotone(x: real, y: real, z: real)
    requires 0.0 <= x <= y && 0.0 < z
    ensures x / z <= y / z
  {
  }

  /** A larger denominator gives a smaller quotient. */
  lemma DenominatorMonotone(x: real, y: real, z: real)
    requires 0.0 <= x && 0.0 < y <= z
    ensures x / z <= x / y
  {
  }

  /** Closer amounts score higher: moving one amount towards the other never lowers the ratio. */
  lemma CloserAmountsScoreHigher(a: nat, b: nat, c: nat)
    requires 0 < a <= b <= c
    ensures AmountRatio(a, c) <= AmountRatio(b, c)
    ensures AmountRatio(a, c) <= AmountRatio(a, b)
  {
    assert AmountRatio(a, c) == a as real / c as real;
    assert AmountRatio(b, c) == b as real / c as real;
    assert AmountRatio(a, b) == a as real / b as real;
    NumeratorMonotone(a as real, b as real, c as real);
    DenominatorMonotone(a as real, b as real, c as real);
  }

  /** `calculateBudgetCompatibility` (lines 386-434), on the description and the `amount_range` text. */
  function BudgetCompatibility(description: string, amountRange: Option<string>): (r: real)
    ensures 0.0 <= r <= 1.0
  {
    if amountRange.None? || amountRange.value == "" then NeutralScore
    else match CaseBudget(description)
      case None => NeutralScore
      case Some(budget) =>
        match OpportunityRange(amountRange.value)
        case Some((lo, hi)) =>
          if lo <= budget && budget <= hi then InRangeScore
          else if budget < lo then BelowRangeScore
          else AboveRangeScore
        case None =>
          match OpportunitySingle(amountRange.value)
          case Some(single) => AmountRatio(budget, single)
          case None => NeutralScore
  }

  /** Without an amount text, or without a currency amount in the description, the score is neutral. */
  lemma BudgetNeutralWithoutAmounts(description: string, amountRange: Option<string>)
    requires amountRange.None? || amountRange.value == "" || CaseBudget(description).None?
    ensures BudgetCompatibility(description, amountRange) == NeutralScore
  {
  }

  /** Against a range the score is 1.0 inside it (bounds included), 0.3 below it and 0.2 above it. */
  lemma BudgetAgainstRange(description: string, amountRange: string, budget: nat, lo: nat, hi: nat)
    requires amountRange != ""
    requires CaseBudget(description) == Some(budget)
    requires OpportunityRange(amountRange) == Some((lo, hi))
    ensures lo <= budget <= hi ==> BudgetCompatibility(description, Some(amountRange)) == 1.0
    ensures budget < lo ==> BudgetCompatibility(description, Some(amountRange)) == 0.3
    ensures hi < budget && lo <= budget ==> BudgetCompatibility(description, Some(amountRange)) == 0.2
  {
  }

  /** Against a single amount the score is the ratio of the smaller amount to the larger. */
  lemma BudgetAgainstSingle(description: string, amountRange: string, budget: nat, single: nat)
    requires amountRange != ""
    requires CaseBudget(description) == Some(budget)
    requires OpportunityRange(amountRange).None?
    requires OpportunitySingle(amountRange) == Some(single)
    ensures BudgetCompatibility(description, Some(amountRange)) == AmountRatio(budget, single)
    ensures budget == single <==> BudgetCompatibility(description, Some(amountRange)) == 1.0
  {
  }

  // ---------------------------------------------------------------------------
  // What the matcher finds: spans of the amount grammar

  /** `[i, e)` is a sequence of groups `(?:\s?\d{3})*`. */
  predicate GroupsSpan(s: string, i: nat, e: nat)
    requires i <= e <= |s|
    decreases e - i
  {
    || i == e
    || (i + 4 <= e && IsSpace(s[i]) && DigitsAt(s, i + 1, 3) && GroupsSpan(s, i + 4, e))
    || (i + 3 <= e && DigitsAt(s, i, 3) && GroupsSpan(s, i + 3, e))
  }

  /** `[p, e)` is an amount `\d{1,3}(?:\s?\d{3})*`. */
  predicate AmountSpan(s: string, p: nat, e: nat)
    requires p <= e <= |s|
  {
    || (p + 3 <= e && DigitsAt(s, p, 3) && GroupsSpan(s, p + 3, e))
    || (p + 2 <= e && DigitsAt(s, p, 2) && GroupsSpan(s, p + 2, e))
    || (p + 1 <= e && DigitsAt(s, p, 1) && GroupsSpan(s, p + 1, e))
  }

  lemma {:induction false} StarGreedySpan(s: string, i: nat)
    requires i <= |s|
    ensures GroupsSpan(s, i, StarGreedy(s, i))
    decreases |s| - i
  {
    match GroupStep(s, i)
    case Some(j) => StarGreedySpan(s, j);
    case None =>
  }

  /** A greedy amount is an amount of the grammar. */
  lemma AmountGreedySpan(s: string, p: nat)
    requires p <= |s| && AmountGreedy(s, p).Some?
    ensures AmountSpan(s, p, AmountGreedy(s, p).value)
  {
    if DigitsAt(s, p, 3) {
      StarGreedySpan(s, p + 3);
    } else if DigitsAt(s, p, 2) {
      StarGreedySpan(s, p + 2);
    } else {
      StarGreedySpan(s, p + 1);
    }
  }

  lemma {:induction false} StarSearchSpan(s: string, i: nat, ok: nat -> bool)
    requires i <= |s| && StarSearch(s, i, ok).Some?
    ensures GroupsSpan(s, i, StarSearch(s, i, ok).value)
    decreases |s| - i
  {
    match GroupStep(s, i)
    case Some(j) =>
      if StarSearch(s, j, ok).Some? {
        StarSearchSpan(s, j, ok);
      }
    case None =>
  }

  lemma {:induction false} LeadSearchSpan(s: string, p: nat, lead: nat, ok: nat -> bool)
    requires p <= |s| && lead <= 3 && LeadSearch(s, p, lead, ok).Some?
    ensures AmountSpan(s, p, LeadSearch(s, p, lead, ok).value)
    decreases lead
  {
    if DigitsAt(s, p, lead) && StarSearch(s, p + lead, ok).Some? {
      StarSearchSpan(s, p + lead, ok);
    } else {
      LeadSearchSpan(s, p, lead - 1, ok);
    }
  }

  /** The amount the search finds is an amount of the grammar that the suffix follows. */
  lemma AmountSearchSpan(s: string, p: nat, ok: nat -> bool)
    requires p <= |s| && AmountSearch(s, p, ok).Some?
    ensures AmountSpan(s, p, AmountSearch(s, p, ok).value)
    ensures ok(AmountSearch(s, p, ok).value)
  {
    LeadSearchSpan(s, p, 3, ok);
  }

  // ---------------------------------------------------------------------------
  // The matcher misses no amount: the searches are complete

  lemma {:induction false} StarSearchComplete(s: string, i: nat, e: nat, ok: nat -> bool)
    requires i <= e <= |s| && GroupsSpan(s, i, e) && ok(e)
    ensures StarSearch(s, i, ok).Some?
    decreases e - i
  {
    if i == e {
    } else if i + 4 <= e && IsSpace(s[i]) && DigitsAt(s, i + 1, 3) && GroupsSpan(s, i + 4, e) {
      assert GroupStep(s, i) == Some(i + 4);
      StarSearchComplete(s, i + 4, e, ok);
    } else {
      assert !IsSpace(s[i]) by {
        assert IsDigit(s[i]);
      }
      assert GroupStep(s, i) == Some(i + 3);
      StarSearchComplete(s, i + 3, e, ok);
    }
  }

  lemma {:induction false} LeadSearchComplete(s: string, p: nat, lead: nat, k: nat, e: nat, ok: nat -> bool)
    requires 1 <= k <= lead <= 3 && p + k <= e <= |s| && DigitsAt(s, p, k) && GroupsSpan(s, p + k, e) && ok(e)
    ensures LeadSearch(s, p, lead, ok).Some?
    decreases lead
  {
    if lead == k {
      StarSearchComplete(s, p + k, e, ok);
    } else {
      LeadSearchComplete(s, p, lead - 1, k, e, ok);
    }
  }

  /** Wherever an amount of the grammar starts that the suffix can follow, the search finds one. */
  lemma AmountSearchComplete(s: string, p: nat, e: nat, ok: nat -> bool)
    requires p <= e <= |s| && AmountSpan(s, p, e) && ok(e)
    ensures AmountSearch(s, p, ok).Some?
  {
    if p + 3 <= e && DigitsAt(s, p, 3) && GroupsSpan(s, p + 3, e) {
      LeadSearchComplete(s, p, 3, 3, e, ok);
    } else if p + 2 <= e && DigitsAt(s, p, 2) && GroupsSpan(s, p + 2, e) {
      LeadSearchComplete(s, p, 3, 2, e, ok);
    } else {
      LeadSearchComplete(s, p, 3, 1, e, ok);
    }
  }

  /**
   * The currency match is the leftmost one: if an amount of the grammar that
   * a currency word follows starts at `q`, the search from `p <= q` finds a
   * match that starts no later than `q`.
   */
  lemma {:induction false} CaseAmountFromLeftmost(s: string, p: nat, q: nat, e: nat)
    requires p <= q < e <= |s| && AmountSpan(s, q, e) && CurrencyAt(s, e)
    ensures CaseAmountFrom(s, p).Some? && CaseAmountFrom(s, p).value.0 <= q
    decreases q - p
  {
    if AmountSearch(s, p, CurrencyFollows(s)).None? {
      if p == q {
        assert CurrencyFollows(s)(e);
        AmountSearchComplete(s, q, e, CurrencyFollows(s));
      }
      CaseAmountFromLeftmost(s, p + 1, q, e);
    }
  }

  /** The range match is the leftmost one, in the same sense. */
  lemma {:induction false} RangeFromLeftmost(s: string, p: nat, q: nat, e: nat)
    requires p <= q < e <= |s| && AmountSpan(s, q, e) && RangeRest(s, e).Some?
    ensures RangeFrom(s, p).Some? && RangeFrom(s, p).value.0 <= q
    decreases q - p
  {
    RangeFromStep(s, p);
    if AmountSearch(s, p, RangeFollows(s)).None? {
      if p == q {
        assert RangeFollows(s)(e);
        AmountSearchComplete(s, q, e, RangeFollows(s));
      }
      RangeFromLeftmost(s, p + 1, q, e);
    }
  }

  /** One step of the range search: a match at `p`, or the search from `p + 1`. */
  lemma RangeFromStep(s: string, p: nat)
    requires p < |s|
    ensures AmountSearch(s, p, RangeFollows(s)).Some? ==> RangeFrom(s, p).Some? && RangeFrom(s, p).value.0 == p
    ensures AmountSearch(s, p, RangeFollows(s)).None? ==> RangeFrom(s, p) == RangeFrom(s, p + 1)
  {
  }

  /**
   * The case description names a budget exactly when some amount of the
   * grammar is followed by a currency word, and the budget is the value of
   * such an amount.
   */
  lemma CaseBudgetMeaning(description: string)
    ensures CaseBudget(description).Some? ==>
      exists q, e :: 0 <= q < e <= |description| && AmountSpan(description, q, e)
        && CurrencyAt(description, e) && CaseBudget(description).value == AmountValue(description, (q, e))
    ensures CaseBudget(description).None? ==>
      forall q, e :: 0 <= q < e <= |description| && AmountSpan(description, q, e)
        ==> !CurrencyAt(description, e)
  {
    var s := description;
    match CaseAmountFrom(s, 0)
    case Some(span) =>
      assert AmountSpan(s, span.0, span.1) && CurrencyAt(s, span.1);
    case None =>
      forall q, e | 0 <= q < e <= |s| && AmountSpan(s, q, e) && CurrencyAt(s, e)
        ensures false
      {
        CaseAmountFromLeftmost(s, 0, q, e);
      }
  }

  /**
   * The amount text holds a range exactly when some amount of the grammar is
   * followed by a dash and a second amount, and the bounds are the values of
   * those two amounts.
   */
  lemma OpportunityRangeMeaning(amountRange: string)
    ensures OpportunityRange(amountRange).Some? ==>
      exists q, e :: 0 <= q < e <= |amountRange| && AmountSpan(amountRange, q, e)
        && RangeRest(amountRange, e).Some?
        && OpportunityRange(amountRange).value ==
             (AmountValue(amountRange, (q, e)), AmountValue(amountRange, RangeRest(amountRange, e).value))
    ensures OpportunityRange(amountRange).None? ==>
      forall q, e :: 0 <= q < e <= |amountRange| && AmountSpan(amountRange, q, e)
        ==> RangeRest(amountRange, e).None?
  {
    var s := amountRange;
    match RangeFrom(s, 0)
    case Some(m) =>
      assert AmountSpan(s, m.0, m.1) && RangeRest(s, m.1) == Some((m.2, m.3));
    case None =>
      forall q, e | 0 <= q < e <= |s| && AmountSpan(s, q, e) && RangeRest(s, e).Some?
        ensures false
      {
        RangeFromLeftmost(s, 0, q, e);
      }
  }

  // ---------------------------------------------------------------------------
  // What the greedy amount grammar does to digit runs

  /** All characters of `s` are digits. */
  predicate AllDigits(s: string) {
    forall i :: 0 <= i < |s| ==> IsDigit(s[i])
  }

  /** The digits that whole groups of three cover in a run of `n` digits. */
  function WholeGroups(n: nat): (m: nat)
    ensures m <= n
  {
    if n < 3 then 0 else 3 + WholeGroups(n - 3)
  }

  /** Whole groups of three cover 3·⌊n/3⌋ digits. */
  lemma {:induction false} WholeGroupsThirds(n: nat)
    ensures WholeGroups(n) == 3 * (n / 3)
  {
    if n >= 3 {
      WholeGroupsThirds(n - 3);
      assert (n - 3) / 3 + 1 == n / 3;
    }
  }

  /** The digits the amount grammar keeps of a run of `n` digits that nothing follows. */
  function KeptDigits(n: nat): (m: nat)
    ensures m <= n
  {
    if n < 3 then n else WholeGroups(n)
  }

  /** The grammar keeps runs of up to two digits whole, and otherwise 3·⌊n/3⌋ digits, at least three. */
  lemma KeptDigitsValue(n: nat)
    ensures n < 3 ==> KeptDigits(n) == n
    ensures n >= 3 ==> KeptDigits(n) == 3 * (n / 3) && 3 <= KeptDigits(n) && n - KeptDigits(n) < 3
  {
    WholeGroupsThirds(n);
  }

  /** On digits up to the end of the text the repetitions go as far as whole groups of three allow. */
  lemma {:induction false} StarGreedyOnDigits(s: string, i: nat)
    requires i <= |s| && (forall k :: i <= k < |s| ==> IsDigit(s[k]))
    ensures StarGreedy(s, i) == i + WholeGroups(|s| - i)
    decreases |s| - i
  {
    if i + 3 <= |s| {
      assert !IsSpace(s[i]) by {
        assert IsDigit(s[i]);
      }
      assert GroupStep(s, i) == Some(i + 3);
      StarGreedyOnDigits(s, i + 3);
      assert WholeGroups(|s| - i) == 3 + WholeGroups(|s| - (i + 3));
    } else {
      assert GroupStep(s, i).None?;
    }
  }

  /** An amount on digits that run to the end of the text ends after `KeptDigits` of them. */
  lemma AmountGreedyToEnd(s: string, p: nat)
    requires p < |s| && (forall k :: p <= k < |s| ==> IsDigit(s[k]))
    ensures AmountGreedy(s, p) == Some(p + KeptDigits(|s| - p))
  {
    var n := |s| - p;
    if n >= 3 {
      assert DigitsAt(s, p, 3);
      StarGreedyOnDigits(s, p + 3);
      assert KeptDigits(n) == 3 + WholeGroups(|s| - (p + 3));
    } else if n == 2 {
      assert DigitsAt(s, p, 2) && !DigitsAt(s, p, 3);
      assert GroupStep(s, p + 2).None?;
    } else {
      assert DigitsAt(s, p, 1) && !DigitsAt(s, p, 2);
      assert GroupStep(s, p + 1).None?;
    }
  }

  /**
   * An amount with nothing after it keeps the first 3·⌊n/3⌋ digits of a run
   * of n ≥ 3 digits: `"1000000"` as a single amount reads 100000.
   */
  lemma UnsuffixedAmountTruncated(s: string)
    requires |s| > 0 && AllDigits(s)
    ensures OpportunitySingle(s) == Some(DigitsValue(s[..KeptDigits(|s|)]))
  {
    var m := KeptDigits(|s|);
    AmountGreedyToEnd(s, 0);
    assert SingleFrom(s, 0) == Some((0, m));
    DigitSpanValue(s, 0, m);
    assert s[0..m] == s[..m];
  }

  /** A matched run of digits reads as its decimal value. */
  lemma DigitRunValue(t: string)
    requires AllDigits(t)
    ensures ParseIntPrefix(RemoveSpaces(t)) == DigitsValue(t)
  {
    assert RemoveSpaces(t) == t by {
      forall i | 0 <= i < |t|
        ensures !IsSpace(t[i])
      {
        assert IsDigit(t[i]);
      }
    }
    assert DigitPrefixLength(t) == |t|;
    assert t[..|t|] == t;
  }

  /** A matched run of digits `[i, j)` of the text reads as its decimal value. */
  lemma DigitSpanValue(s: string, i: nat, j: nat)
    requires i <= j <= |s| && (forall k :: i <= k < j ==> IsDigit(s[k]))
    ensures AmountValue(s, (i, j)) == DigitsValue(s[i..j])
  {
    DigitRunValue(s[i..j]);
  }

  /** A digit run stops at `n`: no digit, and no space before three digits, can extend it. */
  predicate RunStopsAt(s: string, n: nat) {
    n < |s| && !IsDigit(s[n]) && !(IsSpace(s[n]) && DigitsAt(s, n + 1, 3))
  }

  /** No currency word starts with a digit. */
  lemma NoCurrencyAtDigit(s: string, e: nat)
    requires e < |s| && IsDigit(s[e])
    ensures !CurrencyAt(s, e)
  {
    assert SkipSpaces(s, e) == e by {
      assert !IsSpace(s[e]);
    }
    forall w | w in CurrencyWords ensures !MatchesIgnoringCase(s, e, w) {
      assert w[0] == 'p' || w[0] == 'z';
      assert !SameIgnoringCase(s[e], w[0]);
    }
  }

  /** No range continues with a digit. */
  lemma RangeRestAtDigit(s: string, e: nat)
    requires e < |s| && IsDigit(s[e])
    ensures RangeRest(s, e).None?
  {
    assert SkipSpaces(s, e) == e by {
      assert !IsSpace(s[e]);
    }
  }

  /** The currency pattern never continues where a digit follows. */
  lemma CurrencyNoneAtDigits(s: string)
    ensures NoneAtDigits(s, CurrencyFollows(s))
  {
    forall e: nat | e < |s| && IsDigit(s[e]) ensures !CurrencyFollows(s)(e) {
      NoCurrencyAtDigit(s, e);
    }
  }

  /** The range pattern never continues where a digit follows. */
  lemma RangeNoneAtDigits(s: string)
    ensures NoneAtDigits(s, RangeFollows(s))
  {
    forall e: nat | e < |s| && IsDigit(s[e]) ensures !RangeFollows(s)(e) {
      RangeRestAtDigit(s, e);
    }
  }

  /** From inside a digit run, whole groups reach the run's end `n`, where the suffix matches. */
  lemma {:induction false} StarSearchReachesRunEnd(s: string, i: nat, n: nat, groups: nat, ok: nat -> bool)
    requires i + 3 * groups == n && RunStopsAt(s, n) && ok(n)
    requires forall j :: i <= j < n ==> IsDigit(s[j])
    ensures StarSearch(s, i, ok) == Some(n)
    decreases groups
  {
    if groups == 0 {
      assert GroupStep(s, i).None?;
    } else {
      assert !IsSpace(s[i]) by {
        assert IsDigit(s[i]);
      }
      assert GroupStep(s, i) == Some(i + 3);
      StarSearchReachesRunEnd(s, i + 3, n, groups - 1, ok);
    }
  }

  /** From inside a digit run, groups of three that end one or two digits short of it lead to no match. */
  lemma {:induction false} StarSearchMissesRunEnd(s: string, i: nat, n: nat, groups: nat, r: nat, ok: nat -> bool)
    requires 1 <= r <= 2 && i + 3 * groups + r == n && RunStopsAt(s, n) && NoneAtDigits(s, ok)
    requires forall j :: i <= j < n ==> IsDigit(s[j])
    ensures StarSearch(s, i, ok).None?
    decreases groups
  {
    assert !IsSpace(s[i]) by {
      assert IsDigit(s[i]);
    }
    if groups == 0 {
      assert !DigitsAt(s, i, 3) by {
        assert !IsDigit(s[n]);
      }
      assert GroupStep(s, i).None?;
    } else {
      assert GroupStep(s, i) == Some(i + 3);
      StarSearchMissesRunEnd(s, i + 3, n, groups - 1, r, ok);
    }
    assert !ok(i);
  }

  /** A run of `m` digits is one to three leading digits and whole groups of three. */
  lemma {:induction false} SplitRun(m: nat) returns (lead: nat, groups: nat)
    requires m >= 1
    ensures 1 <= lead <= 3 && lead + 3 * groups == m
    decreases m
  {
    if m <= 3 {
      lead, groups := m, 0;
    } else {
      lead, groups := SplitRun(m - 3);
      groups := groups + 1;
    }
  }

  /** In a digit run `[p, n)` of `lead` leading digits and whole groups, `lead` leading digits succeed. */
  lemma LeadReachesRunEnd(s: string, p: nat, n: nat, lead: nat, groups: nat, ok: nat -> bool)
    requires 1 <= lead <= 3 && p + lead + 3 * groups == n && RunStopsAt(s, n) && ok(n)
    requires forall j :: p <= j < n ==> IsDigit(s[j])
    ensures LeadSearch(s, p, lead, ok) == Some(n)
  {
    assert DigitsAt(s, p, lead) by {
      assert IsDigit(s[p]);
      assert lead >= 2 ==> IsDigit(s[p + 1]);
      assert lead >= 3 ==> IsDigit(s[p + 2]);
    }
    assert StarSearch(s, p + lead, ok) == Some(n) by {
      StarSearchReachesRunEnd(s, p + lead, n, groups, ok);
    }
  }

  /** In a digit run `[p, n)` of `lead` leading digits and whole groups, more leading digits fail. */
  lemma LeadMissesRunEnd(s: string, p: nat, n: nat, lead: nat, groups: nat, m: nat, ok: nat -> bool)
    requires 1 <= lead < m <= 3 && p + lead + 3 * groups == n && RunStopsAt(s, n) && NoneAtDigits(s, ok)
    requires forall j :: p <= j < n ==> IsDigit(s[j])
    ensures LeadSearch(s, p, m, ok) == LeadSearch(s, p, m - 1, ok)
  {
    if groups > 0 {
      StarSearchMissesRunEnd(s, p + m, n, groups - 1, lead + 3 - m, ok);
    } else {
      assert !DigitsAt(s, p, m) by {
        assert !IsDigit(s[p + lead]);
      }
    }
  }

  /**
   * An amount that starts a digit run `[p, n)` and has its suffix after the
   * run ends where the run ends: the grammar backtracks to the one split of
   * the run into leading digits and whole groups.
   */
  lemma AmountSearchOfRun(s: string, p: nat, n: nat, ok: nat -> bool)
    requires p < n && RunStopsAt(s, n) && ok(n) && NoneAtDigits(s, ok)
    requires forall j :: p <= j < n ==> IsDigit(s[j])
    ensures AmountSearch(s, p, ok) == Some(n)
  {
    var lead, groups := SplitRun(n - p);
    assert AmountSearch(s, p, ok) == LeadSearch(s, p, 3, ok);
    if lead == 3 {
      LeadReachesRunEnd(s, p, n, 3, groups, ok);
    } else if lead == 2 {
      LeadMissesRunEnd(s, p, n, 2, groups, 3, ok);
      LeadReachesRunEnd(s, p, n, 2, groups, ok);
    } else {
      LeadMissesRunEnd(s, p, n, 1, groups, 3, ok);
      LeadMissesRunEnd(s, p, n, 1, groups, 2, ok);
      LeadReachesRunEnd(s, p, n, 1, groups, ok);
    }
  }

  /** No amount starts at a character that is not a digit. */
  lemma {:induction false} LeadSearchAtNonDigit(s: string, q: nat, lead: nat, ok: nat -> bool)
    requires q < |s| && !IsDigit(s[q]) && lead <= 3
    ensures LeadSearch(s, q, lead, ok).None?
    decreases lead
  {
    if lead > 0 {
      assert !DigitsAt(s, q, lead);
      LeadSearchAtNonDigit(s, q, lead - 1, ok);
    }
  }

  /** The currency search passes over one character that is not a digit. */
  lemma CaseAmountSkipsOne(s: string, q: nat)
    requires q < |s| && !IsDigit(s[q])
    ensures CaseAmountFrom(s, q) == CaseAmountFrom(s, q + 1)
  {
    LeadSearchAtNonDigit(s, q, 3, CurrencyFollows(s));
  }

  /** The currency search passes over characters that are not digits. */
  lemma {:induction false} CaseAmountSkipsNonDigits(s: string, p: nat, m: nat)
    requires p <= m <= |s| && (forall k :: p <= k < m ==> !IsDigit(s[k]))
    ensures CaseAmountFrom(s, p) == CaseAmountFrom(s, m)
    decreases m - p
  {
    if p < m {
      CaseAmountSkipsOne(s, p);
      CaseAmountSkipsNonDigits(s, p + 1, m);
    }
  }

  /** With a currency word after it, the currency pattern matches the whole first run of digits `[p, n)`. */
  lemma CurrencyAmountMatch(s: string, p: nat, n: nat)
    requires p < n && RunStopsAt(s, n) && CurrencyAt(s, n)
    requires forall k :: 0 <= k < p ==> !IsDigit(s[k])
    requires forall k :: p <= k < n ==> IsDigit(s[k])
    ensures CaseAmountFrom(s, 0) == Some((p, n))
  {
    CaseAmountSkipsNonDigits(s, 0, p);
    CurrencyNoneAtDigits(s);
    AmountSearchOfRun(s, p, n, CurrencyFollows(s));
  }

  /**
   * With a currency word after it, the whole first run of digits `[p, n)` is
   * read: the amount grammar backtracks to the one end the currency word can
   * follow.
   */
  lemma CurrencyAmountRead(s: string, p: nat, n: nat)
    requires p < n && RunStopsAt(s, n) && CurrencyAt(s, n)
    requires forall k :: 0 <= k < p ==> !IsDigit(s[k])
    requires forall k :: p <= k < n ==> IsDigit(s[k])
    ensures CaseBudget(s) == Some(DigitsValue(s[p..n]))
  {
    CurrencyAmountMatch(s, p, n);
    DigitSpanValue(s, p, n);
  }

  /** After a dash that a digit follows, the maximum starts at that digit and ends where its greedy amount ends. */
  lemma RangeRestAfterDash(s: string, n: nat, e: nat)
    requires n + 1 < |s| && s[n] == '-' && IsDigit(s[n + 1])
    requires AmountGreedy(s, n + 1) == Some(e)
    ensures RangeRest(s, n) == Some((n + 1, e))
  {
    assert SkipSpaces(s, n) == n by {
      assert !IsSpace(s[n]);
    }
    assert SkipSpaces(s, n + 1) == n + 1 by {
      assert !IsSpace(s[n + 1]);
    }
  }

  /** After a dash that digits follow to the end of the text, the maximum keeps `KeptDigits` of them. */
  lemma RangeRestAtDash(s: string, n: nat)
    requires n + 1 < |s| && s[n] == '-' && (forall k :: n + 1 <= k < |s| ==> IsDigit(s[k]))
    ensures RangeRest(s, n) == Some((n + 1, n + 1 + KeptDigits(|s| - (n + 1))))
  {
    AmountGreedyToEnd(s, n + 1);
    RangeRestAfterDash(s, n, n + 1 + KeptDigits(|s| - (n + 1)));
  }

  /** Digits, a dash, digits: the range pattern matches at the start and ends its minimum at the dash. */
  lemma PlainRangeMatch(s: string, n: nat)
    requires 0 < n && n + 1 < |s| && s[n] == '-'
    requires forall k :: 0 <= k < n ==> IsDigit(s[k])
    requires forall k :: n + 1 <= k < |s| ==> IsDigit(s[k])
    ensures RangeFrom(s, 0) == Some((0, n, n + 1, n + 1 + KeptDigits(|s| - (n + 1))))
  {
    RangeRestAtDash(s, n);
    assert RunStopsAt(s, n);
    RangeNoneAtDigits(s);
    AmountSearchOfRun(s, 0, n, RangeFollows(s));
  }

  /**
   * A range of two plain digit runs reads its minimum whole (the dash makes
   * the grammar backtrack to it) and its maximum truncated to `KeptDigits`.
   */
  lemma PlainRangeRead(s: string, n: nat)
    requires 0 < n && n + 1 < |s| && s[n] == '-'
    requires forall k :: 0 <= k < n ==> IsDigit(s[k])
    requires forall k :: n + 1 <= k < |s| ==> IsDigit(s[k])
    ensures OpportunityRange(s) == Some((DigitsValue(s[..n]), DigitsValue(s[n + 1..n + 1 + KeptDigits(|s| - (n + 1))])))
  {
    var m := n + 1 + KeptDigits(|s| - (n + 1));
    PlainRangeMatch(s, n);
    assert AmountValue(s, (0, n)) == DigitsValue(s[..n]) by {
      DigitSpanValue(s, 0, n);
      assert s[0..n] == s[..n];
    }
    assert AmountValue(s, (n + 1, m)) == DigitsValue(s[n + 1..m]) by {
      DigitSpanValue(s, n + 1, m);
    }
  }

  // ---------------------------------------------------------------------------
  // The single-amount ratio as written

  /** A JavaScript number, as far as the ratio needs: a finite value or NaN. */
  datatype JsNumber = Finite(value: real) | NaN

  /** The smaller-to-larger ratio as JavaScript evaluates it: zero over zero is NaN. */
  function AmountRatioAsWritten(a: nat, b: nat): (r: JsNumber)
    ensures r.NaN? <==> a == 0 && b == 0
  {
    var lo := if a <= b then a else b;
    var hi := if a <= b then b else a;
    if hi == 0 then NaN else Finite(lo as real / hi as real)
  }

  /** `calculateBudgetCompatibility` as written, with the JavaScript ratio. */
  function BudgetCompatibilityAsWritten(description: string, amountRange: Option<string>): (r: JsNumber)
    ensures r.NaN? ==> CaseBudget(description) == Some(0)
  {
    if amountRange.None? || amountRange.value == "" then Finite(NeutralScore)
    else match CaseBudget(description)
      case None => Finite(NeutralScore)
      case Some(budget) =>
        match OpportunityRange(amountRange.value)
        case Some((lo, hi)) =>
          if lo <= budget && budget <= hi then Finite(InRangeScore)
          else if budget < lo then Finite(BelowRangeScore)
          else Finite(AboveRangeScore)
        case None =>
          match OpportunitySingle(amountRange.value)
          case Some(single) => AmountRatioAsWritten(budget, single)
          case None => Finite(NeutralScore)
  }

  /** The two definitions agree except where both amounts are zero. */
  lemma AsWrittenAgreesOffZero(description: string, amountRange: Option<string>)
    requires BudgetCompatibilityAsWritten(description, amountRange).Finite?
    ensures BudgetCompatibilityAsWritten(description, amountRange) == Finite(BudgetCompatibility(description, amountRange))
  {
  }

  /** The case description `"0 zł"` names the amount 0. */
  lemma ZeroCaseBudget()
    ensures CaseBudget("0 zł") == Some(0)
  {
    var s := "0 zł";
    assert CurrencyAt(s, 1) by {
      assert SkipSpaces(s, 2) == 2;
      assert SkipSpaces(s, 1) == 2;
      assert MatchesIgnoringCase(s, 2, CurrencyWords[1]);
    }
    assert RunStopsAt(s, 1) by {
      assert !DigitsAt(s, 2, 3);
    }
    CurrencyAmountRead(s, 0, 1);
    assert DigitsValue(s[0..1]) == 0 by {
      assert s[0..1] == "0";
      assert "0"[..0] == "";
    }
  }

  /** The amount text `"0"` is no range and the single amount 0. */
  lemma ZeroAmountText()
    ensures OpportunityRange("0").None?
    ensures OpportunitySingle("0") == Some(0)
  {
    UnsuffixedAmountTruncated("0");
    assert "0"[..KeptDigits(1)] == "0";
    assert "0"[..0] == "";
    var t := "0";
    assert RangeRest(t, 1).None?;
    assert StarSearch(t, 1, RangeFollows(t)).None? by {
      assert GroupStep(t, 1).None?;
    }
    assert AmountSearch(t, 0, RangeFollows(t)).None? by {
      assert !DigitsAt(t, 0, 2) && !DigitsAt(t, 0, 3);
      assert LeadSearch(t, 0, 1, RangeFollows(t)).None?;
    }
    assert RangeFrom(t, 0).None?;
  }

  /** A case of `"0 zł"` against the amount text `"0"` scores NaN as written, and 1.0 corrected. */
  lemma ZeroAmountsScoreNaN()
    ensures BudgetCompatibilityAsWritten("0 zł", Some("0")) == NaN
    ensures BudgetCompatibility("0 zł", Some("0")) == 1.0
  {
    ZeroCaseBudget();
    ZeroAmountText();
  }

  /** After digits, ` zł` stops the run and is a currency word. */
  lemma ZlotySuffix(d: string)
    ensures CurrencyAt(d + " zł", |d|) && RunStopsAt(d + " zł", |d|)
  {
    var s := d + " zł";
    var n := |d|;
    assert s[n] == ' ' && s[n + 1] == 'z' && s[n + 2] == 'ł';
    assert CurrencyAt(s, n) by {
      assert SkipSpaces(s, n + 1) == n + 1;
      assert SkipSpaces(s, n) == n + 1;
      assert MatchesIgnoringCase(s, n + 1, CurrencyWords[1]);
    }
    assert !DigitsAt(s, n + 1, 3);
  }

  /** A description of digits followed by ` zł` names the amount those digits spell. */
  lemma ZlotyAmount(d: string)
    requires |d| > 0 && AllDigits(d)
    ensures CaseBudget(d + " zł") == Some(DigitsValue(d))
  {
    var s := d + " zł";
    ZlotySuffix(d);
    forall k | 0 <= k < |d|
      ensures IsDigit(s[k])
    {
      assert s[k] == d[k];
    }
    assert s[0..|d|] == d;
    CurrencyAmountRead(s, 0, |d|);
  }

  /** The decimal values of the example amounts. */
  lemma ExampleDigitValues()
    ensures DigitsValue("50000") == 50000
    ensures DigitsValue("500000") == 500000
    ensures DigitsValue("2000000") == 2000000
  {
    assert "50000"[..4] == "5000" && "5000"[..3] == "500" && "500"[..2] == "50" && "50"[..1] == "5" && "5"[..0] == "";
    assert "500000"[..5] == "50000";
    assert "2000000"[..6] == "200000" && "200000"[..5] == "20000" && "20000"[..4] == "2000";
    assert "2000"[..3] == "200" && "200"[..2] == "20" && "20"[..1] == "2" && "2"[..0] == "";
  }

  /** The case description `"50000 zł"` names the amount 50000. */
  lemma CaseBudgetBelowExample()
    ensures CaseBudget("50000 zł") == Some(50000)
  {
    assert "50000" + " zł" == "50000 zł";
    ExampleDigitValues();
    ZlotyAmount("50000");
  }

  /** The case description `"500000 zł"` names the amount 500000. */
  lemma CaseBudgetInsideExample()
    ensures CaseBudget("500000 zł") == Some(500000)
  {
    assert "500000" + " zł" == "500000 zł";
    ExampleDigitValues();
    ZlotyAmount("500000");
  }

  /** The case description `"2000000 zł"` names the amount 2000000. */
  lemma CaseBudgetAboveExample()
    ensures CaseBudget("2000000 zł") == Some(2000000)
  {
    assert "2000000" + " zł" == "2000000 zł";
    ExampleDigitValues();
    ZlotyAmount("2000000");
  }

  /** `PlainRangeRead` with the two values it reads named by the caller. */
  lemma RangeReadAs(s: string, n: nat, lo: nat, hi: nat)
    requires 0 < n && n + 1 < |s| && s[n] == '-'
    requires forall k :: 0 <= k < n ==> IsDigit(s[k])
    requires forall k :: n + 1 <= k < |s| ==> IsDigit(s[k])
    requires lo == DigitsValue(s[..n]) && hi == DigitsValue(s[n + 1..n + 1 + KeptDigits(|s| - (n + 1))])
    ensures OpportunityRange(s) == Some((lo, hi))
  {
    PlainRangeRead(s, n);
  }

  /** The text `"100000-1000000"` is two digit runs around a dash, reading 100000 and, truncated, 100000. */
  lemma TruncatedRangeText()
    ensures var t := "100000-1000000";
      && 7 < |t| && t[6] == '-'
      && (forall k :: 0 <= k < 6 ==> IsDigit(t[k]))
      && (forall k :: 7 <= k < |t| ==> IsDigit(t[k]))
      && DigitsValue(t[..6]) == 100000
      && DigitsValue(t[7..7 + KeptDigits(|t| - 7)]) == 100000
  {
    var t := "100000-1000000";
    KeptDigitsValue(7);
    assert t[..6] == "100000" && t[7..13] == "100000";
    assert DigitsValue("100000") == 100000 by {
      assert "100000"[..5] == "10000" && "10000"[..4] == "1000" && "1000"[..3] == "100";
      assert "100"[..2] == "10" && "10"[..1] == "1" && "1"[..0] == "";
    }
  }

  /** The range `"100000-1000000"` reads as 100000 to 100000: its maximum loses a digit. */
  lemma TruncatedRangeMaximum()
    ensures OpportunityRange("100000-1000000") == Some((100000, 100000))
  {
    TruncatedRangeText();
    RangeReadAs("100000-1000000", 6, 100000, 100000);
  }

  /**
   * Against the range text `"100000-1000000"`, which reads as 100000 to 100000:
   * 50000 zł lies below it (0.3), and both 500000 zł and 2000000 zł lie above
   * it (0.2), although the range the text means contains 500000.
   */
  lemma TruncatedMaximumScoresAbove()
    ensures BudgetCompatibility("50000 zł", Some("100000-1000000")) == BelowRangeScore
    ensures BudgetCompatibility("500000 zł", Some("100000-1000000")) == AboveRangeScore
    ensures BudgetCompatibility("2000000 zł", Some("100000-1000000")) == AboveRangeScore
  {
    CaseBudgetBelowExample();
    CaseBudgetInsideExample();
    CaseBudgetAboveExample();
    TruncatedRangeMaximum();
    BudgetAgainstRange("50000 zł", "100000-1000000", 50000, 100000, 100000);
    BudgetAgainstRange("500000 zł", "100000-1000000", 500000, 100000, 100000);
    BudgetAgainstRange("2000000 zł", "100000-1000000", 2000000, 100000, 100000);
  }
  // ---------------------------------------------------------------------------
  // Amounts written in groups of three separated by spaces

  /** Two digit groups joined by one space lose the space. */
  lemma GroupedDigits(a: string, b: string)
    requires AllDigits(a) && AllDigits(b)
    ensures RemoveSpaces(a + " " + b) == a + b
  {
    assert RemoveSpaces(a) == a by {
      assert forall i :: 0 <= i < |a| ==> !IsSpace(a[i]) by {
        assert forall i :: 0 <= i < |a| ==> IsDigit(a[i]);
      }
    }
    assert RemoveSpaces(b) == b by {
      assert forall i :: 0 <= i < |b| ==> !IsSpace(b[i]) by {
        assert forall i :: 0 <= i < |b| ==> IsDigit(b[i]);
      }
    }
    assert RemoveSpaces(" ") == "" by {
      assert IsSpace(" "[0]);
    }
    RemoveSpacesConcat(a, " ");
    RemoveSpacesConcat(a + " ", b);
    assert a + "" == a;
  }

  /** A matched amount that, spaces removed, is the digits `t` reads as their value. */
  lemma SpacedSpanValue(s: string, i: nat, j: nat, t: string)
    requires i <= j <= |s| && RemoveSpaces(s[i..j]) == t && AllDigits(t)
    ensures AmountValue(s, (i, j)) == DigitsValue(t)
  {
    DigitRunValue(t);
  }

  /** An amount of two groups of three digits around one space reads as the six digits. */
  lemma TwoGroupValue(s: string, i: nat, a: string, b: string, v: nat)
    requires i + 7 <= |s| && |a| == 3 && |b| == 3 && AllDigits(a) && AllDigits(b)
    requires s[i..i + 7] == a + " " + b && DigitsValue(a + b) == v
    ensures AmountValue(s, (i, i + 7)) == v
  {
    GroupedDigits(a, b);
    assert AllDigits(a + b) by {
      forall k | 0 <= k < |a + b| ensures IsDigit((a + b)[k]) {
        if k < |a| {
          assert (a + b)[k] == a[k];
        } else {
          assert (a + b)[k] == b[k - |a|];
        }
      }
    }
    SpacedSpanValue(s, i, i + 7, a + b);
  }

  /** The decimal values of the grouped example amounts. */
  lemma GroupedDigitValues()
    ensures DigitsValue("100000") == 100000
    ensures DigitsValue("300000") == 300000
    ensures DigitsValue("500000") == 500000
  {
    assert DigitsValue("100000") == 100000 by {
      assert "100000"[..5] == "10000" && "10000"[..4] == "1000" && "1000"[..3] == "100";
      assert "100"[..2] == "10" && "10"[..1] == "1" && "1"[..0] == "";
    }
    assert DigitsValue("300000") == 300000 by {
      assert "300000"[..5] == "30000" && "30000"[..4] == "3000" && "3000"[..3] == "300";
      assert "300"[..2] == "30" && "30"[..1] == "3" && "3"[..0] == "";
    }
    assert DigitsValue("500000") == 500000 by {
      assert "500000"[..5] == "50000" && "50000"[..4] == "5000" && "5000"[..3] == "500";
      assert "500"[..2] == "50" && "50"[..1] == "5" && "5"[..0] == "";
    }
  }

  /** In `"300 000 zł"` the currency pattern takes both groups: the space between them is `\s?`. */
  lemma SpacedCurrencyMatch()
    ensures CaseAmountFrom("300 000 zł", 0) == Some((0, 7))
  {
    var s := "300 000 zł";
    var ok := CurrencyFollows(s);
    assert CurrencyAt(s, 7) by {
      assert SkipSpaces(s, 8) == 8;
      assert SkipSpaces(s, 7) == 8;
      assert MatchesIgnoringCase(s, 8, CurrencyWords[1]);
    }
    assert GroupStep(s, 7).None?;
    assert StarSearch(s, 7, ok) == Some(7);
    assert GroupStep(s, 3) == Some(7);
    assert StarSearch(s, 3, ok) == Some(7);
    assert DigitsAt(s, 0, 3);
    assert AmountSearch(s, 0, ok) == Some(7);
  }

  /** The case description `"300 000 zł"` names the amount 300000. */
  lemma SpacedCaseBudget()
    ensures CaseBudget("300 000 zł") == Some(300000)
  {
    var s := "300 000 zł";
    SpacedCurrencyMatch();
    assert s[0..7] == "300" + " " + "000";
    assert "300" + "000" == "300000";
    GroupedDigitValues();
    TwoGroupValue(s, 0, "300", "000", 300000);
  }

  /** After `"100 000"` the rest of `"100 000 - 500 000"` is a dash and the amount `"500 000"`. */
  lemma SpacedRangeRest()
    ensures RangeRest("100 000 - 500 000", 7) == Some((10, 17))
  {
    var s := "100 000 - 500 000";
    assert |s| == 17;
    assert GroupStep(s, 17).None?;
    assert GroupStep(s, 13) == Some(17);
    assert StarGreedy(s, 13) == 17;
    assert DigitsAt(s, 10, 3);
    assert AmountGreedy(s, 10) == Some(17);
    assert SkipSpaces(s, 10) == 10 && SkipSpaces(s, 9) == 10;
    assert SkipSpaces(s, 8) == 8 && SkipSpaces(s, 7) == 8;
  }

  /** The range pattern matches `"100 000 - 500 000"` with both amounts in two groups. */
  lemma SpacedRangeMatch()
    ensures RangeFrom("100 000 - 500 000", 0) == Some((0, 7, 10, 17))
  {
    var s := "100 000 - 500 000";
    var ok := RangeFollows(s);
    SpacedRangeRest();
    assert ok(7);
    assert GroupStep(s, 7).None?;
    assert StarSearch(s, 7, ok) == Some(7);
    assert GroupStep(s, 3) == Some(7);
    assert StarSearch(s, 3, ok) == Some(7);
    assert DigitsAt(s, 0, 3);
    assert AmountSearch(s, 0, ok) == Some(7);
  }

  /** The minimum `"100 000"` of `"100 000 - 500 000"` reads 100000. */
  lemma SpacedRangeMinimum()
    ensures AmountValue("100 000 - 500 000", (0, 7)) == 100000
  {
    var s := "100 000 - 500 000";
    assert s[0..7] == "100" + " " + "000";
    assert "100" + "000" == "100000";
    GroupedDigitValues();
    TwoGroupValue(s, 0, "100", "000", 100000);
  }

  /** The maximum `"500 000"` of `"100 000 - 500 000"` reads 500000. */
  lemma SpacedRangeMaximum()
    ensures AmountValue("100 000 - 500 000", (10, 17)) == 500000
  {
    var s := "100 000 - 500 000";
    assert s[10..17] == "500" + " " + "000";
    assert "500" + "000" == "500000";
    GroupedDigitValues();
    TwoGroupValue(s, 10, "500", "000", 500000);
  }

  /** The range read from a match whose two amounts the caller has read. */
  lemma RangeValuesAs(s: string, m: (nat, nat, nat, nat), lo: nat, hi: nat)
    requires RangeFrom(s, 0) == Some(m)
    requires m.0 <= m.1 <= |s| && m.2 <= m.3 <= |s|
    requires AmountValue(s, (m.0, m.1)) == lo && AmountValue(s, (m.2, m.3)) == hi
    ensures OpportunityRange(s) == Some((lo, hi))
  {
  }

  /** The amount text `"100 000 - 500 000"` is the range 100000 to 500000. */
  lemma SpacedRange()
    ensures OpportunityRange("100 000 - 500 000") == Some((100000, 500000))
  {
    SpacedRangeMatch();
    SpacedRangeMinimum();
    SpacedRangeMaximum();
    RangeValuesAs("100 000 - 500 000", (0, 7, 10, 17), 100000, 500000);
  }

  /** A case of `"300 000 zł"` lies inside the range `"100 000 - 500 000"`: the score is 1.0. */
  lemma SpacedAmountsInRange()
    ensures BudgetCompatibility("300 000 zł", Some("100 000 - 500 000")) == InRangeScore
  {
    SpacedCaseBudget();
    SpacedRange();
    BudgetAgainstRange("300 000 zł", "100 000 - 500 000", 300000, 100000, 500000);
  }
}
