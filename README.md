# Relevance scoring of the MSiT assistant, in Dafny

This project models the deterministic part of the backend that matches an
administrative case against funding opportunities and procedures:

- **Relevance scorer** (`backend/src/utils/scoring.ts`). It scores a case
  against a funding opportunity with four components:
  - keywords shared between the case and the opportunity;
  - the case category's keyword list;
  - budget compatibility, read from the amounts in both texts by the
    source's regular expressions;
  - a semantic similarity, which the language model supplies.

  The weighted and clamped sum of the four is the score. The scorer also
  decides whether the opportunity's deadline has passed. It justifies the
  score with a Polish sentence, either the model's or a fixed template.
- **Procedure matcher** (`backend/src/agents/retriever.ts`). It scores
  candidate procedures by their budget criterion and returns the
  highest-scoring one. A stable sort makes the earliest win among ties.
- **Classifier** (`backend/src/agents/classifier.ts`). It rates the language
  model's classification by how complete it is. That rating overrides any
  confidence the model supplied.

Modules, one file each:

| module | file | contents |
|---|---|---|
| `Wrappers` | wrappers.dfy | the `Option` datatype |
| `JsText` | jstext.dfy | JavaScript string operations on `seq<char>` |
| `Keywords` | keywords.dfy | `extractKeywords` |
| `Budget` | budget.dfy | `calculateBudgetCompatibility`, with a backtracking model of its regular expressions |
| `Deadline` | deadline.dfy | `checkIfExpired` and the part of ECMAScript `Date` it uses |
| `Justification` | justification.dfy | reason selection, `generateJustification`, `generateFallbackJustification` |
| `Scoring` | scoring.dfy | `calculateKeywordMatch`, `calculateCategoryMatch`, the semantic clamp, `calculateRelevanceScore` |
| `Json` | json.dfy | JSON values and the JavaScript truthiness, member access and key counting applied to them |
| `Classifier` | classifier.dfy | `calculateConfidence`, `classifyCaseAgent` |
| `Retriever` | retriever.dfy | `calculateMatchScore`, `findBestMatch` |

The model uses the following parameters in place of parts it cannot see:

| source | parameter |
|---|---|
| the language model's answers | `Scoring.Similarity`, `Justification.Completion` and the classification map |
| the clock | `now`, in local milliseconds |
| `new Date(deadline)` on free text | `fallback` |
| the database's procedures | the array given to `FindBestMatch` |

JavaScript numbers are modelled as mathematical reals. The one place where
JavaScript's NaN changes the outcome is modelled on its own; see Findings.

The code behaves in four places in ways a reader might not expect, and the
model does what the code does:

- **A deadline dated today counts as expired.** The code compares the
  deadline's local midnight with today at 23:59:59.999, so one dated today
  is already past (`Deadline.DeadlineTodayExpired`).
- **A long unformatted amount is truncated.** Where nothing has to follow an
  amount, the greedy `\d{1,3}(?:\s?\d{3})*` keeps only the first 3·⌊n/3⌋
  digits of a run of n ≥ 3 digits (`Budget.UnsuffixedAmountTruncated`).
  - The single amount `"1000000"` therefore reads 100000.
  - The maximum of the range `"100000-1000000"` also reads 100000
    (`Budget.PlainRangeRead`), so a case of `"500000 zł"` scores 0.2
    against it, although 500000 lies between the bounds as written
    (`Budget.TruncatedMaximumScoresAbove`).
  - An amount followed by a currency word is read whole
    (`Budget.CurrencyAmountRead`).
  - Amounts written in groups of three separated by spaces are read whole:
    `"300 000 zł"` reads 300000 and `"100 000 - 500 000"` reads 100000 to
    500000 (`Budget.SpacedCaseBudget`, `Budget.SpacedRange`).
- **Two-digit years land in the 1900s.** A four-digit year group from
  `0000` to `0099` becomes 1900–1999, as `new Date(y, m, d)` does.
- **Confidence is only capped at 1.0, never floored.** It never falls below
  0.5, and the cap never binds (`Classifier.Confidence`).

## Model

| member | source | states |
|---|---|---|
| `JsText.ContainsAt` | backend/src/utils/scoring.ts:322 | `includes` holds exactly when the pattern occurs at some offset |
| `JsText.JoinContains` | backend/src/utils/scoring.ts:263 | every element of a joined list occurs in the joined text |
| `JsText.WordsOfJoin` | backend/src/utils/scoring.ts:347 | splitting words joined by single spaces gives back the words |
| `JsText.NatToString` | backend/src/utils/scoring.ts:251 | the decimal text of a natural number is non-empty, all digits, and reads back as that number |
| `JsText.RemoveSpaces` | backend/src/utils/scoring.ts:399 | removing whitespace keeps only non-space characters of the input, leaves text without whitespace unchanged, and deletes a single whitespace character |
| `JsText.RemoveSpacesConcat` | backend/src/utils/scoring.ts:399 | removing whitespace from two texts joined is removing it from each, so the kept characters stay in order |
| `JsText.ToLowerIdempotent` | backend/src/utils/scoring.ts:312-313 | lower-casing lower-cased text changes nothing |
| `Keywords.Normalize` | backend/src/utils/scoring.ts:344-346 | the normalised text has the input's length and holds only lower-case ASCII word characters and whitespace |
| `Keywords.KeepCandidates` | backend/src/utils/scoring.ts:348 | a word is kept if and only if it is a word of the input, at least three characters long and no stop word |
| `Keywords.Dedup` | backend/src/utils/scoring.ts:351 | the distinct list has exactly the input's elements |
| `Keywords.DedupNoDuplicates` | backend/src/utils/scoring.ts:351 | the distinct list has no element twice |
| `Keywords.DedupFirstOccurrenceOrder` | backend/src/utils/scoring.ts:351 | the distinct list is in order of first appearance in the input |
| `Keywords.ExtractKeywords` | backend/src/utils/scoring.ts:334-353 | at most 15 keywords, each a candidate word of the text; while fewer than 15 are kept, every candidate is among them |
| `Keywords.KeywordsWellFormed` | backend/src/utils/scoring.ts:334-353 | at most 15 keywords, none twice, each at least 3 characters, no stop word, only lower-case ASCII word characters |
| `Keywords.KeywordsInFirstOccurrenceOrder` | backend/src/utils/scoring.ts:344-352 | every keyword is a candidate word; the keywords keep text order; a candidate is dropped only when 15 earlier ones were kept |
| `Keywords.KeywordsIdempotent` | backend/src/utils/scoring.ts:334-353 | extracting keywords from the keywords joined by spaces gives the same keywords in the same order |
| `Keywords.DiacriticStopWordsInert` | backend/src/utils/scoring.ts:336-348 | the stop words spelled with a Polish diacritic can never match, because `\w` is ASCII-only: removing them changes no extraction |
| `Keywords.AsciiWordIsStopWord` | backend/src/utils/scoring.ts:336-341 | on a word of lower-case ASCII characters, membership in the stop list is membership in its ASCII part |
| `Budget.CaseAmountFrom` | backend/src/utils/scoring.ts:393-395 | a currency-amount match lies at or after the search start, is an amount of the grammar `\d{1,3}(?:\s?\d{3})*`, and is followed by a currency word |
| `Budget.CaseAmountFromLeftmost` | backend/src/utils/scoring.ts:393-395 | whenever some amount of the grammar followed by a currency word starts at q, a match is found and it starts at q or earlier |
| `Budget.RangeFrom` | backend/src/utils/scoring.ts:404-406 | a range match is an amount of the grammar, then a dash between optional spaces, then a second amount, all at or after the search start |
| `Budget.RangeFromLeftmost` | backend/src/utils/scoring.ts:404-406 | whenever a range starts at q, a match is found and it starts at q or earlier |
| `Budget.SingleFrom` | backend/src/utils/scoring.ts:424-426 | a single amount is found if and only if some digit follows the start |
| `Budget.AmountSearchSpan` | backend/src/utils/scoring.ts:394 | a found amount is an amount of the grammar `\d{1,3}(?:\s?\d{3})*`, and the required suffix follows it |
| `Budget.AmountSearchComplete` | backend/src/utils/scoring.ts:394 | the backtracking search finds an amount whenever some amount of the grammar at that position has the required suffix after it |
| `Budget.CaseBudgetMeaning` | backend/src/utils/scoring.ts:393-401 | a case budget is the value of an amount followed by a currency word; there is none exactly when no amount of the grammar is followed by one |
| `Budget.OpportunityRangeMeaning` | backend/src/utils/scoring.ts:404-410 | a range is the values of two amounts joined by a dash; there is none exactly when no amount of the grammar is followed by a dash and a second amount |
| `Budget.OpportunitySingle` | backend/src/utils/scoring.ts:424-428 | a single amount is read exactly when the text holds a digit |
| `Budget.AmountSearchOfRun` | backend/src/utils/scoring.ts:394 | an amount with a suffix after a digit run ends at the run's end: the search backtracks to the one split of the run that allows it |
| `Budget.CurrencyAmountRead` | backend/src/utils/scoring.ts:393-401 | with a currency word after the first run of digits, the whole run is read as the case budget |
| `Budget.PlainRangeRead` | backend/src/utils/scoring.ts:404-410 | a range `digits-digits` reads its minimum whole and its maximum truncated to `KeptDigits` |
| `Budget.TruncatedRangeMaximum` | backend/src/utils/scoring.ts:404-410 | the range `"100000-1000000"` reads as 100000 to 100000 |
| `Budget.ZlotyAmount` | backend/src/utils/scoring.ts:393-401 | a description of digits followed by ` zł` gives the case budget those digits spell |
| `Budget.TruncatedMaximumScoresAbove` | backend/src/utils/scoring.ts:404-421 | against `"100000-1000000"`, a case of 50000 zł scores 0.3, and cases of 500000 zł and 2000000 zł both score 0.2 |
| `Budget.UnsuffixedAmountTruncated` | backend/src/utils/scoring.ts:424-428 | a digit run that ends the text reads as its first `KeptDigits` digits |
| `Budget.KeptDigitsValue` | backend/src/utils/scoring.ts:425 | runs of up to two digits are kept whole, longer runs as 3·⌊n/3⌋ digits |
| `Budget.CaseAmountSkipsNonDigits` | backend/src/utils/scoring.ts:393-395 | the leftmost search passes over characters that are not digits |
| `Budget.DigitRunValue` | backend/src/utils/scoring.ts:398-401 | a matched run of digits, spaces removed, is read by `parseInt` as its decimal value |
| `Budget.GroupedDigits` | backend/src/utils/scoring.ts:399 | two digit groups joined by a space read, spaces removed, as the digits of both in order |
| `Budget.SpacedCaseBudget` | backend/src/utils/scoring.ts:393-401 | `"300 000 zł"` gives the case budget 300000 |
| `Budget.SpacedRange` | backend/src/utils/scoring.ts:404-410 | `"100 000 - 500 000"` reads as the range 100000 to 500000 |
| `Budget.SpacedAmountsInRange` | backend/src/utils/scoring.ts:404-421 | a case of `"300 000 zł"` scores 1.0 against the range `"100 000 - 500 000"` |
| `Budget.AmountRatio` | backend/src/utils/scoring.ts:429 | the single-amount ratio lies in [0, 1] and is 1 exactly when the amounts are equal |
| `Budget.AmountRatioSymmetric` | backend/src/utils/scoring.ts:429 | the ratio does not depend on which amount is the case's |
| `Budget.CloserAmountsScoreHigher` | backend/src/utils/scoring.ts:429-430 | moving an amount towards the other never lowers the ratio |
| `Budget.BudgetCompatibility` | backend/src/utils/scoring.ts:386-434 | the budget score lies in [0, 1] |
| `Budget.BudgetNeutralWithoutAmounts` | backend/src/utils/scoring.ts:390-396 | no amount text, or no currency amount in the description, gives 0.5 |
| `Budget.BudgetAgainstRange` | backend/src/utils/scoring.ts:408-421 | against a range: 1.0 inside it with both bounds included, 0.3 below it, 0.2 above it |
| `Budget.BudgetAgainstSingle` | backend/src/utils/scoring.ts:424-431 | against a single amount: the smaller-to-larger ratio, and 1.0 exactly for equal amounts |
| `Budget.BudgetCompatibilityAsWritten` | backend/src/utils/scoring.ts:386-434 | the score as JavaScript computes it is NaN only when the case budget is 0 |
| `Budget.AsWrittenAgreesOffZero` | backend/src/utils/scoring.ts:429 | wherever the score as written is a number, it equals the corrected score |
| `Budget.ZeroAmountsScoreNaN` | backend/src/utils/scoring.ts:429 | the case `"0 zł"` against the amount `"0"` scores NaN as written and 1.0 corrected |
| `Deadline.MatchFrom` | backend/src/utils/scoring.ts:124 | a pattern's match has the shape of its capture groups |
| `Deadline.DateFromMatch` | backend/src/utils/scoring.ts:124-146 | a date built from a match lies at a local midnight, and for the Polish pattern its month text lower-cases to a key of the month table |
| `Deadline.FirstMatchingPattern` | backend/src/utils/scoring.ts:123-151 | the first matching pattern's captures have that pattern's shape |
| `Deadline.CheckIfExpired` | backend/src/utils/scoring.ts:104-173 | the loop over the patterns computes exactly `IsExpired`: the first matching pattern builds the date, and otherwise the generic parse is used |
| `Deadline.IsExpired` | backend/src/utils/scoring.ts:104-168 | an expired deadline is present, non-empty and parsed to a valid date whose day is today or earlier |
| `Deadline.NoDeadlineNotExpired` | backend/src/utils/scoring.ts:105 | an absent or empty deadline is not expired |
| `Deadline.FallbackOnlyWithoutMatch` | backend/src/utils/scoring.ts:154-156 | the generic parse is used exactly when no pattern matches |
| `Deadline.FirstPatternWins` | backend/src/utils/scoring.ts:123-151 | the first pattern in list order that matches decides the date |
| `Deadline.NoDigitUsesFallback` | backend/src/utils/scoring.ts:112-116 | a deadline without a digit matches no pattern and is judged by the generic parse alone |
| `Deadline.PatternDatesValid` | backend/src/utils/scoring.ts:118-148 | a date built from the first matching pattern is always valid and at a local midnight |
| `Deadline.MatchedMonthLowers` | backend/src/utils/scoring.ts:115-145 | the text a month alternative matches case-insensitively lower-cases to that month's table key |
| `Deadline.PatternDeadlineExpiry` | backend/src/utils/scoring.ts:159-168 | a deadline a pattern recognises is expired exactly when its day is today or earlier |
| `Deadline.DeadlineTodayExpired` | backend/src/utils/scoring.ts:165-168 | a deadline dated today is expired |
| `Deadline.UnparseableNotExpired` | backend/src/utils/scoring.ts:153-162 | any text that no pattern matches and the generic parse rejects is not expired |
| `Deadline.NotADateNotExpired` | backend/src/utils/scoring.ts:112-162 | `"not a date"` matches no pattern and, with the generic parse rejecting it, is not expired |
| `Deadline.ExpiryIsMonotone` | backend/src/utils/scoring.ts:165-168 | an expired deadline stays expired as time goes on |
| `Deadline.PastIsoDeadlineExpired` | backend/src/utils/scoring.ts:113-168 | `"2024-01-01"` is expired on 2025-01-01 |
| `Deadline.FutureDottedDeadlineNotExpired` | backend/src/utils/scoring.ts:114-168 | `"31.12.2099"` is not expired on 2025-01-01 |
| `Deadline.YearLength` | backend/src/utils/scoring.ts:128-132 | the calendar gives a leap year 366 days and any other year 365 |
| `Deadline.NextDate` | backend/src/utils/scoring.ts:128-132 | one more day of the month is one day later, past the month's end as well |
| `Deadline.EndOfMonthRollsOver` | backend/src/utils/scoring.ts:128-132 | the day after a month's last day is the first of the next month, December into January |
| `Deadline.MonthOverflow` | backend/src/utils/scoring.ts:128-132 | a month past December is the same month of the next year |
| `Justification.GenerateJustification` | backend/src/utils/scoring.ts:178-243 | a non-empty reply is the justification; a null or empty reply gives the template over the collected reasons; a failed call gives the template over the short reasons; the result is never empty |
| `Justification.MatchReasonsMeaning` | backend/src/utils/scoring.ts:192-211 | each reason is given exactly when its threshold is passed: semantic above 0.7, or above 0.5 and at most 0.7; keywords above 0.6; category above 0.7; budget above 0.8, or above 0.5 and at most 0.8 |
| `Justification.MatchReasonsShape` | backend/src/utils/scoring.ts:192-211 | at most four reasons, none of the short failure-path ones |
| `Justification.FailureReasonsMeaning` | backend/src/utils/scoring.ts:234-242 | on the failure path, the reasons are exactly the components above 0.5, in component order |
| `Justification.Tier` | backend/src/utils/scoring.ts:254-261 | the tier word follows the score bands in both directions |
| `Justification.TierMonotone` | backend/src/utils/scoring.ts:254-261 | a higher score never gets a lower tier |
| `Justification.RoundHalfUp` | backend/src/utils/scoring.ts:251 | the rounded value lies within one half of its input |
| `Justification.PercentInRange` | backend/src/utils/scoring.ts:251 | a score in [0, 1] shows as an unsigned percentage from 0 to 100 |
| `Justification.FallbackJustification` | backend/src/utils/scoring.ts:249-264 | the template sentence is never empty |
| `Justification.FallbackNamesEveryReason` | backend/src/utils/scoring.ts:263 | the template sentence names every reason it is given |
| `Justification.FallbackShowsPercent` | backend/src/utils/scoring.ts:250-263 | both template sentences show the percentage |
| `Justification.FallbackOpening` | backend/src/utils/scoring.ts:250-263 | without reasons the sentence opens with the partial-match text; with reasons it opens with the tier |
| `Scoring.CountContained` | backend/src/utils/scoring.ts:320-325 | the count of contained keys never exceeds the number of keys |
| `Scoring.CountContainedAll` | backend/src/utils/scoring.ts:320-325 | the count is full exactly when every key occurs |
| `Scoring.CountContainedNone` | backend/src/utils/scoring.ts:320-325 | the count is zero exactly when no key occurs |
| `Scoring.KeywordScore` | backend/src/utils/scoring.ts:308-329 | the keyword score lies in [0, 1] |
| `Scoring.CalculateKeywordMatch` | backend/src/utils/scoring.ts:308-329 | the counting loop computes the keyword score, which lies in [0, 1] |
| `Scoring.KeywordScoreMeaning` | backend/src/utils/scoring.ts:308-329 | it is 0.5 without keywords; it is 1 exactly when every keyword occurs in the opportunity text, and 0 exactly when none does |
| `Scoring.CategoryScore` | backend/src/utils/scoring.ts:358-381 | the category score lies in [0, 1] |
| `Scoring.UnknownCategoryNeutral` | backend/src/utils/scoring.ts:362-380 | no category, or one without a keyword list, gives 0.5 |
| `Scoring.KnownCategoryScore` | backend/src/utils/scoring.ts:364-380 | for a known category: 1 exactly when name and description mention every keyword of its list, 0 exactly when they mention none |
| `Scoring.FundingTwoOfFive` | backend/src/utils/scoring.ts:364-380 | a funding case whose opportunity mentions `dotacja` and `fundusz` and no other funding keyword scores 0.4 |
| `Scoring.ClampToUnit` | backend/src/utils/scoring.ts:298 | the clamp lies in [0, 1], leaves values in [0, 1] alone and sends values outside to the nearer bound |
| `Scoring.SemanticSimilarity` | backend/src/utils/scoring.ts:268-302 | the semantic score lies in [0, 1], is 0.5 on failure or NaN, and is the reply's value when that is in [0, 1] |
| `Scoring.Normalized` | backend/src/utils/scoring.ts:76 | the normalised score lies in [0, 1] |
| `Scoring.WeightsSumToOne` | backend/src/utils/scoring.ts:34-39 | the four weights add up to one |
| `Scoring.WeightedSumInUnit` | backend/src/utils/scoring.ts:60-76 | with components in [0, 1] the weighted sum lies in [0, 1] and the clamp leaves it unchanged |
| `Scoring.RelevanceScore` | backend/src/utils/scoring.ts:30-99 | the final score lies in [0, 1] and is exactly the weighted sum of the four components: the clamp never changes it |
| `Scoring.WeightedSumMonotone` | backend/src/utils/scoring.ts:60-76 | raising a component never lowers the score |
| `Scoring.WeightedSumExtremes` | backend/src/utils/scoring.ts:34-76 | perfect components give 1, neutral ones 0.5, zero ones 0 |
| `Scoring.ScoreIgnoresDeadlineAndCategory` | backend/src/utils/scoring.ts:30-79 | the opportunity's deadline and category play no part in the score |
| `Scoring.CalculateRelevanceScore` | backend/src/utils/scoring.ts:30-99 | the four `+=` steps and the clamp give the weighted sum; the expiry is `IsExpired` of the deadline; the justification follows the reply as in `GenerateJustification` |
| `Scoring.RelevanceScoreAsWritten` | backend/src/utils/scoring.ts:70-76 | as JavaScript computes it, the score is NaN exactly when the budget score is NaN |
| `Scoring.RelevanceAsWrittenAgrees` | backend/src/utils/scoring.ts:70-76 | wherever the budget score is a number, the score as written is the corrected score |
| `Scoring.ZeroBudgetRelevanceNaN` | backend/src/utils/scoring.ts:70-76 | a case of `"0 zł"` against the amount `"0"` makes the final score NaN as written |
| `Classifier.Confidence` | backend/src/agents/classifier.ts:29-39 | the confidence is 0.5 plus the bonus of each filled-in field, and lies in [0.5, 1.0]: the cap never binds |
| `Classifier.ConfidenceExtremes` | backend/src/agents/classifier.ts:33-38 | 1.0 exactly when all three fields are filled in, 0.5 exactly when none is |
| `Classifier.ConfidenceMonotone` | backend/src/agents/classifier.ts:33-36 | filling in more fields never lowers the confidence |
| `Classifier.ConfidenceIgnoresOtherFields` | backend/src/agents/classifier.ts:33-36 | fields other than the three, a supplied `confidence` included, do not affect the confidence |
| `Classifier.ClassifyCaseAgent` | backend/src/agents/classifier.ts:23-26 | the result keeps every field of the model's answer, adds `confidence`, and its `confidence` is the computed one |
| `Classifier.ClassificationIdempotent` | backend/src/agents/classifier.ts:15-27 | classifying a classified result changes nothing |
| `Retriever.CalculateMatchScore` | backend/src/agents/retriever.ts:40-54 | the score is 0.5 or 0.7, never above 1.0, and 0.7 exactly when the budget criterion is met |
| `Retriever.MatchScore` | backend/src/agents/retriever.ts:40-54 | the match score is 0.5 or 0.7, and 0.7 exactly when the budget criterion is met |
| `Retriever.SortByScore` | backend/src/agents/retriever.ts:35 | the sort yields a permutation of its input, of the same length, in descending score order |
| `Retriever.SortHead` | backend/src/agents/retriever.ts:35-37 | the sorted list starts with the first entry of highest score |
| `Retriever.FirstMaxIndex` | backend/src/agents/retriever.ts:35-37 | the index holds the highest score, and every earlier entry scores lower |
| `Retriever.FindBestMatch` | backend/src/agents/retriever.ts:23-38 | scoring, sorting and taking the head gives `BestMatch` of the input |
| `Retriever.BestMatch` | backend/src/agents/retriever.ts:27-37 | there is no best match exactly when there are no procedures; a best match is one of the procedures with its own match score |
| `Retriever.BestMatchIsFirstMaximum` | backend/src/agents/retriever.ts:30-37 | the best match is an input procedure with its own score; no procedure scores higher; every earlier procedure scores lower |
| `Retriever.BestScore` | backend/src/agents/retriever.ts:40-53 | the best score is 0.7 exactly when some procedure meets the budget criterion |
| `Retriever.BudgetBonusExample` | backend/src/agents/retriever.ts:44-50 | an extracted amount of 300000 against a `min_budget` of 100000 scores 0.7 |

## Left out

- Language model calls: the similarity, justification and classification
  prompts and their replies are foreign calls. Their results are parameters.
- `parseFloat` of the similarity reply is foreign. `Scoring.Similarity`
  carries its result.
- The `catch` of `calculateRelevanceScore` around the similarity (lines
  55-58) is left out. It cannot fire, because `calculateSemanticSimilarity`
  catches everything.
- `new Date(deadline)` on free text is foreign. Its result is the `fallback`
  parameter.
- Time zones and daylight saving time are left out. `now` is given in local
  milliseconds, and every local day is taken to last exactly 86 400 000 ms.
- Floating point is left out. Scores are reals, so the rounding of binary
  doubles does not happen; for example, `0.285 * 100` is below 28.5 as a
  double.
- Number formatting is exact over reals. `toFixed(0)` on a real is modelled
  exactly; on doubles it can differ at halves, as the point above explains.
- Unicode case mapping is left out beyond ASCII and the Polish letters.
- `oppKeywords` (scoring.ts line 317) is computed and never used. It is left
  out because it has no effect.
- Scoring.CategoryScore: a category naming an inherited property such as
  `constructor` makes `categoryKeywords[category]` a function, and the
  `filter` call then throws. The model treats such a category as unknown
  (0.5).
- Retriever.AtLeast: JavaScript's `>=` is modelled on two numbers only.
  Comparisons that involve strings, booleans or `null` count as false.
- Json.HasPositiveLength: an object's own `length` member counts only when it
  is a number. Other coercions of `length` are left out.
- Json.Truthy: NaN is not a JSON value, so the falsy NaN does not arise.
- Retriever.FindBestMatch: `Array.prototype.sort` is modelled by the stable
  insertion sort `SortByScore`, whose result is written back into the scored
  array. The engine's own in-place algorithm is not modelled; every stable
  sort gives the same order. The input array is left unchanged because the
  method has no `modifies` clause.
- `retrieveProcedures` is a database query and is left out. So are
  `backend/src/config/supabase.ts` and the `Procedure` fields the matcher
  does not read.
- Classification failures are left out. If `classifyCase` throws, or
  `JSON.parse` rejects the reply, no result exists to model.
- Logging is left out. Every `logger` call is a side effect only.

## Findings

| source | as written | input that shows it | evidently intended | confidence | as-written member | corrected member |
|---|---|---|---|---|---|---|
| backend/src/utils/scoring.ts:429 | the single-amount ratio is `Math.min(a, b) / Math.max(a, b)`, which is `0 / 0`, so NaN, when both amounts are 0; the NaN then passes through `Math.max`/`Math.min` into the final score (lines 73-76) | case description `"0 zł"`, `amount_range` `"0"` | equal amounts score 1.0, and the final score stays in [0, 1] | not executed | `Budget.BudgetCompatibilityAsWritten`, `Budget.ZeroAmountsScoreNaN`, `Scoring.ZeroBudgetRelevanceNaN` | `Budget.AmountRatio`, `Budget.BudgetCompatibility` |
