/**
 * `calculateRelevanceScore`: four component scores of a case against a
 * funding opportunity (semantic similarity, shared keywords, category,
 * budget), their weighted sum clamped to [0, 1], whether the deadline has
 * passed, and a justification. The language model's two answers (the
 * similarity reply and the justification reply), the clock and the generic
 * date parser are parameters.
 */
module Scoring {
  import opened Wrappers
  import opened JsText
  import opened Keywords
  import opened Budget
  import opened Deadline
  import opened Justification

  datatype CaseDetails = CaseDetails(title: string, description: string, category: Option<string>)

  datatype FundingOpportunity = FundingOpportunity(
    name: string,
    description: string,
    amountRange: Option<string>,
    eligibility: Option<string>,
    category: Option<string>,
    deadline: Option<string>)

  datatype ScoringResult = ScoringResult(score: real, justification: string, isExpired: bool)

  /** An optional string, or the empty string when it is absent. */
  function OrEmpty(x: Option<string>): string {
    if x.Some? then x.value else ""
  }

  /** The case's text as the keyword match reads it: title and description, lower-cased. */
  function CaseText(c: CaseDetails): string {
    ToLower(c.title + " " + c.description)
  }

  /** The opportunity's text: name, description and eligibility criteria, lower-cased. */
  function OpportunityText(o: FundingOpportunity): string {
    ToLower(o.name + " " + o.description + " " + OrEmpty(o.eligibility))
  }

  // ---------------------------------------------------------------------------
  // Keyword match (lines 305-329)

  /** How many of `keys` occur in `text`. */
  function CountContained(keys: seq<string>, text: string): (n: nat)
    ensures n <= |keys|
  {
    if |keys| == 0 then 0
    else CountContained(keys[..|keys| - 1], text) + (if Contains(text, keys[|keys| - 1]) then 1 else 0)
  }

  /** The share of the case's keywords that the opportunity's text contains; 0.5 without keywords. */
  function KeywordScore(c: CaseDetails, o: FundingOpportunity): (r: real)
    ensures 0.0 <= r <= 1.0
  {
    var keys := ExtractKeywords(CaseText(c));
    var n := CountContained(keys, OpportunityText(o));
    FractionInUnit(n, |keys|);
    if |keys| > 0 then n as real / |keys| as real else NeutralScore
  }

  /** `calculateKeywordMatch`: counts the case keywords found in the opportunity text. */
  method CalculateKeywordMatch(c: CaseDetails, o: FundingOpportunity) returns (score: real)
    ensures score == KeywordScore(c, o)
    ensures 0.0 <= score <= 1.0
  {
    var oppText := OpportunityText(o);
    var caseKeywords := ExtractKeywords(CaseText(c));
    var matches := 0;
    var i := 0;
    while i < |caseKeywords|
      invariant 0 <= i <= |caseKeywords|
      invariant matches == CountContained(caseKeywords[..i], oppText)
    {
      assert caseKeywords[..i + 1][..i] == caseKeywords[..i];
      if Contains(oppText, caseKeywords[i]) {
        matches := matches + 1;
      }
      i := i + 1;
    }
    assert caseKeywords[..i] == caseKeywords;
    score := if |caseKeywords| > 0 then matches as real / |caseKeywords| as real else NeutralScore;
    FractionInUnit(matches, |caseKeywords|);
  }

  lemma FractionInUnit(n: nat, d: nat)
    requires n <= d
    ensures d > 0 ==> 0.0 <= n as real / d as real <= 1.0
  {
  }

  /** Every key counts exactly when it occurs: all of them occur iff the count is full. */
  lemma {:induction false} CountContainedAll(keys: seq<string>, text: string)
    ensures CountContained(keys, text) == |keys| <==> forall k :: k in keys ==> Contains(text, k)
  {
    if |keys| > 0 {
      var front, last := keys[..|keys| - 1], keys[|keys| - 1];
      CountContainedAll(front, text);
      assert keys == front + [last];
      if forall k :: k in keys ==> Contains(text, k) {
        assert forall k :: k in front ==> Contains(text, k);
        assert Contains(text, last);
      }
      if forall k :: k in front ==> Contains(text, k) {
        if Contains(text, last) {
          assert forall k :: k in keys ==> Contains(text, k);
        }
      }
    }
  }


  /** No key occurs iff the count is zero. */
  lemma {:induction false} CountContainedNone(keys: seq<string>, text: string)
    ensures CountContained(keys, text) == 0 <==> forall k :: k in keys ==> !Contains(text, k)
  {
    if |keys| > 0 {
      var front, last := keys[..|keys| - 1], keys[|keys| - 1];
      CountContainedNone(front, text);
      assert keys == front + [last];
      if forall k :: k in keys ==> !Contains(text, k) {
        assert forall k :: k in front ==> !Contains(text, k);
        assert !Contains(text, last);
      }
      if forall k :: k in front ==> !Contains(text, k) {
        if !Contains(text, last) {
          assert forall k :: k in keys ==> !Contains(text, k);
        }
      }
    }
  }


  /**
   * The keyword score is 1 exactly when every keyword occurs in the
   * opportunity text, 0 exactly when none does, and 0.5 when the case has
   * no keywords.
   */
  lemma KeywordScoreMeaning(c: CaseDetails, o: FundingOpportunity)
    ensures |ExtractKeywords(CaseText(c))| == 0 ==> KeywordScore(c, o) == 0.5
    ensures |ExtractKeywords(CaseText(c))| > 0 ==>
      (KeywordScore(c, o) == 1.0 <==> forall k :: k in ExtractKeywords(CaseText(c)) ==> Contains(OpportunityText(o), k))
    ensures |ExtractKeywords(CaseText(c))| > 0 ==>
      (KeywordScore(c, o) == 0.0 <==> forall k :: k in ExtractKeywords(CaseText(c)) ==> !Contains(OpportunityText(o), k))
  {
    var keys := ExtractKeywords(CaseText(c));
    var n := CountContained(keys, OpportunityText(o));
    CountContainedAll(keys, OpportunityText(o));
    CountContainedNone(keys, OpportunityText(o));
    if |keys| > 0 {
      FractionExtremes(n, |keys|);
    }
  }

  lemma FractionExtremes(n: nat, d: nat)
    requires 0 < d && n <= d
    ensures n as real / d as real == 1.0 <==> n == d
    ensures n as real / d as real == 0.0 <==> n == 0
  {
    if n as real / d as real == 1.0 {
      assert n as real == d as real;
    }
  }

  // ---------------------------------------------------------------------------
  // Category match (lines 354-381)

  const FundingKeywords: seq<string> := ["dofinansowanie", "dotacja", "grant", "subwencja", "fundusz"]
  const PermitKeywords: seq<string> := ["pozwolenie", "zezwolenie", "licencja", "certyfikat"]
  const LicenseKeywords: seq<string> := ["licencja", "certyfikat", "uprawnienie", "autoryzacja"]

  /** The keyword list of a known category, else none. */
  function CategoryKeywords(category: string): seq<string> {
    if category == "funding" then FundingKeywords
    else if category == "permits" then PermitKeywords
    else if category == "licenses" then LicenseKeywords
    else []
  }

  /** The name and description, lower-cased, that the category keywords are looked for in. */
  function CategoryText(o: FundingOpportunity): string {
    ToLower(o.name + " " + o.description)
  }

  /** `calculateCategoryMatch`: the share of the category's keywords the opportunity mentions. */
  function CategoryScore(c: CaseDetails, o: FundingOpportunity): (r: real)
    ensures 0.0 <= r <= 1.0
  {
    if c.category.None? || c.category.value == "" then NeutralScore
    else
      var keys := CategoryKeywords(c.category.value);
      FractionInUnit(CountContained(keys, CategoryText(o)), |keys|);
      if |keys| > 0 then CountContained(keys, CategoryText(o)) as real / |keys| as real else NeutralScore
  }

  /** A case without a category, or with a category that has no keyword list, scores 0.5. */
  lemma UnknownCategoryNeutral(c: CaseDetails, o: FundingOpportunity)
    requires c.category.None? || c.category.value !in {"funding", "permits", "licenses"}
    ensures CategoryScore(c, o) == 0.5
  {
  }

  /** For a known category, the score is 1 iff the text names every keyword of its list, 0 iff none. */
  lemma KnownCategoryScore(c: CaseDetails, o: FundingOpportunity)
    requires c.category.Some? && c.category.value in {"funding", "permits", "licenses"}
    ensures |CategoryKeywords(c.category.value)| > 0
    ensures CategoryScore(c, o) == 1.0 <==>
      forall k :: k in CategoryKeywords(c.category.value) ==> Contains(CategoryText(o), k)
    ensures CategoryScore(c, o) == 0.0 <==>
      forall k :: k in CategoryKeywords(c.category.value) ==> !Contains(CategoryText(o), k)
  {
    var keys := CategoryKeywords(c.category.value);
    var n := CountContained(keys, CategoryText(o));
    assert |keys| > 0;
    CountContainedAll(keys, CategoryText(o));
    CountContainedNone(keys, CategoryText(o));
    FractionExtremes(n, |keys|);
  }
  /**
   * A funding case against an opportunity whose name and description mention
   * `dotacja` and `fundusz` but no other funding keyword scores 2/5.
   */
  lemma FundingTwoOfFive(c: CaseDetails, o: FundingOpportunity)
    requires c.category == Some("funding")
    requires Contains(CategoryText(o), "dotacja") && Contains(CategoryText(o), "fundusz")
    requires !Contains(CategoryText(o), "dofinansowanie") && !Contains(CategoryText(o), "grant")
    requires !Contains(CategoryText(o), "subwencja")
    ensures CategoryScore(c, o) == 0.4
  {
    FundingCount(CategoryText(o));
    assert CategoryKeywords(c.category.value) == FundingKeywords;
    assert |FundingKeywords| == 5;
  }

  /** Of the five funding keywords, a text holding only `dotacja` and `fundusz` contains two. */
  lemma FundingCount(text: string)
    requires Contains(text, "dotacja") && Contains(text, "fundusz")
    requires !Contains(text, "dofinansowanie") && !Contains(text, "grant") && !Contains(text, "subwencja")
    ensures CountContained(FundingKeywords, text) == 2
  {
    var keys := FundingKeywords;
    assert keys[0] == "dofinansowanie" && keys[1] == "dotacja" && keys[2] == "grant";
    assert keys[3] == "subwencja" && keys[4] == "fundusz";
    assert keys[..0] == [];
    CountContainedStep(keys, text, 1);
    CountContainedStep(keys, text, 2);
    CountContainedStep(keys, text, 3);
    CountContainedStep(keys, text, 4);
    CountContainedStep(keys, text, 5);
    assert keys[..5] == keys;
  }

  /** Counting over one more key adds one exactly when the text contains that key. */
  lemma CountContainedStep(keys: seq<string>, text: string, k: nat)
    requires 0 < k <= |keys|
    ensures CountContained(keys[..k], text) == CountContained(keys[..k - 1], text) + (if Contains(text, keys[k - 1]) then 1 else 0)
  {
    assert keys[..k][..k - 1] == keys[..k - 1];
  }


  // ---------------------------------------------------------------------------
  // Semantic similarity (lines 268-302)

  /**
   * The similarity call: it failed, or its reply (trimmed, `'0.5'` when
   * empty) went through `parseFloat`, which may give NaN.
   */
  datatype Similarity = SimilarityFailed | SimilarityParsed(parsed: JsNumber)

  /** The reply clamped to [0, 1]. */
  function ClampToUnit(x: real): (r: real)
    ensures 0.0 <= r <= 1.0
    ensures 0.0 <= x <= 1.0 ==> r == x
    ensures x < 0.0 ==> r == 0.0
    ensures x > 1.0 ==> r == 1.0
  {
    if x < 0.0 then 0.0 else if x > 1.0 then 1.0 else x
  }

  /** `calculateSemanticSimilarity`: the clamped reply, or 0.5 on failure or NaN. */
  function SemanticSimilarity(s: Similarity): (r: real)
    ensures 0.0 <= r <= 1.0
    ensures s.SimilarityFailed? || s.parsed.NaN? ==> r == 0.5
    ensures s.SimilarityParsed? && s.parsed.Finite? && 0.0 <= s.parsed.value <= 1.0 ==> r == s.parsed.value
  {
    match s
    case SimilarityFailed => NeutralScore
    case SimilarityParsed(NaN) => NeutralScore
    case SimilarityParsed(Finite(v)) => ClampToUnit(v)
  }

  // ---------------------------------------------------------------------------
  // The weighted sum (lines 34-99)

  const SemanticWeight: real := 0.4
  const KeywordWeight: real := 0.25
  const CategoryWeight: real := 0.2
  const BudgetWeight: real := 0.15

  /** The four component scores of a case against an opportunity. */
  function Components(c: CaseDetails, o: FundingOpportunity, similarity: Similarity): ComponentScores {
    ComponentScores(SemanticSimilarity(similarity), KeywordScore(c, o), CategoryScore(c, o),
                    BudgetCompatibility(c.description, o.amountRange))
  }

  function WeightedSum(s: ComponentScores): real {
    s.semantic * SemanticWeight + s.keyword * KeywordWeight + s.category * CategoryWeight + s.budget * BudgetWeight
  }

  /** The final score clamped to [0, 1]. */
  function Normalized(score: real): (r: real)
    ensures 0.0 <= r <= 1.0
  {
    if score < 0.0 then 0.0 else if score > 1.0 then 1.0 else score
  }

  /**
   * The final score of a case against an opportunity: since every component
   * lies in [0, 1], it is exactly their weighted sum and the clamp never
   * changes it.
   */
  function RelevanceScore(c: CaseDetails, o: FundingOpportunity, similarity: Similarity): (r: real)
    ensures 0.0 <= r <= 1.0
    ensures r == WeightedSum(Components(c, o, similarity))
  {
    ComponentsInUnit(c, o, similarity);
    WeightedSumInUnit(Components(c, o, similarity));
    Normalized(WeightedSum(Components(c, o, similarity)))
  }

  predicate InUnit(s: ComponentScores) {
    0.0 <= s.semantic <= 1.0 && 0.0 <= s.keyword <= 1.0 && 0.0 <= s.category <= 1.0 && 0.0 <= s.budget <= 1.0
  }

  /** The weights add up to one. */
  lemma WeightsSumToOne()
    ensures SemanticWeight + KeywordWeight + CategoryWeight + BudgetWeight == 1.0
  {
  }

  /** With every component in [0, 1] the sum is already in [0, 1], so the clamp never changes it. */
  lemma WeightedSumInUnit(s: ComponentScores)
    requires InUnit(s)
    ensures 0.0 <= WeightedSum(s) <= 1.0
    ensures Normalized(WeightedSum(s)) == WeightedSum(s)
  {
  }

  /** The components of any case and opportunity are in [0, 1]. */
  lemma ComponentsInUnit(c: CaseDetails, o: FundingOpportunity, similarity: Similarity)
    ensures InUnit(Components(c, o, similarity))
  {
  }

  /** Raising any component never lowers the score. */
  lemma WeightedSumMonotone(s: ComponentScores, t: ComponentScores)
    requires s.semantic <= t.semantic && s.keyword <= t.keyword && s.category <= t.category && s.budget <= t.budget
    ensures WeightedSum(s) <= WeightedSum(t)
    ensures Normalized(WeightedSum(s)) <= Normalized(WeightedSum(t))
  {
  }

  /** Perfect components give 1, all-neutral components give 0.5, all-zero components give 0. */
  lemma WeightedSumExtremes()
    ensures WeightedSum(ComponentScores(1.0, 1.0, 1.0, 1.0)) == 1.0
    ensures WeightedSum(ComponentScores(0.5, 0.5, 0.5, 0.5)) == 0.5
    ensures WeightedSum(ComponentScores(0.0, 0.0, 0.0, 0.0)) == 0.0
  {
  }

  /** The deadline, the opportunity's own category and the clock play no part in the score. */
  lemma ScoreIgnoresDeadlineAndCategory(c: CaseDetails, o: FundingOpportunity, similarity: Similarity,
                                        deadline: Option<string>, category: Option<string>)
    ensures RelevanceScore(c, o.(deadline := deadline, category := category), similarity) == RelevanceScore(c, o, similarity)
  {
    var o' := o.(deadline := deadline, category := category);
    assert OpportunityText(o') == OpportunityText(o);
    assert CategoryText(o') == CategoryText(o);
  }

  /**
   * `calculateRelevanceScore`: adds the weighted components one by one,
   * clamps the total, checks the deadline and builds the justification.
   */
  method CalculateRelevanceScore(c: CaseDetails, o: FundingOpportunity, similarity: Similarity,
                                 now: int, fallback: JsDate, completion: Completion)
    returns (result: ScoringResult)
    ensures result.score == RelevanceScore(c, o, similarity)
    ensures result.score == WeightedSum(Components(c, o, similarity))
    ensures result.isExpired == IsExpired(o.deadline, now, fallback)
    ensures completion.Replied? && completion.content.Some? && completion.content.value != "" ==>
      result.justification == completion.content.value
    ensures completion.Replied? && (completion.content.None? || completion.content.value == "") ==>
      result.justification == FallbackJustification(Texts(MatchReasons(Components(c, o, similarity), c.category)), result.score)
    ensures completion.CallFailed? ==>
      result.justification == FallbackJustification(Texts(FailureReasons(Components(c, o, similarity))), result.score)
    ensures result.justification != ""
  {
    var score := 0.0;
    var semanticScore := SemanticSimilarity(similarity);
    score := score + semanticScore * SemanticWeight;
    var keywordScore := CalculateKeywordMatch(c, o);
    score := score + keywordScore * KeywordWeight;
    var categoryScore := CategoryScore(c, o);
    score := score + categoryScore * CategoryWeight;
    var budgetScore := BudgetCompatibility(c.description, o.amountRange);
    score := score + budgetScore * BudgetWeight;
    var scores := ComponentScores(semanticScore, keywordScore, categoryScore, budgetScore);
    assert scores == Components(c, o, similarity);
    assert score == WeightedSum(scores);
    var finalScore := Normalized(score);
    var isExpired := CheckIfExpired(o.deadline, now, fallback);
    var justification := GenerateJustification(c.category, scores, finalScore, completion);
    result := ScoringResult(finalScore, justification, isExpired);
  }

  // ---------------------------------------------------------------------------
  // The score as written, with the budget ratio's NaN

  /** The clamp to [0, 1] as JavaScript evaluates it: NaN stays NaN. */
  function NormalizedAsWritten(x: JsNumber): (r: JsNumber)
    ensures r.NaN? <==> x.NaN?
  {
    match x
    case NaN => NaN
    case Finite(v) => Finite(Normalized(v))
  }

  /** The final score with `calculateBudgetCompatibility` as written. */
  function RelevanceScoreAsWritten(c: CaseDetails, o: FundingOpportunity, similarity: Similarity): (r: JsNumber)
    ensures r.NaN? <==> BudgetCompatibilityAsWritten(c.description, o.amountRange).NaN?
  {
    var s := Components(c, o, similarity);
    match BudgetCompatibilityAsWritten(c.description, o.amountRange)
    case NaN => NaN
    case Finite(b) => NormalizedAsWritten(Finite(WeightedSum(s.(budget := b))))
  }

  /** Where the budget score is a number, the score as written is the corrected score. */
  lemma RelevanceAsWrittenAgrees(c: CaseDetails, o: FundingOpportunity, similarity: Similarity)
    requires BudgetCompatibilityAsWritten(c.description, o.amountRange).Finite?
    ensures RelevanceScoreAsWritten(c, o, similarity) == Finite(RelevanceScore(c, o, similarity))
  {
    AsWrittenAgreesOffZero(c.description, o.amountRange);
    var s := Components(c, o, similarity);
    assert s.(budget := BudgetCompatibility(c.description, o.amountRange)) == s;
  }

  /** A case budget of `"0 zł"` against the amount `"0"` makes the whole score NaN as written. */
  lemma ZeroBudgetRelevanceNaN(title: string, category: Option<string>, o: FundingOpportunity, similarity: Similarity)
    requires o.amountRange == Some("0")
    ensures RelevanceScoreAsWritten(CaseDetails(title, "0 zł", category), o, similarity).NaN?
  {
    ZeroAmountsScoreNaN();
  }
}
