/**
 * `classifyCaseAgent` and `calculateConfidence`: the language model's
 * classification (a JSON object, a parameter here) gets a confidence that
 * grows with the fields it filled in, and that confidence replaces any the
 * model supplied.
 */
module Classifier {
  import opened Wrappers
  import opened Json

  const BaseConfidence: real := 0.5
  const CategoryBonus: real := 0.2
  const KeywordsBonus: real := 0.15
  const DetailsBonus: real := 0.15

  /** `result.category` is truthy. */
  predicate HasCategory(result: map<string, Json>) {
    Truthy(Field(result, "category"))
  }

  /** The keyword list is truthy and not empty. */
  predicate HasKeywords(result: map<string, Json>) {
    Truthy(Field(result, "keywords")) && HasPositiveLength(result["keywords"])
  }

  /** The extracted details are truthy and have at least one key. */
  predicate HasDetails(result: map<string, Json>) {
    Truthy(Field(result, "extractedDetails")) && KeyCount(result["extractedDetails"]) > 0
  }

  /**
   * `calculateConfidence`: 0.5, plus the bonus of each filled-in field,
   * capped at 1.0. The cap never binds, so the confidence is exactly the sum
   * of the base and the bonuses of the filled-in fields, in [0.5, 1.0].
   */
  function Confidence(result: map<string, Json>): (r: real)
    ensures r == BaseConfidence
      + (if HasCategory(result) then CategoryBonus else 0.0)
      + (if HasKeywords(result) then KeywordsBonus else 0.0)
      + (if HasDetails(result) then DetailsBonus else 0.0)
    ensures 0.5 <= r <= 1.0
  {
    var score := BaseConfidence
      + (if HasCategory(result) then CategoryBonus else 0.0)
      + (if HasKeywords(result) then KeywordsBonus else 0.0)
      + (if HasDetails(result) then DetailsBonus else 0.0);
    if score < 1.0 then score else 1.0
  }

  /**
   * The model's fields with the computed confidence spread over them: every
   * field of the model's result is kept except `confidence`, which is always
   * the computed value, whatever the model sent.
   */
  function ClassifyCaseAgent(result: map<string, Json>): (r: map<string, Json>)
    ensures r.Keys == result.Keys + {"confidence"}
    ensures forall k :: k in result && k != "confidence" ==> r[k] == result[k]
    ensures r["confidence"] == JNum(Confidence(result))
  {
    result["confidence" := JNum(Confidence(result))]
  }

  /** Full confidence exactly when all three fields are filled in; the base exactly when none is. */
  lemma ConfidenceExtremes(result: map<string, Json>)
    ensures Confidence(result) == 1.0 <==> HasCategory(result) && HasKeywords(result) && HasDetails(result)
    ensures Confidence(result) == 0.5 <==> !HasCategory(result) && !HasKeywords(result) && !HasDetails(result)
  {
  }

  /** Filling in more fields never lowers the confidence. */
  lemma ConfidenceMonotone(a: map<string, Json>, b: map<string, Json>)
    requires HasCategory(a) ==> HasCategory(b)
    requires HasKeywords(a) ==> HasKeywords(b)
    requires HasDetails(a) ==> HasDetails(b)
    ensures Confidence(a) <= Confidence(b)
  {
  }

  /** Only the model's three fields decide the confidence; a supplied `confidence` plays no part. */
  lemma ConfidenceIgnoresOtherFields(result: map<string, Json>, key: string, v: Json)
    requires key !in {"category", "keywords", "extractedDetails"}
    ensures Confidence(result[key := v]) == Confidence(result)
  {
    var r := result[key := v];
    assert Field(r, "category") == Field(result, "category");
    assert Field(r, "keywords") == Field(result, "keywords");
    assert Field(r, "extractedDetails") == Field(result, "extractedDetails");
  }

  /** Classifying an already classified result changes nothing. */
  lemma ClassificationIdempotent(result: map<string, Json>)
    ensures Confidence(ClassifyCaseAgent(result)) == Confidence(result)
    ensures ClassifyCaseAgent(ClassifyCaseAgent(result)) == ClassifyCaseAgent(result)
  {
    ConfidenceIgnoresOtherFields(result, "confidence", JNum(Confidence(result)));
  }
}
