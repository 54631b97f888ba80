/**
 * The justification sentence of the relevance scorer
 * (`generateJustification`, `generateFallbackJustification`): reasons are
 * chosen from fixed thresholds on the four component scores; a language
 * model is asked to phrase them, and when it gives nothing usable a fixed
 * Polish sentence names the reasons, a score tier and the score as a
 * percentage. The language model is not part of this model: its reply is a
 * parameter.
 */
module Justification {
  import opened Wrappers
  import opened JsText

  /** The four component scores handed to the justification. */
  datatype ComponentScores = ComponentScores(semantic: real, keyword: real, category: real, budget: real)

  /** The chat call: it failed (threw), or it replied with a message content that may be null. */
  datatype Completion = CallFailed | Replied(content: Option<string>)

  /**
   * The reasons a justification can name: six collected before the chat
   * call (lines 192-211) and four shorter ones used when it fails (lines
   * 236-241). `ReasonText` gives each one's wording.
   */
  datatype Reason =
    | HighSemantic | PartialSemantic | KeywordAgreement | CategoryFit(category: string)
    | BudgetInRange | BudgetPartial
    | SemanticShort | KeywordShort | CategoryShort | BudgetShort

  function ReasonText(r: Reason): string {
    match r
    case HighSemantic => "wysokie dopasowanie semantyczne do opisu wniosku"
    case PartialSemantic => "częściowe dopasowanie do opisu wniosku"
    case KeywordAgreement => "zgodność kluczowych słów i terminów"
    case CategoryFit(category) => "dopasowanie do kategorii: " + category
    case BudgetInRange => "budżet projektu mieści się w zakresie programu"
    case BudgetPartial => "budżet projektu częściowo zgodny z programem"
    case SemanticShort => "dopasowanie semantyczne"
    case KeywordShort => "zgodność słów kluczowych"
    case CategoryShort => "dopasowanie kategorii"
    case BudgetShort => "zgodność budżetu"
  }

  /** The wording of a list of reasons, in order. */
  function Texts(rs: seq<Reason>): (r: seq<string>)
    ensures |r| == |rs| && forall k :: 0 <= k < |rs| ==> r[k] == ReasonText(rs[k])
  {
    seq(|rs|, k requires 0 <= k < |rs| => ReasonText(rs[k]))
  }

  /** The case's category, or `dofinansowanie` when it is absent or empty. */
  function CategoryName(category: Option<string>): string {
    if category.Some? && category.value != "" then category.value else "dofinansowanie"
  }

  function When(condition: bool, reason: Reason): seq<Reason> {
    if condition then [reason] else []
  }

  /** The reasons pushed on lines 192-211, in the order they are pushed. */
  function MatchReasons(scores: ComponentScores, category: Option<string>): seq<Reason> {
    SemanticReasons(scores.semantic)
    + When(scores.keyword > 0.6, KeywordAgreement)
    + When(scores.category > 0.7, CategoryFit(CategoryName(category)))
    + BudgetReasons(scores.budget)
  }

  function SemanticReasons(semantic: real): seq<Reason> {
    if semantic > 0.7 then [HighSemantic] else When(semantic > 0.5, PartialSemantic)
  }

  function BudgetReasons(budget: real): seq<Reason> {
    if budget > 0.8 then [BudgetInRange] else When(budget > 0.5, BudgetPartial)
  }

  /** `.filter(Boolean)`: the entries that are not the empty string, here `None`. */
  function Present(xs: seq<Option<Reason>>): seq<Reason> {
    if |xs| == 0 then [] else Kept(xs[0]) + Present(xs[1..])
  }

  /** An entry of the failure list: the reason when its score passes one half, else the empty string. */
  function AboveHalf(score: real, reason: Reason): Option<Reason> {
    if score > 0.5 then Some(reason) else None
  }

  /** The reasons of the failure path (lines 234-242). */
  function FailureReasons(scores: ComponentScores): seq<Reason> {
    Present([
      AboveHalf(scores.semantic, SemanticShort),
      AboveHalf(scores.keyword, KeywordShort),
      AboveHalf(scores.category, CategoryShort),
      AboveHalf(scores.budget, BudgetShort)
    ])
  }

  /** The word for the score band (lines 254-261): each word stands for exactly its band. */
  function Tier(score: real): (r: string)
    ensures r == "wysokie" <==> score > 0.8
    ensures r == "dobre" <==> 0.6 < score <= 0.8
    ensures r == "umiarkowane" <==> 0.4 < score <= 0.6
    ensures r == "niskie" <==> score <= 0.4
  {
    assert "wysokie"[0] == 'w' && "dobre"[0] == 'd' && "umiarkowane"[0] == 'u' && "niskie"[0] == 'n';
    if score > 0.8 then "wysokie"
    else if score > 0.6 then "dobre"
    else if score > 0.4 then "umiarkowane"
    else "niskie"
  }

  /** The position of a tier word from lowest to highest. */
  function TierRank(tier: string): nat {
    if tier == "wysokie" then 3
    else if tier == "dobre" then 2
    else if tier == "umiarkowane" then 1
    else 0
  }

  /** `toFixed(0)` for a non-negative `n`: the nearest integer, a half rounded up. */
  function RoundHalfUp(n: real): (r: int)
    ensures n - 0.5 < r as real <= n + 0.5
  {
    (n + 0.5).Floor
  }

  /** The score as a whole percentage: the magnitude is rounded and the sign written in front. */
  function PercentText(score: real): string {
    var n := score * 100.0;
    if n < 0.0 then "-" + NatToString(RoundHalfUp(-n) as nat) else NatToString(RoundHalfUp(n) as nat)
  }

  // The pieces of the two fallback sentences (lines 251 and 263).
  const PartialOpening: string := "Program częściowo dopasowany ("
  const PartialClosing: string := " dopasowania)."
  const TierOpening: string := "Program wykazuje "
  const TierClosing: string := " dopasowanie ("
  const ReasonsOpening: string := ") ze względu na: "
  const ReasonsClosing: string := "."

  /** The score as both sentences show it. */
  function Percent(score: real): string {
    PercentText(score) + "%"
  }

  /** The opening of the sentence with reasons, up to the percentage. */
  function TierHead(score: real): string {
    TierOpening + Tier(score) + TierClosing
  }

  /** `generateFallbackJustification(reasons, score)` (lines 249-264): never the empty sentence. */
  function FallbackJustification(reasons: seq<string>, score: real): (r: string)
    ensures r != ""
  {
    if |reasons| == 0 then
      PartialOpening + Percent(score) + PartialClosing
    else
      TierHead(score) + Percent(score) + ReasonsOpening + Join(reasons, ", ") + ReasonsClosing
  }

  /**
   * `generateJustification`: the reasons are pushed one condition at a time;
   * a non-empty reply is the justification; a null or empty reply falls
   * back on those reasons, and a failed call on the shorter failure reasons.
   */
  method GenerateJustification(category: Option<string>, scores: ComponentScores, finalScore: real,
                               completion: Completion) returns (text: string)
    ensures completion.Replied? && completion.content.Some? && completion.content.value != "" ==>
      text == completion.content.value
    ensures completion.Replied? && (completion.content.None? || completion.content.value == "") ==>
      text == FallbackJustification(Texts(MatchReasons(scores, category)), finalScore)
    ensures completion.CallFailed? ==> text == FallbackJustification(Texts(FailureReasons(scores)), finalScore)
    ensures text != ""
  {
    var reasons: seq<Reason> := [];
    if scores.semantic > 0.7 {
      reasons := reasons + [HighSemantic];
    } else if scores.semantic > 0.5 {
      reasons := reasons + [PartialSemantic];
    }
    assert reasons == SemanticReasons(scores.semantic);
    ghost var sofar := reasons;
    if scores.keyword > 0.6 {
      reasons := reasons + [KeywordAgreement];
    }
    assert reasons == sofar + When(scores.keyword > 0.6, KeywordAgreement);
    sofar := reasons;
    if scores.category > 0.7 {
      reasons := reasons + [CategoryFit(CategoryName(category))];
    }
    assert reasons == sofar + When(scores.category > 0.7, CategoryFit(CategoryName(category)));
    sofar := reasons;
    if scores.budget > 0.8 {
      reasons := reasons + [BudgetInRange];
    } else if scores.budget > 0.5 {
      reasons := reasons + [BudgetPartial];
    }
    assert reasons == sofar + BudgetReasons(scores.budget);
    assert reasons == MatchReasons(scores, category);
    match completion
    case CallFailed =>
      text := FallbackJustification(Texts(FailureReasons(scores)), finalScore);
    case Replied(content) =>
      if content.Some? && content.value != "" {
        text := content.value;
      } else {
        text := FallbackJustification(Texts(reasons), finalScore);
      }
  }

  // ---------------------------------------------------------------------
  // Properties
  // ---------------------------------------------------------------------

  /**
   * Each reason is given exactly when its threshold is passed: at most one
   * of the two semantic and of the two budget reasons, no failure-path
   * reason, and the category reason names the case's category or
   * `dofinansowanie`.
   */
  lemma MatchReasonsMeaning(scores: ComponentScores, category: Option<string>)
    ensures HighSemantic in MatchReasons(scores, category) <==> scores.semantic > 0.7
    ensures PartialSemantic in MatchReasons(scores, category) <==> 0.5 < scores.semantic <= 0.7
    ensures KeywordAgreement in MatchReasons(scores, category) <==> scores.keyword > 0.6
    ensures CategoryFit(CategoryName(category)) in MatchReasons(scores, category) <==> scores.category > 0.7
    ensures forall r :: r in MatchReasons(scores, category) && r.CategoryFit? ==> r.category == CategoryName(category)
    ensures BudgetInRange in MatchReasons(scores, category) <==> scores.budget > 0.8
    ensures BudgetPartial in MatchReasons(scores, category) <==> 0.5 < scores.budget <= 0.8
  {
    MatchReasonsMembers(scores, category);
  }

  /** At most one reason per component, none of them from the failure path. */
  lemma MatchReasonsShape(scores: ComponentScores, category: Option<string>)
    ensures |MatchReasons(scores, category)| <= 4
    ensures forall r :: r in MatchReasons(scores, category) ==>
      !(r.SemanticShort? || r.KeywordShort? || r.CategoryShort? || r.BudgetShort?)
  {
    MatchReasonsMembers(scores, category);
  }

  lemma MatchReasonsMembers(scores: ComponentScores, category: Option<string>)
    ensures forall r :: r in MatchReasons(scores, category) <==>
      r in SemanticReasons(scores.semantic) || r in When(scores.keyword > 0.6, KeywordAgreement)
      || r in When(scores.category > 0.7, CategoryFit(CategoryName(category))) || r in BudgetReasons(scores.budget)
  {
  }

  /** On the failure path the reasons are exactly the components above one half, in component order. */
  lemma FailureReasonsMeaning(scores: ComponentScores)
    ensures FailureReasons(scores) ==
      When(scores.semantic > 0.5, SemanticShort) + When(scores.keyword > 0.5, KeywordShort)
      + When(scores.category > 0.5, CategoryShort) + When(scores.budget > 0.5, BudgetShort)
  {
    var a := AboveHalf(scores.semantic, SemanticShort);
    var b := AboveHalf(scores.keyword, KeywordShort);
    var c := AboveHalf(scores.category, CategoryShort);
    var d := AboveHalf(scores.budget, BudgetShort);
    PresentOfFour(a, b, c, d);
  }

  /** The entry of `AboveHalf` as a list of at most one reason. */
  function Kept(x: Option<Reason>): seq<Reason> {
    if x.None? then [] else [x.value]
  }

  lemma PresentOfFour(a: Option<Reason>, b: Option<Reason>, c: Option<Reason>, d: Option<Reason>)
    ensures Present([a, b, c, d]) == Kept(a) + Kept(b) + Kept(c) + Kept(d)
  {
    var one, two, three, four := [d], [c, d], [b, c, d], [a, b, c, d];
    PresentCons(one, d, []);
    assert two[1..] == one;
    PresentCons(two, c, one);
    assert three[1..] == two;
    PresentCons(three, b, two);
    assert four[1..] == three;
    PresentCons(four, a, three);
    AppendFour(Kept(a), Kept(b), Kept(c), Kept(d));
  }

  lemma AppendFour(p: seq<Reason>, q: seq<Reason>, r: seq<Reason>, t: seq<Reason>)
    ensures p + (q + (r + t)) == p + q + r + t
  {
  }

  lemma PresentCons(xs: seq<Option<Reason>>, x: Option<Reason>, rest: seq<Option<Reason>>)
    requires |xs| > 0 && xs[0] == x && xs[1..] == rest
    ensures Present(xs) == Kept(x) + Present(rest)
  {
  }

  /** A higher score never gets a lower tier. */
  lemma TierMonotone(a: real, b: real)
    requires a <= b
    ensures TierRank(Tier(a)) <= TierRank(Tier(b))
  {
  }

  /** The rounded percentage of a score in [0, 1] lies in 0..100 and carries no sign. */
  lemma PercentInRange(score: real)
    requires 0.0 <= score <= 1.0
    ensures 0 <= RoundHalfUp(score * 100.0) <= 100
    ensures PercentText(score) == NatToString(RoundHalfUp(score * 100.0) as nat)
  {
  }

  /** Appending keeps the opening. */
  lemma OpeningKeptFourTimes(a: string, w: string, x: string, y: string, z: string)
    ensures StartsWith(a + w + x + y + z, a)
  {
    assert (a + w + x + y + z)[..|a|] == a;
  }

  lemma OpeningKeptTwice(a: string, x: string, y: string)
    ensures StartsWith(a + x + y, a)
  {
    assert (a + x + y)[..|a|] == a;
  }

  lemma SelfContained(p: string)
    ensures Contains(p, p)
  {
    assert p[..|p|] == p;
  }

  /** The fallback sentence names every reason it is given. */
  lemma FallbackNamesEveryReason(reasons: seq<string>, score: real, k: nat)
    requires k < |reasons|
    ensures Contains(FallbackJustification(reasons, score), reasons[k])
  {
    var head := TierHead(score) + Percent(score) + ReasonsOpening;
    var joined := Join(reasons, ", ");
    JoinContains(reasons, ", ", k);
    ContainsPrepend(head, joined, reasons[k]);
    ContainsAppend(head + joined, ReasonsClosing, reasons[k]);
  }

  /** The fallback sentence shows the score as a percentage. */
  lemma FallbackShowsPercent(reasons: seq<string>, score: real)
    ensures Contains(FallbackJustification(reasons, score), Percent(score))
  {
    var p := Percent(score);
    SelfContained(p);
    if |reasons| == 0 {
      ContainsPrepend(PartialOpening, p, p);
      ContainsAppend(PartialOpening + p, PartialClosing, p);
    } else {
      var head := TierHead(score);
      var j := Join(reasons, ", ");
      ContainsPrepend(head, p, p);
      ContainsAppend(head + p, ReasonsOpening, p);
      ContainsAppend(head + p + ReasonsOpening, j, p);
      ContainsAppend(head + p + ReasonsOpening + j, ReasonsClosing, p);
    }
  }

  /** With reasons the sentence opens with the tier; without, with the partial-match template. */
  lemma FallbackOpening(reasons: seq<string>, score: real)
    ensures |reasons| == 0 ==> StartsWith(FallbackJustification(reasons, score), PartialOpening)
    ensures |reasons| > 0 ==> StartsWith(FallbackJustification(reasons, score), TierHead(score))
  {
    if |reasons| == 0 {
      OpeningKeptTwice(PartialOpening, Percent(score), PartialClosing);
    } else {
      OpeningKeptFourTimes(TierHead(score), Percent(score), ReasonsOpening, Join(reasons, ", "), ReasonsClosing);
    }
  }
}
