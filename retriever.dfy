/**
 * The procedure matcher (`findBestMatch`, `calculateMatchScore`): every
 * candidate procedure gets a score from its budget criterion and the case's
 * extracted details, the scored list is sorted by descending score, and the
 * first entry is the best match. The database query that supplies the
 * procedures is not part of this model.
 */
module Retriever {
  import opened Wrappers
  import opened Json

  /** The fields of a stored procedure the matcher reads; `eligibility` is `eligibility_criteria`. */
  datatype Procedure = Procedure(id: string, name: string, eligibility: Option<Json>)

  /** An entry of the scored list. */
  datatype Scored = Scored(procedure: Procedure, score: real)

  const BaseMatchScore: real := 0.5
  const BudgetBonus: real := 0.2

  /**
   * JavaScript's `>=` between the extracted amount and the minimum budget,
   * for the values the matcher meets: two numbers compare by value.
   */
  predicate AtLeast(amount: Json, minimum: Json) {
    amount.JNum? && minimum.JNum? && amount.n >= minimum.n
  }

  /**
   * The bonus applies when the procedure has eligibility criteria, the case
   * has extracted details, both the criteria's `min_budget` and the details'
   * `amount` are truthy, and the amount reaches the minimum.
   */
  predicate MeetsBudget(p: Procedure, caseDetails: map<string, Json>) {
    && Truthy(p.eligibility)
    && Truthy(Field(caseDetails, "extractedDetails"))
    && var criteria := p.eligibility.value;
       var details := caseDetails["extractedDetails"];
       && Truthy(Member(criteria, "min_budget"))
       && Truthy(Member(details, "amount"))
       && AtLeast(details.fields["amount"], criteria.fields["min_budget"])
  }

  /** The score `calculateMatchScore` gives: 0.7 exactly when the budget criterion is met, else 0.5. */
  function MatchScore(p: Procedure, caseDetails: map<string, Json>): (r: real)
    ensures r == 0.5 || r == 0.7
    ensures r == 0.7 <==> MeetsBudget(p, caseDetails)
  {
    if MeetsBudget(p, caseDetails) then BaseMatchScore + BudgetBonus else BaseMatchScore
  }

  /** `calculateMatchScore`: 0.5, raised by 0.2 when the budget criterion is met, capped at 1.0. */
  method CalculateMatchScore(p: Procedure, caseDetails: map<string, Json>) returns (score: real)
    ensures score == MatchScore(p, caseDetails)
    ensures score <= 1.0
  {
    score := BaseMatchScore;
    var details := Field(caseDetails, "extractedDetails");
    if Truthy(p.eligibility) && Truthy(details) {
      var criteria := p.eligibility.value;
      var minBudget := Member(criteria, "min_budget");
      var amount := Member(details.value, "amount");
      if Truthy(minBudget) && Truthy(amount) {
        if AtLeast(amount.value, minBudget.value) {
          score := score + BudgetBonus;
        }
      }
    }
    score := if score < 1.0 then score else 1.0;
  }

  // ---------------------------------------------------------------------------
  // The sort by descending score: a stable sort

  /** Puts `x`, which came before every entry of `ys`, in front of the first entry scoring no more. */
  function Insert(x: Scored, ys: seq<Scored>): (r: seq<Scored>)
    ensures |r| == |ys| + 1
    ensures multiset(r) == multiset(ys) + multiset{x}
  {
    if |ys| == 0 || x.score >= ys[0].score then [x] + ys
    else
      assert ys == [ys[0]] + ys[1..];
      [ys[0]] + Insert(x, ys[1..])
  }

  /**
   * The stable descending sort of `xs`, by insertion from the back: a
   * permutation of its input in descending score order.
   */
  function SortByScore(xs: seq<Scored>): (r: seq<Scored>)
    ensures |r| == |xs|
    ensures multiset(r) == multiset(xs)
    ensures SortedDescending(r)
  {
    if |xs| == 0 then []
    else
      assert xs == [xs[0]] + xs[1..];
      var rest := SortByScore(xs[1..]);
      InsertSorted(xs[0], rest);
      Insert(xs[0], rest)
  }

  predicate SortedDescending(xs: seq<Scored>) {
    forall i, j :: 0 <= i < j < |xs| ==> xs[i].score >= xs[j].score
  }

  predicate AtMost(xs: seq<Scored>, bound: real) {
    forall k :: 0 <= k < |xs| ==> xs[k].score <= bound
  }

  lemma {:induction false} InsertAtMost(x: Scored, ys: seq<Scored>, bound: real)
    requires x.score <= bound && AtMost(ys, bound)
    ensures AtMost(Insert(x, ys), bound)
  {
    if |ys| > 0 && x.score < ys[0].score {
      InsertAtMost(x, ys[1..], bound);
    }
  }

  lemma {:induction false} InsertSorted(x: Scored, ys: seq<Scored>)
    requires SortedDescending(ys)
    ensures SortedDescending(Insert(x, ys))
    ensures |Insert(x, ys)| > 0 && Insert(x, ys)[0] == (if |ys| == 0 || x.score >= ys[0].score then x else ys[0])
  {
    if |ys| > 0 && x.score < ys[0].score {
      var rest := ys[1..];
      InsertSorted(x, rest);
      assert AtMost(rest, ys[0].score);
      InsertAtMost(x, rest, ys[0].score);
      var r := Insert(x, rest);
      var t := Insert(x, ys);
      assert t == [ys[0]] + r;
      forall i, j | 0 <= i < j < |t|
        ensures t[i].score >= t[j].score
      {
        assert t[j] == r[j - 1];
        if i > 0 {
          assert t[i] == r[i - 1];
        }
      }
    }
  }

  /** The position of the first entry with the highest score. */
  function FirstMaxIndex(xs: seq<Scored>): (r: nat)
    requires |xs| > 0
    ensures r < |xs|
    ensures forall j :: 0 <= j < |xs| ==> xs[j].score <= xs[r].score
    ensures forall j :: 0 <= j < r ==> xs[j].score < xs[r].score
  {
    if |xs| == 1 then 0
    else
      var k := FirstMaxIndex(xs[1..]);
      assert forall j :: 1 <= j < |xs| ==> xs[j] == xs[1..][j - 1];
      if xs[0].score >= xs[1 + k].score then 0 else k + 1
  }

  /** The sort's first entry is the first entry of highest score, which a stable sort keeps in front of its ties. */
  lemma {:induction false} SortHead(xs: seq<Scored>)
    requires |xs| > 0
    ensures SortByScore(xs)[0] == xs[FirstMaxIndex(xs)]
  {
    InsertSorted(xs[0], SortByScore(xs[1..]));
    if |xs| > 1 {
      SortHead(xs[1..]);
      assert xs[1..][FirstMaxIndex(xs[1..])] == xs[1 + FirstMaxIndex(xs[1..])];
    }
  }

  /** Every procedure paired with its match score, in input order. */
  function ScoreAll(procedures: seq<Procedure>, caseDetails: map<string, Json>): (r: seq<Scored>)
    ensures |r| == |procedures|
    ensures forall i :: 0 <= i < |r| ==> r[i] == Scored(procedures[i], MatchScore(procedures[i], caseDetails))
  {
    seq(|procedures|, i requires 0 <= i < |procedures| => Scored(procedures[i], MatchScore(procedures[i], caseDetails)))
  }

  /**
   * The result `findBestMatch` promises: `null` exactly when there are no
   * procedures, else the earliest of the highest-scoring, one of the
   * procedures with its own match score.
   */
  function BestMatch(procedures: seq<Procedure>, caseDetails: map<string, Json>): (r: Option<Scored>)
    ensures r.None? <==> |procedures| == 0
    ensures r.Some? ==> r.value.procedure in procedures && r.value.score == MatchScore(r.value.procedure, caseDetails)
  {
    if |procedures| == 0 then None else Some(ScoreAll(procedures, caseDetails)[FirstMaxIndex(ScoreAll(procedures, caseDetails))])
  }

  /**
   * `findBestMatch`: scores every procedure into a new list, sorts that list
   * in place and returns its first entry. The method has no `modifies`
   * clause: the caller's array is left as it was.
   */
  method FindBestMatch(procedures: array<Procedure>, caseDetails: map<string, Json>) returns (best: Option<Scored>)
    ensures best == BestMatch(procedures[..], caseDetails)
  {
    if procedures.Length == 0 {
      return None;
    }
    var scored := new Scored[procedures.Length];
    for i := 0 to procedures.Length
      invariant forall k :: 0 <= k < i ==> scored[k] == Scored(procedures[k], MatchScore(procedures[k], caseDetails))
    {
      var s := CalculateMatchScore(procedures[i], caseDetails);
      scored[i] := Scored(procedures[i], s);
    }
    ghost var input := procedures[..];
    ghost var xs := scored[..];
    assert xs == ScoreAll(input, caseDetails);
    var sorted := SortByScore(scored[..]);
    SortHead(xs);
    ghost var head := xs[FirstMaxIndex(xs)];
    assert sorted[0] == head;
    forall i | 0 <= i < scored.Length {
      scored[i] := sorted[i];
    }
    assert scored[0] == head;
    best := Some(scored[0]);
    assert procedures[..] == input;
    assert BestMatch(input, caseDetails) == Some(head);
  }

  // ---------------------------------------------------------------------------
  // Properties of the best match

  /**
   * A best match names one of the procedures with its own score; no
   * procedure scores higher, and every procedure before it scores lower.
   */
  lemma BestMatchIsFirstMaximum(procedures: seq<Procedure>, caseDetails: map<string, Json>)
    requires |procedures| > 0
    ensures var b := BestMatch(procedures, caseDetails).value;
      && b.procedure in procedures
      && b.score == MatchScore(b.procedure, caseDetails)
      && (forall p :: p in procedures ==> MatchScore(p, caseDetails) <= b.score)
      && exists i :: 0 <= i < |procedures| && procedures[i] == b.procedure
           && forall j :: 0 <= j < i ==> MatchScore(procedures[j], caseDetails) < b.score
  {
    var xs := ScoreAll(procedures, caseDetails);
    var i := FirstMaxIndex(xs);
    assert xs[i].procedure == procedures[i];
    forall p | p in procedures
      ensures MatchScore(p, caseDetails) <= xs[i].score
    {
      var j :| 0 <= j < |procedures| && procedures[j] == p;
      assert xs[j].score == MatchScore(p, caseDetails);
    }
    forall j | 0 <= j < i
      ensures MatchScore(procedures[j], caseDetails) < xs[i].score
    {
      assert xs[j].score == MatchScore(procedures[j], caseDetails);
    }
  }

  /** The best score is 0.7 exactly when some procedure meets the budget criterion. */
  lemma BestScore(procedures: seq<Procedure>, caseDetails: map<string, Json>)
    requires |procedures| > 0
    ensures BestMatch(procedures, caseDetails).value.score == 0.7 <==> exists p :: p in procedures && MeetsBudget(p, caseDetails)
  {
    BestMatchIsFirstMaximum(procedures, caseDetails);
    var b := BestMatch(procedures, caseDetails).value;
    if exists p :: p in procedures && MeetsBudget(p, caseDetails) {
      var p :| p in procedures && MeetsBudget(p, caseDetails);
      assert MatchScore(p, caseDetails) == 0.7;
    }
  }

  /** A case whose extracted amount 300000 reaches a procedure's `min_budget` of 100000 scores 0.7. */
  lemma BudgetBonusExample(p: Procedure)
    requires p.eligibility == Some(JObj(map["min_budget" := JNum(100000.0)]))
    ensures MatchScore(p, map["extractedDetails" := JObj(map["amount" := JNum(300000.0)])]) == 0.7
  {
    var details := JObj(map["amount" := JNum(300000.0)]);
    var caseDetails := map["extractedDetails" := details];
    assert Field(caseDetails, "extractedDetails") == Some(details);
    assert Member(p.eligibility.value, "min_budget") == Some(JNum(100000.0));
    assert Member(details, "amount") == Some(JNum(300000.0));
  }
}
