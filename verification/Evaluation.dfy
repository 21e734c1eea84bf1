/** The self-evaluation score of an output: a chain of adjustments, each clamped or rounded to three
    places, that always ends on a whole number of thousandths between 0 and 1. */
module Evaluation {
  import MctsScore

  datatype Curve = Curve(enabled: bool, lowMax: real, midMax: real, low: real, mid: real, high: real, bias: real) {
    function Weight(score: real): real {
      if score <= lowMax then low else if score <= midMax then mid else high
    }
  }

  datatype Anchors = Anchors(enabled: bool, count: nat, minCoverage: real, bonus: real)

  /** What the text of an output shows. */
  datatype Output = Output(blank: bool, words: nat, weighsOptions: bool, mentionsTest: bool, unsure: bool)

  ghost predicate Thousandths(x: real) {
    0.0 <= x <= 1.0 && (x * 1000.0).Floor as real == x * 1000.0
  }

  function Clamp(x: real): (r: real)
    ensures 0.0 <= r <= 1.0
    ensures 0.0 <= x <= 1.0 ==> r == x
  {
    if x > 1.0 then 1.0 else if x < 0.0 then 0.0 else x
  }

  /** Rounding to three places of a number that is not negative. */
  function Round3(x: real): (r: real)
    requires 0.0 <= x <= 1.0
    ensures Thousandths(r) && -0.0005 <= r - x <= 0.0005
  {
    var k := (x * 1000.0 + 0.5).Floor;
    assert 0 <= k <= 1000;
    (k as real) / 1000.0
  }

  function Signs(o: Output, coding: bool): (r: real)
    ensures 0.45 <= r <= 0.94
  {
    var length := (if o.words > 40 then 0.15 else 0.0) + (if o.words > 120 then 0.08 else 0.0);
    var content := (if o.weighsOptions then 0.08 else 0.0) + (if coding && o.mentionsTest then 0.08 else 0.0);
    0.55 + length + content - (if o.unsure then 0.10 else 0.0)
  }

  /** `legacySelfEvaluate` */
  function Legacy(o: Output, coding: bool): (r: real)
    ensures 0.0 <= r <= 1.0
  {
    if o.blank then 0.2 else Round3(Clamp(Signs(o, coding)))
  }

  function Weighted(c: Curve, score: real, weight: real): (r: real)
    ensures Thousandths(r)
  {
    Round3(Clamp(score * weight + c.bias))
  }

  /** `applySelfEvalCurve` */
  function ApplyCurve(c: Curve, score: real): (r: real)
    ensures Thousandths(r)
  {
    Weighted(c, score, c.Weight(score))
  }

  /** `applyMCTSStatePenalty`, for any penalty. */
  function ApplyPenalty(score: real, penalty: real): (r: real)
    ensures Thousandths(r)
  {
    if score - penalty < 0.0 then 0.0 else if score - penalty > 1.0 then 1.0 else Round3(score - penalty)
  }

  /** The memory-anchor bonus at the end of `evaluateOutputWithMemory`. */
  function ApplyBonus(a: Anchors, score: real, coverage: real): (r: real)
    requires Thousandths(score) && 0.0 <= coverage <= 1.0 && 0.0 <= a.bonus
    ensures Thousandths(r) && r >= score - 0.0005
  {
    if a.enabled && a.count > 0 && coverage >= a.minCoverage then
      var gain := a.bonus * coverage;
      MctsScore.ProductNonNegative(a.bonus, coverage);
      assert gain >= 0.0;
      var sum := score + gain;
      Round3(if sum > 1.0 then 1.0 else sum)
    else score
  }

  /** `evaluateOutputWithMemory`: the score of any output under any settings. */
  function Evaluate(selfEvaluate: bool, o: Output, coding: bool, c: Curve, penalise: bool, penalty: real,
                    a: Anchors, coverage: real): (score: real)
    requires 0.0 <= coverage <= 1.0 && 0.0 <= a.bonus
    ensures Thousandths(score)
  {
    if !selfEvaluate then
      0.5
    else
      var legacy := Legacy(o, coding);
      LegacyIsThousandths(o, coding);
      var curved := if c.enabled then ApplyCurve(c, legacy) else legacy;
      ApplyBonus(a, if penalise then ApplyPenalty(curved, penalty) else curved, coverage)
  }

  lemma LegacyIsThousandths(o: Output, coding: bool)
    ensures Thousandths(Legacy(o, coding))
  {
  }

  // ----- What an output gains and loses by

  /** What each sign in an output is worth, whatever the others: a plain short answer has 0.55, length is worth
      0.15 and later 0.08 more, weighing options 0.08, tests 0.08 in coding only, and doubt costs 0.10. Without
      any text there is 0.2, less than the worst text has. */
  lemma SignsAreWorth(o: Output, coding: bool)
    ensures o.blank ==> Legacy(o, coding) == 0.2
    ensures !o.blank ==> 0.45 <= Legacy(o, coding) <= 0.94
    ensures !o.blank && !o.weighsOptions && !(coding && o.mentionsTest) && !o.unsure ==>
              (o.words <= 40 ==> Legacy(o, coding) == 0.55)
              && (40 < o.words <= 120 ==> Legacy(o, coding) == 0.70)
              && (o.words > 120 ==> Legacy(o, coding) == 0.78)
    ensures !o.blank && !o.weighsOptions ==> Legacy(o.(weighsOptions := true), coding) == Legacy(o, coding) + 0.08
    ensures !o.blank && !o.unsure ==> Legacy(o.(unsure := true), coding) == Legacy(o, coding) - 0.10
    ensures !o.blank && !o.mentionsTest ==>
              Legacy(o.(mentionsTest := true), coding) == Legacy(o, coding) + if coding then 0.08 else 0.0
  {
    SignsAreRound(o, coding);
    SignsAreRound(o.(weighsOptions := true), coding);
    SignsAreRound(o.(unsure := true), coding);
    SignsAreRound(o.(mentionsTest := true), coding);
    hide Round3, Clamp, Legacy;
  }

  lemma SignsAreRound(o: Output, coding: bool)
    ensures Legacy(o, coding) == if o.blank then 0.2 else Signs(o, coding)
  {
    hide Clamp;
    var k := (if o.words > 40 then 15 else 0) + (if o.words > 120 then 8 else 0) + (if o.weighsOptions then 8 else 0)
             + (if coding && o.mentionsTest then 8 else 0) + 55 - (if o.unsure then 10 else 0);
    assert Signs(o, coding) * 1000.0 == (10 * k) as real;
    RoundedWhole(Signs(o, coding), 10 * k);
  }

  lemma RoundedWhole(x: real, k: int)
    requires 0.0 <= x <= 1.0 && x * 1000.0 == k as real
    ensures Round3(x) == x
  {
    assert (k as real + 0.5).Floor == k;
  }

  /** `y` is `x` cut to the unit interval and rounded. */
  ghost predicate Near(y: real, x: real) {
    if x > 1.0 then y == 1.0 else if x < 0.0 then y == 0.0 else -0.0005 <= y - x <= 0.0005
  }

  /** The curve weighs a score by the band it lies in, its upper limit included; a penalty is taken off. */
  lemma CurveAndPenalty(c: Curve, score: real, penalty: real)
    ensures score <= c.lowMax ==> Near(ApplyCurve(c, score), score * c.low + c.bias)
    ensures c.lowMax < score <= c.midMax ==> Near(ApplyCurve(c, score), score * c.mid + c.bias)
    ensures c.lowMax < score && c.midMax < score ==> Near(ApplyCurve(c, score), score * c.high + c.bias)
    ensures Near(ApplyPenalty(score, penalty), score - penalty)
  {
    WeightedScoreIsNear(c, score, c.low);
    WeightedScoreIsNear(c, score, c.mid);
    WeightedScoreIsNear(c, score, c.high);
    PenaltyIsNear(score, penalty);
    hide *;
    BandOf(c, score);
  }

  lemma BandOf(c: Curve, score: real)
    ensures score <= c.lowMax ==> ApplyCurve(c, score) == Weighted(c, score, c.low)
    ensures c.lowMax < score <= c.midMax ==> ApplyCurve(c, score) == Weighted(c, score, c.mid)
    ensures c.lowMax < score && c.midMax < score ==> ApplyCurve(c, score) == Weighted(c, score, c.high)
  {
    WeightOf(c, score);
    hide Weighted, Curve.Weight;
  }

  lemma WeightOf(c: Curve, score: real)
    ensures score <= c.lowMax ==> c.Weight(score) == c.low
    ensures c.lowMax < score <= c.midMax ==> c.Weight(score) == c.mid
    ensures c.lowMax < score && c.midMax < score ==> c.Weight(score) == c.high
  {
  }

  lemma WeightedScoreIsNear(c: Curve, score: real, weight: real)
    ensures Near(Weighted(c, score, weight), score * weight + c.bias)
  {
    hide Near, Round3, Clamp;
    NearRounded(score * weight + c.bias);
  }

  lemma NearRounded(x: real)
    ensures Near(Round3(Clamp(x)), x)
  {
    assert Round3(1.0) == 1.0 && Round3(0.0) == 0.0;
  }

  /** Memory anchors never cost an output anything: they add their bonus, in proportion to the coverage, exactly
      when there are some and enough of them are covered. */
  lemma AnchorsOnlyAdd(o: Output, coding: bool, c: Curve, penalise: bool, penalty: real,
                       a: Anchors, coverage: real)
    requires 0.0 <= coverage <= 1.0 && 0.0 <= a.bonus
    ensures var without := Evaluate(true, o, coding, c, penalise, penalty, Anchors(false, 0, 0.0, 0.0), coverage);
            var score := Evaluate(true, o, coding, c, penalise, penalty, a, coverage);
            && without <= score + 0.0005
            && (if a.enabled && a.count > 0 && coverage >= a.minCoverage
                then Near(score, without + a.bonus * coverage) else score == without)
    ensures Evaluate(false, o, coding, c, penalise, penalty, a, coverage) == 0.5
  {
    hide Round3, Legacy, ApplyCurve, ApplyPenalty, Clamp;
    LegacyIsThousandths(o, coding);
    MctsScore.ProductNonNegative(a.bonus, coverage);
    assert Round3(1.0) == 1.0 by { NearRounded(1.0); }
  }

  /** Without anchors the score is that of the text, with the curve and then the penalty applied if configured. */
  lemma TextThenCurveThenPenalty(o: Output, coding: bool, c: Curve, penalise: bool, penalty: real)
    ensures var score := Evaluate(true, o, coding, c, penalise, penalty, Anchors(false, 0, 0.0, 0.0), 0.0);
            && (!c.enabled && !penalise ==> score == Legacy(o, coding))
            && (!c.enabled && penalise ==> Near(score, Legacy(o, coding) - penalty))
            && (c.enabled && !penalise ==> score == ApplyCurve(c, Legacy(o, coding)))
            && (c.enabled && penalise ==> Near(score, ApplyCurve(c, Legacy(o, coding)) - penalty))
  {
    hide Round3, Legacy, ApplyCurve, Clamp;
    LegacyIsThousandths(o, coding);
    PenaltyIsNear(Legacy(o, coding), penalty);
    PenaltyIsNear(ApplyCurve(c, Legacy(o, coding)), penalty);
  }

  lemma PenaltyIsNear(score: real, penalty: real)
    ensures Near(ApplyPenalty(score, penalty), score - penalty)
  {
    hide Round3;
  }
}
