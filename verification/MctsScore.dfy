/** The two child-selection formulas, with the floating-point values that matter to a comparison:
    infinities and not-a-number are explicit, finite values are exact reals. */
module MctsScore {

  /** Scores are rounded to three places, so they and their sums are whole thousandths. */
  const UNIT := 1000

  datatype Float = NaN | NegInf | Fin(r: real) | PosInf

  /** The `>` of IEEE comparison: false as soon as an operand is not a number. */
  predicate Greater(a: Float, b: Float) {
    match (a, b)
    case (NaN, _) => false
    case (_, NaN) => false
    case (Fin(x), Fin(y)) => x > y
    case (PosInf, _) => !b.PosInf?
    case (Fin(_), _) => b.NegInf?
    case (NegInf, _) => false
  }

  function Plus(a: Float, x: real): Float {
    if a.Fin? then Fin(a.r + x) else a
  }

  function Product(x: real, y: real): real {
    x * y
  }

  function Square(x: real): real {
    Product(x, x)
  }

  function Variance(mean: real): real {
    mean * (1.0 - mean)
  }

  /** One run's selection settings. The elementary functions stay uninterpreted: all that is ever used
      of them is that they are not negative where the real ones are not. */
  datatype Selection = Selection(v2: bool, exploration: real, log: real -> real, sqrt: real -> real) {
    ghost predicate Valid() {
      (forall x :: x >= 1.0 ==> log(x) >= 0.0) &&
      (forall x :: x >= 0.0 ==> sqrt(x) >= 0.0)
    }

    /** The elementary functions rise strictly. */
    ghost predicate Rising() {
      && Valid()
      && (forall x, y :: 1.0 <= x < y ==> log(x) < log(y))
      && (forall x, y :: 0.0 <= x < y ==> sqrt(x) < sqrt(y))
    }

    /** The square root is one. */
    ghost predicate Root() {
      forall x :: x >= 0.0 ==> sqrt(x) * sqrt(x) == x
    }

    function Sqrt(x: Float): Float {
      if x.Fin? then (if x.r >= 0.0 then Fin(sqrt(x.r)) else NaN)
      else if x.NegInf? then NaN else x
    }

    function Mean(visits: nat, value: int): real
      requires visits > 0
    {
      (value as real) / ((UNIT * visits) as real)
    }

    /** `mctsUCT` */
    function Uct(visits: nat, value: int, prior: real, parentVisits: nat): Float
      requires parentVisits >= 1
    {
      if visits == 0 then PosInf
      else
        var q := Mean(visits, value);
        var spread := Sqrt(Fin(log(parentVisits as real) / ((1 + visits) as real)));
        if spread.Fin? then Fin(q + Product(exploration, spread.r) + 0.01 * prior) else spread
    }

    function Share(visits: nat, parentVisits: nat): real
      requires visits >= 1
    {
      log(parentVisits as real) / (visits as real)
    }

    function Confidence(visits: nat, parentVisits: nat): real
      requires visits >= 1
    {
      2.0 * log(parentVisits as real) / (visits as real)
    }

    /** `mctsUCBTuned` */
    function UcbTuned(visits: nat, value: int, prior: real, parentVisits: nat): Float
      requires parentVisits >= 1
    {
      if visits == 0 then PosInf
      else
        var mean := Mean(visits, value);
        var bound := Plus(Sqrt(Fin(Confidence(visits, parentVisits))), Variance(mean));
        var capped := if Greater(bound, Fin(0.25)) then Fin(0.25) else bound;
        var spread := if capped.Fin? then Sqrt(Fin(Product(Share(visits, parentVisits), capped.r))) else capped;
        if spread.Fin? then Fin(mean + Product(exploration, spread.r) + 0.02 * prior) else spread
    }

    function Score(visits: nat, value: int, prior: real, parentVisits: nat): Float
      requires parentVisits >= 1
    {
      if v2 then UcbTuned(visits, value, prior, parentVisits) else Uct(visits, value, prior, parentVisits)
    }
  }

  lemma QuotientNonNegative(x: real, y: real)
    requires x >= 0.0 && y > 0.0
    ensures x / y >= 0.0
  {
    assert (x / y) * y == x;
  }

  lemma ProductNonNegative(x: real, y: real)
    requires x >= 0.0 && y >= 0.0
    ensures x * y >= 0.0
  {
  }

  lemma QuotientAtMostOne(x: real, y: real)
    requires x <= y && y > 0.0
    ensures x / y <= 1.0
  {
    assert (x / y) * y == x;
  }

  lemma MeanInUnit(sel: Selection, visits: nat, value: int)
    requires visits > 0 && 0 <= value <= UNIT * visits
    ensures 0.0 <= sel.Mean(visits, value) <= 1.0
  {
    QuotientNonNegative(value as real, (UNIT * visits) as real);
    QuotientAtMostOne(value as real, (UNIT * visits) as real);
  }

  /** While a node's accumulated value lies between 0 and its visit count, no radicand is negative:
      its score is a number, and it is infinite exactly when the node was never visited. */
  lemma ScoreIsNumber(sel: Selection, visits: nat, value: int, prior: real, parentVisits: nat)
    requires sel.Valid() && parentVisits >= 1
    requires 0 <= value <= UNIT * visits
    ensures visits == 0 <==> sel.Score(visits, value, prior, parentVisits) == PosInf
    ensures visits > 0 ==> sel.Score(visits, value, prior, parentVisits).Fin?
  {
    if visits > 0 {
      var n := visits as real;
      var l := sel.log(parentVisits as real);
      QuotientNonNegative(l, 1.0 + n);
      QuotientNonNegative(l, n);
      QuotientNonNegative(2.0 * l, n);
      MeanInUnit(sel, visits, value);
      var mean := sel.Mean(visits, value);
      ProductNonNegative(mean, 1.0 - mean);
      var bound := sel.sqrt(2.0 * l / n) + mean * (1.0 - mean);
      ProductNonNegative(l / n, if bound > 0.25 then 0.25 else bound);
    }
  }

  /** Outside that range the tuned formula can fail: from the second visit of the parent on, and exactly when
      the variance outweighs the confidence term. The child can then never be selected. */
  lemma TunedScoreFails(sel: Selection, visits: nat, value: int, prior: real, parentVisits: nat)
    requires sel.Valid() && parentVisits >= 1 && visits > 0
    ensures sel.UcbTuned(visits, value, prior, parentVisits) == NaN <==>
            var n, mean := visits as real, sel.Mean(visits, value);
            && sel.log(parentVisits as real) > 0.0
            && sel.sqrt(2.0 * sel.log(parentVisits as real) / n) < mean * (mean - 1.0)
  {
    var n, l, mean := visits as real, sel.log(parentVisits as real), sel.Mean(visits, value);
    QuotientNonNegative(2.0 * l, n);
    assert (l / n) * n == l;
    var bound := sel.sqrt(2.0 * l / n) + mean * (1.0 - mean);
    assert mean * (mean - 1.0) == -(mean * (1.0 - mean));
    QuotientNonNegative(l, n);
    if l > 0.0 {
      SignOfProduct(l / n, if bound > 0.25 then 0.25 else bound);
    } else {
      assert l == 0.0;
      ZeroTimes(l / n, if bound > 0.25 then 0.25 else bound);
    }
  }

  lemma ZeroTimes(x: real, y: real)
    requires x == 0.0
    ensures x * y == 0.0
  {
  }

  lemma SignOfProduct(x: real, y: real)
    requires x > 0.0
    ensures x * y >= 0.0 <==> y >= 0.0
  {
  }

  // ----- What the formulas compute

  lemma DividedByMore(x: real, y: real, z: real)
    requires x > 0.0 && 0.0 < y < z
    ensures 0.0 < x / z < x / y
  {
    assert (x / y) * y == x && (x / z) * z == x;
    MulStrict(y, z, x / z);
    Cancel(x / z, x / y, y);
  }

  lemma Cancel(x: real, y: real, z: real)
    requires x * z < y * z && z > 0.0
    ensures x < y
  {
    if y <= x {
      MulMonotone(y, x, z);
    }
  }

  lemma DividedMore(w: real, x: real, y: real)
    requires w < x && y > 0.0
    ensures w / y < x / y
  {
    assert (w / y) * y == w && (x / y) * y == x;
  }

  lemma MulMonotone(x: real, y: real, z: real)
    requires x <= y && z >= 0.0
    ensures x * z <= y * z
  {
  }

  lemma MulStrict(x: real, y: real, z: real)
    requires x < y && z > 0.0
    ensures x * z < y * z
  {
  }

  /** Larger widths and no smaller caps give larger products. */
  lemma ProductGrows(x: real, y: real, c: real, d: real)
    requires 0.0 <= x < y && 0.0 <= c <= d && d > 0.0
    ensures 0.0 <= x * c < y * d
  {
    ProductNonNegative(x, c);
    MulMonotone(c, d, x);
    MulStrict(x, y, d);
  }

  /** The variance term of the tuned formula, capped at a quarter. */
  function Capped(bound: real): real {
    if bound > 0.25 then 0.25 else bound
  }

  lemma LogOfParent(sel: Selection, parentVisits: nat)
    requires sel.Rising() && parentVisits >= 2
    ensures sel.log(parentVisits as real) > 0.0
  {
    assert sel.log(1.0) >= 0.0 && sel.log(1.0) < sel.log(parentVisits as real);
  }

  /** The plain formula without its infinities. */
  lemma UctIs(sel: Selection, visits: nat, value: int, prior: real, parentVisits: nat)
    requires sel.Valid() && parentVisits >= 1 && visits >= 1
    ensures sel.log(parentVisits as real) / ((1 + visits) as real) >= 0.0
    ensures sel.Uct(visits, value, prior, parentVisits)
         == Fin(sel.Mean(visits, value)
                + sel.exploration * sel.sqrt(sel.log(parentVisits as real) / ((1 + visits) as real)) + 0.01 * prior)
  {
    QuotientNonNegative(sel.log(parentVisits as real), (1 + visits) as real);
  }

  /** The variance of a mean and its confidence. */
  ghost function Spread(sel: Selection, visits: nat, mean: real, parentVisits: nat): real
    requires visits >= 1
  {
    sel.sqrt(sel.Confidence(visits, parentVisits)) + Variance(mean)
  }

  /** The radicand of the tuned formula. */
  ghost function TunedRadicand(sel: Selection, visits: nat, mean: real, parentVisits: nat): real
    requires visits >= 1
  {
    Product(sel.Share(visits, parentVisits), Capped(Spread(sel, visits, mean, parentVisits)))
  }

  lemma SpreadNonNegative(sel: Selection, visits: nat, mean: real, parentVisits: nat)
    requires sel.Valid() && parentVisits >= 1 && visits >= 1 && 0.0 <= mean <= 1.0
    ensures sel.Confidence(visits, parentVisits) >= 0.0 && sel.Share(visits, parentVisits) >= 0.0
    ensures Spread(sel, visits, mean, parentVisits) >= 0.0
    ensures TunedRadicand(sel, visits, mean, parentVisits) >= 0.0
  {
    var l, n := sel.log(parentVisits as real), visits as real;
    QuotientNonNegative(l, n);
    QuotientNonNegative(2.0 * l, n);
    ProductNonNegative(mean, 1.0 - mean);
    ProductNonNegative(sel.Share(visits, parentVisits), Capped(Spread(sel, visits, mean, parentVisits)));
  }

  lemma TunedIs(sel: Selection, visits: nat, value: int, prior: real, parentVisits: nat)
    requires sel.Valid() && parentVisits >= 1 && visits >= 1 && 0 <= value <= UNIT * visits
    ensures var radicand := TunedRadicand(sel, visits, sel.Mean(visits, value), parentVisits);
            && radicand >= 0.0
            && sel.UcbTuned(visits, value, prior, parentVisits)
               == Fin(sel.Mean(visits, value) + sel.exploration * sel.sqrt(radicand) + 0.02 * prior)
  {
    MeanInUnit(sel, visits, value);
    hide Selection.Mean, Selection.Confidence, Selection.Share, Variance, TunedRadicand, Selection.UcbTuned;
    var mean := sel.Mean(visits, value);
    SpreadNonNegative(sel, visits, mean, parentVisits);
    TunedUnfolds(sel, visits, value, prior, parentVisits);
  }

  lemma TunedUnfolds(sel: Selection, visits: nat, value: int, prior: real, parentVisits: nat)
    requires sel.Valid() && parentVisits >= 1 && visits >= 1
    requires sel.Confidence(visits, parentVisits) >= 0.0
    requires TunedRadicand(sel, visits, sel.Mean(visits, value), parentVisits) >= 0.0
    ensures var mean := sel.Mean(visits, value);
            sel.UcbTuned(visits, value, prior, parentVisits)
            == Fin(mean + Product(sel.exploration, sel.sqrt(TunedRadicand(sel, visits, mean, parentVisits)))
                   + 0.02 * prior)
  {
    hide Selection.Mean, Selection.Confidence, Selection.Share, Variance, Product;
  }

  /** The variance part is positive as soon as the confidence term is. */
  lemma CapGrows(sel: Selection, x: real, y: real, mean: real)
    requires sel.Rising() && 0.0 <= x < y && 0.0 <= mean <= 1.0
    ensures 0.0 <= Capped(sel.sqrt(x) + Variance(mean)) <= Capped(sel.sqrt(y) + Variance(mean))
    ensures Capped(sel.sqrt(y) + Variance(mean)) > 0.0
  {
    ProductNonNegative(mean, 1.0 - mean);
    assert sel.sqrt(x) >= 0.0 && sel.sqrt(x) < sel.sqrt(y);
  }

  lemma TunedRadicandFalls(sel: Selection, fewer: nat, more: nat, mean: real, parentVisits: nat)
    requires sel.Rising() && parentVisits >= 2 && 1 <= fewer < more && 0.0 <= mean <= 1.0
    ensures 0.0 <= TunedRadicand(sel, more, mean, parentVisits) < TunedRadicand(sel, fewer, mean, parentVisits)
  {
    hide Capped, Selection.Rising, Variance;
    LogOfParent(sel, parentVisits);
    var l := sel.log(parentVisits as real);
    DividedByMore(l, fewer as real, more as real);
    DividedByMore(2.0 * l, fewer as real, more as real);
    CapGrows(sel, 2.0 * l / (more as real), 2.0 * l / (fewer as real), mean);
    ProductGrows(l / (more as real), l / (fewer as real), Capped(Spread(sel, more, mean, parentVisits)),
                 Capped(Spread(sel, fewer, mean, parentVisits)));
  }

  /** Exploration: of two visited children with the same mean and prior, the one with fewer visits scores
      strictly higher, under both formulas. */
  lemma FewerVisitsScoreHigher(sel: Selection, fewer: nat, value: int, more: nat, value': int, prior: real,
                               parentVisits: nat)
    requires sel.Rising() && sel.exploration > 0.0 && parentVisits >= 2 && 1 <= fewer < more
    requires 0 <= value <= UNIT * fewer && 0 <= value' <= UNIT * more
    requires sel.Mean(fewer, value) == sel.Mean(more, value')
    ensures Greater(sel.Score(fewer, value, prior, parentVisits), sel.Score(more, value', prior, parentVisits))
  {
    hide *;
    FewerVisitsUct(sel, fewer, value, more, value', prior, parentVisits);
    FewerVisitsTuned(sel, fewer, value, more, value', prior, parentVisits);
    ScoreIsOneOf(sel, fewer, value, prior, parentVisits);
    ScoreIsOneOf(sel, more, value', prior, parentVisits);
  }

  lemma ScoreIsOneOf(sel: Selection, visits: nat, value: int, prior: real, parentVisits: nat)
    requires parentVisits >= 1
    ensures sel.Score(visits, value, prior, parentVisits)
         == if sel.v2 then sel.UcbTuned(visits, value, prior, parentVisits)
            else sel.Uct(visits, value, prior, parentVisits)
  {
    hide Selection.Uct, Selection.UcbTuned;
  }

  lemma FewerVisitsUct(sel: Selection, fewer: nat, value: int, more: nat, value': int, prior: real, parentVisits: nat)
    requires sel.Rising() && sel.exploration > 0.0 && parentVisits >= 2 && 1 <= fewer < more
    requires sel.Mean(fewer, value) == sel.Mean(more, value')
    ensures Greater(sel.Uct(fewer, value, prior, parentVisits), sel.Uct(more, value', prior, parentVisits))
  {
    hide Selection.Uct, Selection.Mean;
    UctIs(sel, fewer, value, prior, parentVisits);
    UctIs(sel, more, value', prior, parentVisits);
    LogOfParent(sel, parentVisits);
    var l := sel.log(parentVisits as real);
    DividedByMore(l, (1 + fewer) as real, (1 + more) as real);
    WiderScoresHigher(sel, l / ((1 + more) as real), l / ((1 + fewer) as real));
  }

  lemma FewerVisitsTuned(sel: Selection, fewer: nat, value: int, more: nat, value': int, prior: real, parentVisits: nat)
    requires sel.Rising() && sel.exploration > 0.0 && parentVisits >= 2 && 1 <= fewer < more
    requires 0 <= value <= UNIT * fewer && 0 <= value' <= UNIT * more
    requires sel.Mean(fewer, value) == sel.Mean(more, value')
    ensures Greater(sel.UcbTuned(fewer, value, prior, parentVisits), sel.UcbTuned(more, value', prior, parentVisits))
  {
    hide Selection.UcbTuned, Selection.Mean, Selection.Rising, TunedRadicand;
    var mean := sel.Mean(fewer, value);
    RisingIsValid(sel);
    TunedIs(sel, fewer, value, prior, parentVisits);
    TunedIs(sel, more, value', prior, parentVisits);
    MeanInUnit(sel, fewer, value);
    TunedRadicandFalls(sel, fewer, more, mean, parentVisits);
    WiderScoresHigher(sel, TunedRadicand(sel, more, mean, parentVisits), TunedRadicand(sel, fewer, mean, parentVisits));
  }

  lemma RisingIsValid(sel: Selection)
    requires sel.Rising()
    ensures sel.Valid()
  {
  }

  lemma WiderScoresHigher(sel: Selection, x: real, y: real)
    requires sel.Rising() && sel.exploration > 0.0 && 0.0 <= x < y
    ensures sel.exploration * sel.sqrt(x) < sel.exploration * sel.sqrt(y)
  {
    MulStrict(sel.sqrt(x), sel.sqrt(y), sel.exploration);
  }

  /** Of two nodes with the same counters, the one with the higher prior scores strictly higher. */
  lemma HigherPriorScoresHigher(sel: Selection, visits: nat, value: int, low: real, high: real, parentVisits: nat)
    requires sel.Valid() && parentVisits >= 1 && visits >= 1 && 0 <= value <= UNIT * visits && low < high
    ensures Greater(sel.Score(visits, value, high, parentVisits), sel.Score(visits, value, low, parentVisits))
  {
    hide Selection.Uct, Selection.UcbTuned, Selection.Mean, TunedRadicand;
    UctIs(sel, visits, value, low, parentVisits);
    UctIs(sel, visits, value, high, parentVisits);
    TunedIs(sel, visits, value, low, parentVisits);
    TunedIs(sel, visits, value, high, parentVisits);
  }

  /** A node left alone while its parent is visited scores strictly higher and higher. */
  lemma LaterScoresHigher(sel: Selection, visits: nat, value: int, prior: real, earlier: nat, later: nat)
    requires sel.Rising() && sel.exploration > 0.0 && 1 <= earlier < later
    requires visits >= 1 && 0 <= value <= UNIT * visits
    ensures Greater(sel.Score(visits, value, prior, later), sel.Score(visits, value, prior, earlier))
  {
    hide Selection.Uct, Selection.UcbTuned, Selection.Mean, TunedRadicand;
    var l, m := sel.log(earlier as real), sel.log(later as real);
    assert 0.0 <= l < m;
    if sel.v2 {
      TunedIs(sel, visits, value, prior, earlier);
      TunedIs(sel, visits, value, prior, later);
      MeanInUnit(sel, visits, value);
      TunedRadicandRises(sel, visits, sel.Mean(visits, value), earlier, later);
      WiderScoresHigher(sel, TunedRadicand(sel, visits, sel.Mean(visits, value), earlier),
                        TunedRadicand(sel, visits, sel.Mean(visits, value), later));
    } else {
      UctIs(sel, visits, value, prior, earlier);
      UctIs(sel, visits, value, prior, later);
      DividedMore(l, m, (1 + visits) as real);
      WiderScoresHigher(sel, l / ((1 + visits) as real), m / ((1 + visits) as real));
    }
  }

  lemma TunedRadicandRises(sel: Selection, visits: nat, mean: real, earlier: nat, later: nat)
    requires sel.Rising() && 1 <= earlier < later && visits >= 1 && 0.0 <= mean <= 1.0
    ensures 0.0 <= TunedRadicand(sel, visits, mean, earlier) < TunedRadicand(sel, visits, mean, later)
  {
    hide Capped, Variance;
    var l, m, n := sel.log(earlier as real), sel.log(later as real), visits as real;
    assert 0.0 <= l < m;
    DividedMore(l, m, n);
    DividedMore(2.0 * l, 2.0 * m, n);
    QuotientNonNegative(l, n);
    QuotientNonNegative(2.0 * l, n);
    CapGrows(sel, 2.0 * l / n, 2.0 * m / n, mean);
    ProductGrows(l / n, m / n, Capped(Spread(sel, visits, mean, earlier)), Capped(Spread(sel, visits, mean, later)));
  }

  /** The plain formula: what a visited node scores above its mean and a hundredth of its prior, squared, is the
      squared exploration times the logarithm over one more than its visits. */
  lemma UctWidth(sel: Selection, visits: nat, value: int, prior: real, parentVisits: nat)
    requires sel.Valid() && sel.Root() && parentVisits >= 1 && visits >= 1
    ensures var score := sel.Uct(visits, value, prior, parentVisits);
            && score.Fin?
            && var width := score.r - (value as real) / ((1000 * visits) as real) - prior / 100.0;
               Product(Square(width), (1 + visits) as real)
               == Product(Square(sel.exploration), sel.log(parentVisits as real))
  {
    hide Selection.Uct;
    UctIs(sel, visits, value, prior, parentVisits);
    var x := sel.log(parentVisits as real) / ((1 + visits) as real);
    assert x * ((1 + visits) as real) == sel.log(parentVisits as real);
    WidthSquared(sel.exploration, sel.sqrt(x), x, (1 + visits) as real);
    assert sel.Uct(visits, value, prior, parentVisits).r - sel.Mean(visits, value) - prior / 100.0
        == Product(sel.exploration, sel.sqrt(x));
  }

  /** The tuned formula: above its mean and a fiftieth of its prior, squared, it is the squared exploration times
      the logarithm over the visits times the variance and its confidence, at most a quarter. */
  lemma TunedWidth(sel: Selection, visits: nat, value: int, prior: real, parentVisits: nat)
    requires sel.Valid() && sel.Root() && parentVisits >= 1 && visits >= 1 && 0 <= value <= UNIT * visits
    ensures var score := sel.UcbTuned(visits, value, prior, parentVisits);
            && score.Fin?
            && var l, mean := sel.log(parentVisits as real), (value as real) / ((1000 * visits) as real);
               var width := score.r - mean - prior / 50.0;
               var bound := sel.sqrt(2.0 * l / (visits as real)) + Product(mean, 1.0 - mean);
               Product(Square(width), visits as real)
               == Product(Square(sel.exploration), Product(l, if bound < 0.25 then bound else 0.25))
  {
    hide Selection.UcbTuned, TunedRadicand, Capped, Selection.Root, Product;
    TunedIs(sel, visits, value, prior, parentVisits);
    MeanInUnit(sel, visits, value);
    SpreadNonNegative(sel, visits, sel.Mean(visits, value), parentVisits);
    TunedUnfolds(sel, visits, value, prior, parentVisits);
    var mean := sel.Mean(visits, value);
    var x := TunedRadicand(sel, visits, mean, parentVisits);
    TunedRoot(sel, visits, mean, parentVisits);
    hide *;
    WidthSquared(sel.exploration, sel.sqrt(x), x, visits as real);
    CappedIs(Spread(sel, visits, mean, parentVisits));
    WidthIs(sel.UcbTuned(visits, value, prior, parentVisits).r, mean, prior, Product(sel.exploration, sel.sqrt(x)));
    TunedTerms(sel, visits, value, parentVisits);
  }

  /** The parts of the tuned formula, written out. */
  lemma TunedTerms(sel: Selection, visits: nat, value: int, parentVisits: nat)
    requires visits >= 1
    ensures sel.Mean(visits, value) == (value as real) / ((1000 * visits) as real)
    ensures var mean := sel.Mean(visits, value);
            Spread(sel, visits, mean, parentVisits)
            == sel.sqrt(2.0 * sel.log(parentVisits as real) / (visits as real)) + Product(mean, 1.0 - mean)
  {
  }

  lemma TunedRoot(sel: Selection, visits: nat, mean: real, parentVisits: nat)
    requires sel.Root() && visits >= 1 && TunedRadicand(sel, visits, mean, parentVisits) >= 0.0
    ensures var x := TunedRadicand(sel, visits, mean, parentVisits);
            && sel.sqrt(x) * sel.sqrt(x) == x
            && Product(x, visits as real)
               == Product(sel.log(parentVisits as real), Capped(Spread(sel, visits, mean, parentVisits)))
  {
    hide Capped, Spread;
    assert sel.Share(visits, parentVisits) == sel.log(parentVisits as real) / (visits as real);
    QuotientTimes(sel.log(parentVisits as real), visits as real, Capped(Spread(sel, visits, mean, parentVisits)));
  }

  lemma QuotientTimes(l: real, n: real, cap: real)
    requires n > 0.0
    ensures (l / n * cap) * n == l * cap
  {
    assert (l / n) * n == l;
    Reassociate(l / n, cap, n);
  }

  lemma CappedIs(bound: real)
    ensures Capped(bound) == if bound < 0.25 then bound else 0.25
  {
  }

  lemma WidthIs(score: real, mean: real, prior: real, width: real)
    ensures score == mean + width + 0.02 * prior ==> score - mean - prior / 50.0 == width
  {
  }

  lemma Reassociate(x: real, y: real, z: real)
    ensures x * y * z == (x * z) * y
  {
  }

  lemma WidthSquared(c: real, root: real, x: real, n: real)
    requires root * root == x
    ensures Product(Square(Product(c, root)), n) == Product(Square(c), Product(x, n))
  {
    Reassociate(c * c, x, n);
    assert (c * c) * x * n == (c * c) * (x * n);
    assert (c * root) * (c * root) == c * c * (root * root) by {
      Reassociate(c, root, c * root);
      Reassociate(c, c, root);
    }
  }

  lemma EqualMeans(sel: Selection, visits: nat, value: int, visits': nat, value': int)
    requires visits >= 1 && visits' >= 1 && value * visits' == value' * visits
    ensures sel.Mean(visits, value) == sel.Mean(visits', value')
  {
    var x, y := (UNIT * visits) as real, (UNIT * visits') as real;
    assert (value as real) * y == (value' as real) * x by {
      assert value * (UNIT * visits') == value' * (UNIT * visits);
    }
    EqualQuotients(value as real, x, value' as real, y);
  }

  lemma EqualQuotients(a: real, x: real, b: real, y: real)
    requires x > 0.0 && y > 0.0 && a * y == b * x
    ensures a / x == b / y
  {
    assert (a / x) * x == a && (b / y) * y == b;
    Reassociate(a / x, x, y);
    Reassociate(b / y, y, x);
    SameFactor(a / x, b / y, x * y);
  }

  lemma SameFactor(a: real, b: real, z: real)
    requires z > 0.0 && a * z == b * z
    ensures a == b
  {
    if a < b {
      MulStrict(a, b, z);
    } else if b < a {
      MulStrict(b, a, z);
    }
  }
}
