/** The evaluator of an answer and the evaluator chain. Risk, confidence and thresholds are in
    thousandths: reals before rounding, whole numbers in a result. */
module MetaReasoning {
  import opened Canonical
  import opened Text

  datatype Decision = Accept | Caution | Reject

  function Rank(d: Decision): int {
    match d case Accept => 2 case Caution => 1 case Reject => 0
  }

  datatype Profile = Fast | Default | Strict

  datatype Config = Config(accept: real, strict: real)

  datatype Result = Result(decision: Decision, confidence: int, risk: int, profile: Profile)

  function Decide(p: Profile, confidence: real, risk: real, c: Config): Decision {
    var accept := if p.Strict? && c.strict > c.accept then c.strict else c.accept;
    var riskLimit := match p case Fast => 420.0 case Default => 350.0 case Strict => 280.0;
    var rejectRisk := match p case Fast => 740.0 case Default => 680.0 case Strict => 600.0;
    var rejectConf := match p case Fast => 300.0 case Default => 360.0 case Strict => 420.0;
    if confidence >= accept && risk <= riskLimit then Accept
    else if risk >= rejectRisk || confidence <= rejectConf then Reject
    else Caution
  }

  /** Rounding to a whole number, ties to even. */
  function Round(x: real): int {
    var k := x.Floor;
    var part := x - k as real;
    if part < 0.5 || (part == 0.5 && k % 2 == 0) then k else k + 1
  }

  lemma RoundMonotone(x: real, y: real)
    requires x <= y
    ensures Round(x) <= Round(y)
  {
    assert x.Floor <= y.Floor;
  }

  lemma RoundWhole(n: int)
    ensures Round(n as real) == n
  {
    assert (n as real).Floor == n;
  }

  // ----- What makes two results comparable

  /** `r` is what profile `p` decides about some risk before rounding. */
  ghost predicate Judged(r: Result, p: Profile, c: Config) {
    r.profile == p && exists raw: real :: JudgedAt(r, p, c, raw)
  }

  ghost predicate JudgedAt(r: Result, p: Profile, c: Config, raw: real) {
    && 0.0 <= raw <= 1000.0
    && r.risk == Round(raw)
    && r.confidence == Round(1000.0 - raw)
    && r.decision == Decide(p, 1000.0 - raw, raw, c)
  }

  function Judgement(p: Profile, c: Config, raw: real): Result {
    Result(Decide(p, 1000.0 - raw, raw, c), Round(1000.0 - raw), Round(raw), p)
  }

  lemma JudgementIsJudged(p: Profile, c: Config, raw: real)
    requires 0.0 <= raw <= 1000.0
    ensures Judged(Judgement(p, c, raw), p, c) && 0 <= Judgement(p, c, raw).risk <= 1000
  {
    hide Round, Decide;
    assert JudgedAt(Judgement(p, c, raw), p, c, raw);
    RoundedRange(raw);
  }

  lemma DecideAntitone(p: Profile, c: Config, low: real, high: real)
    requires low <= high
    ensures Rank(Decide(p, 1000.0 - low, low, c)) >= Rank(Decide(p, 1000.0 - high, high, c))
  {
  }

  /** What an answer of some risk is decided to be: rejected exactly from 0.70, 0.64 and 0.58 on in the three
      profiles, accepted exactly when the risk is at most 0.42, 0.35 and 0.28 and leaves enough confidence. */
  lemma DecidedExactly(p: Profile, c: Config, raw: real)
    requires 0.0 <= raw <= 1000.0
    ensures var decision := Judgement(p, c, raw).decision;
            var threshold := if p == Strict && c.strict > c.accept then c.strict else c.accept;
            && (decision == Reject <==> raw >= match p case Fast => 700.0 case Default => 640.0 case Strict => 580.0)
            && (decision == Accept <==>
                  && raw <= 1000.0 - threshold
                  && raw <= match p case Fast => 420.0 case Default => 350.0 case Strict => 280.0)
  {
    hide Round;
  }

  /** At one risk and configuration the strict profile never decides better than the default one, nor that
      than the fast one. */
  lemma StricterIsNoBetter(c: Config, raw: real)
    requires 0.0 <= raw <= 1000.0
    ensures Rank(Judgement(Strict, c, raw).decision) <= Rank(Judgement(Default, c, raw).decision)
    ensures Rank(Judgement(Default, c, raw).decision) <= Rank(Judgement(Fast, c, raw).decision)
  {
    hide Round;
    DecidedExactly(Strict, c, raw);
    DecidedExactly(Default, c, raw);
    DecidedExactly(Fast, c, raw);
  }

  /** A result shows its risk and confidence to within half a thousandth. */
  lemma RoundedNear(p: Profile, c: Config, raw: real)
    ensures var r := Judgement(p, c, raw);
            && -0.5 <= (r.risk as real) - raw <= 0.5 && -0.5 <= (r.confidence as real) - (1000.0 - raw) <= 0.5
            && r.profile == p
  {
    hide Decide;
  }

  /** A risk half-way between two thousandths is shown as the even one. */
  lemma HalvesGoToEven(k: int)
    ensures Round(k as real + 0.5) == if k % 2 == 0 then k else k + 1
  {
    assert (k as real + 0.5).Floor == k;
  }

  /** Under one profile and one configuration a better decision never comes with a higher risk. */
  lemma BetterDecisionLowerRisk(a: Result, b: Result, p: Profile, c: Config)
    requires Judged(a, p, c) && Judged(b, p, c)
    requires Rank(b.decision) > Rank(a.decision)
    ensures b.risk <= a.risk
  {
    hide Round, Decide;
    var x: real :| JudgedAt(a, p, c, x);
    var y: real :| JudgedAt(b, p, c, y);
    if x <= y {
      DecideAntitone(p, c, x, y);
    } else {
      RoundMonotone(y, x);
    }
  }

  // ----- The evaluator

  /** What the evaluator sees of an answer and its conversation. */
  datatype Signals = Signals(
    words: nat, hedges: nat, mismatch: bool, contradictions: bool, drift: bool, mood: bool,
    citation: bool, overclaim: bool)

  datatype Flag =
    EmptyOutput | VeryShort | HighHedging | Mismatch | Contradictions | HighDrift | MoodShift | Citation | Overclaim

  function HedgingRatio(s: Signals): (h: real)
    ensures h >= 0.0
  {
    if s.words == 0 then 0.0 else s.hedges as real / s.words as real
  }

  function Clamp(x: real): (r: real)
    ensures 0.0 <= r <= 1000.0
    ensures 0.0 <= x <= 1000.0 ==> r == x
  {
    if x < 0.0 then 0.0 else if x > 1000.0 then 1000.0 else x
  }

  function Hedging(s: Signals): (r: real)
    ensures 0.0 <= r <= 1000.0
  {
    Clamp(HedgingRatio(s) * 450.0)
  }

  /** The flag raises the risk by its weight. */
  function Weight(f: Flag): real {
    match f
    case EmptyOutput => 650.0
    case VeryShort => 200.0
    case HighHedging => 0.0
    case Mismatch => 200.0
    case Contradictions => 250.0
    case HighDrift => 120.0
    case MoodShift => 100.0
    case Citation => 150.0
    case Overclaim => 100.0
  }

  ghost function Weights(flags: seq<Flag>): real {
    if flags == [] then 0.0 else Weights(flags[..|flags| - 1]) + Weight(flags[|flags| - 1])
  }

  lemma WeightsSnoc(flags: seq<Flag>, f: Flag)
    ensures Weights(flags + [f]) == Weights(flags) + Weight(f)
  {
    assert (flags + [f])[..|flags|] == flags;
  }

  /** What each flag stands for. */
  predicate Holds(s: Signals, f: Flag) {
    match f
    case EmptyOutput => s.words == 0
    case VeryShort => 0 < s.words < 24
    case HighHedging => HedgingRatio(s) >= 0.12
    case Mismatch => s.mismatch
    case Contradictions => s.contradictions
    case HighDrift => s.drift
    case MoodShift => s.mood
    case Citation => s.citation
    case Overclaim => s.overclaim && HedgingRatio(s) < 0.03
  }

  /** The flags of `fs` that hold. */
  ghost function Raised(s: Signals, fs: seq<Flag>): seq<Flag> {
    if fs == [] then []
    else Raised(s, fs[..|fs| - 1]) + if Holds(s, fs[|fs| - 1]) then [fs[|fs| - 1]] else []
  }

  lemma {:induction false} RaisedAreHolding(s: Signals, fs: seq<Flag>, f: Flag)
    ensures f in Raised(s, fs) <==> f in fs && Holds(s, f)
  {
    hide Holds;
    if fs != [] {
      RaisedAreHolding(s, fs[..|fs| - 1], f);
    }
  }

  /** `flags` are those of `done` that hold, and the risk is their weight and `extra`. */
  ghost predicate Account(s: Signals, done: seq<Flag>, flags: seq<Flag>, risk: real, extra: real) {
    flags == Raised(s, done) && risk == Weights(flags) + extra
  }

  /** One conditional step of the accumulation. */
  method Raise(s: Signals, f: Flag, flags: seq<Flag>, risk: real, ghost done: seq<Flag>, ghost extra: real)
    returns (flags': seq<Flag>, risk': real)
    requires Account(s, done, flags, risk, extra)
    ensures Account(s, done + [f], flags', risk', extra)
  {
    hide Weights, Weight, Holds;
    flags', risk' := flags, risk;
    assert (done + [f])[..|done|] == done;
    if Holds(s, f) {
      WeightsSnoc(flags, f);
      flags', risk' := flags + [f], risk + Weight(f);
    }
  }

  function Short(s: Signals): real {
    if s.words < 8 then 200.0 else 0.0
  }

  const ALL_FLAGS :=
    [EmptyOutput, VeryShort, HighHedging, Mismatch, Contradictions, HighDrift, MoodShift, Citation, Overclaim]

  /** The risk of an answer before clamping. */
  ghost function RawRisk(s: Signals): real {
    Weights(Raised(s, ALL_FLAGS)) + (Short(s) + Hedging(s))
  }

  /** What a flag contributes to the risk of an answer. */
  ghost function Part(s: Signals, f: Flag): real {
    if Holds(s, f) then Weight(f) else 0.0
  }

  lemma RaisedSnoc(s: Signals, fs: seq<Flag>, f: Flag)
    ensures Weights(Raised(s, fs + [f])) == Weights(Raised(s, fs)) + Part(s, f)
  {
    hide Holds, Weight, Weights;
    assert (fs + [f])[..|fs|] == fs;
    WeightsSnoc(Raised(s, fs), f);
    assert Raised(s, fs) + [] == Raised(s, fs);
  }

  /** The risk of an answer, written out. */
  lemma RawRiskIs(s: Signals)
    ensures RawRisk(s) == Part(s, EmptyOutput) + Part(s, VeryShort) + Part(s, HighHedging) + Part(s, Mismatch)
                          + Part(s, Contradictions) + Part(s, HighDrift) + Part(s, MoodShift) + Part(s, Citation)
                          + Part(s, Overclaim) + Short(s) + Hedging(s)
  {
    hide Part, Holds, Weight, Short, Hedging, Raised, Weights;
    NothingRaised(s);
    RaisedSnoc(s, [], EmptyOutput);
    RaisedSnoc(s, [EmptyOutput], VeryShort);
    RaisedSnoc(s, ALL_FLAGS[..2], HighHedging);
    RaisedSnoc(s, ALL_FLAGS[..3], Mismatch);
    RaisedSnoc(s, ALL_FLAGS[..4], Contradictions);
    RaisedSnoc(s, ALL_FLAGS[..5], HighDrift);
    RaisedSnoc(s, ALL_FLAGS[..6], MoodShift);
    RaisedSnoc(s, ALL_FLAGS[..7], Citation);
    RaisedSnoc(s, ALL_FLAGS[..8], Overclaim);
    assert [] + [EmptyOutput] == [EmptyOutput] && [EmptyOutput] + [VeryShort] == ALL_FLAGS[..2];
    assert ALL_FLAGS[..2] + [HighHedging] == ALL_FLAGS[..3] && ALL_FLAGS[..3] + [Mismatch] == ALL_FLAGS[..4];
    assert ALL_FLAGS[..4] + [Contradictions] == ALL_FLAGS[..5] && ALL_FLAGS[..5] + [HighDrift] == ALL_FLAGS[..6];
    assert ALL_FLAGS[..6] + [MoodShift] == ALL_FLAGS[..7] && ALL_FLAGS[..7] + [Citation] == ALL_FLAGS[..8];
    assert ALL_FLAGS[..8] + [Overclaim] == ALL_FLAGS;
  }

  lemma NothingRaised(s: Signals)
    ensures Weights(Raised(s, [])) == 0.0
  {
  }

  /** What each thing the evaluator sees adds to the risk. */
  lemma SignalsCost(s: Signals)
    ensures RawRisk(s.(mismatch := true)) == RawRisk(s.(mismatch := false)) + 200.0
    ensures RawRisk(s.(contradictions := true)) == RawRisk(s.(contradictions := false)) + 250.0
    ensures RawRisk(s.(drift := true)) == RawRisk(s.(drift := false)) + 120.0
    ensures RawRisk(s.(mood := true)) == RawRisk(s.(mood := false)) + 100.0
    ensures RawRisk(s.(citation := true)) == RawRisk(s.(citation := false)) + 150.0
    ensures RawRisk(s.(overclaim := true))
         == RawRisk(s.(overclaim := false)) + if s.hedges * 100 < 3 * s.words || s.words == 0 then 100.0 else 0.0
  {
    OnlyMismatch(s);
    OnlyContradictions(s);
    OnlyDrift(s);
    OnlyMood(s);
    OnlyCitation(s);
    OnlyOverclaim(s);
  }

  lemma OnlyMismatch(s: Signals)
    ensures RawRisk(s.(mismatch := true)) == RawRisk(s.(mismatch := false)) + 200.0
  {
    hide RawRisk;
    RawRiskIs(s.(mismatch := true));
    RawRiskIs(s.(mismatch := false));
  }

  lemma OnlyContradictions(s: Signals)
    ensures RawRisk(s.(contradictions := true)) == RawRisk(s.(contradictions := false)) + 250.0
  {
    hide RawRisk;
    RawRiskIs(s.(contradictions := true));
    RawRiskIs(s.(contradictions := false));
  }

  lemma OnlyDrift(s: Signals)
    ensures RawRisk(s.(drift := true)) == RawRisk(s.(drift := false)) + 120.0
  {
    hide RawRisk;
    RawRiskIs(s.(drift := true));
    RawRiskIs(s.(drift := false));
  }

  lemma OnlyMood(s: Signals)
    ensures RawRisk(s.(mood := true)) == RawRisk(s.(mood := false)) + 100.0
  {
    hide RawRisk;
    RawRiskIs(s.(mood := true));
    RawRiskIs(s.(mood := false));
  }

  lemma OnlyCitation(s: Signals)
    ensures RawRisk(s.(citation := true)) == RawRisk(s.(citation := false)) + 150.0
  {
    hide RawRisk;
    RawRiskIs(s.(citation := true));
    RawRiskIs(s.(citation := false));
  }

  lemma OnlyOverclaim(s: Signals)
    ensures RawRisk(s.(overclaim := true))
         == RawRisk(s.(overclaim := false)) + if s.hedges * 100 < 3 * s.words || s.words == 0 then 100.0 else 0.0
  {
    hide RawRisk;
    RawRiskIs(s.(overclaim := true));
    RawRiskIs(s.(overclaim := false));
    if s.words > 0 {
      RatioBelow(s.hedges, s.words, 3);
    }
  }

  lemma RatioBelow(hedges: nat, words: nat, percent: nat)
    requires words > 0
    ensures (hedges as real) / (words as real) < (percent as real) / 100.0 <==> hedges * 100 < percent * words
  {
    var q := (hedges as real) / (words as real);
    assert q * (words as real) == hedges as real;
    if q < (percent as real) / 100.0 {
      assert q * (words as real) < (percent as real) / 100.0 * (words as real);
    } else {
      assert q * (words as real) >= (percent as real) / 100.0 * (words as real);
    }
    assert ((percent * words) as real) == (percent as real) * (words as real);
  }

  lemma RatioInUnit(hedges: nat, words: nat)
    requires 0 < words && hedges <= words
    ensures 0.0 <= (hedges as real) / (words as real) <= 1.0
  {
    var q := (hedges as real) / (words as real);
    assert q * (words as real) == hedges as real;
  }

  /** How length and hedging count: an empty answer is rejected under every profile; fewer than 8 words cost
      0.40, fewer than 24 cost 0.20, and each hedge costs 0.45 over the words, 0.45 for one in every word. */
  lemma LengthCosts(s: Signals)
    requires !s.mismatch && !s.contradictions && !s.drift && !s.mood && !s.citation && !s.overclaim
    ensures s.words == 0 ==> RawRisk(s) == 850.0
    ensures s.words > 0 && s.hedges <= s.words ==>
              RawRisk(s) == (if s.words < 8 then 400.0 else if s.words < 24 then 200.0 else 0.0)
                            + 450.0 * ((s.hedges as real) / (s.words as real))
  {
    hide RawRisk;
    RawRiskIs(s);
    if s.words > 0 && s.hedges <= s.words {
      var q := (s.hedges as real) / (s.words as real);
      RatioInUnit(s.hedges, s.words);
    }
  }

  /** An answer without words is rejected, whatever else is seen. */
  lemma EmptyIsRejected(p: Profile, c: Config, s: Signals)
    requires s.words == 0
    ensures Judgement(p, c, Clamp(RawRisk(s))).decision == Reject
  {
    hide RawRisk, Round;
    RawRiskIs(s);
    DecidedExactly(p, c, Clamp(RawRisk(s)));
  }

  method AccumulateLengths(s: Signals) returns (flags: seq<Flag>, risk: real)
    ensures Account(s, [] + [EmptyOutput] + [VeryShort], flags, risk, Short(s) + Hedging(s))
  {
    flags, risk := [], 0.0;
    assert Account(s, [], flags, risk, 0.0);
    hide *;
    flags, risk := Raise(s, EmptyOutput, flags, risk, [], 0.0);
    flags, risk := Raise(s, VeryShort, flags, risk, [] + [EmptyOutput], 0.0);
    AccountLengths(s, [] + [EmptyOutput] + [VeryShort], flags, risk);
    if s.words < 8 {
      risk := risk + 200.0;
    }
    risk := risk + Hedging(s);
  }

  lemma AccountLengths(s: Signals, done: seq<Flag>, flags: seq<Flag>, risk: real)
    requires Account(s, done, flags, risk, 0.0)
    ensures var longer := if s.words < 8 then risk + 200.0 else risk;
            Account(s, done, flags, longer + Hedging(s), Short(s) + Hedging(s))
  {
    hide Raised, Weights, Hedging;
  }

  /** The flags raised are those that hold; the risk is their weights, plus what hedging adds, plus 0.20
      for fewer than eight words. */
  method Accumulate(s: Signals) returns (flags: seq<Flag>, risk: real)
    ensures flags == Raised(s, ALL_FLAGS) && risk == RawRisk(s)
    ensures forall f :: f in flags <==> Holds(s, f)
  {
    hide *;
    ghost var extra := Short(s) + Hedging(s);
    ghost var done := [] + [EmptyOutput] + [VeryShort];
    flags, risk := AccumulateLengths(s);
    flags, risk := Raise(s, HighHedging, flags, risk, done, extra);
    done := done + [HighHedging];
    flags, risk := Raise(s, Mismatch, flags, risk, done, extra);
    done := done + [Mismatch];
    flags, risk := Raise(s, Contradictions, flags, risk, done, extra);
    done := done + [Contradictions];
    flags, risk := Raise(s, HighDrift, flags, risk, done, extra);
    done := done + [HighDrift];
    flags, risk := Raise(s, MoodShift, flags, risk, done, extra);
    done := done + [MoodShift];
    flags, risk := Raise(s, Citation, flags, risk, done, extra);
    done := done + [Citation];
    flags, risk := Raise(s, Overclaim, flags, risk, done, extra);
    done := done + [Overclaim];
    Accounted(s, done, flags, risk);
  }

  lemma Accounted(s: Signals, done: seq<Flag>, flags: seq<Flag>, risk: real)
    requires Account(s, done, flags, risk, Short(s) + Hedging(s))
    requires done == [] + [EmptyOutput] + [VeryShort] + [HighHedging] + [Mismatch] + [Contradictions] + [HighDrift]
                     + [MoodShift] + [Citation] + [Overclaim]
    ensures flags == Raised(s, ALL_FLAGS) && risk == RawRisk(s)
    ensures forall f :: f in flags <==> Holds(s, f)
  {
    hide Holds, Weights, Raised, Short, Hedging;
    assert done == ALL_FLAGS;
    forall f ensures f in flags <==> Holds(s, f) {
      RaisedAreHolding(s, done, f);
      EveryFlag(done, f);
    }
  }

  lemma EveryFlag(done: seq<Flag>, f: Flag)
    requires done == [] + [EmptyOutput] + [VeryShort] + [HighHedging] + [Mismatch] + [Contradictions] + [HighDrift]
                     + [MoodShift] + [Citation] + [Overclaim]
    ensures f in done
  {
    assert done[0] == EmptyOutput && done[1] == VeryShort && done[2] == HighHedging && done[3] == Mismatch;
    assert done[4] == Contradictions && done[5] == HighDrift && done[6] == MoodShift;
    assert done[7] == Citation && done[8] == Overclaim;
  }

  function NameOf(f: Flag): Key {
    match f
    case EmptyOutput => ["empty_output"]
    case VeryShort => ["very_short_output"]
    case HighHedging => ["high_hedging"]
    case Mismatch => ["task_output_mismatch"]
    case Contradictions => ["branch_contradictions"]
    case HighDrift => ["high_topic_drift"]
    case MoodShift => ["high_mood_shift"]
    case Citation => ["citation_risk"]
    case Overclaim => ["overassertive_claim"]
  }

  lemma NamesDiffer(f: Flag, g: Flag)
    requires NameOf(f) == NameOf(g)
    ensures f == g
  {
    var n, m := NameOf(f)[0], NameOf(g)[0];
    assert |n| == |m| && n[0] == m[0];
  }

  method NamesOf(flags: seq<Flag>) returns (names: seq<Key>)
    ensures |names| == |flags| && forall i :: 0 <= i < |flags| ==> names[i] == NameOf(flags[i])
  {
    hide NameOf;
    names := [];
    for i := 0 to |flags|
      invariant |names| == i && forall j :: 0 <= j < i ==> names[j] == NameOf(flags[j])
    {
      names := names + [NameOf(flags[i])];
    }
  }

  /** The flags of an answer as reported: sorted by name, without repetitions, and just those that hold. */
  ghost predicate Reports(s: Signals, names: seq<Key>) {
    && Ascending(names)
    && (forall f :: NameOf(f) in names <==> Holds(s, f))
    && (forall n :: n in names ==> exists f :: n == NameOf(f))
  }

  lemma SortedNamesReport(s: Signals, flags: seq<Flag>, names: seq<Key>)
    requires forall f :: f in flags <==> Holds(s, f)
    requires |names| == |flags| && forall i :: 0 <= i < |flags| ==> names[i] == NameOf(flags[i])
    ensures Reports(s, ListOf(names))
  {
    hide Holds, NameOf, Less, Ascending;
    ListOfLists(names);
    forall f ensures NameOf(f) in ListOf(names) <==> Holds(s, f) {
      if f in flags {
        var i :| 0 <= i < |flags| && flags[i] == f;
        assert names[i] == NameOf(f);
      }
      if NameOf(f) in names {
        var i :| 0 <= i < |names| && names[i] == NameOf(f);
        NamesDiffer(f, flags[i]);
      }
    }
    forall n | n in ListOf(names) ensures exists f :: n == NameOf(f) {
      var i :| 0 <= i < |names| && names[i] == n;
      assert n == NameOf(flags[i]);
    }
  }

  /** What an answer is reported for, by the names given. */
  lemma ReportedFor(s: Signals, names: seq<Key>)
    requires Reports(s, names)
    ensures ["empty_output"] in names <==> s.words == 0
    ensures ["very_short_output"] in names <==> 1 <= s.words <= 23
    ensures ["high_hedging"] in names <==> s.words > 0 && 100 * s.hedges >= 12 * s.words
    ensures ["task_output_mismatch"] in names <==> s.mismatch
    ensures ["branch_contradictions"] in names <==> s.contradictions
    ensures ["high_topic_drift"] in names <==> s.drift
    ensures ["high_mood_shift"] in names <==> s.mood
    ensures ["citation_risk"] in names <==> s.citation
    ensures ["overassertive_claim"] in names <==> s.overclaim && (s.words == 0 || 100 * s.hedges < 3 * s.words)
  {
    hide NameOf, HedgingRatio;
    NamesAre();
    HedgingShares(s);
  }

  lemma NamesAre()
    ensures NameOf(EmptyOutput) == ["empty_output"] && NameOf(VeryShort) == ["very_short_output"]
    ensures NameOf(HighHedging) == ["high_hedging"] && NameOf(Mismatch) == ["task_output_mismatch"]
    ensures NameOf(Contradictions) == ["branch_contradictions"] && NameOf(HighDrift) == ["high_topic_drift"]
    ensures NameOf(MoodShift) == ["high_mood_shift"] && NameOf(Citation) == ["citation_risk"]
    ensures NameOf(Overclaim) == ["overassertive_claim"]
  {
  }

  lemma HedgingShares(s: Signals)
    ensures HedgingRatio(s) >= 0.12 <==> s.words > 0 && 100 * s.hedges >= 12 * s.words
    ensures HedgingRatio(s) < 0.03 <==> s.words == 0 || 100 * s.hedges < 3 * s.words
  {
    if s.words > 0 {
      RatioBelow(s.hedges, s.words, 12);
      RatioBelow(s.hedges, s.words, 3);
    }
  }

  /** The result is what the profile decides about that risk, clamped. */
  method Evaluate(p: Profile, c: Config, s: Signals) returns (r: Result, names: seq<Key>)
    ensures r == Judgement(p, c, Clamp(RawRisk(s)))
    ensures Reports(s, names)
  {
    hide *;
    var flags, risk := Accumulate(s);
    risk := Clamp(risk);
    r := Judgement(p, c, risk);
    names := NamesOf(flags);
    SortedNamesReport(s, flags, names);
    names := SortDistinct(names);
  }

  lemma RoundedRange(x: real)
    requires 0.0 <= x <= 1000.0
    ensures 0 <= Round(x) <= 1000
  {
    RoundMonotone(0.0, x);
    RoundMonotone(x, 1000.0);
    RoundWhole(0);
    RoundWhole(1000);
  }

  /** An answer that raises no flag is never rejected, and is accepted wherever the accept threshold leaves
      room for the hedging that goes unflagged. */
  lemma UnflaggedIsNotRejected(p: Profile, c: Config, s: Signals)
    requires forall f :: !Holds(s, f)
    ensures var r := Judgement(p, c, Clamp(RawRisk(s)));
            r.decision != Reject && (c.accept <= 946.0 && c.strict <= 946.0 ==> r.decision == Accept)
  {
    hide HedgingRatio, Raised, Round;
    assert !Holds(s, EmptyOutput) && !Holds(s, VeryShort) && !Holds(s, HighHedging);
    if Raised(s, ALL_FLAGS) != [] {
      RaisedAreHolding(s, ALL_FLAGS, Raised(s, ALL_FLAGS)[0]);
    }
    assert HedgingRatio(s) * 450.0 < 54.0;
  }

  // ----- The chain

  datatype Lens = Consistency | Risk | PolicyLens | Factuality | Style

  function LensNamed(name: string): Lens {
    var v := Lower(Trim(name));
    if v == "consistency" then Consistency else if v == "policy" then PolicyLens
    else if v == "factuality" then Factuality else if v == "style" then Style else Risk
  }

  function LensesNamed(names: seq<string>): (lenses: seq<Lens>)
    ensures |lenses| == |names|
  {
    seq(|names|, i requires 0 <= i < |names| => LensNamed(names[i]))
  }

  /** The lenses come in the order of their names. */
  lemma LensesInOrder(names: seq<string>, i: nat)
    requires i < |names|
    ensures LensesNamed(names)[i] == LensNamed(names[i])
  {
    hide LensNamed;
  }

  /** What the lenses find in the answer. */
  datatype Hints = Hints(conflict: bool, uncertain: bool, bypass: bool, citation: bool, verbose: bool)

  function Bump(l: Lens, h: Hints): (n: nat)
  {
    match l
    case Consistency => if h.conflict then 50 else 0
    case Risk => if h.uncertain then 50 else 0
    case PolicyLens => if h.bypass then 250 else 0
    case Factuality => if h.citation then 80 else 0
    case Style => if h.verbose then 50 else 0
  }

  /** The thresholds every lens uses, whatever the evaluator's configuration. */
  const LENS_CONFIG := Config(720.0, 820.0)

  function Apply(l: Lens, base: Result, h: Hints): Result {
    var risk := if base.risk + Bump(l, h) > 1000 then 1000 else base.risk + Bump(l, h);
    Result(Decide(base.profile, (1000 - risk) as real, risk as real, LENS_CONFIG), 1000 - risk, risk, base.profile)
  }

  datatype StopReason = Disabled | BudgetExhausted | PolicyReject | RiskBelowThreshold | NoImprovement

  datatype Step = Step(lens: Lens, result: Result)

  datatype ChainResult = ChainResult(depth: nat, stop: StopReason, nodes: seq<Step>, final: Result)

  function Distance(a: int, b: int): nat {
    if a < b then b - a else a - b
  }

  /** The reason to stop after the last of `nodes`, if there is one. */
  function StopAfter(nodes: seq<Step>): StopReason
    requires nodes != []
  {
    var cur := nodes[|nodes| - 1];
    if cur.lens.PolicyLens? && cur.result.decision.Reject? then PolicyReject
    else if cur.result.risk <= 300 then RiskBelowThreshold
    else if |nodes| >= 2 && Distance(nodes[|nodes| - 2].result.risk, cur.result.risk) < 10
            && Distance(nodes[|nodes| - 2].result.confidence, cur.result.confidence) < 10 then NoImprovement
    else BudgetExhausted
  }

  ghost function Bumps(chain: seq<Lens>, h: Hints): nat {
    if chain == [] then 0 else Bumps(chain[..|chain| - 1], h) + Bump(chain[|chain| - 1], h)
  }

  /** The risk of a base result after some lenses, whatever their order. */
  ghost function RiskAfter(base: int, chain: seq<Lens>, h: Hints): int {
    if base + Bumps(chain, h) > 1000 then 1000 else base + Bumps(chain, h)
  }

  ghost predicate NodeOf(node: Step, base: Result, chain: seq<Lens>, h: Hints, k: nat)
    requires k < |chain|
  {
    && node.lens == chain[k]
    && node.result.risk == RiskAfter(base.risk, chain[..k + 1], h)
    && node.result.confidence == 1000 - node.result.risk
    && node.result.profile == base.profile
    && JudgedAt(node.result, base.profile, LENS_CONFIG, node.result.risk as real)
  }

  /** The nodes of a chain that has not stopped before its last one. */
  ghost predicate Nodes(nodes: seq<Step>, base: Result, chain: seq<Lens>, h: Hints) {
    && |nodes| <= |chain|
    && (forall k :: 0 <= k < |nodes| ==> NodeOf(nodes[k], base, chain, h, k))
    && (forall k :: 0 < k < |nodes| ==> StopAfter(nodes[..k]) == BudgetExhausted)
  }

  function Limit<T>(chain: seq<T>, maxDepth: int): nat {
    if maxDepth <= 0 then 0 else if maxDepth > |chain| then |chain| else maxDepth
  }

  /** A whole run of the chain over `base`: disabled without lenses or depth; else the nodes up to the
      first reason to stop, or up to the depth limit. */
  ghost predicate Chained(out: ChainResult, base: Result, chain: seq<Lens>, maxDepth: int, h: Hints) {
    if Limit(chain, maxDepth) == 0 then out == ChainResult(0, Disabled, [], base)
    else
      && out.depth == |out.nodes| && 1 <= out.depth <= Limit(chain, maxDepth)
      && Nodes(out.nodes, base, chain, h)
      && out.final == out.nodes[out.depth - 1].result
      && out.stop == StopAfter(out.nodes)
      && (out.stop == BudgetExhausted ==> out.depth == Limit(chain, maxDepth))
  }

  lemma NodeIsJudged(node: Step, base: Result, chain: seq<Lens>, h: Hints, k: nat)
    requires k < |chain| && NodeOf(node, base, chain, h, k)
    ensures JudgedAt(node.result, base.profile, LENS_CONFIG, node.result.risk as real)
    ensures Judged(node.result, base.profile, LENS_CONFIG) && node.result.profile == base.profile
  {
    hide RiskAfter, Decide, Round;
  }

  lemma AppliedNode(prev: Result, base: Result, chain: seq<Lens>, h: Hints, k: nat)
    requires k < |chain| && 0 <= base.risk <= 1000
    requires prev.profile == base.profile && prev.risk == RiskAfter(base.risk, chain[..k], h)
    ensures var r := Apply(chain[k], prev, h);
            && NodeOf(Step(chain[k], r), base, chain, h, k)
            && r.profile == base.profile && r.risk == RiskAfter(base.risk, chain[..k + 1], h)
  {
    hide Decide, Bump, Round;
    var r := Apply(chain[k], prev, h);
    assert chain[..k + 1][..k] == chain[..k];
    RoundWhole(r.risk);
    RoundWhole(1000 - r.risk);
    assert JudgedAt(r, base.profile, LENS_CONFIG, r.risk as real);
  }

  lemma NodesGrow(nodes: seq<Step>, node: Step, base: Result, chain: seq<Lens>, h: Hints)
    requires Nodes(nodes, base, chain, h) && |nodes| < |chain| && NodeOf(node, base, chain, h, |nodes|)
    requires nodes != [] ==> StopAfter(nodes) == BudgetExhausted
    ensures Nodes(nodes + [node], base, chain, h)
  {
    hide NodeOf, StopAfter;
    var longer := nodes + [node];
    forall k | 0 < k < |longer| ensures StopAfter(longer[..k]) == BudgetExhausted {
      assert longer[..k] == nodes[..k];
      assert k == |nodes| ==> nodes[..k] == nodes;
    }
  }

  lemma NoNodes(base: Result, chain: seq<Lens>, h: Hints)
    requires base.risk <= 1000
    ensures Nodes([], base, chain, h) && RiskAfter(base.risk, chain[..0], h) == base.risk
  {
  }

  /** `EvaluateChain` over the evaluator's own result for the answer. */
  method EvaluateChain(base: Result, names: seq<string>, maxDepth: int, h: Hints) returns (out: ChainResult)
    requires 0 <= base.risk <= 1000
    ensures Chained(out, base, LensesNamed(names), maxDepth, h)
  {
    hide LensNamed;
    ghost var chain := LensesNamed(names);
    hide Apply, Bump, Bumps, RiskAfter, Nodes, NodeOf, StopAfter, Judged;
    NoNodes(base, chain, h);
    if |names| == 0 || maxDepth <= 0 {
      return ChainResult(0, Disabled, [], base);
    }
    var limit := Limit(names, maxDepth);
    var nodes: seq<Step> := [];
    var final := base;
    var stop := BudgetExhausted;
    var i := 0;
    while i < limit
      invariant i == |nodes| <= limit
      invariant Nodes(nodes, base, chain, h)
      invariant final.profile == base.profile && final.risk == RiskAfter(base.risk, chain[..i], h)
      invariant nodes != [] ==> final == nodes[i - 1].result && StopAfter(nodes) == BudgetExhausted
      invariant stop == BudgetExhausted
    {
      var lens := LensNamed(names[i]);
      AppliedNode(final, base, chain, h, i);
      var longer := nodes + [Step(lens, Apply(lens, final, h))];
      assert longer[..i] == nodes;
      NodesGrow(nodes, longer[i], base, chain, h);
      final := longer[i].result;
      nodes := longer;
      stop := StopAfter(nodes);
      if stop != BudgetExhausted {
        break;
      }
      i := i + 1;
    }
    out := ChainResult(|nodes|, stop, nodes, final);
  }

  /** From node to node the risk never falls. */
  lemma {:induction false} RiskNeverFalls(out: ChainResult, base: Result, chain: seq<Lens>, maxDepth: int,
                                          h: Hints, i: nat, j: nat)
    requires Chained(out, base, chain, maxDepth, h) && i <= j < out.depth
    ensures out.nodes[i].result.risk <= out.nodes[j].result.risk
    decreases j
  {
    hide Judged, StopAfter;
    if i < j {
      RiskNeverFalls(out, base, chain, maxDepth, h, i, j - 1);
      assert NodeOf(out.nodes[j], base, chain, h, j) && NodeOf(out.nodes[j - 1], base, chain, h, j - 1);
      assert chain[..j + 1][..j] == chain[..j];
    }
  }

  /** A chain stops for a low risk exactly when its first node has one, and then at that node. */
  lemma LowRiskStopsAtOnce(out: ChainResult, base: Result, chain: seq<Lens>, maxDepth: int, h: Hints)
    requires Chained(out, base, chain, maxDepth, h) && out.stop != Disabled
    ensures out.stop == RiskBelowThreshold <==> out.nodes[0].result.risk <= 300
    ensures out.stop == RiskBelowThreshold ==> out.depth == 1
    ensures out.stop == RiskBelowThreshold <==> out.final.risk <= 300
  {
    hide Judged, JudgedAt, RiskAfter, Round;
    RiskNeverFalls(out, base, chain, maxDepth, h, 0, out.depth - 1);
    var first := out.nodes[0];
    assert NodeOf(first, base, chain, h, 0);
    NodeIsJudged(first, base, chain, h, 0);
    if first.result.risk <= 300 {
      LowRiskIsNotRejected(first.result, base.profile);
      assert out.nodes[..1] == [first];
      assert StopAfter([first]) == RiskBelowThreshold;
    }
  }

  lemma LowRiskIsNotRejected(r: Result, p: Profile)
    requires Judged(r, p, LENS_CONFIG) && r.risk <= 300
    ensures r.decision != Reject
  {
    var raw: real :| JudgedAt(r, p, LENS_CONFIG, raw);
    assert raw < 301.0;
  }

  /** A chain stops for want of improvement only from its second node on, when the last lens found nothing
      or the risk was already at its maximum. */
  lemma NoImprovementMeans(out: ChainResult, base: Result, chain: seq<Lens>, maxDepth: int, h: Hints)
    requires 0 <= base.risk <= 1000
    requires Chained(out, base, chain, maxDepth, h) && out.stop == NoImprovement
    ensures out.depth >= 2
    ensures Bump(chain[out.depth - 1], h) == 0 || out.nodes[out.depth - 2].result.risk > 990
  {
    hide Judged, Round;
    var k := out.depth - 1;
    assert NodeOf(out.nodes[k], base, chain, h, k) && NodeOf(out.nodes[k - 1], base, chain, h, k - 1);
    assert chain[..k + 1][..k] == chain[..k];
  }

  /** What a lens decides: the thresholds are its own, 0.72 and 0.82, not those of the evaluator. */
  lemma LensDecides(out: ChainResult, base: Result, chain: seq<Lens>, maxDepth: int, h: Hints, k: nat)
    requires Chained(out, base, chain, maxDepth, h) && k < out.depth
    ensures var r := out.nodes[k].result;
            && (r.decision == Accept <==> r.risk <= if base.profile == Strict then 180 else 280)
            && (r.decision == Reject <==>
                r.risk >= match base.profile case Fast => 700 case Default => 640 case Strict => 580)
  {
    hide Judged, RiskAfter, StopAfter, Decide, Round;
    assert NodeOf(out.nodes[k], base, chain, h, k);
    var raw := out.nodes[k].result.risk as real;
    DecidedExactly(base.profile, LENS_CONFIG, raw);
  }

  /** What a chain of one lens adds to a risk, for every name: names it does not know count as the risk lens. */
  lemma OneLens(out: ChainResult, base: Result, name: string, maxDepth: int, h: Hints)
    requires maxDepth >= 1 && 0 <= base.risk <= 1000 && Chained(out, base, LensesNamed([name]), maxDepth, h)
    ensures var v := Lower(Trim(name));
            var added :=
              if v == "consistency" then (if h.conflict then 50 else 0)
              else if v == "policy" then (if h.bypass then 250 else 0)
              else if v == "factuality" then (if h.citation then 80 else 0)
              else if v == "style" then (if h.verbose then 50 else 0)
              else (if h.uncertain then 50 else 0);
            out.final.risk == if base.risk + added > 1000 then 1000 else base.risk + added
  {
    hide Lower, Trim, LensNamed, Judged, StopAfter, Bump;
    var lenses := [LensNamed(name)];
    assert LensesNamed([name]) == lenses;
    assert NodeOf(out.nodes[0], base, lenses, h, 0);
    OneBump(LensNamed(name), h);
    BumpNamed(name, h);
    assert lenses[..1] == lenses;
  }

  lemma OneBump(lens: Lens, h: Hints)
    ensures Bumps([lens], h) == Bump(lens, h)
  {
    hide Bump;
    assert [lens][..0] == [];
  }

  lemma BumpNamed(name: string, h: Hints)
    ensures var v := Lower(Trim(name));
            Bump(LensNamed(name), h)
            == if v == "consistency" then (if h.conflict then 50 else 0)
               else if v == "policy" then (if h.bypass then 250 else 0)
               else if v == "factuality" then (if h.citation then 80 else 0)
               else if v == "style" then (if h.verbose then 50 else 0)
               else (if h.uncertain then 50 else 0)
  {
    hide Lower, Trim;
  }

  /** Exactly when a chain stops for policy: at a policy lens that rejects, whichever comes first. */
  lemma PolicyStopsExactly(out: ChainResult, base: Result, chain: seq<Lens>, maxDepth: int, h: Hints, k: nat)
    requires Chained(out, base, chain, maxDepth, h) && k < out.depth
    ensures out.nodes[k].lens == PolicyLens && out.nodes[k].result.decision == Reject <==>
            k == out.depth - 1 && out.stop == PolicyReject
  {
    hide NodeOf;
    if k < out.depth - 1 {
      assert StopAfter(out.nodes[..k + 1]) == BudgetExhausted;
    }
  }

  /** From its second node on a chain of risks above 0.30 goes on only past a lens that added something. */
  lemma IdleLensStops(out: ChainResult, base: Result, chain: seq<Lens>, maxDepth: int, h: Hints, k: nat)
    requires Chained(out, base, chain, maxDepth, h) && 0 < k < out.depth - 1
    ensures out.nodes[k].result.risk >= out.nodes[k - 1].result.risk + 10
  {
    hide Bump;
    RiskNeverFalls(out, base, chain, maxDepth, h, k - 1, k);
    assert NodeOf(out.nodes[k], base, chain, h, k) && NodeOf(out.nodes[k - 1], base, chain, h, k - 1);
    assert StopAfter(out.nodes[..k + 1]) == BudgetExhausted;
  }
}
