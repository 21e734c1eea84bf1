/** The reflection loop of a chat completion: ask the upstream for a revision, evaluate it, adopt it only
    if it is better, up to four times. */
module Reflection {
  import opened Options
  import opened MetaReasoning

  /** An upstream answer: its identity and what the evaluator makes of it. */
  datatype Response = Response(id: int, signals: Signals, hints: Hints, crashes: bool)

  datatype Setup = Setup(
    profile: Profile, config: Config, chainOn: bool, chain: seq<string>, chainDepth: int,
    reflects: bool, triggerDecisions: set<Decision>) {

    /** The decisions that ask for a reflection. */
    function Triggers(): set<Decision> {
      if triggerDecisions == {} then {Caution, Reject} else triggerDecisions
    }

    predicate Triggered(meta: Result) {
      reflects && meta.decision in Triggers()
    }

    /** The thresholds an assessment is made with: the lenses have their own. */
    function Thresholds(): Config {
      if chainOn && Limit(chain, chainDepth) > 0 then LENS_CONFIG else config
    }
  }

  /** An answer with its evaluation. */
  datatype Version = Version(resp: Response, meta: Result, stop: StopReason)

  // ----- How many passes

  /** The last positive number, if any. */
  function LastPositive(ns: seq<int>, otherwise: int): int {
    if ns == [] then otherwise
    else if ns[|ns| - 1] > 0 then ns[|ns| - 1] else LastPositive(ns[..|ns| - 1], otherwise)
  }

  /** `metaReflectionPassesForRequest`: later settings win over earlier ones, and never more than four. */
  method PassesFor(layers: int, metaMax: int, selfMax: int, request: Option<(int, int, int)>) returns (passes: nat)
    ensures passes <= 4
    ensures request.Some? && request.value.2 >= 1 ==> passes == if request.value.2 < 4 then request.value.2 else 4
    ensures request == None && selfMax >= 1 ==> passes == if selfMax < 4 then selfMax else 4
    ensures var wish := LastPositive(
              [layers, selfMax] + if request.Some? then [request.value.0, request.value.1, request.value.2] else [],
              metaMax);
            passes == if wish < 0 then 0 else if wish > 4 then 4 else wish
  {
    var n := layers;
    if n <= 0 {
      n := metaMax;
    }
    if selfMax > 0 {
      n := selfMax;
    }
    ghost var settings := [layers, selfMax];
    LastPositiveSnoc([], layers, metaMax);
    LastPositiveSnoc([layers], selfMax, metaMax);
    assert [] + [layers] == [layers] && [layers] + [selfMax] == settings;
    if request.Some? {
      var (a, b, c) := request.value;
      LastPositiveSnoc(settings, a, metaMax);
      LastPositiveSnoc(settings + [a], b, metaMax);
      LastPositiveSnoc(settings + [a] + [b], c, metaMax);
      assert settings + [a] + [b] + [c] == settings + [a, b, c];
      if a > 0 {
        n := a;
      }
      if b > 0 {
        n := b;
      }
      if c > 0 {
        n := c;
      }
    } else {
      assert settings + [] == settings;
    }
    passes := if n < 0 then 0 else if n > 4 then 4 else n;
  }

  lemma LastPositiveSnoc(ns: seq<int>, n: int, otherwise: int)
    ensures LastPositive(ns + [n], otherwise) == if n > 0 then n else LastPositive(ns, otherwise)
  {
    assert (ns + [n])[..|ns|] == ns;
  }

  // ----- Assessing one answer

  ghost predicate Assessed(u: Setup, v: Version) {
    && Judged(v.meta, u.profile, u.Thresholds())
    && (u.chainOn && v.stop == RiskBelowThreshold ==> v.meta.risk <= 300)
    && exists c: ChainResult :: AssessedBy(u, v, c)
  }

  /** The evaluator's judgement of the answer, passed through the chain when that is on. */
  ghost predicate AssessedBy(u: Setup, v: Version, c: ChainResult) {
    var base := Judgement(u.profile, u.config, Clamp(RawRisk(v.resp.signals)));
    if u.chainOn then
      Chained(c, base, LensesNamed(u.chain), u.chainDepth, v.resp.hints) && v.meta == c.final && v.stop == c.stop
    else v.meta == base && v.stop == Disabled
  }

  method Assess(u: Setup, r: Response) returns (v: Option<Version>)
    ensures v == None <==> r.crashes
    ensures v.Some? ==> v.value.resp == r && Assessed(u, v.value)
  {
    assert !u.chainOn ==> u.Thresholds() == u.config;
    hide *;
    if r.crashes {
      return None;
    }
    var base, _ := Evaluate(u.profile, u.config, r.signals);
    JudgementIsJudged(u.profile, u.config, Clamp(RawRisk(r.signals)));
    var c := ChainResult(0, Disabled, [], base);
    if u.chainOn {
      c := EvaluateChain(base, u.chain, u.chainDepth, r.hints);
      FinalIsJudged(u, base, r.hints, c);
    }
    v := Some(Version(r, c.final, c.stop));
    VersionIsAssessed(u, v.value, base, c);
  }

  lemma VersionIsAssessed(u: Setup, v: Version, base: Result, c: ChainResult)
    requires base == Judgement(u.profile, u.config, Clamp(RawRisk(v.resp.signals)))
    requires v.meta == c.final && v.stop == c.stop
    requires if u.chainOn then Chained(c, base, LensesNamed(u.chain), u.chainDepth, v.resp.hints)
             else c == ChainResult(0, Disabled, [], base)
    requires Judged(c.final, u.profile, u.Thresholds()) && (c.stop == RiskBelowThreshold ==> c.final.risk <= 300)
    ensures Assessed(u, v)
  {
    hide Judged, Chained, Judgement, Clamp, RawRisk;
    assert AssessedBy(u, v, c);
  }

  lemma FinalIsJudged(u: Setup, base: Result, h: Hints, c: ChainResult)
    requires u.chainOn && Judged(base, u.profile, u.config)
    requires Chained(c, base, LensesNamed(u.chain), u.chainDepth, h)
    ensures Judged(c.final, u.profile, u.Thresholds())
    ensures c.stop == RiskBelowThreshold ==> c.final.risk <= 300
  {
    hide LensNamed, RiskAfter, Round, JudgedAt, StopAfter;
    assert base.profile == u.profile;
    if c.stop != Disabled {
      LowRiskStopsAtOnce(c, base, LensesNamed(u.chain), u.chainDepth, h);
      NodeIsJudged(c.nodes[c.depth - 1], base, LensesNamed(u.chain), h, c.depth - 1);
    }
  }

  // ----- One pass

  /** `shouldAdoptReflected` */
  predicate ShouldAdopt(before: Result, after: Result) {
    Rank(after.decision) > Rank(before.decision)
    || (Rank(after.decision) == Rank(before.decision) && before.risk - after.risk >= 30)
  }

  /** What adopting guarantees: the decision is no worse and the risk no higher, and one of them is better. */
  predicate Better(before: Result, after: Result) {
    && Rank(after.decision) >= Rank(before.decision) && after.risk <= before.risk
    && (Rank(after.decision) > Rank(before.decision) || after.risk <= before.risk - 30)
  }

  lemma AdoptedIsBetter(u: Setup, before: Version, after: Version)
    requires Assessed(u, before) && Assessed(u, after)
    ensures ShouldAdopt(before.meta, after.meta) <==> Better(before.meta, after.meta)
  {
    hide Judged, AssessedBy, Rank;
    if Rank(after.meta.decision) > Rank(before.meta.decision) {
      BetterDecisionLowerRisk(before.meta, after.meta, u.profile, u.Thresholds());
    }
  }

  datatype Attempt = Failed | Declined(offer: Version) | Adopted(version: Version)

  /** What one pass makes of the upstream's reply. */
  ghost predicate Tried(u: Setup, cur: Version, reply: Option<Response>, attempt: Attempt) {
    match attempt
    case Failed => Fails(reply)
    case Declined(v) => reply == Some(v.resp) && !Fails(reply) && Assessed(u, v) && !Better(cur.meta, v.meta)
    case Adopted(v) => reply == Some(v.resp) && !Fails(reply) && Assessed(u, v) && Better(cur.meta, v.meta)
  }

  /** No reply, or one the evaluator crashes on. */
  predicate Fails(reply: Option<Response>) {
    reply == None || reply.value.crashes
  }

  method Try(u: Setup, cur: Version, reply: Option<Response>) returns (attempt: Attempt)
    requires Assessed(u, cur)
    ensures Tried(u, cur, reply, attempt)
  {
    hide Assessed, Better, ShouldAdopt;
    if reply.None? {
      return Failed;
    }
    var v := Assess(u, reply.value);
    if v.None? {
      return Failed;
    }
    AdoptedIsBetter(u, cur, v.value);
    attempt := if ShouldAdopt(cur.meta, v.value.meta) then Adopted(v.value) else Declined(v.value);
  }

  // ----- The loop

  datatype Status = Off | Skipped | Applied | Error

  datatype Reason = NoTrigger | BudgetGuard | DecisionTrigger | UpstreamError | Stopped(stop: StopReason)

  datatype Outcome = Outcome(version: Version, status: Status, reason: Reason, passes: nat)

  /** How the loop came to its end. */
  datatype Ending = NotTried | ByFailure | ByDecline | ByChain | BySatisfaction | ByBudget

  /** The versions adopted, the first answer included: each better than the one before. */
  ghost predicate Improving(u: Setup, trail: seq<Version>) {
    && trail != []
    && (forall i :: 0 <= i < |trail| ==> Assessed(u, trail[i]))
    && (forall i :: 0 < i < |trail| ==> Better(trail[i - 1].meta, trail[i].meta))
  }

  /** The chain has the last word on version `v`. */
  predicate ChainEnds(u: Setup, v: Version) {
    u.chainOn && (v.stop == PolicyReject || v.stop == RiskBelowThreshold)
  }

  /** Every version that was revised was still triggering, and none but the first ended the chain. */
  ghost predicate StillOpen(u: Setup, trail: seq<Version>, n: nat)
    requires n <= |trail|
  {
    forall i :: 0 <= i < n ==> u.Triggered(trail[i].meta) && (i > 0 ==> !ChainEnds(u, trail[i]))
  }

  /** The end of a loop of `passes` passes, with `trail` the versions adopted. */
  ghost predicate Ended(u: Setup, max: nat, upstream: nat -> Option<Response>, trail: seq<Version>,
                        passes: nat, ending: Ending)
    requires trail != []
  {
    var cur := trail[|trail| - 1];
    match ending
    case NotTried => passes == 0 && |trail| == 1 && (max == 0 || !u.Triggered(cur.meta))
    case ByFailure =>
      && 1 <= passes <= max && |trail| == passes && StillOpen(u, trail, passes)
      && Tried(u, cur, upstream(passes), Failed)
    case ByDecline =>
      && 1 <= passes <= max && |trail| == passes && StillOpen(u, trail, passes)
      && exists v :: Tried(u, cur, upstream(passes), Declined(v))
    case ByChain => 1 <= passes <= max && |trail| == passes + 1 && ChainEnds(u, cur)
    case BySatisfaction =>
      1 <= passes <= max && |trail| == passes + 1 && !ChainEnds(u, cur) && !u.Triggered(cur.meta)
    case ByBudget =>
      1 <= passes == max && |trail| == passes + 1 && !ChainEnds(u, cur) && u.Triggered(cur.meta)
  }

  /** What the response headers report of a loop. */
  function StatusOf(u: Setup, ending: Ending, adopted: bool): Status {
    match ending
    case NotTried => if u.reflects then Skipped else Off
    case ByFailure => Error
    case ByDecline => if adopted then Applied else Skipped
    case _ => Applied
  }

  function ReasonOf(u: Setup, ending: Ending, first: Version, last: Version, adopted: bool): Reason {
    match ending
    case NotTried => if u.Triggered(first.meta) then BudgetGuard else NoTrigger
    case _ =>
      if !adopted && u.chainOn then Stopped(first.stop)
      else match ending
           case ByFailure => UpstreamError
           case ByDecline => if adopted then Stopped(NoImprovement) else DecisionTrigger
           case ByChain => Stopped(last.stop)
           case _ => DecisionTrigger
  }

  /** The outcome of a whole loop. The reply at pass `i` is `upstream(i)`: an answer, or an error. */
  ghost predicate Reflected(u: Setup, max: nat, first: Version, upstream: nat -> Option<Response>,
                            out: Outcome, trail: seq<Version>, ending: Ending)
  {
    && Improving(u, trail) && trail[0] == first && out.version == trail[|trail| - 1]
    && (forall i :: 0 < i < |trail| ==> upstream(i) == Some(trail[i].resp) && !Fails(upstream(i)))
    && StillOpen(u, trail, |trail| - 1)
    && Ended(u, max, upstream, trail, out.passes, ending) && out.passes <= max
    && out.status == StatusOf(u, ending, |trail| > 1)
    && out.reason == ReasonOf(u, ending, first, out.version, |trail| > 1)
  }

  method Reflect(u: Setup, max: nat, first: Version, upstream: nat -> Option<Response>)
    returns (out: Outcome, ghost trail: seq<Version>, ghost ending: Ending)
    requires Assessed(u, first)
    ensures Reflected(u, max, first, upstream, out, trail, ending)
    ensures out.passes <= max
  {
    hide Assessed, Fails, Better, Improving, Tried, Setup.Triggers;
    trail, ending := [first], NotTried;
    TrailStarts(u, first);
    out := Outcome(first, if u.reflects then Skipped else Off, NoTrigger, 0);
    if !u.Triggered(first.meta) {
      return;
    }
    if max < 1 {
      out := out.(reason := BudgetGuard);
      return;
    }
    var cur, appliedAny, pass := first, false, 0;
    var status, reason := Skipped, DecisionTrigger;
    ending := ByBudget;
    while pass < max
      invariant 0 <= pass <= max && |trail| == pass + 1
      invariant Improving(u, trail) && trail[0] == first && trail[pass] == cur
      invariant forall i :: 0 < i <= pass ==> upstream(i) == Some(trail[i].resp) && !Fails(upstream(i))
      invariant StillOpen(u, trail, |trail|)
      invariant appliedAny == (pass > 0) && status == (if appliedAny then Applied else Skipped)
      invariant reason == DecisionTrigger && ending == ByBudget
    {
      CurrentIsAssessed(u, trail, pass);
      pass := pass + 1;
      var attempt := Try(u, cur, upstream(pass));
      if attempt.Failed? {
        status, reason, ending := Error, UpstreamError, ByFailure;
        break;
      }
      if attempt.Declined? {
        if appliedAny {
          status, reason := Applied, Stopped(NoImprovement);
        }
        ending := ByDecline;
        break;
      }
      TrailGrows(u, trail, upstream(pass), attempt.version);
      cur := attempt.version;
      trail := trail + [cur];
      appliedAny, status := true, Applied;
      if u.chainOn && (cur.stop == PolicyReject || cur.stop == RiskBelowThreshold) {
        reason, ending := Stopped(cur.stop), ByChain;
        break;
      }
      if !u.Triggered(cur.meta) {
        ending := BySatisfaction;
        break;
      }
    }
    if !appliedAny && u.chainOn {
      reason := Stopped(first.stop);
    }
    out := Outcome(cur, status, reason, pass);
  }

  lemma TrailStarts(u: Setup, first: Version)
    requires Assessed(u, first)
    ensures Improving(u, [first])
  {
    hide Assessed;
  }

  lemma CurrentIsAssessed(u: Setup, trail: seq<Version>, i: nat)
    requires Improving(u, trail) && i < |trail|
    ensures Assessed(u, trail[i])
  {
    hide Assessed;
  }

  lemma TrailGrows(u: Setup, trail: seq<Version>, reply: Option<Response>, v: Version)
    requires Improving(u, trail) && Tried(u, trail[|trail| - 1], reply, Adopted(v))
    ensures Improving(u, trail + [v]) && reply == Some(v.resp) && !Fails(reply)
  {
    hide Assessed, Better;
  }

  // ----- What the loop is for

  /** Over a whole loop, for any replies, the decision never gets worse and the risk never rises; and every
      adoption along the way bought a better decision or at least 0.03 less risk. */
  lemma {:induction false} NeverWorse(u: Setup, trail: seq<Version>, i: nat, j: nat)
    requires Improving(u, trail) && i <= j < |trail|
    ensures Rank(trail[i].meta.decision) <= Rank(trail[j].meta.decision)
    ensures trail[j].meta.risk <= trail[i].meta.risk
    ensures trail[i].meta.risk - trail[j].meta.risk
            >= 30 * (j - i - (Rank(trail[j].meta.decision) - Rank(trail[i].meta.decision)))
    decreases j
  {
    hide Assessed;
    if i < j {
      NeverWorse(u, trail, i, j - 1);
      assert Better(trail[j - 1].meta, trail[j].meta);
    }
  }

  /** Error is reported exactly when the last reply failed. It does not mean that the first answer goes out:
      the reply before the failing one does. And the error is given as the reason exactly when there was such
      a reply, or when the chain is off. */
  lemma ErrorIsReported(u: Setup, max: nat, first: Version, upstream: nat -> Option<Response>,
                        out: Outcome, trail: seq<Version>, ending: Ending)
    requires Reflected(u, max, first, upstream, out, trail, ending)
    ensures out.status == Error <==> out.passes > 0 && Fails(upstream(out.passes))
    ensures out.status == Error && out.passes == 1 ==> out.version == first
    ensures out.status == Error && out.passes > 1 ==> upstream(out.passes - 1) == Some(out.version.resp)
    ensures out.status == Error ==> (out.reason == UpstreamError <==> out.passes > 1 || !u.chainOn)
  {
    hide Improving, StillOpen, Better, Assessed, Setup.Triggered, ChainEnds;
    assert trail != [] by {
      Inhabited(u, trail);
    }
    assert |trail| == out.passes + 1 > 1 ==> !Fails(upstream(out.passes));
  }

  /** When the loop asks the upstream at all: reflection is on, a pass is allowed, and the first decision is one
      of those configured; if none are configured, any that is not an acceptance. And what is reported: off
      exactly when reflection is, an error exactly after a failed reply, and otherwise applied exactly when
      some revision replaced the first answer. */
  lemma TriedExactly(u: Setup, max: nat, first: Version, upstream: nat -> Option<Response>,
                     out: Outcome, trail: seq<Version>, ending: Ending)
    requires Reflected(u, max, first, upstream, out, trail, ending)
    ensures out.passes > 0 <==>
            u.reflects && max >= 1
            && (first.meta.decision in u.triggerDecisions
                || (u.triggerDecisions == {} && first.meta.decision != Accept))
    ensures out.passes == 0 ==> out.version == first
    ensures out.status == Off <==> !u.reflects
    ensures out.status == Applied <==> |trail| > 1 && !Fails(upstream(out.passes))
  {
    hide Improving, Better, Assessed, ChainEnds;
    assert trail != [] by {
      Inhabited(u, trail);
    }
    assert first.meta.decision in u.Triggers() <==>
           first.meta.decision in u.triggerDecisions
           || (u.triggerDecisions == {} && first.meta.decision != Accept);
    assert |trail| > 1 ==> u.Triggered(trail[0].meta);
    assert |trail| == out.passes + 1 > 1 ==> !Fails(upstream(out.passes));
  }

  /** The reason given, in terms of what happened: nothing tried, the first reply not adopted, a later one not
      adopted, or the last one adopted. An adopted version that the chain ends on is the last. */
  lemma ReasonExactly(u: Setup, max: nat, first: Version, upstream: nat -> Option<Response>,
                      out: Outcome, trail: seq<Version>, ending: Ending)
    requires Reflected(u, max, first, upstream, out, trail, ending)
    ensures out.passes == 0 ==>
              (out.reason == BudgetGuard <==> u.Triggered(first.meta) && max == 0)
              && (out.reason == NoTrigger <==> !u.Triggered(first.meta))
    ensures out.passes > 0 && |trail| == 1 ==>
              out.reason == if u.chainOn then Stopped(first.stop)
                            else if Fails(upstream(1)) then UpstreamError else DecisionTrigger
    ensures out.passes == |trail| > 1 ==>
              out.reason == if Fails(upstream(out.passes)) then UpstreamError else Stopped(NoImprovement)
    ensures |trail| == out.passes + 1 > 1 ==>
              out.reason == if u.chainOn && out.version.stop in {PolicyReject, RiskBelowThreshold}
                            then Stopped(out.version.stop) else DecisionTrigger
    ensures out.passes == |trail| || |trail| == out.passes + 1
    ensures forall i :: 0 < i < |trail| && u.chainOn && trail[i].stop in {PolicyReject, RiskBelowThreshold} ==>
              i == |trail| - 1 == out.passes
  {
    hide Improving, Better, Assessed, Setup.Triggered;
    assert trail != [] by {
      Inhabited(u, trail);
    }
  }

  lemma Inhabited(u: Setup, trail: seq<Version>)
    requires Improving(u, trail)
    ensures trail != []
  {
  }

  // ----- Two loops that end in an error

  const PLAIN := Setup(Default, Config(720.0, 820.0), false, [], 0, true, {})
  const CHAINED := Setup(Default, Config(720.0, 820.0), true, ["risk"], 1, true, {})

  /** A caution with a risk of 0.45, and one with 0.42. */
  const RISKIER := Response(1, Signals(30, 0, true, true, false, false, false, false), NO_HINTS, false)
  const SAFER := Response(2, Signals(30, 0, true, false, true, true, false, false), NO_HINTS, false)
  const NO_HINTS := Hints(false, false, false, false, false)

  lemma RisksOfExamples()
    ensures RawRisk(RISKIER.signals) == 450.0 && RawRisk(SAFER.signals) == 420.0
  {
    hide RawRisk, Weights, Raised;
    RawRiskIs(RISKIER.signals);
    RawRiskIs(SAFER.signals);
  }

  lemma JudgementOfExamples()
    ensures var c := Config(720.0, 820.0);
            && Judgement(Default, c, Clamp(RawRisk(RISKIER.signals))) == Result(Caution, 550, 450, Default)
            && Judgement(Default, c, Clamp(RawRisk(SAFER.signals))) == Result(Caution, 580, 420, Default)
  {
    hide RawRisk;
    RisksOfExamples();
    RoundWhole(450);
    RoundWhole(550);
    RoundWhole(420);
    RoundWhole(580);
  }

  /** The first revision is adopted, the second call fails: the status is an error, and the revision goes out. */
  method ErrorAfterAdoption() returns (out: Outcome)
    ensures out.status == Error && out.reason == UpstreamError && out.version.resp == SAFER
  {
    hide *;
    var first := Assess(PLAIN, RISKIER);
    ExamplesDoNotCrash();
    var upstream: nat -> Option<Response> := i => if i == 1 then Some(SAFER) else None;
    ghost var trail, ending;
    out, trail, ending := Reflect(PLAIN, 2, first.value, upstream);
    SecondFails(first.value, upstream, out, trail, ending);
  }

  lemma ExamplesDoNotCrash()
    ensures !RISKIER.crashes && !SAFER.crashes
  {
  }

  lemma PlainMeta(v: Version, meta: Result)
    requires Assessed(PLAIN, v) && meta == Judgement(Default, Config(720.0, 820.0), Clamp(RawRisk(v.resp.signals)))
    ensures v.meta == meta && !ChainEnds(PLAIN, v)
  {
    hide Judged, Judgement, RawRisk, Chained;
  }

  lemma SecondFails(first: Version, upstream: nat -> Option<Response>, out: Outcome,
                    trail: seq<Version>, ending: Ending)
    requires Assessed(PLAIN, first) && first.resp == RISKIER
    requires upstream(1) == Some(SAFER) && upstream(2) == None
    requires Reflected(PLAIN, 2, first, upstream, out, trail, ending)
    ensures out.status == Error && out.reason == UpstreamError && out.version.resp == SAFER
  {
    hide Assessed, Judgement, RawRisk, Clamp;
    JudgementOfExamples();
    PlainMeta(first, Result(Caution, 550, 450, Default));
    forall v | Assessed(PLAIN, v) && v.resp == SAFER
      ensures v.meta == Result(Caution, 580, 420, Default) && !ChainEnds(PLAIN, v)
    {
      PlainMeta(v, Result(Caution, 580, 420, Default));
    }
    ErrorIsReported(PLAIN, 2, first, upstream, out, trail, ending);
  }

  /** The only call fails: the status is an error, but with the chain on the reason given is the chain's. */
  method HiddenError() returns (out: Outcome)
    ensures out.status == Error && out.passes == 1 && out.reason != UpstreamError
  {
    hide *;
    var first := Assess(CHAINED, RISKIER);
    ExamplesDoNotCrash();
    var upstream: nat -> Option<Response> := _ => None;
    ghost var trail, ending;
    out, trail, ending := Reflect(CHAINED, 1, first.value, upstream);
    OnlyCallFails(first.value, upstream, out, trail, ending);
  }

  lemma ChainKeepsTriggering(v: Version)
    requires Assessed(CHAINED, v) && v.resp == RISKIER
    ensures CHAINED.Triggered(v.meta)
  {
    hide RawRisk, Judgement, Clamp, LensNamed, Bump;
    JudgementOfExamples();
    var base := Result(Caution, 550, 450, Default);
    var c: ChainResult :| AssessedBy(CHAINED, v, c);
    assert Limit(CHAINED.chain, CHAINED.chainDepth) == 1;
    assert NodeOf(c.nodes[0], base, LensesNamed(CHAINED.chain), NO_HINTS, 0);
    NodeIsJudged(c.nodes[0], base, LensesNamed(CHAINED.chain), NO_HINTS, 0);
    HighRiskIsNotAccepted(v.meta);
  }

  lemma HighRiskIsNotAccepted(r: Result)
    requires Judged(r, Default, LENS_CONFIG) && r.risk >= 450
    ensures r.decision != Accept
  {
    var raw: real :| JudgedAt(r, Default, LENS_CONFIG, raw);
    assert raw > 449.0;
  }

  lemma OnlyCallFails(first: Version, upstream: nat -> Option<Response>, out: Outcome,
                      trail: seq<Version>, ending: Ending)
    requires Assessed(CHAINED, first) && first.resp == RISKIER && upstream(1) == None
    requires Reflected(CHAINED, 1, first, upstream, out, trail, ending)
    ensures out.status == Error && out.passes == 1 && out.reason != UpstreamError
  {
    hide Assessed, Setup.Triggered, Improving;
    ChainKeepsTriggering(first);
    ErrorIsReported(CHAINED, 1, first, upstream, out, trail, ending);
    Inhabited(CHAINED, trail);
  }
}
