/** What the executor's constructor and the per-request clamps leave of any configuration: exactly the
    conditions the modes rely on. */
module ExecutorSettings {
  import opened Options
  import MctsSearch
  import MultiAgent
  import TreeOfThought

  /** The configured top-K while a mode runs, and at synthesis. */
  datatype TopK = TopK(running: int, synth: int)

  method NormalizeTopK(top: int, synth: int, defaultTop: nat, defaultSynth: nat) returns (t: nat, s: nat)
    requires 1 <= defaultTop && 1 <= defaultSynth
    ensures 1 <= s <= t
    ensures t == if top > 0 then top else defaultTop
    ensures 0 < synth <= t ==> s == synth
    ensures synth > t ==> s == t
    ensures synth <= 0 ==> s == if defaultSynth > t then t else defaultSynth
  {
    t, s := defaultTop, defaultSynth;
    if top > 0 {
      t := top;
    }
    if synth > 0 {
      s := synth;
    }
    if s > t {
      s := t;
    }
  }

  /** Rollouts and depth: the request's wish within the configured maximum. */
  method ResolveLimit(configured: int, max: nat, wish: Option<int>) returns (n: nat)
    requires max >= 1
    ensures 1 <= n <= max
    ensures wish.Some? && wish.value > 0 ==> n == if wish.value > max then max else wish.value
    ensures wish.None? || wish.value <= 0 ==>
              n == if configured < 1 then 1 else if configured > max then max else configured
  {
    var k := configured;
    if wish.Some? && wish.value > 0 {
      k := wish.value;
    }
    if k < 1 {
      k := 1;
    }
    if k > max {
      k := max;
    }
    n := k;
  }

  method ResolveWindow(configured: int, wish: Option<int>) returns (window: nat)
    ensures window >= 2
    ensures wish.Some? && wish.value >= 1 ==> window == if wish.value == 1 then 2 else wish.value
    ensures wish.None? || wish.value <= 0 ==> window == if configured >= 2 then configured else 2
  {
    var w := configured;
    if wish.Some? && wish.value > 0 {
      w := wish.value;
    }
    window := if w < 2 then 2 else w;
  }

  method ResolveDelta(configured: real, wish: Option<real>) returns (delta: real)
    ensures 0.0 <= delta <= 0.2
    ensures wish.Some? && wish.value > 0.0 ==> delta == if wish.value <= 0.2 then wish.value else 0.2
    ensures wish.None? || wish.value <= 0.0 ==>
              (0.0 <= configured <= 0.2 ==> delta == configured)
              && (configured < 0.0 ==> delta == 0.0) && (configured > 0.2 ==> delta == 0.2)
  {
    delta := configured;
    if wish.Some? && wish.value > 0.0 {
      delta := wish.value;
    }
    if delta < 0.0 {
      delta := 0.0;
    }
    if delta > 0.2 {
      delta := 0.2;
    }
  }

  method ResolveExploration(configured: real, wish: Option<real>) returns (exploration: real)
    ensures 0.0 < exploration <= 3.0
    ensures wish.Some? && wish.value > 0.0 ==> exploration == if wish.value <= 3.0 then wish.value else 3.0
    ensures wish.None? || wish.value <= 0.0 ==>
              (0.0 < configured <= 3.0 ==> exploration == configured)
              && (configured <= 0.0 ==> exploration == 1.2) && (configured > 3.0 ==> exploration == 3.0)
  {
    exploration := configured;
    if wish.Some? && wish.value > 0.0 {
      exploration := wish.value;
    }
    if exploration <= 0.0 {
      exploration := 1.2;
    } else if exploration > 3.0 {
      exploration := 3.0;
    }
  }

  method NormalizeMinScore(minScore: int) returns (m: int)
    ensures 0 <= m <= 1000 && (0 <= minScore <= 1000 ==> m == minScore)
    ensures (minScore < 0 ==> m == 0) && (minScore > 1000 ==> m == 1000)
  {
    m := minScore;
    if m < 0 {
      m := 0;
    }
    if m > 1000 {
      m := 1000;
    }
  }

  predicate Unset(k: TopK) {
    k.running == 0 && k.synth == 0
  }

  /** A configuration that leaves pruning off and every number of it at zero gets it on. */
  method NormalizePruning(pruning: bool, minScore: int, mcts: TopK, tot: TopK, agents: TopK) returns (on: bool)
    ensures on <==> pruning || (minScore == 0 && Unset(mcts) && Unset(tot) && Unset(agents))
  {
    on := pruning;
    if !pruning && minScore == 0 && tot.running == 0 && tot.synth == 0 && mcts.running == 0 && mcts.synth == 0
       && agents.running == 0 && agents.synth == 0 {
      on := true;
    }
  }

  /** Whatever is configured and requested, every mode runs under settings that are valid for it. */
  method Resolve(pruning: bool, minScore: int, mctsTop: TopK, totTop: TopK, agentsTop: TopK,
                 window: int, wishWindow: Option<int>, delta: real, wishDelta: Option<real>)
    returns (mcts: MctsSearch.Config, tot: TreeOfThought.Config, agents: MultiAgent.Config)
    ensures mcts.Valid() && tot.Valid() && agents.Valid()
    ensures mcts.pruning == tot.pruning == agents.pruning
    ensures mcts.pruning <==> pruning || (minScore == 0 && Unset(mctsTop) && Unset(totTop) && Unset(agentsTop))
    ensures mcts.minScore == tot.minScore == agents.minScore
    ensures 0 <= minScore <= 1000 ==> mcts.minScore == minScore
    ensures 1 <= mctsTop.synth <= mctsTop.running ==> TopK(mcts.poolTopK, mcts.synthTopK) == mctsTop
    ensures 1 <= totTop.synth <= totTop.running ==> TopK(tot.topK, tot.synthTopK) == totTop
    ensures 1 <= agentsTop.synth <= agentsTop.running ==> TopK(agents.roundTopK, agents.synthTopK) == agentsTop
    ensures mctsTop == TopK(0, 0) ==> TopK(mcts.poolTopK, mcts.synthTopK) == TopK(6, 3)
    ensures totTop == TopK(0, 0) ==> TopK(tot.topK, tot.synthTopK) == TopK(3, 2)
    ensures agentsTop == TopK(0, 0) ==> TopK(agents.roundTopK, agents.synthTopK) == TopK(4, 3)
    ensures wishWindow == None && window >= 2 ==> mcts.stopWindow == window
    ensures wishWindow.Some? && wishWindow.value >= 2 ==> mcts.stopWindow == wishWindow.value
    ensures wishDelta == None && 0.0 <= delta <= 0.2 ==> mcts.stopDelta == delta
    ensures wishDelta.Some? && 0.0 < wishDelta.value <= 0.2 ==> mcts.stopDelta == wishDelta.value
  {
    var on := NormalizePruning(pruning, minScore, mctsTop, totTop, agentsTop);
    var m := NormalizeMinScore(minScore);
    var w := ResolveWindow(window, wishWindow);
    var d := ResolveDelta(delta, wishDelta);
    var t, s := NormalizeTopK(mctsTop.running, mctsTop.synth, 6, 3);
    mcts := MctsSearch.Config(on, m, t, s, w, d);
    t, s := NormalizeTopK(totTop.running, totTop.synth, 3, 2);
    tot := TreeOfThought.Config(on, m, t, s);
    t, s := NormalizeTopK(agentsTop.running, agentsTop.synth, 4, 3);
    agents := MultiAgent.Config(on, m, t, s);
  }
}
