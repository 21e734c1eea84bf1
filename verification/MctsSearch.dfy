/** One MCTS run: the rollout loop around the tree, the candidate pool it prunes after every success,
    the best-so-far history that stops it early, and the choice of what is synthesised. */
module MctsSearch {
  import opened MctsScore
  import opened MctsTree
  import opened Pruning
  import opened Ranking

  /** `minScore` counts thousandths; scores are whole thousandths, so every threshold equals one of these. */
  datatype Config = Config(
    pruning: bool, minScore: int, poolTopK: nat, synthTopK: nat, stopWindow: nat, stopDelta: real)
  {
    /** What the executor's constructor and the early-stop clamps leave of any configuration. */
    ghost predicate Valid() {
      1 <= synthTopK <= poolTopK && stopWindow >= 2 && 0.0 <= stopDelta <= 0.2
    }
  }

  /** `mctsActionPriorsForTask`, for a task name already trimmed and in lower case. */
  function ActionPriors(task: string): seq<ActionPrior> {
    match task
    case "coding" =>
      [ActionPrior("evidence_first", 0.50), ActionPrior("plan_first", 0.32), ActionPrior("risk_first", 0.18)]
    case "extraction" =>
      [ActionPrior("evidence_first", 0.46), ActionPrior("plan_first", 0.30), ActionPrior("risk_first", 0.24)]
    case _ =>
      [ActionPrior("plan_first", 0.40), ActionPrior("risk_first", 0.34), ActionPrior("evidence_first", 0.26)]
  }

  /** Every task offers three different actions, so every expansion adds exactly three nodes. The likeliest
      comes first, so an unvisited child list is tried in that order, and their priors add up to one. */
  lemma ActionsDiffer(task: string)
    ensures var actions := ActionPriors(task);
            && |actions| == 3
            && (forall i, j :: 0 <= i < j < 3 ==> actions[i].action != actions[j].action)
            && actions[0].prior > actions[1].prior > actions[2].prior > 0.0
            && actions[0].prior + actions[1].prior + actions[2].prior == 1.0
            && (if task in ["coding", "extraction"]
                then actions[0].action == "evidence_first" && actions[1].action == "plan_first"
                else actions[0].action == "plan_first" && actions[1].action == "risk_first")
            && actions[0].prior == (if task == "coding" then 0.50 else if task == "extraction" then 0.46 else 0.40)
            && actions[2].prior == (if task == "coding" then 0.18 else if task == "extraction" then 0.24 else 0.26)
  {
    var plan, risk := "plan_first", "risk_first";
    assert plan[0] == 'p' && risk[0] == 'r' && "evidence_first"[0] == 'e';
  }

  // ----- The best-so-far history

  function Highest(s: seq<Candidate>): int {
    if s == [] then -1
    else
      var best := Highest(s[..|s| - 1]);
      if s[|s| - 1].score > best then s[|s| - 1].score else best
  }

  lemma {:induction false} HighestIsMax(s: seq<Candidate>)
    ensures forall c :: c in s ==> c.score <= Highest(s)
    ensures s != [] && s[0].score >= 0 ==> exists c :: c in s && c.score == Highest(s)
  {
    if |s| == 1 {
      assert s[..0] == [];
    } else if s != [] {
      HighestIsMax(s[..|s| - 1]);
      assert s == s[..|s| - 1] + [s[|s| - 1]];
    }
  }

  /** The history the loop keeps: after each success, the highest score so far. */
  ghost predicate IsHistory(h: seq<int>, s: seq<Candidate>) {
    |h| == |s| && forall i :: 0 <= i < |s| ==> h[i] == Highest(s[..i + 1])
  }

  lemma HighestGrows(s: seq<Candidate>, x: Candidate)
    ensures Highest(s + [x]) == if x.score > Highest(s) then x.score else Highest(s)
  {
    assert (s + [x])[..|s|] == s;
  }

  lemma HistoryGrows(h: seq<int>, s: seq<Candidate>, x: Candidate)
    requires IsHistory(h, s)
    ensures IsHistory(h + [Highest(s + [x])], s + [x])
  {
    var longer := s + [x];
    forall i | 0 <= i < |longer| ensures (h + [Highest(longer)])[i] == Highest(longer[..i + 1]) {
      assert i < |s| ==> longer[..i + 1] == s[..i + 1];
      assert i == |s| ==> longer[..i + 1] == longer;
    }
  }

  lemma {:induction false} HistoryNeverFalls(h: seq<int>, s: seq<Candidate>, i: nat, j: nat)
    requires IsHistory(h, s) && i <= j < |h|
    ensures h[i] <= h[j]
    decreases j - i
  {
    if i < j {
      HistoryNeverFalls(h, s, i, j - 1);
      HighestGrows(s[..j], s[j]);
      assert s[..j + 1] == s[..j] + [s[j]];
    }
  }

  lemma HistoryOfPrefix(h: seq<int>, s: seq<Candidate>, k: nat)
    requires IsHistory(h, s) && k <= |s|
    ensures IsHistory(h[..k], s[..k])
  {
    hide Highest;
    forall i | 0 <= i < k ensures h[..k][i] == Highest(s[..k][..i + 1]) {
      assert s[..k][..i + 1] == s[..i + 1];
    }
  }

  /** `shouldEarlyStop` */
  predicate ShouldEarlyStop(h: seq<int>, window: nat, delta: real) {
    if |h| < window then false
    else
      var end := |h| - 1;
      var start := end - window + 1;
      if start < 0 || start > end then false
      else ((h[end] - h[start]) as real) / 1000.0 < delta
  }

  /** The search stops exactly when the last `window` successes together raised the best score by less
      than `delta`; with `delta` 0 it never does. */
  lemma StopsOnConvergence(h: seq<int>, s: seq<Candidate>, window: nat, delta: real)
    requires IsHistory(h, s) && window >= 2
    ensures ShouldEarlyStop(h, window, delta) <==>
            |s| >= window && ((Highest(s) - Highest(s[..|s| - window + 1])) as real) / 1000.0 < delta
    ensures delta == 0.0 ==> !ShouldEarlyStop(h, window, delta)
  {
    if |h| >= window {
      assert s[..|s|] == s;
      HistoryNeverFalls(h, s, |h| - window, |h| - 1);
    }
  }

  /** The last successes raised the best score of the run by less than it takes to go on. */
  predicate Converged(cfg: Config, s: seq<Candidate>) {
    var w := cfg.stopWindow;
    0 < w <= |s| && ((Highest(s) - Highest(s[..|s| - w + 1])) as real) / 1000.0 < cfg.stopDelta
  }

  function TotalScore(s: seq<Candidate>): int {
    if s == [] then 0 else TotalScore(s[..|s| - 1]) + s[|s| - 1].score
  }

  lemma TotalGrows(s: seq<Candidate>, x: Candidate)
    ensures TotalScore(s + [x]) == TotalScore(s) + x.score
  {
    assert (s + [x])[..|s|] == s;
  }

  /** What all the prunings of a run were given: the pool before and one more candidate each time. */
  ghost function Fed(cfg: Config, all: seq<Candidate>): nat {
    if all == [] then 0
    else
      var init := all[..|all| - 1];
      Fed(cfg, init) + |Best(CandidateKey(), cfg.minScore, cfg.poolTopK, init)| + 1
  }

  /** The counters merged over all prunings of a run: those that never passed, those that did but were cut,
      what the prunings were given, and what the last one left. */
  ghost predicate Counted(cfg: Config, all: seq<Candidate>, stats: Stats) {
    var passing := Passing(CandidateKey(), cfg.minScore, all);
    var kept := Best(CandidateKey(), cfg.minScore, cfg.poolTopK, all);
    && stats.droppedLow == |all| - |passing| && stats.droppedTopK == |passing| - |kept|
    && stats.candidatesIn == Fed(cfg, all) && stats.candidatesOut == |kept|
  }

  lemma CountOneMore(cfg: Config, all: seq<Candidate>, c: Candidate, stats: Stats, step: Stats)
    requires Counted(cfg, all, stats)
    requires var kept := Best(CandidateKey(), cfg.minScore, cfg.poolTopK, all);
             && step.candidatesIn == |kept| + 1
             && step.candidatesOut == |Best(CandidateKey(), cfg.minScore, cfg.poolTopK, all + [c])|
             && step.droppedLow == |kept| + 1 - |Passing(CandidateKey(), cfg.minScore, kept + [c])|
             && step.candidatesIn == step.candidatesOut + step.droppedLow + step.droppedTopK
    ensures Counted(cfg, all + [c], stats.Merge(step))
  {
    hide Best, Passing, CandidateKey;
    KeptPasses(CandidateKey(), cfg.minScore, cfg.poolTopK, all, c);
    assert (all + [c])[..|all|] == all;
  }

  /** One turn of the rollout loop as its surroundings determine it. */
  datatype Turn = Cancelled | Call(outcome: Simulation)

  class Search {
    const tree: Tree
    const cfg: Config
    var candidates: seq<Candidate>
    var stats: Stats
    var successfulRollouts: nat
    var bestSoFar: int
    var bestHistory: seq<int>
    var earlyStop: bool
    /** Every success so far, in order. */
    ghost var succeeded: seq<Candidate>
    /** The action path of every simulation call so far, in order. */
    ghost var attempted: seq<seq<string>>

    constructor (cfg: Config, maxDepth: nat, task: string, selection: Selection)
      requires cfg.Valid() && selection.Valid()
      ensures Valid() && fresh(tree) && fresh(tree.nodes)
      ensures this.cfg == cfg && tree.maxDepth == maxDepth
      ensures tree.actions == ActionPriors(task) && tree.selection == selection
      ensures succeeded == [] && attempted == [] && !earlyStop
    {
      ActionsDiffer(task);
      tree := new Tree(maxDepth, ActionPriors(task), selection);
      this.cfg := cfg;
      candidates, stats, successfulRollouts, bestSoFar, bestHistory := [], NO_STATS, 0, -1, [];
      earlyStop := false;
      succeeded, attempted := [], [];
    }

    /** The pool is what one-shot pruning of every success would keep, and the counters add up. */
    ghost predicate PoolValid(all: seq<Candidate>)
      reads this`candidates, this`stats, this`successfulRollouts
    {
      && cfg.Valid()
      && candidates == (if cfg.pruning then Best(CandidateKey(), cfg.minScore, cfg.poolTopK, all) else all)
      && (cfg.pruning ==> Counted(cfg, all, stats)) && (!cfg.pruning ==> stats == NO_STATS)
      && successfulRollouts == |all|
    }

    /** The history is that of the successes, and called for a stop when its last entry was added or never. */
    ghost predicate HistoryValid(all: seq<Candidate>)
      reads this`bestSoFar, this`bestHistory, this`earlyStop
    {
      && bestSoFar == Highest(all) && IsHistory(bestHistory, all)
      && (forall k :: 0 <= k < |bestHistory| ==> !ShouldEarlyStop(bestHistory[..k], cfg.stopWindow, cfg.stopDelta))
      && (earlyStop <==> ShouldEarlyStop(bestHistory, cfg.stopWindow, cfg.stopDelta))
    }

    /** The tree's root counts exactly the successes, and no path was simulated twice. */
    ghost predicate TreeAgrees(all: seq<Candidate>)
      reads this`attempted, tree, tree.root
    {
      && tree.root.visits == |all| && tree.root.value == TotalScore(all) && |tree.own| == |all|
      && |tree.actions| == 3 && |tree.nodes| == 1 + 3 * |attempted| && |all| <= |attempted|
      && (forall i :: 0 <= i < |attempted| ==> tree.Explored(attempted[i]))
      && (forall i, j :: 0 <= i < j < |attempted| ==> attempted[i] != attempted[j])
    }

    ghost predicate Valid()
      reads this, tree, tree.nodes
    {
      && tree.Valid() && PoolValid(succeeded) && HistoryValid(succeeded) && TreeAgrees(succeeded)
      && forall c :: c in succeeded ==> 0 <= c.score <= UNIT
    }

    /** A search stops early exactly at its first success at which the scores have converged. */
    lemma StopsAtConvergence()
      requires Valid()
      ensures earlyStop <==> Converged(cfg, succeeded)
      ensures forall k :: 0 <= k < |succeeded| ==> !Converged(cfg, succeeded[..k])
    {
      hide Tree.Valid, Best, Counted, TreeAgrees, ShouldEarlyStop, Highest;
      StopsOnConvergence(bestHistory, succeeded, cfg.stopWindow, cfg.stopDelta);
      forall k | 0 <= k < |succeeded| ensures !Converged(cfg, succeeded[..k]) {
        HistoryOfPrefix(bestHistory, succeeded, k);
        StopsOnConvergence(bestHistory[..k], succeeded[..k], cfg.stopWindow, cfg.stopDelta);
      }
    }

    /** The running best, its history and the stop decision after one more success. */
    method AcceptScore(ghost all: seq<Candidate>, ghost candidate: Candidate, score: int)
      requires HistoryValid(all) && !earlyStop && candidate.score == score
      modifies this`bestSoFar, this`bestHistory, this`earlyStop
      ensures HistoryValid(all + [candidate])
    {
      HighestGrows(all, candidate);
      HistoryGrows(bestHistory, all, candidate);
      if score > bestSoFar {
        bestSoFar := score;
      }
      ghost var shorter := bestHistory;
      bestHistory := bestHistory + [bestSoFar];
      assert bestHistory[..|shorter|] == shorter;
      assert forall k :: 0 <= k < |shorter| ==> bestHistory[..k] == shorter[..k];
      if ShouldEarlyStop(bestHistory, cfg.stopWindow, cfg.stopDelta) {
        earlyStop := true;
      }
    }

    /** The candidate pool after one more success. */
    method AcceptCandidate(ghost all: seq<Candidate>, candidate: Candidate)
      requires PoolValid(all)
      modifies this`candidates, this`stats, this`successfulRollouts
      ensures PoolValid(all + [candidate])
    {
      candidates := candidates + [candidate];
      successfulRollouts := successfulRollouts + 1;
      if cfg.pruning {
        var pruned, step := PruneCandidates(Mcts, cfg.pruning, candidates, cfg.minScore, cfg.poolTopK);
        BestExtends(CandidateKey(), cfg.minScore, cfg.poolTopK, all, candidate);
        CountOneMore(cfg, all, candidate, stats, step);
        candidates := pruned;
        stats := stats.Merge(step);
      }
    }

    /** What a rollout does to the tree, seen from the run. */
    method Advance(outcome: Simulation) returns (r: Rollout)
      requires tree.Valid() && TreeAgrees(succeeded)
      requires outcome.Answered? ==> 0 <= outcome.score <= UNIT
      modifies this`attempted, tree, tree.nodes
      ensures tree.Valid() && fresh(tree.nodes - old(tree.nodes))
      ensures r.AtMaxDepth? <==> old(tree.Follow(tree.root)).depth >= tree.maxDepth
      ensures r.AtMaxDepth? ==> tree.Follow(tree.root).depth >= tree.maxDepth
      ensures attempted == if r.AtMaxDepth? then old(attempted) else old(attempted) + [r.path]
      ensures r.Simulated? <==> !r.AtMaxDepth? && outcome.Answered?
      ensures TreeAgrees(if r.Simulated? then succeeded + [Candidate(r.path, outcome.output, outcome.score)]
                         else succeeded)
    {
      hide Tree.Valid, Tree.Follow, Tree.Explored, Tree.SameForSelection;
      r := tree.Rollout(outcome);
      match r
      case AtMaxDepth =>
      case SimulationFailed(path) =>
        attempted := attempted + [path];
      case Simulated(path) =>
        attempted := attempted + [path];
        TotalGrows(succeeded, Candidate(path, outcome.output, outcome.score));
    }

    /** One turn of the loop that was not cancelled. */
    method Step(outcome: Simulation) returns (r: Rollout)
      requires Valid() && !earlyStop
      requires outcome.Answered? ==> 0 <= outcome.score <= UNIT
      modifies this, tree, tree.nodes
      ensures Valid() && tree.Valid() && fresh(tree.nodes - old(tree.nodes))
      ensures r.AtMaxDepth? <==> old(tree.Follow(tree.root)).depth >= tree.maxDepth
      ensures r.AtMaxDepth? ==> tree.Follow(tree.root).depth >= tree.maxDepth
      ensures r.AtMaxDepth? ==> attempted == old(attempted)
      ensures !r.AtMaxDepth? ==> attempted == old(attempted) + [r.path] && (r.Simulated? <==> outcome.Answered?)
      ensures r.Simulated? ==> succeeded == old(succeeded) + [Candidate(r.path, outcome.output, outcome.score)]
      ensures !r.Simulated? ==> succeeded == old(succeeded) && candidates == old(candidates) && !earlyStop
    {
      hide Tree.Valid, Tree.Follow, PoolValid, HistoryValid, TreeAgrees;
      r := Advance(outcome);
      if r.Simulated? {
        var candidate := Candidate(r.path, outcome.output, outcome.score);
        AcceptScore(succeeded, candidate, outcome.score);
        AcceptCandidate(succeeded, candidate);
        succeeded := succeeded + [candidate];
      }
    }

    /** The rollout loop, over any sequence of cancellations, failed calls and answers. */
    method Run(turns: seq<Turn>) returns (ghost log: seq<Rollout>)
      requires Valid() && !earlyStop && attempted == [] && succeeded == []
      requires forall i :: 0 <= i < |turns| ==> InRange(turns[i])
      modifies this, tree, tree.nodes
      ensures Valid()
      ensures |log| <= |turns| && Explains(turns, log)
      ensures |log| < |turns| ==> earlyStop || turns[|log|].Cancelled?
      ensures SkipsAreForever(log)
      ensures attempted == Attempts(log) && succeeded == Successes(turns, log)
      ensures |tree.nodes| <= 1 + 3 * |turns|
    {
      hide Valid;
      log := [];
      for i := 0 to |turns|
        invariant Valid() && !earlyStop && fresh(tree.nodes - old(tree.nodes))
        invariant |log| == i && Explains(turns, log) && SkipsAreForever(log)
        invariant attempted == Attempts(log) && succeeded == Successes(turns, log)
        invariant log != [] && log[i - 1].AtMaxDepth? ==>
                    tree.Valid() && tree.Follow(tree.root).depth >= tree.maxDepth
      {
        assert InRange(turns[i]);
        if turns[i].Cancelled? {
          break;
        }
        var r := Step(turns[i].outcome);
        SkipsGrow(log, r);
        LogGrows(turns, log, r);
        log := log + [r];
        if earlyStop {
          break;
        }
      }
      FewAttempts(log);
      NodesBounded();
    }

    lemma NodesBounded()
      requires Valid()
      ensures |tree.nodes| == 1 + 3 * |attempted|
    {
    }
  }

  ghost predicate InRange(t: Turn) {
    t.Call? && t.outcome.Answered? ==> 0 <= t.outcome.score <= UNIT
  }

  /** Each logged rollout simulates or fails as its call did, unless it met the depth limit. */
  ghost predicate Explains(turns: seq<Turn>, log: seq<Rollout>) {
    |log| <= |turns| && forall i :: 0 <= i < |log| ==>
      turns[i].Call? && (log[i].AtMaxDepth? || (log[i].Simulated? <==> turns[i].outcome.Answered?))
  }

  /** Once one rollout was skipped at the depth limit, every later one is. */
  ghost predicate SkipsAreForever(log: seq<Rollout>) {
    forall i, j :: 0 <= i < j < |log| && log[i].AtMaxDepth? ==> log[j].AtMaxDepth?
  }

  lemma SkipsGrow(log: seq<Rollout>, r: Rollout)
    requires SkipsAreForever(log) && (log != [] && log[|log| - 1].AtMaxDepth? ==> r.AtMaxDepth?)
    ensures SkipsAreForever(log + [r])
  {
    forall i, j | 0 <= i < j < |log + [r]| && (log + [r])[i].AtMaxDepth? ensures (log + [r])[j].AtMaxDepth? {
      assert i == |log| - 1 || log[|log| - 1].AtMaxDepth?;
    }
  }

  ghost function Attempts(log: seq<Rollout>): seq<seq<string>> {
    if log == [] then []
    else
      var r := log[|log| - 1];
      Attempts(log[..|log| - 1]) + (if r.AtMaxDepth? then [] else [r.path])
  }

  ghost function Successes(turns: seq<Turn>, log: seq<Rollout>): seq<Candidate>
    requires Explains(turns, log)
  {
    if log == [] then []
    else
      var last := |log| - 1;
      var rest := Successes(turns, log[..last]);
      if log[last].Simulated? then
        rest + [Candidate(log[last].path, turns[last].outcome.output, turns[last].outcome.score)]
      else rest
  }

  lemma LogGrows(turns: seq<Turn>, log: seq<Rollout>, r: Rollout)
    requires |log| < |turns| && Explains(turns, log)
    requires turns[|log|].Call? && (r.AtMaxDepth? || (r.Simulated? <==> turns[|log|].outcome.Answered?))
    ensures Explains(turns, log + [r])
    ensures Attempts(log + [r]) == Attempts(log) + (if r.AtMaxDepth? then [] else [r.path])
    ensures Successes(turns, log + [r]) == Successes(turns, log) +
              if r.Simulated? then [Candidate(r.path, turns[|log|].outcome.output, turns[|log|].outcome.score)] else []
  {
    assert (log + [r])[..|log|] == log;
  }

  lemma {:induction false} FewAttempts(log: seq<Rollout>)
    ensures |Attempts(log)| <= |log|
  {
    if log != [] {
      FewAttempts(log[..|log| - 1]);
    }
  }
}
