/** What an MCTS run does after its last rollout: baseline fallbacks, two sorts that leave ties open,
    and the pruning before synthesis. */
module MctsSynthesis {
  import opened MctsBound
  import opened MctsScore
  import opened MctsSearch
  import opened MctsTree
  import opened Pruning
  import opened Ranking

  datatype Choice = NothingToSynthesise | Synthesis(from: seq<Candidate>)

  /** The pool a run ends with. */
  ghost function Pool(cfg: Config, all: seq<Candidate>): seq<Candidate> {
    if cfg.pruning then Best(CandidateKey(), cfg.minScore, cfg.poolTopK, all) else all
  }

  /** The one-shot answer: the best of everything that succeeded. */
  ghost function OneShot(cfg: Config, all: seq<Candidate>): seq<Candidate> {
    if cfg.pruning then Best(CandidateKey(), cfg.minScore, cfg.synthTopK, all) else Rank(CandidateKey(), all)
  }

  ghost predicate Usable(cfg: Config, all: seq<Candidate>) {
    exists c :: c in all && (cfg.pruning ==> c.score >= cfg.minScore)
  }

  function Baseline(s: Simulation): Candidate
    requires s.Answered?
  {
    Candidate([], s.output, s.score)
  }

  // ----- Facts about the pool

  lemma PoolIsUsable(cfg: Config, all: seq<Candidate>)
    requires cfg.Valid()
    ensures Pool(cfg, all) == [] <==> !Usable(cfg, all)
  {
    if cfg.pruning {
      BestMembers(CandidateKey(), cfg.minScore, cfg.poolTopK, all);
      PassingIsFilter(CandidateKey(), cfg.minScore, all);
      var passing := Passing(CandidateKey(), cfg.minScore, all);
      if passing != [] {
        assert passing[0] in passing && passing[0] in all;
      }
    } else if all != [] {
      assert all[0] in all;
    }
  }

  /** Pruning an arbitrarily re-sorted pool keeps the keys that one-shot pruning would. */
  lemma ResortedPoolKeys(cfg: Config, all: seq<Candidate>, sorted: seq<Candidate>)
    requires cfg.Valid() && cfg.pruning && multiset(sorted) == multiset(Pool(cfg, all))
    ensures Keys(CandidateKey(), Best(CandidateKey(), cfg.minScore, cfg.synthTopK, sorted)) ==
            Keys(CandidateKey(), OneShot(cfg, all))
  {
    var key, pool := CandidateKey(), Pool(cfg, all);
    KeysOfRearranged(key, sorted, pool);
    KeysDetermineBest(key, cfg.minScore, cfg.synthTopK, sorted, pool);
    BestOfBest(key, cfg.minScore, cfg.poolTopK, cfg.synthTopK, all);
  }

  /** The one-shot answer starts with the best success of the run. */
  lemma OneShotHead(cfg: Config, all: seq<Candidate>)
    requires cfg.Valid() && Usable(cfg, all) && forall c :: c in all ==> c.score >= 0
    ensures OneShot(cfg, all) != [] && OneShot(cfg, all)[0].score == Highest(all)
  {
    var key := CandidateKey();
    var z :| z in all && (cfg.pruning ==> z.score >= cfg.minScore);
    assert all != [] && all[0] in all;
    HighestIsMax(all);
    var top :| top in all && top.score == Highest(all);
    if cfg.pruning {
      BestHead(key, cfg.minScore, cfg.synthTopK, all, z, top);
      BestMembers(key, cfg.minScore, cfg.synthTopK, all);
      assert OneShot(cfg, all)[0] in OneShot(cfg, all);
    } else {
      RankHead(key, all, top);
    }
  }

  lemma SameKeysSameScore(a: seq<Candidate>, b: seq<Candidate>)
    requires Keys(CandidateKey(), a) == Keys(CandidateKey(), b) && b != []
    ensures a != [] && a[0].score == b[0].score
  {
    KeysAt(CandidateKey(), b, 0);
    KeysAt(CandidateKey(), a, 0);
  }

  /** What the pruning before synthesis leaves of a pool. */
  ghost function Survivors(cfg: Config, pool: seq<Candidate>): seq<Candidate> {
    if cfg.pruning then Best(CandidateKey(), cfg.minScore, cfg.synthTopK, pool) else pool
  }

  /** The counters after the pruning before synthesis. */
  ghost predicate Merged(cfg: Config, pool: seq<Candidate>, stats: Stats, merged: Stats) {
    var passing := Passing(CandidateKey(), cfg.minScore, pool);
    if !cfg.pruning then merged == stats
    else
      && merged.droppedLow == stats.droppedLow + |pool| - |passing|
      && merged.droppedTopK == stats.droppedTopK + |passing| - |Survivors(cfg, pool)|
      && merged.candidatesIn == stats.candidatesIn + |pool|
  }

  /** The counters a run ends with: successes that never passed and those that passed but were cut are told
      apart; a baseline that stands in counts as one more candidate. */
  ghost predicate Tallied(cfg: Config, all: seq<Candidate>, first: Simulation, r: Choice, merged: Stats) {
    var passing := Passing(CandidateKey(), cfg.minScore, all);
    if !cfg.pruning then merged == NO_STATS
    else if passing != [] then
      && merged.droppedLow == |all| - |passing|
      && r.Synthesis? && merged.droppedTopK == |passing| - |r.from|
      && merged.candidatesIn == Fed(cfg, all) + |Pool(cfg, all)|
    else
      && merged.droppedLow == |all| + (if TooLow(cfg, first) then 1 else 0)
      && merged.droppedTopK == 0
      && merged.candidatesIn == Fed(cfg, all) + if first.Answered? then 1 else 0
  }

  lemma TalliedOverPool(cfg: Config, all: seq<Candidate>, pool: seq<Candidate>, first: Simulation, r: Choice,
                        stats: Stats, merged: Stats)
    requires cfg.Valid() && Usable(cfg, all) && multiset(pool) == multiset(Pool(cfg, all))
    requires if cfg.pruning then Counted(cfg, all, stats) else stats == NO_STATS
    requires Merged(cfg, pool, stats, merged) && r.Synthesis? && |r.from| == |Survivors(cfg, pool)|
    ensures Tallied(cfg, all, first, r, merged)
  {
    if cfg.pruning {
      var key := CandidateKey();
      hide Best, Passing, Rank, CandidateKey;
      BestMembers(key, cfg.minScore, cfg.poolTopK, all);
      PassingIsFilter(key, cfg.minScore, all);
      PassingIsFilter(key, cfg.minScore, pool);
      forall c | c in pool ensures key(c).score >= cfg.minScore {
        assert c in multiset(pool);
      }
      assert |pool| == |multiset(pool)| == |Pool(cfg, all)|;
      UsableIsPassing(cfg, all);
    }
  }

  lemma UsableIsPassing(cfg: Config, all: seq<Candidate>)
    requires cfg.pruning
    ensures Usable(cfg, all) <==> Passing(CandidateKey(), cfg.minScore, all) != []
  {
    var passing := Passing(CandidateKey(), cfg.minScore, all);
    PassingIsFilter(CandidateKey(), cfg.minScore, all);
    assert passing != [] ==> passing[0] in passing;
  }

  lemma TalliedOverBaseline(cfg: Config, all: seq<Candidate>, first: Simulation, r: Choice,
                            stats: Stats, merged: Stats)
    requires cfg.Valid() && !Usable(cfg, all) && first.Answered?
    requires if cfg.pruning then Counted(cfg, all, stats) else stats == NO_STATS
    requires Merged(cfg, [Baseline(first)], stats, merged)
    ensures Tallied(cfg, all, first, r, merged)
  {
    if cfg.pruning {
      hide Best, Rank, Passing, CandidateKey, Usable, Fed;
      UsableIsPassing(cfg, all);
      BestMembers(CandidateKey(), cfg.minScore, cfg.poolTopK, all);
      OneSurvivor(cfg, Baseline(first));
    }
  }

  lemma OneSurvivor(cfg: Config, b: Candidate)
    requires cfg.Valid() && cfg.pruning
    ensures |Passing(CandidateKey(), cfg.minScore, [b])| == if b.score < cfg.minScore then 0 else 1
    ensures |Survivors(cfg, [b])| == |Passing(CandidateKey(), cfg.minScore, [b])|
  {
    hide Best, Rank;
    BestMembers(CandidateKey(), cfg.minScore, cfg.synthTopK, [b]);
    PassingSnoc(CandidateKey(), cfg.minScore, [], b);
    assert [] + [b] == [b];
  }

  lemma TalliedOverNothing(cfg: Config, all: seq<Candidate>, first: Simulation, r: Choice, stats: Stats)
    requires cfg.Valid() && !Usable(cfg, all) && first.CallFailed?
    requires if cfg.pruning then Counted(cfg, all, stats) else stats == NO_STATS
    ensures Tallied(cfg, all, first, r, stats)
  {
    if cfg.pruning {
      hide Best, Rank, Passing;
      UsableIsPassing(cfg, all);
      BestMembers(CandidateKey(), cfg.minScore, cfg.poolTopK, all);
    }
  }

  // ----- The code

  /** The pruning before synthesis, with its own baseline when nothing survives. */
  method Select(cfg: Config, pool: seq<Candidate>, stats: Stats, second: Simulation)
    returns (r: Choice, merged: Stats)
    requires cfg.Valid() && pool != []
    ensures Merged(cfg, pool, stats, merged)
    ensures var pruned := Best(CandidateKey(), cfg.minScore, cfg.synthTopK, pool);
            && (cfg.pruning && pruned == [] && second.CallFailed? ==> r == NothingToSynthesise)
            && (cfg.pruning && pruned == [] && second.Answered? ==> r == Synthesis([Baseline(second)]))
            && (!cfg.pruning || pruned != [] ==>
                  r.Synthesis? && Descending(CandidateKey(), r.from)
                  && multiset(r.from) == multiset(if cfg.pruning then pruned else pool))
  {
    var synth := pool;
    merged := stats;
    if cfg.pruning {
      var pruned, step := PruneCandidates(Mcts, cfg.pruning, synth, cfg.minScore, cfg.synthTopK);
      merged := stats.Merge(step);
      if |pruned| == 0 {
        if second.CallFailed? {
          return NothingToSynthesise, merged;
        }
        return Synthesis([Baseline(second)]), merged;
      }
      synth := pruned;
    }
    synth := SortCandidates(synth);
    r := Synthesis(synth);
  }

  /** The tail of `executeMCTS`: `first` and `second` are what the two baseline calls would answer. */
  method Choose(cfg: Config, candidates: seq<Candidate>, stats: Stats, ghost all: seq<Candidate>,
                first: Simulation, second: Simulation)
    returns (r: Choice, merged: Stats)
    requires cfg.Valid() && candidates == Pool(cfg, all)
    requires if cfg.pruning then Counted(cfg, all, stats) else stats == NO_STATS
    requires forall c :: c in all ==> c.score >= 0
    ensures Usable(cfg, all) ==> BestOfRun(cfg, all, r)
    ensures !Usable(cfg, all) ==> FromBaseline(cfg, first, second, r)
    ensures Tallied(cfg, all, first, r, merged)
  {
    hide Best, Passing, Rank, Keys, Descending, Usable, Merged, Tallied, Counted;
    PoolIsUsable(cfg, all);
    if |candidates| == 0 {
      if first.CallFailed? {
        TalliedOverNothing(cfg, all, first, NothingToSynthesise, stats);
        return NothingToSynthesise, stats;
      }
      r, merged := Select(cfg, [Baseline(first)], stats, second);
      SingleBaseline(cfg, Baseline(first), r);
      TalliedOverBaseline(cfg, all, first, r, stats, merged);
    } else {
      var pool := SortCandidates(candidates);
      assert |pool| == |multiset(pool)| == |candidates|;
      r, merged := Select(cfg, pool, stats, second);
      SelectedFromPool(cfg, all, pool, r);
      assert |r.from| == |multiset(r.from)| == |multiset(Survivors(cfg, pool))| == |Survivors(cfg, pool)|;
      TalliedOverPool(cfg, all, pool, first, r, stats, merged);
    }
  }

  /** Synthesis gets the one-shot keys of the run, led by the highest score of all its successes. */
  ghost predicate BestOfRun(cfg: Config, all: seq<Candidate>, r: Choice) {
    && r.Synthesis? && r.from != [] && r.from[0].score == Highest(all)
    && Keys(CandidateKey(), r.from) == Keys(CandidateKey(), OneShot(cfg, all))
    && forall c :: c in r.from ==> c in all
  }

  predicate TooLow(cfg: Config, s: Simulation) {
    s.Answered? && cfg.pruning && s.score < cfg.minScore
  }

  /** The first baseline stands in, or the second if pruning drops it. */
  predicate FromBaseline(cfg: Config, first: Simulation, second: Simulation, r: Choice) {
    var baseline := if TooLow(cfg, first) then second else first;
    r == if baseline.CallFailed? then NothingToSynthesise
         else Synthesis([Candidate([], baseline.output, baseline.score)])
  }

  lemma SingleBaseline(cfg: Config, b: Candidate, r: Choice)
    requires cfg.Valid()
    requires var pruned := Best(CandidateKey(), cfg.minScore, cfg.synthTopK, [b]);
             !cfg.pruning || pruned != [] ==>
               r.Synthesis? && multiset(r.from) == multiset(if cfg.pruning then pruned else [b])
    ensures Best(CandidateKey(), cfg.minScore, cfg.synthTopK, [b]) == (if b.score < cfg.minScore then [] else [b])
    ensures !cfg.pruning || b.score >= cfg.minScore ==> r == Synthesis([b])
  {
    assert [b][..0] == [];
    assert Passing(CandidateKey(), cfg.minScore, []) == [];
    assert Passing(CandidateKey(), cfg.minScore, [b]) == if b.score < cfg.minScore then [] else [b];
    RankOfRanked(CandidateKey(), [b]);
    if !cfg.pruning || b.score >= cfg.minScore {
      assert |r.from| == |multiset(r.from)| == 1;
      assert r.from[0] in multiset(r.from);
    }
  }

  lemma SelectedFromPool(cfg: Config, all: seq<Candidate>, pool: seq<Candidate>, r: Choice)
    requires cfg.Valid() && Usable(cfg, all) && forall c :: c in all ==> c.score >= 0
    requires Descending(CandidateKey(), pool) && multiset(pool) == multiset(Pool(cfg, all))
    requires var pruned := Best(CandidateKey(), cfg.minScore, cfg.synthTopK, pool);
             !cfg.pruning || pruned != [] ==>
               r.Synthesis? && Descending(CandidateKey(), r.from)
               && multiset(r.from) == multiset(if cfg.pruning then pruned else pool)
    ensures Survivors(cfg, pool) != []
    ensures r.Synthesis? && r.from != [] && r.from[0].score == Highest(all)
    ensures Keys(CandidateKey(), r.from) == Keys(CandidateKey(), OneShot(cfg, all))
    ensures forall c :: c in r.from ==> c in all
  {
    var key := CandidateKey();
    OneShotHead(cfg, all);
    var kept := if cfg.pruning then Best(key, cfg.minScore, cfg.synthTopK, pool) else pool;
    if cfg.pruning {
      ResortedPoolKeys(cfg, all, pool);
      SameKeysSameScore(kept, OneShot(cfg, all));
      BestMembers(key, cfg.minScore, cfg.synthTopK, pool);
      BestMembers(key, cfg.minScore, cfg.poolTopK, all);
    } else {
      RankKeeps(key, all);
      UnstableSortFixesKeys(key, pool, Rank(key, all));
    }
    UnstableSortFixesKeys(key, r.from, kept);
    SameKeysSameScore(r.from, OneShot(cfg, all));
    forall c | c in r.from ensures c in all {
      assert c in multiset(kept) && c in kept;
      assert c in multiset(pool) && c in multiset(Pool(cfg, all));
    }
  }

  // ----- A whole run

  /** `executeMCTS` from the first rollout to what is synthesised, for any cancellations, failed calls and
      answers: the best score reported is the maximum over all successes of the run whenever one of them can
      be used, everything not synthesised is counted as dropped, and the depth limit bounds the rollouts. */
  method ExecuteMcts(cfg: Config, maxDepth: nat, task: string, selection: Selection, turns: seq<Turn>,
                     first: Simulation, second: Simulation)
    returns (r: Choice, merged: Stats, executed: nat, early: bool, ghost log: seq<Rollout>)
    requires cfg.Valid() && selection.Valid() && maxDepth >= 1
    requires forall i :: 0 <= i < |turns| ==> InRange(turns[i])
    ensures |log| <= |turns| && Explains(turns, log) && SkipsAreForever(log)
    ensures |log| < |turns| ==> early || turns[|log|].Cancelled?
    ensures var all := Successes(turns, log);
            && (early <==> Converged(cfg, all)) && (forall k :: 0 <= k < |all| ==> !Converged(cfg, all[..k]))
            && executed == (if all == [] then 1 else |all|) && |all| <= Full(maxDepth - 1)
            && (Usable(cfg, all) ==> BestOfRun(cfg, all, r))
            && (!Usable(cfg, all) ==> FromBaseline(cfg, first, second, r))
            && Tallied(cfg, all, first, r, merged)
  {
    hide Tree.Valid, Best, Passing, Keys, Usable, BestOfRun, Counted, Tallied, Fed;
    hide Successes, Explains, SkipsAreForever, Highest, Full, Converged;
    var search := new Search(cfg, maxDepth, task, selection);
    log := search.Run(turns);
    early := search.earlyStop;
    executed := if search.successfulRollouts < 1 then 1 else search.successfulRollouts;
    search.StopsAtConvergence();
    SimulationsAreBounded(search);
    r, merged := Choose(cfg, search.candidates, search.stats, search.succeeded, first, second);
    PoolIsUsable(cfg, search.succeeded);
  }
}
