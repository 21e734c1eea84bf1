/** The candidate pool of the multi-agent mode: every round appends what its agents sent, in whatever order
    it arrived, sorts, prunes, and may reorder once more to judge consensus. */
module MultiAgent {
  import opened MctsTree
  import opened MctsSynthesis
  import opened Pruning
  import opened Ranking

  datatype Config = Config(pruning: bool, minScore: int, roundTopK: nat, synthTopK: nat) {
    /** What the executor's constructor leaves of any configuration. */
    ghost predicate Valid() {
      1 <= synthTopK <= roundTopK
    }
  }

  /** Everything the first `n` rounds accepted. */
  ghost function Heard(rounds: seq<seq<Candidate>>, n: nat): seq<Candidate>
    requires n <= |rounds|
  {
    if n == 0 then [] else Heard(rounds, n - 1) + rounds[n - 1]
  }

  /** What pruning everything at once would keep. */
  ghost function Kept(cfg: Config, k: nat, all: seq<Candidate>): seq<Candidate> {
    if cfg.pruning then Best(CandidateKey(), cfg.minScore, k, all) else all
  }

  /** The pool holds candidates with the keys that one-shot pruning keeps, and none of its own. */
  ghost predicate PoolOf(cfg: Config, all: seq<Candidate>, pool: seq<Candidate>) {
    && multiset(Keys(CandidateKey(), pool)) == multiset(Keys(CandidateKey(), Kept(cfg, cfg.roundTopK, all)))
    && forall c :: c in pool ==> c in all
  }

  ghost predicate SomePass(cfg: Config, all: seq<Candidate>) {
    exists c :: c in all && (cfg.pruning ==> c.score >= cfg.minScore)
  }

  // ----- One round

  /** Appending a batch to a pool, in any order, and pruning again is pruning everything, as far as keys go. */
  lemma PoolGrows(cfg: Config, all: seq<Candidate>, pool: seq<Candidate>, batch: seq<Candidate>,
                  sorted: seq<Candidate>, pruned: seq<Candidate>)
    requires cfg.Valid() && PoolOf(cfg, all, pool) && multiset(sorted) == multiset(pool + batch)
    requires pruned == Kept(cfg, cfg.roundTopK, sorted)
    ensures PoolOf(cfg, all + batch, pruned)
  {
    var key, kept := CandidateKey(), Kept(cfg, cfg.roundTopK, all);
    KeysOfRearranged(key, sorted, pool + batch);
    KeysConcat(key, pool, batch);
    KeysConcat(key, kept, batch);
    KeysConcat(key, all, batch);
    if cfg.pruning {
      KeysDetermineBest(key, cfg.minScore, cfg.roundTopK, sorted, kept + batch);
      BestExtendsByBatch(key, cfg.minScore, cfg.roundTopK, all, batch);
      BestMembers(key, cfg.minScore, cfg.roundTopK, sorted);
    }
    forall c | c in pruned ensures c in all + batch {
      assert c in sorted && c in multiset(sorted) && c in pool + batch;
    }
  }

  /** A reordered pool is as good. */
  lemma PoolReordered(cfg: Config, all: seq<Candidate>, pool: seq<Candidate>, other: seq<Candidate>)
    requires PoolOf(cfg, all, pool) && multiset(other) == multiset(pool)
    ensures PoolOf(cfg, all, other)
  {
    KeysOfRearranged(CandidateKey(), pool, other);
    forall c | c in other ensures c in all {
      assert c in multiset(pool);
    }
  }

  lemma PoolIsEmpty(cfg: Config, all: seq<Candidate>, pool: seq<Candidate>)
    requires cfg.Valid() && PoolOf(cfg, all, pool)
    ensures pool == [] <==> !SomePass(cfg, all)
  {
    var key, kept := CandidateKey(), Kept(cfg, cfg.roundTopK, all);
    assert |pool| == |multiset(Keys(key, pool))| == |multiset(Keys(key, kept))| == |kept|;
    if cfg.pruning {
      BestMembers(key, cfg.minScore, cfg.roundTopK, all);
      PassingIsFilter(key, cfg.minScore, all);
      var passing := Passing(key, cfg.minScore, all);
      assert passing != [] ==> passing[0] in passing && passing[0] in all;
    } else {
      assert all != [] ==> all[0] in all;
    }
  }

  /** The consensus judgement sorts the pool by score alone; only its contents matter here. */
  method SortByScore(pool: seq<Candidate>) returns (r: seq<Candidate>)
    ensures multiset(r) == multiset(pool)
    ensures forall i, j :: 0 <= i < j < |r| ==> r[i].score >= r[j].score
  {
    r := SortCandidates(pool);
  }

  /** Append, sort, prune. */
  method Absorb(cfg: Config, pool: seq<Candidate>, batch: seq<Candidate>, ghost all: seq<Candidate>)
    returns (r: seq<Candidate>)
    requires cfg.Valid() && PoolOf(cfg, all, pool)
    ensures PoolOf(cfg, all + batch, r)
  {
    hide PoolOf, Best, CandidateKey, Keys, Descending, Config.Valid;
    var sorted := SortCandidates(pool + batch);
    r := sorted;
    if cfg.pruning {
      TopKPositive(cfg);
      var pruned, _ := PruneCandidates(Mode.MultiAgent, cfg.pruning, sorted, cfg.minScore, cfg.roundTopK);
      r := pruned;
    }
    PoolGrows(cfg, all, pool, batch, sorted, r);
  }

  lemma TopKPositive(cfg: Config)
    requires cfg.Valid()
    ensures cfg.roundTopK >= 1 && cfg.synthTopK >= 1
  {
  }

  // ----- All rounds

  datatype Gathered = Gathered(pool: seq<Candidate>) | GaveUp

  /** The round loop over the outputs each round accepts. `enough(n)`: consensus after round `n` is not low;
      `baseline`: what the baseline call answers when pruning leaves nothing. */
  method Gather(cfg: Config, rounds: seq<seq<Candidate>>, enough: nat -> bool, baseline: Simulation)
    returns (r: Gathered, n: nat)
    requires cfg.Valid() && forall i :: 0 <= i < |rounds| ==> rounds[i] != []
    ensures n <= |rounds| && (forall i :: 1 <= i < n ==> !enough(i))
    ensures n == 0 ==> r == Gathered([]) && rounds == []
    ensures n > 0 && SomePass(cfg, Heard(rounds, n)) ==>
              r.Gathered? && r.pool != [] && PoolOf(cfg, Heard(rounds, n), r.pool) && (n == |rounds| || enough(n))
    ensures n > 0 && !SomePass(cfg, Heard(rounds, n)) ==>
              n == 1 && r == if baseline.Answered? then Gathered([Baseline(baseline)]) else GaveUp
  {
    hide PoolOf, SomePass, Baseline, Descending, CandidateKey;
    var pool: seq<Candidate> := [];
    n := 0;
    NothingHeard(cfg);
    while n < |rounds|
      invariant n <= |rounds| && PoolOf(cfg, Heard(rounds, n), pool)
      invariant n > 0 ==> pool != [] && SomePass(cfg, Heard(rounds, n))
      invariant n == 0 ==> pool == []
      invariant forall i :: 1 <= i <= n ==> !enough(i)
    {
      ghost var before := Heard(rounds, n);
      pool := Absorb(cfg, pool, rounds[n], before);
      n := n + 1;
      PoolIsEmpty(cfg, Heard(rounds, n), pool);
      if |pool| == 0 {
        StillSomePass(cfg, before, rounds[n - 1]);
        if baseline.CallFailed? {
          return GaveUp, n;
        }
        return Gathered([Baseline(baseline)]), n;
      }
      var reordered := SortByScore(pool);
      PoolReordered(cfg, Heard(rounds, n), pool, reordered);
      SameSize(pool, reordered);
      pool := reordered;
      if enough(n) {
        return Gathered(pool), n;
      }
    }
    r := Gathered(pool);
  }

  lemma NothingHeard(cfg: Config)
    ensures PoolOf(cfg, [], [])
  {
  }

  lemma SameSize<T>(a: seq<T>, b: seq<T>)
    requires multiset(a) == multiset(b)
    ensures |a| == |b|
  {
    assert |multiset(a)| == |a| && |multiset(b)| == |b|;
  }

  lemma StillSomePass(cfg: Config, all: seq<Candidate>, batch: seq<Candidate>)
    ensures SomePass(cfg, all) ==> SomePass(cfg, all + batch)
  {
    if SomePass(cfg, all) {
      var c :| c in all && (cfg.pruning ==> c.score >= cfg.minScore);
      assert c in all + batch;
    }
  }

  // ----- What is synthesised

  ghost predicate Selected(cfg: Config, pool: seq<Candidate>, second: Simulation, r: Choice) {
    if cfg.pruning then
      if SomePass(cfg, pool) then
        && r.Synthesis? && (forall c :: c in r.from ==> c in pool)
        && Keys(CandidateKey(), r.from) ==
           Keys(CandidateKey(), Best(CandidateKey(), cfg.minScore, cfg.synthTopK, pool))
      else r == if second.Answered? then Synthesis([Baseline(second)]) else NothingToSynthesise
    else r.Synthesis? && multiset(r.from) == multiset(pool) && Descending(CandidateKey(), r.from)
  }

  /** The candidates left at the end, sorted and pruned for synthesis, with a baseline when nothing is left. */
  method Select(cfg: Config, pool: seq<Candidate>, second: Simulation) returns (r: Choice)
    requires cfg.Valid() && pool != []
    ensures Selected(cfg, pool, second, r)
  {
    hide SomePass, Best, CandidateKey, Keys, Baseline, Config.Valid;
    var sorted := SortCandidates(pool);
    if cfg.pruning {
      TopKPositive(cfg);
      var pruned, _ := PruneCandidates(Mode.MultiAgent, cfg.pruning, sorted, cfg.minScore, cfg.synthTopK);
      SelectedKeys(cfg, pool, sorted);
      if |pruned| == 0 {
        if second.CallFailed? {
          return NothingToSynthesise;
        }
        return Synthesis([Baseline(second)]);
      }
      return Synthesis(pruned);
    }
    r := Synthesis(sorted);
  }

  lemma SelectedKeys(cfg: Config, pool: seq<Candidate>, sorted: seq<Candidate>)
    requires cfg.Valid() && cfg.pruning && multiset(sorted) == multiset(pool)
    ensures var kept, best := Best(CandidateKey(), cfg.minScore, cfg.synthTopK, pool),
                              Best(CandidateKey(), cfg.minScore, cfg.synthTopK, sorted);
            && Keys(CandidateKey(), best) == Keys(CandidateKey(), kept)
            && (forall c :: c in best ==> c in pool)
            && (best == [] <==> !SomePass(cfg, pool))
  {
    var key := CandidateKey();
    KeysOfRearranged(key, sorted, pool);
    KeysDetermineBest(key, cfg.minScore, cfg.synthTopK, sorted, pool);
    BestMembers(key, cfg.minScore, cfg.synthTopK, sorted);
    BestMembers(key, cfg.minScore, cfg.synthTopK, pool);
    PassingIsFilter(key, cfg.minScore, pool);
    var passing := Passing(key, cfg.minScore, pool);
    assert passing != [] ==> passing[0] in passing;
    forall c | c in sorted ensures c in pool {
      assert c in multiset(sorted);
    }
  }

  /** The whole mode: whatever order outputs arrive in and however ties are sorted, synthesis gets the keys
      of the best `synthTopK` of everything accepted, unless the first round leaves nothing and a baseline
      call has to stand in. */
  method Execute(cfg: Config, rounds: seq<seq<Candidate>>, enough: nat -> bool, first: Simulation, second: Simulation)
    returns (r: Choice, n: nat)
    requires cfg.Valid() && forall i :: 0 <= i < |rounds| ==> rounds[i] != []
    ensures n <= |rounds| && (n < |rounds| && SomePass(cfg, Heard(rounds, n)) ==> enough(n))
    ensures SomePass(cfg, Heard(rounds, n)) ==>
              && r.Synthesis?
              && Keys(CandidateKey(), r.from) == Keys(CandidateKey(), OneShot(cfg, Heard(rounds, n)))
              && forall c :: c in r.from ==> c in Heard(rounds, n)
    ensures !SomePass(cfg, Heard(rounds, n)) ==>
              && n <= 1
              && var baseline := if first.Answered? && cfg.pruning && first.score < cfg.minScore then second else first;
                 r == if baseline.CallFailed? then NothingToSynthesise else Synthesis([Baseline(baseline)])
  {
    hide *;
    var g;
    g, n := Gather(cfg, rounds, enough, first);
    ghost var all := Heard(rounds, n);
    NothingPasses(cfg, rounds, n);
    if g.GaveUp? {
      return NothingToSynthesise, n;
    }
    var pool := g.pool;
    if |pool| == 0 {
      if first.CallFailed? {
        return NothingToSynthesise, n;
      }
      pool := [Baseline(first)];
    }
    r := Select(cfg, pool, second);
    if SomePass(cfg, all) {
      PoolToOneShot(cfg, all, pool, second, r);
    } else {
      OneBaseline(cfg, first, second, r);
    }
  }

  /** The one-shot answer: the best of everything accepted. */
  ghost function OneShot(cfg: Config, all: seq<Candidate>): seq<Candidate> {
    if cfg.pruning then Best(CandidateKey(), cfg.minScore, cfg.synthTopK, all) else Rank(CandidateKey(), all)
  }

  lemma NothingPasses(cfg: Config, rounds: seq<seq<Candidate>>, n: nat)
    requires n <= |rounds|
    ensures n == 0 ==> !SomePass(cfg, Heard(rounds, n))
  {
  }

  lemma PoolPasses(cfg: Config, all: seq<Candidate>, pool: seq<Candidate>)
    requires cfg.Valid() && PoolOf(cfg, all, pool) && SomePass(cfg, all)
    ensures SomePass(cfg, pool)
  {
    var key, kept := CandidateKey(), Kept(cfg, cfg.roundTopK, all);
    PoolIsEmpty(cfg, all, pool);
    KeysAt(key, pool, 0);
    assert key(pool[0]) in multiset(Keys(key, kept));
    var j :| 0 <= j < |kept| && Keys(key, kept)[j] == key(pool[0]);
    KeysAt(key, kept, j);
    if cfg.pruning {
      BestMembers(key, cfg.minScore, cfg.roundTopK, all);
    }
    assert pool[0] in pool;
  }

  lemma PoolToOneShot(cfg: Config, all: seq<Candidate>, pool: seq<Candidate>, second: Simulation, r: Choice)
    requires cfg.Valid() && PoolOf(cfg, all, pool) && SomePass(cfg, all) && Selected(cfg, pool, second, r)
    ensures r.Synthesis? && Keys(CandidateKey(), r.from) == Keys(CandidateKey(), OneShot(cfg, all))
    ensures forall c :: c in r.from ==> c in all
  {
    var key := CandidateKey();
    PoolPasses(cfg, all, pool);
    if cfg.pruning {
      var kept := Kept(cfg, cfg.roundTopK, all);
      KeysDetermineBest(key, cfg.minScore, cfg.synthTopK, pool, kept);
      BestOfBest(key, cfg.minScore, cfg.roundTopK, cfg.synthTopK, all);
    } else {
      KeysOfRearranged(key, r.from, pool);
      RankOfRanked(key, r.from);
      KeysOfRanked(key, r.from);
      KeysOfRanked(key, all);
      SortedKeysAreUnique(Keys(key, r.from), Keys(key, Rank(key, all)));
      forall c | c in r.from ensures c in pool {
        assert c in multiset(r.from);
      }
    }
  }

  /** A pool that is just a baseline answer comes through as it is, if its score allows. */
  lemma OneBaseline(cfg: Config, first: Simulation, second: Simulation, r: Choice)
    requires cfg.Valid() && first.Answered? && Selected(cfg, [Baseline(first)], second, r)
    ensures r == if cfg.pruning && first.score < cfg.minScore then
                   (if second.Answered? then Synthesis([Baseline(second)]) else NothingToSynthesise)
                 else Synthesis([Baseline(first)])
  {
    hide Best, Keys, Descending, CandidateKey;
    var key, b := CandidateKey(), Baseline(first);
    OnlyOne(cfg, b);
    if !cfg.pruning {
      assert |r.from| == |multiset(r.from)| == 1 && r.from[0] in multiset(r.from);
    } else if first.score >= cfg.minScore {
      assert |r.from| == |Keys(key, r.from)| == |Keys(key, [b])| == 1;
      assert r.from[0] in r.from;
    }
  }

  lemma OnlyOne(cfg: Config, b: Candidate)
    requires cfg.Valid()
    ensures SomePass(cfg, [b]) <==> !cfg.pruning || b.score >= cfg.minScore
    ensures b.score >= cfg.minScore ==> Best(CandidateKey(), cfg.minScore, cfg.synthTopK, [b]) == [b]
  {
    hide Rank;
    var key := CandidateKey();
    assert b in [b];
    PassingSnoc(key, cfg.minScore, [], b);
    assert [] + [b] == [b];
    RankOfRanked(key, [b]);
  }
}
