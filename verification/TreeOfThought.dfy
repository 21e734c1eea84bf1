/** The tree-of-thought mode: independent branches pruned one by one as they succeed, pruned once more
    before synthesis, with fallbacks to all successes when nothing passes the threshold. */
module TreeOfThought {
  import opened Ranking
  import opened Pruning

  datatype Call = Failed | Answered(output: string, score: int)

  datatype Config = Config(pruning: bool, minScore: int, topK: nat, synthTopK: nat) {
    /** What the executor's constructor leaves of any configuration. */
    ghost predicate Valid() {
      1 <= synthTopK <= topK
    }
  }

  datatype Outcome = NoSuccess | Synthesis(branches: seq<Branch>, stats: Stats)

  /** The successful branches in order; a branch is numbered by its position among all calls. */
  function Successes(calls: seq<Call>): (all: seq<Branch>)
  {
    if calls == [] then []
    else
      var rest := Successes(calls[..|calls| - 1]);
      match calls[|calls| - 1]
      case Failed => rest
      case Answered(output, score) => rest + [Branch(|calls|, output, score)]
  }

  lemma {:induction false} SuccessesAreNumbered(calls: seq<Call>)
    ensures DistinctIndices(Successes(calls))
    ensures forall b :: b in Successes(calls) ==> 1 <= b.index <= |calls|
  {
    if calls != [] {
      SuccessesAreNumbered(calls[..|calls| - 1]);
    }
  }

  lemma {:induction false} PlaceKeepsIndices(mode: Mode, x: Branch, s: seq<Branch>)
    requires DistinctIndices(s) && forall y :: y in s ==> y.index != x.index
    ensures DistinctIndices(Place(BranchKey(mode), x, s))
    ensures forall y :: y in Place(BranchKey(mode), x, s) ==> y in s || y == x
  {
    if s != [] {
      var init, last := s[..|s| - 1], s[|s| - 1];
      if !AtLeast(BranchKey(mode)(last), BranchKey(mode)(x)) {
        PlaceKeepsIndices(mode, x, init);
        var placed := Place(BranchKey(mode), x, init);
        forall j | 0 <= j < |placed| ensures placed[j].index != last.index {
          assert placed[j] in placed && last in s;
          if placed[j] != x {
            var i :| 0 <= i < |init| && init[i] == placed[j];
            assert s[i] == placed[j];
          }
        }
        DistinctSnoc(placed, last);
      }
    }
  }

  lemma {:induction false} RankKeepsIndices(mode: Mode, s: seq<Branch>)
    requires DistinctIndices(s)
    ensures DistinctIndices(Rank(BranchKey(mode), s))
    ensures forall y :: y in Rank(BranchKey(mode), s) ==> y in s
  {
    if s != [] {
      var init, last := s[..|s| - 1], s[|s| - 1];
      RankKeepsIndices(mode, init);
      PlaceKeepsIndices(mode, last, Rank(BranchKey(mode), init));
    }
  }

  /** What survives pruning still has one number per branch. */
  lemma BestKeepsIndices(mode: Mode, minScore: int, k: nat, s: seq<Branch>)
    requires DistinctIndices(s)
    ensures DistinctIndices(Best(BranchKey(mode), minScore, k, s))
    ensures forall y :: y in Best(BranchKey(mode), minScore, k, s) ==> y in s
  {
    PassingKeepsIndices(BranchKey(mode), minScore, s);
    PassingIsFilter(BranchKey(mode), minScore, s);
    RankKeepsIndices(mode, Passing(BranchKey(mode), minScore, s));
  }

  /** What the prunings during the branch loop were given: the kept branches and one more each time. */
  ghost function Fed(cfg: Config, all: seq<Branch>): nat {
    if all == [] then 0
    else
      var init := all[..|all| - 1];
      Fed(cfg, init) + |Best(BranchKey(ToT), cfg.minScore, cfg.topK, init)| + 1
  }

  predicate SomePass(minScore: int, all: seq<Branch>) {
    exists b :: b in all && b.score >= minScore
  }

  lemma NonePass(minScore: int, all: seq<Branch>)
    ensures SomePass(minScore, all) <==> Passing(BranchKey(ToT), minScore, all) != []
  {
    PassingIsFilter(BranchKey(ToT), minScore, all);
    var passing := Passing(BranchKey(ToT), minScore, all);
    if passing != [] {
      assert passing[0] in passing;
    }
  }

  /** The branch loop: prune after every success. */
  method RunBranches(cfg: Config, calls: seq<Call>) returns (kept: seq<Branch>, all: seq<Branch>, stats: Stats)
    requires cfg.Valid()
    ensures all == Successes(calls)
    ensures kept == if cfg.pruning then Best(BranchKey(ToT), cfg.minScore, cfg.topK, all) else all
    ensures cfg.pruning ==> stats.droppedLow == |all| - |Passing(BranchKey(ToT), cfg.minScore, all)|
    ensures stats.droppedLow + stats.droppedTopK == |all| - |kept|
    ensures stats.candidatesIn == if cfg.pruning then Fed(cfg, all) else 0
  {
    kept, all, stats := [], [], NO_STATS;
    for i := 0 to |calls|
      invariant all == Successes(calls[..i])
      invariant kept == if cfg.pruning then Best(BranchKey(ToT), cfg.minScore, cfg.topK, all) else all
      invariant cfg.pruning ==> stats.droppedLow == |all| - |Passing(BranchKey(ToT), cfg.minScore, all)|
      invariant stats.droppedLow + stats.droppedTopK == |all| - |kept|
      invariant stats.candidatesIn == if cfg.pruning then Fed(cfg, all) else 0
    {
      assert calls[..i + 1][..i] == calls[..i];
      if calls[i].Failed? {
        continue;
      }
      var branch := Branch(i + 1, calls[i].output, calls[i].score);
      SuccessesAreNumbered(calls[..i]);
      if cfg.pruning {
        kept, stats := PruneOneMore(cfg, all, kept, branch, stats);
      } else {
        kept := kept + [branch];
      }
      assert (all + [branch])[..|all|] == all;
      all := all + [branch];
    }
    assert calls[..|calls|] == calls;
  }

  /** `pruneToTAccumulated` on the kept branches and a new one. */
  method PruneOneMore(cfg: Config, ghost all: seq<Branch>, kept: seq<Branch>, branch: Branch, stats: Stats)
    returns (pruned: seq<Branch>, merged: Stats)
    requires cfg.Valid() && DistinctIndices(all) && forall b :: b in all ==> b.index < branch.index
    requires kept == Best(BranchKey(ToT), cfg.minScore, cfg.topK, all)
    ensures pruned == Best(BranchKey(ToT), cfg.minScore, cfg.topK, all + [branch])
    ensures merged.droppedLow + merged.droppedTopK == stats.droppedLow + stats.droppedTopK + |kept| + 1 - |pruned|
    ensures merged.candidatesIn == stats.candidatesIn + |kept| + 1
    ensures merged.droppedLow == stats.droppedLow +
              |all| + 1 - |Passing(BranchKey(ToT), cfg.minScore, all + [branch])|
              - (|all| - |Passing(BranchKey(ToT), cfg.minScore, all)|)
  {
    BestKeepsIndices(ToT, cfg.minScore, cfg.topK, all);
    DistinctSnoc(kept, branch);
    var step;
    pruned, step := PruneBranches(ToT, kept + [branch], cfg.minScore, cfg.topK);
    merged := stats.Merge(step);
    BestExtends(BranchKey(ToT), cfg.minScore, cfg.topK, all, branch);
    KeptPasses(BranchKey(ToT), cfg.minScore, cfg.topK, all, branch);
  }

  /** The selection part of `executeToT`: what synthesis is given, and the trace's counters. */
  method Execute(cfg: Config, calls: seq<Call>) returns (r: Outcome)
    requires cfg.Valid()
    ensures r.NoSuccess? <==> Successes(calls) == []
    ensures r.Synthesis? ==> r.branches != []
    ensures r.Synthesis? && !cfg.pruning ==> r.branches == Successes(calls)
    ensures r.Synthesis? && cfg.pruning && SomePass(cfg.minScore, Successes(calls)) ==>
              r.branches == Best(BranchKey(ToT), cfg.minScore, cfg.synthTopK, Successes(calls))
    ensures r.Synthesis? && cfg.pruning && !SomePass(cfg.minScore, Successes(calls)) ==>
              r.branches == Prefix(Rank(BranchKey(ToT), Successes(calls)), cfg.synthTopK)
    ensures r.Synthesis? && cfg.pruning && SomePass(cfg.minScore, Successes(calls)) ==>
              Tallied(cfg, Successes(calls), r)
    ensures r.Synthesis? && cfg.pruning && !SomePass(cfg.minScore, Successes(calls)) ==>
              r.stats.droppedLow == 2 * |Successes(calls)| && r.stats.droppedTopK == 0
    ensures r.Synthesis? && cfg.pruning ==>
              (SomePass(cfg.minScore, Successes(calls)) <==>
               |Successes(calls)| == |r.branches| + r.stats.droppedLow + r.stats.droppedTopK)
  {
    var kept, all, stats := RunBranches(cfg, calls);
    SuccessesAreNumbered(calls);
    if |all| == 0 {
      return NoSuccess;
    }
    if !cfg.pruning {
      return Synthesis(kept, stats);
    }
    NonePass(cfg.minScore, all);
    BestMembers(BranchKey(ToT), cfg.minScore, cfg.topK, all);
    if |kept| == 0 {
      r := FallBack(cfg, all, stats);
    } else {
      r := PruneKept(cfg, all, kept, stats);
    }
  }

  /** The counters when some branch passes: branches under the threshold, and passing ones that were cut. */
  ghost predicate Tallied(cfg: Config, all: seq<Branch>, r: Outcome)
    requires r.Synthesis?
  {
    var passing := Passing(BranchKey(ToT), cfg.minScore, all);
    && r.stats.droppedLow == |all| - |passing|
    && r.stats.droppedTopK == |passing| - |r.branches|
    && r.stats.candidatesIn == Fed(cfg, all) + |Best(BranchKey(ToT), cfg.minScore, cfg.topK, all)|
  }

  /** The second pruning, down to what one synthesis prompt takes. */
  method PruneKept(cfg: Config, all: seq<Branch>, kept: seq<Branch>, stats: Stats) returns (r: Outcome)
    requires cfg.Valid() && DistinctIndices(all)
    requires kept == Best(BranchKey(ToT), cfg.minScore, cfg.topK, all) && kept != []
    requires stats.droppedLow == |all| - |Passing(BranchKey(ToT), cfg.minScore, all)|
    requires stats.droppedLow + stats.droppedTopK == |all| - |kept|
    requires stats.candidatesIn == Fed(cfg, all)
    ensures r.Synthesis? && r.branches == Best(BranchKey(ToT), cfg.minScore, cfg.synthTopK, all) && r.branches != []
    ensures Tallied(cfg, all, r)
  {
    hide Best, Rank, Passing, Fed, BranchKey;
    BestKeepsIndices(ToT, cfg.minScore, cfg.topK, all);
    BestOfBest(BranchKey(ToT), cfg.minScore, cfg.topK, cfg.synthTopK, all);
    BestMembers(BranchKey(ToT), cfg.minScore, cfg.synthTopK, all);
    BestMembers(BranchKey(ToT), cfg.minScore, cfg.topK, all);
    PassingIsFilter(BranchKey(ToT), cfg.minScore, kept);
    var pruned, step := PruneBranches(ToT, kept, cfg.minScore, cfg.synthTopK);
    r := Synthesis(pruned, stats.Merge(step));
  }

  /** The path taken when no branch passes: everything is pruned a second time, then the best are used anyway. */
  method FallBack(cfg: Config, all: seq<Branch>, stats: Stats) returns (r: Outcome)
    requires cfg.Valid() && DistinctIndices(all) && all != [] && Passing(BranchKey(ToT), cfg.minScore, all) == []
    requires stats.droppedLow == |all| && stats.droppedTopK == 0
    ensures r.Synthesis? && r.branches == Prefix(Rank(BranchKey(ToT), all), cfg.synthTopK) && r.branches != []
    ensures r.stats.droppedLow == 2 * |all| && r.stats.droppedTopK == 0
  {
    var branchResults := StableSort(ToT, all);
    RankKeeps(BranchKey(ToT), all);
    SortIsUnique(ToT, branchResults, Rank(BranchKey(ToT), all));
    RankKeepsIndices(ToT, all);
    StillNonePass(cfg.minScore, all, branchResults);
    var pruned, step := PruneBranches(ToT, branchResults, cfg.minScore, cfg.synthTopK);
    var merged := stats.Merge(step);
    assert Rank(BranchKey(ToT), []) == [];
    var fallback := branchResults;
    if |fallback| > cfg.synthTopK {
      fallback := fallback[..cfg.synthTopK];
    }
    r := Synthesis(fallback, merged);
  }

  /** For example, one branch below the threshold: it is synthesised, and counted as dropped twice. */
  method OneLowBranch() returns (r: Outcome)
    ensures r.Synthesis? && r.branches == [Branch(1, "low", 100)] && r.stats.droppedLow == 2
  {
    hide *;
    OneLowSuccess(Branch(1, "low", 100), Config(true, 500, 3, 2));
    r := Execute(Config(true, 500, 3, 2), [Answered("low", 100)]);
  }

  lemma OneLowSuccess(b: Branch, cfg: Config)
    requires b.index == 1 && b.score < cfg.minScore && 1 <= cfg.synthTopK <= cfg.topK
    ensures var all := Successes([Answered(b.output, b.score)]);
            && all == [b] && cfg.Valid() && !SomePass(cfg.minScore, all)
            && Prefix(Rank(BranchKey(ToT), all), cfg.synthTopK) == [b]
  {
    hide Rank, BranchKey, AtLeast, Successes;
    OneSuccess(b);
    RankOfRanked(BranchKey(ToT), [b]);
  }

  lemma OneSuccess(b: Branch)
    requires b.index == 1
    ensures Successes([Answered(b.output, b.score)]) == [b]
  {
    var calls := [Answered(b.output, b.score)];
    assert calls[..0] == [] && Successes([]) == [];
    assert [] + [b] == [b];
  }

  lemma StillNonePass(minScore: int, all: seq<Branch>, sorted: seq<Branch>)
    requires multiset(sorted) == multiset(all) && Passing(BranchKey(ToT), minScore, all) == []
    ensures Passing(BranchKey(ToT), minScore, sorted) == []
  {
    PassingIsFilter(BranchKey(ToT), minScore, all);
    PassingIsFilter(BranchKey(ToT), minScore, sorted);
    forall y | y in sorted ensures y.score < minScore {
      assert y in multiset(sorted);
      assert y in all && y !in Passing(BranchKey(ToT), minScore, all);
    }
    EmptyOrInhabited(Passing(BranchKey(ToT), minScore, sorted));
  }

  lemma EmptyOrInhabited<T>(s: seq<T>)
    ensures s == [] || exists y :: y in s
  {
    assert s != [] ==> s[0] in s;
  }
}
