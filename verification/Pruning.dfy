/** The pruning step of the reasoning executor: score threshold, total-order sort, top-K cut and its
    counters, for ordinary branches and for MCTS candidates that are numbered by position first. */
module Pruning {
  import opened Ranking

  datatype Branch = Branch(index: int, output: string, score: int)

  /** A simulated action path with its output; for an agent's result the path is just its role. */
  datatype Candidate = Candidate(path: seq<string>, output: string, score: int)

  /** The `mode` argument; the first two break score ties by output length before position. */
  datatype Mode = Mcts | MultiAgent | ToT | Decompose {
    predicate BySize() {
      Mcts? || MultiAgent?
    }
  }

  datatype Stats = Stats(candidatesIn: int, candidatesOut: int, droppedLow: int, droppedTopK: int) {
    function Merge(other: Stats): Stats {
      Stats(candidatesIn + other.candidatesIn, other.candidatesOut,
            droppedLow + other.droppedLow, droppedTopK + other.droppedTopK)
    }
  }

  const NO_STATS := Stats(0, 0, 0, 0)

  /** The comparison function handed to the sort. */
  predicate Less(mode: Mode, a: Branch, b: Branch) {
    if a.score == b.score then
      match mode
      case Mcts | MultiAgent =>
        if |a.output| == |b.output| then a.index < b.index else |a.output| > |b.output|
      case ToT | Decompose => a.index < b.index
    else a.score > b.score
  }

  function BranchKey(mode: Mode): Branch -> Key {
    (b: Branch) => Key(b.score, if mode.BySize() then |b.output| else 0, b.index)
  }

  /** A candidate has no number of its own: among equals, whichever came first goes first. */
  function CandidateKey(): Candidate -> Key {
    (c: Candidate) => Key(c.score, |c.output|, 0)
  }

  ghost predicate SortedBy(mode: Mode, s: seq<Branch>) {
    forall i, j :: 0 <= i < j < |s| ==> Less(mode, s[i], s[j])
  }

  ghost predicate DistinctIndices(s: seq<Branch>) {
    forall i, j :: 0 <= i < j < |s| ==> s[i].index != s[j].index
  }

  // ----- The sort has exactly one possible result

  lemma SameHead(mode: Mode, a: seq<Branch>, b: seq<Branch>)
    requires SortedBy(mode, a) && Descending(BranchKey(mode), b)
    requires multiset(a) == multiset(b) && a != [] && b != []
    ensures a[0] == b[0]
  {
    var key := BranchKey(mode);
    assert a[0] in multiset(b) && b[0] in multiset(a);
    assert AtLeast(key(b[0]), key(a[0]));
    assert a[0] != b[0] ==> Less(mode, a[0], b[0]);
  }

  lemma TailsMatch<T>(a: seq<T>, b: seq<T>)
    requires multiset(a) == multiset(b) && a != [] && b != [] && a[0] == b[0]
    ensures multiset(a[1..]) == multiset(b[1..])
  {
    assert a == [a[0]] + a[1..] && b == [b[0]] + b[1..];
    assert multiset(a[1..]) == multiset(a) - multiset{a[0]};
    assert multiset(b[1..]) == multiset(b) - multiset{b[0]};
  }

  /** With distinct indices the comparison is a strict total order, so every sorted arrangement of the
      branches is the ranking, whatever algorithm produced it. */
  lemma {:induction false} SortIsUnique(mode: Mode, a: seq<Branch>, b: seq<Branch>)
    requires SortedBy(mode, a) && Descending(BranchKey(mode), b)
    requires multiset(a) == multiset(b)
    ensures a == b
  {
    assert |a| == |multiset(a)| == |multiset(b)| == |b|;
    if a != [] {
      SameHead(mode, a, b);
      TailsMatch(a, b);
      SortIsUnique(mode, a[1..], b[1..]);
      assert a == [a[0]] + a[1..] && b == [b[0]] + b[1..];
    }
  }

  /** Putting `x` at the one position the comparison allows. */
  lemma InsertAt(mode: Mode, s: seq<Branch>, p: nat, x: Branch)
    requires p <= |s| && SortedBy(mode, s)
    requires forall y :: y in s ==> y.index != x.index
    requires forall j :: p <= j < |s| ==> Less(mode, x, s[j])
    requires p > 0 ==> !Less(mode, x, s[p - 1])
    ensures SortedBy(mode, s[..p] + [x] + s[p..])
  {
    forall i | 0 <= i < p ensures Less(mode, s[i], x) {
      assert Less(mode, s[p - 1], x);
      assert i == p - 1 || Less(mode, s[i], s[p - 1]);
    }
  }

  /** `pruneStableSort`: the library sort, here an insertion sort; only the contract is relied on. */
  method StableSort(mode: Mode, input: seq<Branch>) returns (sorted: seq<Branch>)
    requires DistinctIndices(input)
    ensures multiset(sorted) == multiset(input)
    ensures SortedBy(mode, sorted)
  {
    sorted := [];
    for i := 0 to |input|
      invariant multiset(sorted) == multiset(input[..i])
      invariant SortedBy(mode, sorted)
    {
      forall y | y in sorted ensures y.index != input[i].index {
        assert y in multiset(input[..i]);
      }
      assert input[..i + 1] == input[..i] + [input[i]];
      sorted := SortedInsert(mode, sorted, input[i]);
    }
    assert input[..|input|] == input;
  }

  method SortedInsert(mode: Mode, s: seq<Branch>, x: Branch) returns (r: seq<Branch>)
    requires SortedBy(mode, s)
    requires forall y :: y in s ==> y.index != x.index
    ensures SortedBy(mode, r)
    ensures multiset(r) == multiset(s) + multiset{x}
  {
    var p := |s|;
    while p > 0 && Less(mode, x, s[p - 1])
      invariant 0 <= p <= |s|
      invariant forall j :: p <= j < |s| ==> Less(mode, x, s[j])
    {
      p := p - 1;
    }
    InsertAt(mode, s, p, x);
    assert s == s[..p] + s[p..];
    r := s[..p] + [x] + s[p..];
  }

  /** `pruneBranches`. */
  method PruneBranches(mode: Mode, input: seq<Branch>, minScore: int, topK: int)
    returns (out: seq<Branch>, stats: Stats)
    requires DistinctIndices(input)
    ensures out == if topK > 0 then Best(BranchKey(mode), minScore, topK, input)
                   else Rank(BranchKey(mode), Passing(BranchKey(mode), minScore, input))
    ensures InOrder(mode, out)
    ensures stats.candidatesIn == |input| && stats.candidatesOut == |out|
    ensures stats.droppedLow == |input| - |Passing(BranchKey(mode), minScore, input)|
    ensures stats.droppedTopK == |Passing(BranchKey(mode), minScore, input)| - |out|
    ensures stats.candidatesIn == stats.candidatesOut + stats.droppedLow + stats.droppedTopK
  {
    ghost var key := BranchKey(mode);
    stats := Stats(|input|, |input|, 0, 0);
    if |input| == 0 {
      return [], stats;
    }
    out := [];
    for i := 0 to |input|
      invariant out == Passing(key, minScore, input[..i])
      invariant stats == Stats(|input|, |input|, i - |out|, 0)
    {
      var b := input[i];
      PassingSnoc(key, minScore, input[..i], b);
      assert input[..i + 1] == input[..i] + [b];
      if b.score < minScore {
        stats := stats.(droppedLow := stats.droppedLow + 1);
        continue;
      }
      out := out + [b];
    }
    assert input[..|input|] == input;
    out := SortedIsRank(mode, minScore, input, out);
    if topK > 0 && |out| > topK {
      stats := stats.(droppedTopK := |out| - topK);
      out := out[..topK];
    }
    stats := stats.(candidatesOut := |out|);
    KeptInOrder(mode, input, minScore, topK);
  }

  /** Higher scores first; among equal ones longer outputs, in the modes that look at them, then lower indices. */
  ghost predicate InOrder(mode: Mode, s: seq<Branch>) {
    forall i, j :: 0 <= i < j < |s| ==>
      s[i].score > s[j].score
      || (s[i].score == s[j].score
          && if mode == Mcts || mode == MultiAgent then
               |s[i].output| > |s[j].output| || (|s[i].output| == |s[j].output| && s[i].index <= s[j].index)
             else s[i].index <= s[j].index)
  }

  lemma KeptInOrder(mode: Mode, input: seq<Branch>, minScore: int, topK: int)
    ensures topK > 0 ==> InOrder(mode, Best(BranchKey(mode), minScore, topK, input))
    ensures InOrder(mode, Rank(BranchKey(mode), Passing(BranchKey(mode), minScore, input)))
  {
    hide Rank, Passing;
    RankKeeps(BranchKey(mode), Passing(BranchKey(mode), minScore, input));
  }

  /** The sorting step of `pruneBranches`. */
  method SortedIsRank(mode: Mode, ghost minScore: int, ghost input: seq<Branch>, passing: seq<Branch>)
    returns (sorted: seq<Branch>)
    requires DistinctIndices(input) && passing == Passing(BranchKey(mode), minScore, input)
    ensures sorted == Rank(BranchKey(mode), passing) && |sorted| == |passing|
  {
    PassingKeepsIndices(BranchKey(mode), minScore, input);
    sorted := StableSort(mode, passing);
    RankKeeps(BranchKey(mode), passing);
    SortIsUnique(mode, sorted, Rank(BranchKey(mode), passing));
  }

  lemma {:induction false} PassingKeepsIndices(key: Branch -> Key, minScore: int, s: seq<Branch>)
    requires DistinctIndices(s)
    ensures DistinctIndices(Passing(key, minScore, s))
  {
    if s != [] {
      var init, x := s[..|s| - 1], s[|s| - 1];
      PassingKeepsIndices(key, minScore, init);
      PassingIsFilter(key, minScore, init);
      var passing := Passing(key, minScore, init);
      forall j | 0 <= j < |passing| ensures passing[j].index != x.index {
        assert passing[j] in passing && passing[j] in init;
        var i :| 0 <= i < |init| && init[i] == passing[j];
        assert s[i] == passing[j];
      }
      DistinctSnoc(passing, x);
    }
  }

  lemma DistinctSnoc(s: seq<Branch>, x: Branch)
    requires DistinctIndices(s) && forall j :: 0 <= j < |s| ==> s[j].index != x.index
    ensures DistinctIndices(s + [x])
  {
  }

  // ----- Candidates numbered by position

  function Numbered(s: seq<Candidate>): (r: seq<Branch>) {
    seq(|s|, i requires 0 <= i < |s| => Branch(i + 1, s[i].output, s[i].score))
  }

  /** A branch points at a candidate with the same output and score. */
  ghost predicate PointsInto(s: seq<Candidate>, b: Branch) {
    1 <= b.index <= |s| && s[b.index - 1].output == b.output && s[b.index - 1].score == b.score
  }

  ghost predicate RefersTo(s: seq<Candidate>, branches: seq<Branch>) {
    forall b :: b in branches ==> PointsInto(s, b)
  }

  ghost function Resolve(s: seq<Candidate>, branches: seq<Branch>): (r: seq<Candidate>)
    requires RefersTo(s, branches)
    ensures |r| == |branches|
  {
    if branches == [] then []
    else
      var b := branches[|branches| - 1];
      assert b in branches && PointsInto(s, b);
      Resolve(s, branches[..|branches| - 1]) + [s[b.index - 1]]
  }

  lemma ResolveSnoc(s: seq<Candidate>, branches: seq<Branch>, b: Branch)
    requires RefersTo(s, branches) && PointsInto(s, b)
    ensures RefersTo(s, branches + [b])
    ensures Resolve(s, branches + [b]) == Resolve(s, branches) + [s[b.index - 1]]
  {
    assert (branches + [b])[..|branches|] == branches;
  }

  lemma {:induction false} ResolvePrefix(s: seq<Candidate>, branches: seq<Branch>, n: nat)
    requires RefersTo(s, branches) && n <= |branches|
    ensures Resolve(s, branches[..n]) == Resolve(s, branches)[..n]
  {
    if n == |branches| {
      assert branches[..n] == branches;
    } else {
      var last := |branches| - 1;
      ResolvePrefix(s, branches[..last], n);
      assert branches[..last][..n] == branches[..n];
    }
  }

  lemma {:induction false} PassingResolves(mode: Mode, s: seq<Candidate>, min: int, branches: seq<Branch>)
    requires mode.BySize() && RefersTo(s, branches)
    ensures RefersTo(s, Passing(BranchKey(mode), min, branches))
    ensures Resolve(s, Passing(BranchKey(mode), min, branches)) ==
            Passing(CandidateKey(), min, Resolve(s, branches))
  {
    PassingIsFilter(BranchKey(mode), min, branches);
    if branches != [] {
      var init, x := branches[..|branches| - 1], branches[|branches| - 1];
      assert x in branches && branches == init + [x];
      PassingResolves(mode, s, min, init);
      PassingSnoc(BranchKey(mode), min, init, x);
      ResolveSnoc(s, init, x);
      PassingSnoc(CandidateKey(), min, Resolve(s, init), s[x.index - 1]);
      if x.score >= min {
        ResolveSnoc(s, Passing(BranchKey(mode), min, init), x);
      }
    }
  }

  lemma SameOrder(mode: Mode, s: seq<Candidate>, y: Branch, x: Branch)
    requires mode.BySize() && PointsInto(s, x) && PointsInto(s, y) && y.index < x.index
    ensures AtLeast(BranchKey(mode)(y), BranchKey(mode)(x)) <==>
            AtLeast(CandidateKey()(s[y.index - 1]), CandidateKey()(s[x.index - 1]))
  {
  }

  /** Behind lower numbers only, breaking ties by number and keeping arrival order are the same. */
  lemma {:induction false} PlaceResolves(mode: Mode, s: seq<Candidate>, x: Branch, branches: seq<Branch>)
    requires mode.BySize() && RefersTo(s, branches) && PointsInto(s, x)
    requires forall b :: b in branches ==> b.index < x.index
    ensures RefersTo(s, Place(BranchKey(mode), x, branches))
    ensures Resolve(s, Place(BranchKey(mode), x, branches)) ==
            Place(CandidateKey(), s[x.index - 1], Resolve(s, branches))
  {
    if branches == [] {
      ResolveSnoc(s, [], x);
      assert [] + [x] == [x];
    } else {
      var init, y := branches[..|branches| - 1], branches[|branches| - 1];
      assert y in branches && branches == init + [y];
      ResolveSnoc(s, init, y);
      SameOrder(mode, s, y, x);
      if AtLeast(BranchKey(mode)(y), BranchKey(mode)(x)) {
        ResolveSnoc(s, branches, x);
      } else {
        PlaceResolves(mode, s, x, init);
        ResolveSnoc(s, Place(BranchKey(mode), x, init), y);
        PlaceBefore(CandidateKey(), s[x.index - 1], Resolve(s, init), s[y.index - 1]);
      }
    }
  }

  ghost predicate Ascending(branches: seq<Branch>) {
    forall i, j :: 0 <= i < j < |branches| ==> branches[i].index < branches[j].index
  }

  lemma {:induction false} RankResolves(mode: Mode, s: seq<Candidate>, branches: seq<Branch>)
    requires mode.BySize() && RefersTo(s, branches) && Ascending(branches)
    ensures RefersTo(s, Rank(BranchKey(mode), branches))
    ensures Resolve(s, Rank(BranchKey(mode), branches)) == Rank(CandidateKey(), Resolve(s, branches))
  {
    if branches != [] {
      var init, x := branches[..|branches| - 1], branches[|branches| - 1];
      assert x in branches && branches == init + [x];
      RankResolves(mode, s, init);
      RankKeeps(BranchKey(mode), init);
      forall b | b in Rank(BranchKey(mode), init) ensures b.index < x.index {
        assert b in multiset(init);
      }
      ResolveSnoc(s, init, x);
      RankSnoc(CandidateKey(), Resolve(s, init), s[x.index - 1]);
      PlaceResolves(mode, s, x, Rank(BranchKey(mode), init));
    }
  }

  lemma AscendingSnoc(branches: seq<Branch>, x: Branch)
    requires Ascending(branches)
    requires forall j :: 0 <= j < |branches| ==> branches[j].index < x.index
    ensures Ascending(branches + [x])
  {
  }

  lemma {:induction false} PassingAscends(key: Branch -> Key, min: int, branches: seq<Branch>)
    requires Ascending(branches)
    ensures Ascending(Passing(key, min, branches))
  {
    if branches != [] {
      var init, x := branches[..|branches| - 1], branches[|branches| - 1];
      PassingAscends(key, min, init);
      PassingIsFilter(key, min, init);
      var passing := Passing(key, min, init);
      forall j | 0 <= j < |passing| ensures passing[j].index < x.index {
        assert passing[j] in passing && passing[j] in init;
        var i :| 0 <= i < |init| && init[i] == passing[j];
        assert branches[i] == passing[j];
      }
      AscendingSnoc(passing, x);
    }
  }

  lemma {:induction false} NumberedResolves(s: seq<Candidate>, n: nat)
    requires n <= |s|
    ensures RefersTo(s, Numbered(s)[..n])
    ensures Resolve(s, Numbered(s)[..n]) == s[..n]
  {
    if n > 0 {
      NumberedResolves(s, n - 1);
      assert Numbered(s)[..n] == Numbered(s)[..n - 1] + [Numbered(s)[n - 1]];
      ResolveSnoc(s, Numbered(s)[..n - 1], Numbered(s)[n - 1]);
    }
  }

  /** Numbering candidates by position, ranking the numbers and resolving them ranks the candidates. */
  lemma NumberedBest(mode: Mode, s: seq<Candidate>, min: int, k: nat)
    requires mode.BySize()
    ensures RefersTo(s, Best(BranchKey(mode), min, k, Numbered(s)))
    ensures Resolve(s, Best(BranchKey(mode), min, k, Numbered(s))) == Best(CandidateKey(), min, k, s)
    ensures |Passing(BranchKey(mode), min, Numbered(s))| == |Passing(CandidateKey(), min, s)|
  {
    var numbered := Numbered(s);
    NumberedResolves(s, |s|);
    assert numbered[..|s|] == numbered && s[..|s|] == s;
    PassingResolves(mode, s, min, numbered);
    PassingAscends(BranchKey(mode), min, numbered);
    RankResolves(mode, s, Passing(BranchKey(mode), min, numbered));
    var ranked := Rank(BranchKey(mode), Passing(BranchKey(mode), min, numbered));
    if |ranked| > k {
      ResolvePrefix(s, ranked, k);
    }
  }

  method NumberAll(input: seq<Candidate>) returns (branches: seq<Branch>)
    ensures branches == Numbered(input)
  {
    branches := [];
    for i := 0 to |input|
      invariant branches == Numbered(input)[..i]
    {
      branches := branches + [Branch(i + 1, input[i].output, input[i].score)];
    }
  }

  method ResolveAll(input: seq<Candidate>, pruned: seq<Branch>) returns (out: seq<Candidate>)
    requires RefersTo(input, pruned)
    ensures out == Resolve(input, pruned)
  {
    out := [];
    for i := 0 to |pruned|
      invariant out == Resolve(input, pruned[..i])
    {
      var idx := pruned[i].index - 1;
      assert pruned[i] in pruned && pruned[..i + 1] == pruned[..i] + [pruned[i]];
      ResolveSnoc(input, pruned[..i], pruned[i]);
      if 0 <= idx < |input| {
        out := out + [input[idx]];
      }
    }
    assert pruned[..|pruned|] == pruned;
  }

  /** `pruneMCTSCandidates`, and `pruneMultiAgentCandidates` in the other mode. */
  method PruneCandidates(mode: Mode, enabled: bool, input: seq<Candidate>, minScore: int, topK: int)
    returns (out: seq<Candidate>, stats: Stats)
    requires mode.BySize() && topK >= 1
    ensures !enabled ==> out == input && stats == Stats(|input|, |input|, 0, 0)
    ensures enabled ==> out == Best(CandidateKey(), minScore, topK, input)
    ensures enabled ==> NoneBetterDropped(input, minScore, out)
    ensures stats.candidatesIn == |input| && stats.candidatesOut == |out|
    ensures enabled ==> stats.droppedLow == |input| - |Passing(CandidateKey(), minScore, input)|
    ensures stats.candidatesIn == stats.candidatesOut + stats.droppedLow + stats.droppedTopK
  {
    if !enabled {
      return input, Stats(|input|, |input|, 0, 0);
    }
    var branches := NumberAll(input);
    var pruned;
    pruned, stats := PruneBranches(mode, branches, minScore, topK);
    NumberedBest(mode, input, minScore, topK);
    out := ResolveAll(input, pruned);
    stats := stats.(candidatesOut := |out|);
    BestDropsNoneBetter(input, minScore, topK);
  }

  predicate NoBetter(a: Candidate, b: Candidate) {
    a.score < b.score || (a.score == b.score && |a.output| <= |b.output|)
  }

  /** What is kept comes in descending order, and no candidate that passes was dropped although it has a higher
      score than one that was kept, or the same score and a longer output. */
  ghost predicate NoneBetterDropped(input: seq<Candidate>, minScore: int, out: seq<Candidate>) {
    && (forall i, j :: 0 <= i < j < |out| ==> NoBetter(out[j], out[i]))
    && (forall c, kept :: c in input && c.score >= minScore && c !in out && kept in out ==> NoBetter(c, kept))
    && (forall kept :: kept in out ==> kept in input && kept.score >= minScore)
  }

  lemma BestDropsNoneBetter(input: seq<Candidate>, minScore: int, topK: nat)
    ensures NoneBetterDropped(input, minScore, Best(CandidateKey(), minScore, topK, input))
  {
    hide Best;
    var out := Best(CandidateKey(), minScore, topK, input);
    BestMembers(CandidateKey(), minScore, topK, input);
    forall c, kept | c in input && c.score >= minScore && c !in out && kept in out ensures NoBetter(c, kept) {
      BestDominates(CandidateKey(), minScore, topK, input, kept, c);
    }
  }

  // ----- Sorts without a tie-break by position

  function Keys<T>(key: T -> Key, s: seq<T>): (r: seq<Key>)
    ensures |r| == |s|
  {
    if s == [] then [] else Keys(key, s[..|s| - 1]) + [key(s[|s| - 1])]
  }

  lemma {:induction false} KeysAt<T>(key: T -> Key, s: seq<T>, i: nat)
    requires i < |s|
    ensures Keys(key, s)[i] == key(s[i])
  {
    if i < |s| - 1 {
      KeysAt(key, s[..|s| - 1], i);
    }
  }

  lemma {:induction false} KeysConcat<T>(key: T -> Key, a: seq<T>, b: seq<T>)
    ensures Keys(key, a + b) == Keys(key, a) + Keys(key, b)
  {
    if b == [] {
      assert a + b == a;
    } else {
      KeysConcat(key, a, b[..|b| - 1]);
      assert (a + b)[..|a + b| - 1] == a + b[..|b| - 1];
    }
  }

  lemma KeysSnoc<T>(key: T -> Key, s: seq<T>, x: T)
    ensures Keys(key, s + [x]) == Keys(key, s) + [key(x)]
  {
    assert (s + [x])[..|s|] == s;
  }

  lemma Pluck<T>(a: seq<T>, b: seq<T>) returns (j: nat)
    requires multiset(a) == multiset(b) && a != []
    ensures j < |b| && b[j] == a[|a| - 1]
    ensures multiset(a[..|a| - 1]) == multiset(b[..j] + b[j + 1..])
  {
    var init, x := a[..|a| - 1], a[|a| - 1];
    assert x in multiset(b);
    j :| 0 <= j < |b| && b[j] == x;
    assert a == init + [x] && b == b[..j] + [x] + b[j + 1..];
    AddOne(b[..j], x, b[j + 1..]);
    Cancel(multiset(init), multiset(b[..j] + b[j + 1..]), x);
  }

  lemma Cancel<T>(a: multiset<T>, b: multiset<T>, x: T)
    requires a + multiset{x} == b + multiset{x}
    ensures a == b
  {
    assert a == (a + multiset{x}) - multiset{x};
    assert b == (b + multiset{x}) - multiset{x};
  }

  lemma KeysWithout<T>(key: T -> Key, b: seq<T>, j: nat)
    requires j < |b|
    ensures multiset(Keys(key, b)) == multiset(Keys(key, b[..j] + b[j + 1..])) + multiset{key(b[j])}
  {
    var left, right := b[..j], b[j + 1..];
    assert b == left + [b[j]] + right;
    KeysConcat(key, left, right);
    KeysSnoc(key, left, b[j]);
    KeysConcat(key, left + [b[j]], right);
    AddOne(Keys(key, left), key(b[j]), Keys(key, right));
  }

  lemma AddOne<T>(left: seq<T>, x: T, right: seq<T>)
    ensures multiset(left + [x] + right) == multiset(left + right) + multiset{x}
  {
  }

  /** Rearranging items rearranges their keys. */
  lemma {:induction false} KeysOfRearranged<T>(key: T -> Key, a: seq<T>, b: seq<T>)
    requires multiset(a) == multiset(b)
    ensures multiset(Keys(key, a)) == multiset(Keys(key, b))
  {
    if a == [] {
      assert |multiset(b)| == |b| == 0;
    } else {
      var j := Pluck(a, b);
      KeysOfRearranged(key, a[..|a| - 1], b[..j] + b[j + 1..]);
      KeysWithout(key, b, j);
    }
  }

  ghost predicate KeysDescend(s: seq<Key>) {
    forall i, j :: 0 <= i < j < |s| ==> AtLeast(s[i], s[j])
  }

  lemma {:induction false} SortedKeysAreUnique(a: seq<Key>, b: seq<Key>)
    requires KeysDescend(a) && KeysDescend(b) && multiset(a) == multiset(b)
    ensures a == b
  {
    assert |a| == |multiset(a)| == |multiset(b)| == |b|;
    if a != [] {
      assert a[0] in multiset(b) && b[0] in multiset(a);
      assert AtLeast(a[0], b[0]) && AtLeast(b[0], a[0]);
      TailsMatch(a, b);
      assert a == [a[0]] + a[1..] && b == [b[0]] + b[1..];
      SortedKeysAreUnique(a[1..], b[1..]);
    }
  }

  /** However a sort orders equal items, the keys come out in one order only. */
  lemma UnstableSortFixesKeys<T>(key: T -> Key, a: seq<T>, b: seq<T>)
    requires Descending(key, a) && Descending(key, b) && multiset(a) == multiset(b)
    ensures Keys(key, a) == Keys(key, b)
  {
    KeysOfRearranged(key, a, b);
    forall i, j | 0 <= i < j < |a| ensures AtLeast(Keys(key, a)[i], Keys(key, a)[j]) {
      KeysAt(key, a, i);
      KeysAt(key, a, j);
    }
    forall i, j | 0 <= i < j < |b| ensures AtLeast(Keys(key, b)[i], Keys(key, b)[j]) {
      KeysAt(key, b, i);
      KeysAt(key, b, j);
    }
    SortedKeysAreUnique(Keys(key, a), Keys(key, b));
  }

  lemma {:induction false} KeysOfPrefix<T>(key: T -> Key, s: seq<T>, k: nat)
    ensures Keys(key, Prefix(s, k)) == Prefix(Keys(key, s), k)
  {
    if |s| > k {
      KeysConcat(key, s[..k], s[k..]);
      assert s == s[..k] + s[k..];
    }
  }

  /** How often a key is left after filtering depends on how often it was there. */
  lemma {:induction false} KeysOfPassing<T>(key: T -> Key, min: int, s: seq<T>, x: Key)
    ensures multiset(Keys(key, Passing(key, min, s)))[x] == if x.score < min then 0 else multiset(Keys(key, s))[x]
  {
    if s != [] {
      var init, last := s[..|s| - 1], s[|s| - 1];
      KeysOfPassing(key, min, init, x);
      KeysSnoc(key, Passing(key, min, init), last);
    }
  }

  /** The keys that pruning keeps depend only on the keys it is given, not on the items or their order. */
  lemma KeysDetermineBest<T>(key: T -> Key, min: int, k: nat, a: seq<T>, b: seq<T>)
    requires multiset(Keys(key, a)) == multiset(Keys(key, b))
    ensures Keys(key, Best(key, min, k, a)) == Keys(key, Best(key, min, k, b))
  {
    var p, q := Passing(key, min, a), Passing(key, min, b);
    forall x: Key ensures multiset(Keys(key, p))[x] == multiset(Keys(key, q))[x] {
      KeysOfPassing(key, min, a, x);
      KeysOfPassing(key, min, b, x);
    }
    KeysOfRanked(key, p);
    KeysOfRanked(key, q);
    SortedKeysAreUnique(Keys(key, Rank(key, p)), Keys(key, Rank(key, q)));
    KeysOfPrefix(key, Rank(key, p), k);
    KeysOfPrefix(key, Rank(key, q), k);
  }

  lemma KeysOfRanked<T>(key: T -> Key, s: seq<T>)
    ensures KeysDescend(Keys(key, Rank(key, s)))
    ensures multiset(Keys(key, Rank(key, s))) == multiset(Keys(key, s))
  {
    var ranked := Rank(key, s);
    RankKeeps(key, s);
    KeysOfRearranged(key, ranked, s);
    forall i, j | 0 <= i < j < |ranked| ensures AtLeast(Keys(key, ranked)[i], Keys(key, ranked)[j]) {
      KeysAt(key, ranked, i);
      KeysAt(key, ranked, j);
    }
  }

  /** A sort by score and output length alone: which of two equal candidates comes first is left open. */
  method SortCandidates(input: seq<Candidate>) returns (sorted: seq<Candidate>)
    ensures Descending(CandidateKey(), sorted)
    ensures multiset(sorted) == multiset(input)
  {
    sorted := [];
    for i := 0 to |input|
      invariant Descending(CandidateKey(), sorted)
      invariant multiset(sorted) == multiset(input[..i])
    {
      assert input[..i + 1] == input[..i] + [input[i]];
      PlaceKeeps(CandidateKey(), input[i], sorted);
      sorted := Place(CandidateKey(), input[i], sorted);
    }
    assert input[..|input|] == input;
  }
}
