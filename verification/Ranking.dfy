/** Keep-the-best-K selection over a sequence of scored items, as a specification.

    `Rank` is the stable descending sort by key, `Best` the first K of the ranked items that pass
    the score threshold. The central fact is `BestExtends`: pruning what is kept after every new item
    keeps exactly what pruning everything seen so far at once would keep. */
module Ranking {

  /** What the comparison functions look at: score, then output length, then position. */
  datatype Key = Key(score: int, size: nat, index: int)

  predicate AtLeast(a: Key, b: Key) {
    a.score > b.score ||
    (a.score == b.score && (a.size > b.size || (a.size == b.size && a.index <= b.index)))
  }

  ghost predicate Descending<T>(key: T -> Key, s: seq<T>) {
    forall i, j :: 0 <= i < j < |s| ==> AtLeast(key(s[i]), key(s[j]))
  }

  function Prefix<T>(s: seq<T>, k: nat): seq<T> {
    if |s| <= k then s else s[..k]
  }

  /** Inserts `x` behind every item of `s` that is at least as good. */
  function Place<T>(key: T -> Key, x: T, s: seq<T>): seq<T> {
    if s == [] then [x]
    else
      var last := |s| - 1;
      if AtLeast(key(s[last]), key(x)) then s + [x] else Place(key, x, s[..last]) + [s[last]]
  }

  function Rank<T>(key: T -> Key, s: seq<T>): seq<T> {
    if s == [] then [] else Place(key, s[|s| - 1], Rank(key, s[..|s| - 1]))
  }

  function Passing<T>(key: T -> Key, min: int, s: seq<T>): seq<T> {
    if s == [] then []
    else
      var rest := Passing(key, min, s[..|s| - 1]);
      if key(s[|s| - 1]).score < min then rest else rest + [s[|s| - 1]]
  }

  /** The `k` best items of `s` that score at least `min`. */
  function Best<T>(key: T -> Key, min: int, k: nat, s: seq<T>): seq<T> {
    Prefix(Rank(key, Passing(key, min, s)), k)
  }

  /** Append-then-prune, one item at a time. */
  function Stream<T>(key: T -> Key, min: int, k: nat, s: seq<T>): seq<T> {
    if s == [] then []
    else Best(key, min, k, Stream(key, min, k, s[..|s| - 1]) + [s[|s| - 1]])
  }

  // ----- Placing one item

  lemma {:induction false} PlaceKeeps<T>(key: T -> Key, x: T, s: seq<T>)
    requires Descending(key, s)
    ensures |Place(key, x, s)| == |s| + 1
    ensures multiset(Place(key, x, s)) == multiset(s) + multiset{x}
    ensures Descending(key, Place(key, x, s))
  {
    if s != [] {
      var last := |s| - 1;
      assert s == s[..last] + [s[last]];
      if !AtLeast(key(s[last]), key(x)) {
        PlaceKeeps(key, x, s[..last]);
        var p := Place(key, x, s[..last]);
        forall y | y in p ensures AtLeast(key(y), key(s[last])) {
          assert y in multiset(p);
          assert y in s[..last] || y == x;
        }
      }
    }
  }

  /** Placing into the first `k` and cutting back to `k` forgets nothing that cutting later would keep. */
  lemma {:induction false} PlaceInPrefix<T>(key: T -> Key, x: T, s: seq<T>, k: nat)
    requires Descending(key, s)
    ensures Prefix(Place(key, x, Prefix(s, k)), k) == Prefix(Place(key, x, s), k)
  {
    if |s| > k {
      var last := |s| - 1;
      PlaceKeeps(key, x, s);
      PlaceKeeps(key, x, s[..last]);
      PlaceInPrefix(key, x, s[..last], k);
      assert Prefix(s[..last], k) == Prefix(s, k);
      if AtLeast(key(s[last]), key(x)) {
        assert Place(key, x, s) == s + [x];
        PlaceAtEnd(key, x, s[..last]);
      }
      assert Prefix(Place(key, x, s[..last]), k) == Prefix(Place(key, x, s), k);
    }
  }

  lemma PlaceAtEnd<T>(key: T -> Key, x: T, s: seq<T>)
    requires forall y :: y in s ==> AtLeast(key(y), key(x))
    ensures Place(key, x, s) == s + [x]
  {
  }

  lemma PlaceBefore<T>(key: T -> Key, x: T, s: seq<T>, last: T)
    ensures Place(key, x, s + [last]) ==
            if AtLeast(key(last), key(x)) then s + [last] + [x] else Place(key, x, s) + [last]
  {
    assert (s + [last])[..|s|] == s;
  }

  // ----- Ranking

  lemma {:induction false} RankKeeps<T>(key: T -> Key, s: seq<T>)
    ensures |Rank(key, s)| == |s|
    ensures multiset(Rank(key, s)) == multiset(s)
    ensures Descending(key, Rank(key, s))
  {
    if s != [] {
      var init, x := s[..|s| - 1], s[|s| - 1];
      RankKeeps(key, init);
      PlaceKeeps(key, x, Rank(key, init));
      assert s == init + [x];
      assert multiset(s) == multiset(init) + multiset{x};
    }
  }

  lemma {:induction false} RankOfRanked<T>(key: T -> Key, s: seq<T>)
    requires Descending(key, s)
    ensures Rank(key, s) == s
  {
    if s != [] {
      var last := |s| - 1;
      RankOfRanked(key, s[..last]);
      PlaceAtEnd(key, s[last], s[..last]);
      assert s == s[..last] + [s[last]];
    }
  }

  // ----- Filtering

  lemma {:induction false} PassingIsFilter<T>(key: T -> Key, min: int, s: seq<T>)
    ensures |Passing(key, min, s)| <= |s|
    ensures forall y :: y in Passing(key, min, s) <==> y in s && key(y).score >= min
    ensures (forall y :: y in s ==> key(y).score >= min) ==> Passing(key, min, s) == s
  {
    if s != [] {
      PassingIsFilter(key, min, s[..|s| - 1]);
      assert s == s[..|s| - 1] + [s[|s| - 1]];
    }
  }

  lemma PassingSnoc<T>(key: T -> Key, min: int, s: seq<T>, x: T)
    ensures Passing(key, min, s + [x]) ==
            Passing(key, min, s) + (if key(x).score < min then [] else [x])
  {
    assert (s + [x])[..|s|] == s;
  }

  lemma RankSnoc<T>(key: T -> Key, s: seq<T>, x: T)
    ensures Rank(key, s + [x]) == Place(key, x, Rank(key, s))
  {
    assert (s + [x])[..|s|] == s;
  }

  // ----- The best K

  lemma BestMembers<T>(key: T -> Key, min: int, k: nat, s: seq<T>)
    ensures Descending(key, Best(key, min, k, s))
    ensures |Best(key, min, k, s)| <= k && |Best(key, min, k, s)| <= |s|
    ensures |Best(key, min, k, s)| == (if |Passing(key, min, s)| < k then |Passing(key, min, s)| else k)
    ensures forall y :: y in Best(key, min, k, s) ==> y in s && key(y).score >= min
  {
    var passing := Passing(key, min, s);
    PassingIsFilter(key, min, s);
    RankKeeps(key, passing);
    forall y | y in Best(key, min, k, s) ensures y in s && key(y).score >= min {
      assert y in multiset(Rank(key, passing));
    }
  }

  /** No passing item left out beats one that was kept. */
  lemma BestDominates<T>(key: T -> Key, min: int, k: nat, s: seq<T>, kept: T, y: T)
    requires kept in Best(key, min, k, s)
    requires y in s && key(y).score >= min && y !in Best(key, min, k, s)
    ensures AtLeast(key(kept), key(y))
  {
    PassingIsFilter(key, min, s);
    RankKeeps(key, Passing(key, min, s));
    assert y in multiset(Rank(key, Passing(key, min, s)));
  }

  /** Pruning what was kept, extended by one item, equals pruning everything. */
  lemma BestExtends<T>(key: T -> Key, min: int, k: nat, s: seq<T>, x: T)
    ensures Best(key, min, k, Best(key, min, k, s) + [x]) == Best(key, min, k, s + [x])
  {
    var kept := Best(key, min, k, s);
    BestMembers(key, min, k, s);
    PassingIsFilter(key, min, kept);
    PassingSnoc(key, min, kept, x);
    PassingSnoc(key, min, s, x);
    RankOfRanked(key, kept);
    var ranked := Rank(key, Passing(key, min, s));
    RankKeeps(key, Passing(key, min, s));
    if key(x).score < min {
      assert kept + [] == kept && Passing(key, min, s) + [] == Passing(key, min, s);
    } else {
      RankSnoc(key, kept, x);
      RankSnoc(key, Passing(key, min, s), x);
      PlaceInPrefix(key, x, ranked, k);
    }
  }

  /** The same for a whole batch of new items at once. */
  lemma {:induction false} BestExtendsByBatch<T>(key: T -> Key, min: int, k: nat, s: seq<T>, batch: seq<T>)
    ensures Best(key, min, k, Best(key, min, k, s) + batch) == Best(key, min, k, s + batch)
  {
    var kept := Best(key, min, k, s);
    if batch == [] {
      assert kept + batch == kept && s + batch == s;
      BestOfBest(key, min, k, k, s);
    } else {
      var init, x := batch[..|batch| - 1], batch[|batch| - 1];
      BestExtendsByBatch(key, min, k, s, init);
      assert batch == init + [x];
      BestExtends(key, min, k, kept + init, x);
      BestExtends(key, min, k, s + init, x);
      assert kept + batch == kept + init + [x] && s + batch == s + init + [x];
    }
  }

  /** The streaming form refines the one-shot form, for every sequence of items. */
  lemma {:induction false} StreamIsOneShot<T>(key: T -> Key, min: int, k: nat, s: seq<T>)
    ensures Stream(key, min, k, s) == Best(key, min, k, s)
  {
    if s != [] {
      StreamIsOneShot(key, min, k, s[..|s| - 1]);
      BestExtends(key, min, k, s[..|s| - 1], s[|s| - 1]);
      assert s == s[..|s| - 1] + [s[|s| - 1]];
    }
  }

  /** Pruning the kept pool once more, to fewer items, is pruning everything to fewer items. */
  lemma BestOfBest<T>(key: T -> Key, min: int, k: nat, fewer: nat, s: seq<T>)
    requires fewer <= k
    ensures Best(key, min, fewer, Best(key, min, k, s)) == Best(key, min, fewer, s)
  {
    var kept := Best(key, min, k, s);
    BestMembers(key, min, k, s);
    PassingIsFilter(key, min, kept);
    RankOfRanked(key, kept);
  }

  /** Pruning the kept items and a new one drops, for their score, what pruning everything drops more. */
  lemma KeptPasses<T>(key: T -> Key, min: int, k: nat, s: seq<T>, x: T)
    ensures var kept := Best(key, min, k, s);
            |kept| + 1 - |Passing(key, min, kept + [x])| ==
            |s| + 1 - |Passing(key, min, s + [x])| - (|s| - |Passing(key, min, s)|)
  {
    var kept := Best(key, min, k, s);
    BestMembers(key, min, k, s);
    PassingIsFilter(key, min, kept);
    PassingSnoc(key, min, kept, x);
    PassingSnoc(key, min, s, x);
  }

  lemma RankHead<T>(key: T -> Key, s: seq<T>, y: T)
    requires y in s
    ensures Rank(key, s) != [] && Rank(key, s)[0] in s
    ensures AtLeast(key(Rank(key, s)[0]), key(y))
  {
    RankKeeps(key, s);
    var ranked := Rank(key, s);
    assert y in multiset(ranked);
    assert ranked[0] in multiset(ranked);
  }

  /** When anything passes, the head of the kept items has the highest score of all items. */
  lemma BestHead<T>(key: T -> Key, min: int, k: nat, s: seq<T>, z: T, y: T)
    requires k >= 1
    requires z in s && key(z).score >= min
    requires y in s
    ensures Best(key, min, k, s) != []
    ensures key(Best(key, min, k, s)[0]).score >= key(y).score
  {
    PassingIsFilter(key, min, s);
    var passing := Passing(key, min, s);
    RankHead(key, passing, z);
    if key(y).score >= min {
      RankHead(key, passing, y);
    }
  }
}
