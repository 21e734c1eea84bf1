/** The router's model inventory: which models may be deleted, in which order, and when deleting stops. */
module Inventory {
  import opened Text

  /** A disk reading of the host; a reading without a total says nothing. */
  datatype Reading = NoReading | Usage(used: nat, total: nat) {
    predicate Known() {
      Usage? && total > 0
    }

    predicate AtMost(watermark: real) {
      Known() && (used as real) / (total as real) <= watermark
    }
  }

  datatype Config = Config(enabled: bool, maxModels: nat, high: real, target: real)

  /** Ids by their lower-case form, as built from a list of model ids. */
  ghost predicate Keyed(available: map<string, string>) {
    forall k :: k in available ==> Lower(available[k]) == k && !Blank(available[k])
  }

  function ToAvailableMap(ids: seq<string>): (m: map<string, string>)
    ensures Keyed(m)
    ensures forall k :: k in m ==> m[k] in ids
    ensures forall id :: id in ids && !Blank(id) ==> Lower(id) in m
  {
    if ids == [] then map[]
    else
      var rest := ToAvailableMap(ids[..|ids| - 1]);
      var id := ids[|ids| - 1];
      if Blank(id) then rest else rest[Lower(id) := id]
  }

  /** Of ids that differ only in case the last is kept. */
  lemma LastSpellingWins(ids: seq<string>, id: string)
    requires !Blank(id)
    ensures Lower(id) in ToAvailableMap(ids + [id]) && ToAvailableMap(ids + [id])[Lower(id)] == id
  {
    hide Lower, Blank;
    assert (ids + [id])[..|ids|] == ids;
  }

  ghost predicate DistinctIds(ids: seq<string>) {
    forall i, j :: 0 <= i < j < |ids| ==> Lower(ids[i]) != Lower(ids[j])
  }

  /** Listing a snapshot's values and mapping them again loses none of them. */
  lemma {:induction false} MapOfValues(ids: seq<string>)
    requires DistinctIds(ids) && forall i :: 0 <= i < |ids| ==> !Blank(ids[i])
    ensures forall i :: 0 <= i < |ids| ==>
              Lower(ids[i]) in ToAvailableMap(ids) && ToAvailableMap(ids)[Lower(ids[i])] == ids[i]
  {
    hide Lower, Blank;
    if ids != [] {
      MapOfValues(ids[..|ids| - 1]);
    }
  }

  class Router {
    const cfg: Config
    const defaultModel: string
    const fallbackDefault: string
    const idealModels: seq<string>
    var available: map<string, string>
    /** Time of last use by lower-case id; a model never used counts as used at 0. */
    var lastUsed: map<string, nat>

    constructor (cfg: Config, defaultModel: string, fallbackDefault: string, idealModels: seq<string>)
      ensures Keyed(available) && available == map[] && lastUsed == map[]
    {
      this.cfg, this.defaultModel, this.fallbackDefault, this.idealModels :=
        cfg, defaultModel, fallbackDefault, idealModels;
      available, lastUsed := map[], map[];
    }

    function LastUse(id: string): nat
      reads this`lastUsed
    {
      if Lower(id) in lastUsed then lastUsed[Lower(id)] else 0
    }

    /** `protectedModels`: the default, its fallback and every ideal model. */
    predicate Protected(id: string) {
      exists m :: m in [defaultModel, fallbackDefault] + idealModels && !Blank(m) && Lower(Trim(m)) == Lower(id)
    }

    /** Least recently used first; equal ages in any order. */
    ghost predicate OldestFirst(ids: seq<string>)
      reads this`lastUsed
    {
      forall i, j :: 0 <= i < j < |ids| ==> LastUse(ids[i]) <= LastUse(ids[j])
    }

    /** The unprotected models, least recently used first. */
    ghost predicate PruneOrder(ids: seq<string>)
      reads this`available, this`lastUsed
    {
      && DistinctIds(ids) && OldestFirst(ids)
      && (forall i :: 0 <= i < |ids| ==>
            Lower(ids[i]) in available && available[Lower(ids[i])] == ids[i] && !Protected(ids[i]))
      && (forall k :: k in available && !Protected(available[k]) ==> available[k] in ids)
    }

    /** Insertion into an age order; only the contract is relied on. */
    method InsertByAge(ids: seq<string>, id: string) returns (r: seq<string>, p: nat)
      requires OldestFirst(ids)
      ensures p <= |ids| && r == ids[..p] + [id] + ids[p..] && OldestFirst(r)
    {
      hide LastUse;
      p := |ids|;
      while p > 0 && LastUse(id) < LastUse(ids[p - 1])
        invariant 0 <= p <= |ids|
        invariant forall j :: p <= j < |ids| ==> LastUse(id) < LastUse(ids[j])
      {
        p := p - 1;
      }
      r := ids[..p] + [id] + ids[p..];
    }

    /** The unprotected models outside `todo` have been listed. */
    ghost predicate Listed(ids: seq<string>, todo: set<string>)
      reads this`available, this`lastUsed
    {
      && DistinctIds(ids) && OldestFirst(ids)
      && (forall i :: 0 <= i < |ids| ==>
            && Lower(ids[i]) in available && Lower(ids[i]) !in todo
            && available[Lower(ids[i])] == ids[i] && !Protected(ids[i]))
      && (forall k :: k in available && k !in todo && !Protected(available[k]) ==> available[k] in ids)
    }

    /** `prunableModels`: the map is listed in an arbitrary order and sorted by last use. */
    method PrunableModels() returns (ids: seq<string>)
      requires Keyed(available)
      ensures PruneOrder(ids)
    {
      hide Lower, Blank, Protected, LastUse;
      ids := [];
      var todo := available.Keys;
      while todo != {}
        invariant todo <= available.Keys && Listed(ids, todo)
        decreases todo
      {
        var k :| k in todo;
        var id := available[k];
        if !Protected(id) {
          var longer, p := InsertByAge(ids, id);
          ListOneMore(ids, todo, k, p, longer);
          ids := longer;
        }
        todo := todo - {k};
      }
    }

    lemma ListOneMore(ids: seq<string>, todo: set<string>, k: string, p: nat, longer: seq<string>)
      requires Keyed(available) && Listed(ids, todo) && k in todo && todo <= available.Keys
      requires !Protected(available[k])
      requires p <= |ids| && longer == ids[..p] + [available[k]] + ids[p..] && OldestFirst(longer)
      ensures Listed(longer, todo - {k})
    {
      hide Lower, Blank, Protected, LastUse, OldestFirst;
      InsertedMembers(ids, p, available[k], longer);
      forall i | 0 <= i < |longer|
        ensures Lower(longer[i]) in available && Lower(longer[i]) !in todo - {k}
        ensures available[Lower(longer[i])] == longer[i] && !Protected(longer[i])
      {
        if longer[i] != available[k] {
          var j :| 0 <= j < |ids| && ids[j] == longer[i];
        }
      }
    }

    lemma InsertedMembers(ids: seq<string>, p: nat, id: string, longer: seq<string>)
      requires p <= |ids| && longer == ids[..p] + [id] + ids[p..]
      requires DistinctIds(ids) && forall i :: 0 <= i < |ids| ==> Lower(ids[i]) != Lower(id)
      ensures DistinctIds(longer)
      ensures forall i :: 0 <= i < |longer| ==> longer[i] == id || longer[i] in ids
      ensures id in longer && forall x :: x in ids ==> x in longer
    {
      assert longer[p] == id;
      forall x | x in ids ensures x in longer {
        var i :| 0 <= i < |ids| && ids[i] == x;
        assert longer[if i < p then i else i + 1] == x;
      }
    }

    /** Lower-case ids of the successful deletions among the first `n` attempts. */
    ghost function Deleted(order: seq<string>, n: nat, deletes: nat -> bool): set<string>
      requires n <= |order|
    {
      if n == 0 then {}
      else Deleted(order, n - 1, deletes) + (if deletes(n - 1) then {Lower(order[n - 1])} else {})
    }

    /** Does the first disk reading, or without one the number of models, ask for pruning at all? */
    predicate Crowded(first: Reading)
      reads this`available
    {
      cfg.enabled && available != map[] &&
      if first.Known() then !first.AtMost(cfg.high) else |available| > cfg.maxModels
    }

    /** The stop test in front of attempt `i`. */
    predicate Enough(first: Reading, readings: nat -> Reading, i: nat, left: nat) {
      if first.Known() then readings(i).AtMost(cfg.target) else left <= cfg.maxModels
    }

    /** How many models are left after the first `n` attempts. */
    ghost function Left(before: map<string, string>, order: seq<string>, n: nat, deletes: nat -> bool): nat
      requires n <= |order|
    {
      |before - Deleted(order, n, deletes)|
    }

    /** `m` is `before` without what the first `n` attempts deleted. */
    ghost predicate Without<V>(m: map<string, V>, before: map<string, V>,
                               order: seq<string>, n: nat, deletes: nat -> bool)
      requires n <= |order|
    {
      m == before - Deleted(order, n, deletes)
    }

    lemma WithoutStarts<V>(before: map<string, V>, order: seq<string>, deletes: nat -> bool)
      ensures Without(before, before, order, 0, deletes)
    {
    }

    lemma WithoutStep<V>(m: map<string, V>, before: map<string, V>, order: seq<string>, n: nat, deletes: nat -> bool)
      requires n < |order| && Without(m, before, order, n, deletes)
      ensures Without(if deletes(n) then m - {Lower(order[n])} else m, before, order, n + 1, deletes)
    {
    }

    lemma WithoutCounts(m: map<string, string>, before: map<string, string>,
                        order: seq<string>, n: nat, deletes: nat -> bool)
      requires n <= |order| && Without(m, before, order, n, deletes)
      ensures |m| == Left(before, order, n, deletes)
    {
    }

    /** The stop test failed in front of each of the first `n` attempts. */
    ghost predicate WentOn(first: Reading, readings: nat -> Reading, before: map<string, string>,
                           order: seq<string>, n: nat, deletes: nat -> bool)
      requires n <= |order|
    {
      forall i :: 0 <= i < n ==> !Enough(first, readings, i, Left(before, order, i, deletes))
    }

    lemma WentOnStarts(first: Reading, readings: nat -> Reading, before: map<string, string>,
                       order: seq<string>, deletes: nat -> bool)
      ensures WentOn(first, readings, before, order, 0, deletes)
    {
    }

    lemma WentOnStep(first: Reading, readings: nat -> Reading, before: map<string, string>,
                     order: seq<string>, n: nat, deletes: nat -> bool)
      requires n < |order| && WentOn(first, readings, before, order, n, deletes)
      requires !Enough(first, readings, n, Left(before, order, n, deletes))
      ensures WentOn(first, readings, before, order, n + 1, deletes)
    {
      hide Enough, Left;
    }

    lemma WentOnMeans(first: Reading, readings: nat -> Reading, before: map<string, string>,
                      order: seq<string>, n: nat, deletes: nat -> bool)
      requires 0 < n <= |order| && WentOn(first, readings, before, order, n, deletes)
      ensures !Enough(first, readings, n - 1, Left(before, order, n - 1, deletes))
    {
      hide Enough, Left;
    }

    /** The deletion loop of `cleanInventoryIfNeeded`. */
    method DeleteOldest(order: seq<string>, first: Reading, readings: nat -> Reading, deletes: nat -> bool)
      returns (n: nat)
      requires Keyed(available) && PruneOrder(order)
      modifies this`available, this`lastUsed
      ensures n <= |order|
      ensures Without(available, old(available), order, n, deletes)
      ensures Without(lastUsed, old(lastUsed), order, n, deletes)
      ensures n < |order| ==> Enough(first, readings, n, |available|)
      ensures WentOn(first, readings, old(available), order, n, deletes)
    {
      hide *;
      n := 0;
      ghost var before, ages := available, lastUsed;
      WithoutStarts(before, order, deletes);
      WithoutStarts(ages, order, deletes);
      WentOnStarts(first, readings, before, order, deletes);
      while n < |order|
        invariant n <= |order|
        invariant Without(available, before, order, n, deletes) && Without(lastUsed, ages, order, n, deletes)
        invariant WentOn(first, readings, before, order, n, deletes)
      {
        WithoutCounts(available, before, order, n, deletes);
        if Enough(first, readings, n, |available|) {
          break;
        }
        WentOnStep(first, readings, before, order, n, deletes);
        WithoutStep(available, before, order, n, deletes);
        WithoutStep(lastUsed, ages, order, n, deletes);
        if deletes(n) {
          Forget(Lower(order[n]));
        }
        n := n + 1;
      }
    }

    /** The two map deletions that follow a successful delete call. */
    method Forget(key: string)
      modifies this`available, this`lastUsed
      ensures available == old(available) - {key} && lastUsed == old(lastUsed) - {key}
    {
      available := available - {key};
      lastUsed := lastUsed - {key};
    }

    /** The values of the snapshot, in an arbitrary order. */
    method ListValues() returns (ids: seq<string>)
      requires Keyed(available)
      ensures DistinctIds(ids) && forall i :: 0 <= i < |ids| ==> !Blank(ids[i])
      ensures forall i :: 0 <= i < |ids| ==> Lower(ids[i]) in available && available[Lower(ids[i])] == ids[i]
      ensures forall k :: k in available ==> available[k] in ids
    {
      hide Lower, Blank;
      ids := [];
      var todo := available.Keys;
      while todo != {}
        invariant todo <= available.Keys && DistinctIds(ids)
        invariant forall i :: 0 <= i < |ids| ==>
                    && Lower(ids[i]) in available && Lower(ids[i]) !in todo
                    && available[Lower(ids[i])] == ids[i] && !Blank(ids[i])
        invariant forall k :: k in available && k !in todo ==> available[k] in ids
        decreases todo
      {
        var k :| k in todo;
        todo := todo - {k};
        ids := ids + [available[k]];
      }
    }

    /** `cleanInventoryIfNeeded`: `first` and `readings` are the disk readings it would get, `deletes` says
        which deletion calls would succeed. `order` and `n` report what it attempted. */
    method CleanInventory(first: Reading, readings: nat -> Reading, deletes: nat -> bool)
      returns (ghost order: seq<string>, ghost n: nat)
      requires Keyed(available)
      modifies this`available, this`lastUsed
      ensures Keyed(available) && n <= |order|
      ensures old(Crowded(first)) ==> old(PruneOrder(order))
      ensures Without(available, old(available), order, n, deletes)
      ensures Without(lastUsed, old(lastUsed), order, n, deletes)
      ensures !old(Crowded(first)) ==> n == 0
      ensures old(Crowded(first)) && n < |order| ==> Enough(first, readings, n, |available|)
      ensures old(Crowded(first)) ==> WentOn(first, readings, old(available), order, n, deletes)
    {
      hide Lower, Blank, Protected, LastUse, Enough, OldestFirst, PruneOrder, Without, Left;
      order, n := [], 0;
      WithoutStarts(available, order, deletes);
      WithoutStarts(lastUsed, order, deletes);
      if !cfg.enabled || available == map[] {
        return;
      }
      if first.Known() {
        if first.AtMost(cfg.high) {
          return;
        }
      } else if |available| <= cfg.maxModels {
        return;
      }
      var candidates := PrunableModels();
      order := candidates;
      n := DeleteOldest(candidates, first, readings, deletes);
      WithoutStaysKeyed(available, old(available), order, n, deletes);
      Relist();
    }

    /** The snapshot is rebuilt from its own values, which leaves it as it is. */
    method Relist()
      requires Keyed(available)
      modifies this`available
      ensures available == old(available)
    {
      var models := ListValues();
      Relisted(available, models);
      available := ToAvailableMap(models);
    }

    lemma WithoutStaysKeyed(m: map<string, string>, before: map<string, string>,
                            order: seq<string>, n: nat, deletes: nat -> bool)
      requires n <= |order| && Without(m, before, order, n, deletes) && Keyed(before)
      ensures Keyed(m)
    {
    }

    lemma Relisted(m: map<string, string>, ids: seq<string>)
      requires Keyed(m) && DistinctIds(ids)
      requires forall i :: 0 <= i < |ids| ==> Lower(ids[i]) in m && m[Lower(ids[i])] == ids[i] && !Blank(ids[i])
      requires forall k :: k in m ==> m[k] in ids
      ensures ToAvailableMap(ids) == m
    {
      hide Lower, Blank, ToAvailableMap;
      MapOfValues(ids);
      var n := ToAvailableMap(ids);
      forall k | k in m ensures k in n && n[k] == m[k] {
        var i :| 0 <= i < |ids| && ids[i] == m[k];
      }
      forall k | k in n ensures k in m {
        var i :| 0 <= i < |ids| && ids[i] == n[k];
      }
    }

    // ----- What the contract of `CleanInventory` means

    lemma ProtectedByFold(a: string, b: string)
      requires Protected(b) && !Protected(a)
      ensures Lower(a) != Lower(b)
    {
      hide Lower, Blank;
    }

    /** A protected model is never among the deleted ids. */
    lemma {:induction false} ProtectedSurvive(order: seq<string>, n: nat, deletes: nat -> bool, id: string)
      requires PruneOrder(order) && n <= |order| && Protected(id)
      ensures Lower(id) !in Deleted(order, n, deletes)
    {
      hide Lower, OldestFirst, Protected;
      if n > 0 {
        ProtectedSurvive(order, n - 1, deletes, id);
        ProtectedByFold(order[n - 1], id);
      }
    }

    /** Each successful deletion removes one model, so the sizes of the snapshots follow. */
    lemma {:induction false} DeletedCount(order: seq<string>, n: nat, deletes: nat -> bool)
      requires PruneOrder(order) && n <= |order|
      ensures Deleted(order, n, deletes) <= available.Keys
      ensures forall i :: n <= i < |order| ==> Lower(order[i]) !in Deleted(order, n, deletes)
      ensures Left(available, order, n, deletes) == |available| - |Deleted(order, n, deletes)|
    {
      hide Lower, Protected, OldestFirst;
      if n > 0 {
        DeletedCount(order, n - 1, deletes);
      }
      assert (available - Deleted(order, n, deletes)).Keys == available.Keys - Deleted(order, n, deletes);
    }

    /** Without disk readings the inventory never drops below `maxModels`, and ends there unless every
        prunable model was attempted. */
    lemma CountGuard(order: seq<string>, n: nat, first: Reading, readings: nat -> Reading, deletes: nat -> bool)
      requires PruneOrder(order) && n <= |order| && Crowded(first) && !first.Known()
      requires n < |order| ==> Enough(first, readings, n, Left(available, order, n, deletes))
      requires WentOn(first, readings, available, order, n, deletes)
      ensures Left(available, order, n, deletes) >= cfg.maxModels
      ensures Left(available, order, n, deletes) == cfg.maxModels || n == |order|
    {
      hide *;
      DeletedCount(order, n, deletes);
      CrowdedMeans(first);
      if n > 0 {
        DeletedCount(order, n - 1, deletes);
        WentOnMeans(first, readings, available, order, n, deletes);
        EnoughMeans(first, readings, n - 1, Left(available, order, n - 1, deletes));
        LeftFalls(order, n - 1, deletes);
      } else {
        LeftAtStart(order, deletes);
      }
      if n < |order| {
        EnoughMeans(first, readings, n, Left(available, order, n, deletes));
      }
    }

    /** When pruning begins: with a disk reading, exactly above the high watermark; without one, exactly above
        the maximal number of models. */
    lemma CrowdedExactly(used: nat, total: nat)
      requires cfg.enabled && available != map[]
      ensures total > 0 ==> (Crowded(Usage(used, total)) <==> used as real > cfg.high * (total as real))
      ensures Crowded(NoReading) <==> |available| > cfg.maxModels
      ensures Crowded(Usage(used, 0)) <==> |available| > cfg.maxModels
    {
      if total > 0 {
        ShareExactly(used, total, cfg.high);
      }
    }

    /** When it stops again: at or below the target watermark, if the disk can be read. */
    lemma EnoughExactly(first: Reading, readings: nat -> Reading, i: nat, left: nat, used: nat, total: nat)
      requires first.Known()
      ensures readings(i) == Usage(used, total) && total > 0 ==>
                (Enough(first, readings, i, left) <==> used as real <= cfg.target * (total as real))
      ensures readings(i) == NoReading || readings(i) == Usage(used, 0) ==> !Enough(first, readings, i, left)
    {
      if total > 0 {
        ShareExactly(used, total, cfg.target);
      }
    }

    lemma ShareExactly(used: nat, total: nat, watermark: real)
      requires total > 0
      ensures (used as real) / (total as real) <= watermark <==> used as real <= watermark * (total as real)
    {
      var q := (used as real) / (total as real);
      assert q * (total as real) == used as real;
      if q <= watermark {
        assert q * (total as real) <= watermark * (total as real);
      } else {
        assert q * (total as real) > watermark * (total as real);
      }
    }

    lemma CrowdedMeans(first: Reading)
      requires Crowded(first) && !first.Known()
      ensures |available| > cfg.maxModels
    {
    }

    lemma EnoughMeans(first: Reading, readings: nat -> Reading, i: nat, left: nat)
      requires !first.Known()
      ensures Enough(first, readings, i, left) <==> left <= cfg.maxModels
    {
    }

    lemma LeftAtStart(order: seq<string>, deletes: nat -> bool)
      ensures Left(available, order, 0, deletes) == |available|
    {
      assert available - {} == available;
    }

    lemma LeftFalls(order: seq<string>, n: nat, deletes: nat -> bool)
      requires PruneOrder(order) && n < |order|
      ensures Left(available, order, n + 1, deletes) >= Left(available, order, n, deletes) - 1
    {
      hide Lower, Protected, OldestFirst;
      DeletedCount(order, n, deletes);
      DeletedCount(order, n + 1, deletes);
    }

    /** With disk readings nothing guards the count: every prunable model is attempted exactly when no reading
        before an attempt, known or not, is at most the target. */
    lemma AllAttemptedExactly(order: seq<string>, n: nat, first: Reading, readings: nat -> Reading,
                              deletes: nat -> bool)
      requires n <= |order| && first.Known()
      requires n < |order| ==> Enough(first, readings, n, Left(available, order, n, deletes))
      requires WentOn(first, readings, available, order, n, deletes)
      ensures n == |order| <==> forall i :: 0 <= i < |order| ==> !readings(i).AtMost(cfg.target)
    {
      hide Left;
      forall i | 0 <= i < n ensures !readings(i).AtMost(cfg.target) {
        assert !Enough(first, readings, i, Left(available, order, i, deletes));
      }
    }

    /** Then only protected models remain exactly when, besides, every deletion succeeds. */
    lemma OnlyProtectedRemainExactly(order: seq<string>, n: nat, first: Reading, readings: nat -> Reading,
                                     deletes: nat -> bool)
      requires Keyed(available) && PruneOrder(order) && n <= |order| && first.Known()
      requires n < |order| ==> Enough(first, readings, n, Left(available, order, n, deletes))
      requires WentOn(first, readings, available, order, n, deletes)
      ensures OnlyProtected(available - Deleted(order, n, deletes))
          <==> forall i :: 0 <= i < |order| ==> !readings(i).AtMost(cfg.target) && deletes(i)
    {
      hide *;
      AllAttemptedExactly(order, n, first, readings, deletes);
      RemainExactly(order, n, deletes);
    }

    ghost predicate OnlyProtected(m: map<string, string>) {
      forall k :: k in m ==> Protected(m[k])
    }

    lemma RemainExactly(order: seq<string>, n: nat, deletes: nat -> bool)
      requires Keyed(available) && PruneOrder(order) && n <= |order|
      ensures OnlyProtected(available - Deleted(order, n, deletes))
          <==> n == |order| && forall i :: 0 <= i < |order| ==> deletes(i)
    {
      hide Lower, Protected, OldestFirst, Deleted;
      OrderIsAllThatCanGo(order, Deleted(order, n, deletes));
      forall i | 0 <= i < |order|
        ensures Lower(order[i]) in Deleted(order, n, deletes) <==> i < n && deletes(i)
      {
        DeletedAre(order, n, deletes, i);
      }
      if n < |order| {
        DeletedAre(order, n, deletes, n);
      }
    }

    lemma OrderIsAllThatCanGo(order: seq<string>, gone: set<string>)
      requires Keyed(available) && PruneOrder(order)
      ensures OnlyProtected(available - gone) <==> forall i :: 0 <= i < |order| ==> Lower(order[i]) in gone
    {
      hide Lower, Protected, OldestFirst;
      if i :| 0 <= i < |order| && Lower(order[i]) !in gone {
        assert (available - gone)[Lower(order[i])] == order[i];
      }
      if k :| k in available - gone && !Protected(available[k]) {
        var i :| 0 <= i < |order| && order[i] == available[k];
        assert Lower(order[i]) == k;
      }
    }

    /** An attempted model is among the deleted ones exactly when its deletion succeeded. */
    lemma {:induction false} DeletedAre(order: seq<string>, n: nat, deletes: nat -> bool, i: nat)
      requires DistinctIds(order) && n <= |order| && i < |order|
      ensures Lower(order[i]) in Deleted(order, n, deletes) <==> i < n && deletes(i)
    {
      hide Lower;
      if n > 0 {
        DeletedAre(order, n - 1, deletes, i);
      }
    }

    /** The model used last is only ever deleted when every other unprotected model was attempted before it. */
    lemma {:induction false} NewestGoesLast(order: seq<string>, n: nat, deletes: nat -> bool, id: string)
      requires PruneOrder(order) && n <= |order| && UsedLast(id)
      ensures Lower(id) in Deleted(order, n, deletes) ==> n == |order| && Lower(order[n - 1]) == Lower(id)
    {
      hide Lower, Protected, UsedLast, OldestFirst;
      if n > 0 {
        NewestGoesLast(order, n - 1, deletes, id);
        LastUsedIsLast(order, id, n - 1);
      }
    }

    /** A model has a time of last use, later than that of every other model that has one. */
    ghost predicate UsedLast(id: string)
      reads this`lastUsed
    {
      && Lower(id) in lastUsed && lastUsed[Lower(id)] > 0
      && forall k :: k in lastUsed && k != Lower(id) ==> lastUsed[k] < lastUsed[Lower(id)]
    }

    /** In every order of pruning a model that was never used comes before one that was, and of two used ones
        that used earlier comes first. */
    lemma OrderFollowsUse(order: seq<string>, i: nat, j: nat)
      requires PruneOrder(order) && i < j < |order|
      ensures Lower(order[i]) in lastUsed && lastUsed[Lower(order[i])] > 0 ==>
                Lower(order[j]) in lastUsed && lastUsed[Lower(order[i])] <= lastUsed[Lower(order[j])]
    {
      hide Lower, Protected;
    }

    /** The model used last, if it can be deleted at all, is the last in every order of pruning. */
    lemma LastUsedIsLast(order: seq<string>, id: string, i: nat)
      requires PruneOrder(order) && UsedLast(id) && i < |order|
      ensures Lower(order[i]) == Lower(id) ==> i == |order| - 1
    {
      hide Lower, Protected, OldestFirst;
      if i < |order| - 1 {
        OrderFollowsUse(order, i, |order| - 1);
      }
    }

    /** The count can end below the maximum, here at nothing: one unprotected model on a disk nine tenths full,
        whose reading fails from then on. */
    lemma CountCanFallBelowMaximum(first: Reading, readings: nat -> Reading, deletes: nat -> bool)
      requires cfg == Config(true, 20, 0.85, 0.75) && available == map["a" := "a"]
      requires !Protected("a") && first == Usage(9, 10)
      requires forall i :: readings(i) == NoReading && deletes(i)
      ensures Crowded(first) && PruneOrder(["a"]) && WentOn(first, readings, available, ["a"], 1, deletes)
      ensures Left(available, ["a"], 1, deletes) == 0 < cfg.maxModels
    {
      assert Lower("a") == "a";
      hide Lower, Protected;
      assert Deleted(["a"], 0, deletes) == {};
      assert Deleted(["a"], 1, deletes) == {"a"};
      assert available - {"a"} == map[];
    }
  }
}
