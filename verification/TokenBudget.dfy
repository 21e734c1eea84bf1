/** Token budgets of the multi-agent rounds and of the decomposed subtasks. Only sizes matter here. */
module TokenBudget {
  import opened Options
  import opened Text

  /** `estimateTokens`: 1.3 tokens a word, rounded down, and 8 more. */
  function Estimate(words: nat): (tokens: nat)
    ensures tokens >= 1 && (words == 0 ==> tokens == 1)
    ensures words > 0 ==> 10 * (tokens - 8) <= 13 * words < 10 * (tokens - 8) + 10
  {
    if words < 1 then 1 else words * 13 / 10 + 8
  }

  // ----- One multi-agent round

  /** What a role sends back: an error, or an output of so many words. */
  datatype Arrival = Failed | Output(words: nat) {
    function Cost(): nat {
      if Failed? then 0 else Estimate(words)
    }
  }

  /** The outputs a round accepts, in the order they arrive: each that still fits. */
  function Accepted(items: seq<Arrival>, budget: int): seq<Arrival> {
    if items == [] then []
    else
      var before := Accepted(items[..|items| - 1], budget);
      if Fits(before, items[|items| - 1], budget) then before + [items[|items| - 1]] else before
  }

  predicate Fits(before: seq<Arrival>, item: Arrival, budget: int) {
    item.Output? && Total(before) + item.Cost() <= budget
  }

  function Total(items: seq<Arrival>): nat {
    if items == [] then 0 else Total(items[..|items| - 1]) + items[|items| - 1].Cost()
  }

  lemma TotalSnoc(items: seq<Arrival>, item: Arrival)
    ensures Total(items + [item]) == Total(items) + item.Cost()
  {
    assert (items + [item])[..|items|] == items;
  }

  function OutputsOf(items: seq<Arrival>): seq<Arrival> {
    if items == [] then []
    else OutputsOf(items[..|items| - 1]) + if items[|items| - 1].Output? then [items[|items| - 1]] else []
  }

  datatype Round = Exhausted | Barren(heard: nat) | Fruitful(results: seq<Arrival>, used: nat)

  /** What a round with this budget makes of the arrivals. */
  function RoundOf(items: seq<Arrival>, budget: int): Round {
    if budget <= 0 then Exhausted
    else if Accepted(items, budget) == [] then Barren(|items|)
    else Fruitful(Accepted(items, budget), Total(Accepted(items, budget)))
  }

  lemma AcceptedSnoc(items: seq<Arrival>, k: nat, budget: int)
    requires k < |items|
    ensures Accepted(items[..k + 1], budget)
         == Accepted(items[..k], budget)
            + if Fits(Accepted(items[..k], budget), items[k], budget) then [items[k]] else []
  {
    hide Fits;
    assert items[..k + 1][..k] == items[..k];
  }

  lemma NoneYet(items: seq<Arrival>, budget: int)
    ensures Accepted(items[..0], budget) == [] && Total([]) == 0
  {
  }

  /** The collection loop of `runMultiAgentRound`, after all roles have answered. */
  method RunRound(items: seq<Arrival>, budget: int) returns (r: Round)
    ensures r == RoundOf(items, budget)
  {
    hide Accepted, Total, Arrival.Cost;
    if budget <= 0 {
      return Exhausted;
    }
    var results: seq<Arrival> := [];
    var used, anySuccess := 0, false;
    NoneYet(items, budget);
    for i := 0 to |items|
      invariant results == Accepted(items[..i], budget)
      invariant used == Total(results) && (anySuccess <==> results != [])
    {
      AcceptedSnoc(items, i, budget);
      TotalSnoc(results, items[i]);
      if items[i].Failed? {
        continue;
      }
      if used + items[i].Cost() > budget {
        continue;
      }
      used := used + items[i].Cost();
      results := results + [items[i]];
      anySuccess := true;
    }
    assert items[..|items|] == items;
    r := if anySuccess then Fruitful(results, used) else Barren(|items|);
  }

  /** In every order of arrival the accepted outputs fit the budget. */
  lemma {:induction false} AcceptedFit(items: seq<Arrival>, budget: int)
    requires budget >= 0
    ensures Total(Accepted(items, budget)) <= budget
  {
    if items != [] {
      var n := |items| - 1;
      AcceptedFit(items[..n], budget);
      TotalSnoc(Accepted(items[..n], budget), items[n]);
    }
  }

  /** An output is refused exactly when it does not fit what is left at that moment. */
  lemma RefusedDoNotFit(items: seq<Arrival>, budget: int, i: nat)
    requires i < |items| && items[i].Output?
    ensures var left := budget - Total(Accepted(items[..i], budget));
            Accepted(items[..i + 1], budget) == Accepted(items[..i], budget) <==> items[i].Cost() > left
  {
    AcceptedSnoc(items, i, budget);
  }

  /** Nothing at all is accepted exactly when every output alone is over the budget: whether a round fails
      does not depend on the order of arrival. */
  lemma {:induction false} NothingAccepted(items: seq<Arrival>, budget: int)
    ensures Accepted(items, budget) == []
       <==> (forall i :: 0 <= i < |items| && items[i].Output? ==> items[i].Cost() > budget)
  {
    if items != [] {
      var n := |items| - 1;
      NothingAccepted(items[..n], budget);
      assert forall i :: 0 <= i < n ==> items[i] == items[..n][i];
    }
  }

  /** Everything is accepted, in every order, exactly when everything together fits. */
  lemma {:induction false} EverythingAccepted(items: seq<Arrival>, budget: int)
    requires budget >= 0
    ensures Accepted(items, budget) == OutputsOf(items) <==> Total(items) <= budget
    ensures |Accepted(items, budget)| <= |OutputsOf(items)|
    ensures Total(OutputsOf(items)) == Total(items)
  {
    if items != [] {
      var n := |items| - 1;
      var init, last := items[..n], items[n];
      EverythingAccepted(init, budget);
      TotalSnoc(OutputsOf(init), last);
      AcceptedFit(items, budget);
      assert OutputsOf(items) == if last.Output? then OutputsOf(init) + [last] else OutputsOf(init);
      assert Total(OutputsOf(items)) == Total(items);
      if Total(items) <= budget {
        assert Accepted(init, budget) == OutputsOf(init);
        assert last.Output? ==> Fits(OutputsOf(init), last, budget);
      }
    }
  }

  lemma FruitfulRound(items: seq<Arrival>, budget: int)
    ensures var r := RoundOf(items, budget);
            r.Fruitful? ==>
              budget > 0 && r.results == Accepted(items, budget) != [] && r.used == Total(r.results) <= budget
  {
    if budget > 0 {
      AcceptedFit(items, budget);
    }
  }

  // ----- The rounds together

  /** What each round that ran accepted. */
  ghost function SpentIn(rounds: seq<seq<Arrival>>): nat {
    if rounds == [] then 0 else SpentIn(rounds[..|rounds| - 1]) + Total(rounds[|rounds| - 1])
  }

  lemma SpentSnoc(rounds: seq<seq<Arrival>>, r: seq<Arrival>)
    ensures SpentIn(rounds + [r]) == SpentIn(rounds) + Total(r)
  {
    assert (rounds + [r])[..|rounds|] == rounds;
  }

  /** Every round accepted what its arrivals and the budget left by the rounds before allow. */
  ghost predicate Rounds(rounds: seq<seq<Arrival>>, arrivals: nat -> seq<Arrival>, budget: nat) {
    forall i: nat :: i < |rounds| ==> RoundAt(rounds, arrivals, budget, i)
  }

  ghost predicate RoundAt(rounds: seq<seq<Arrival>>, arrivals: nat -> seq<Arrival>, budget: nat, i: nat)
    requires i < |rounds|
  {
    rounds[i] != [] && SpentIn(rounds[..i]) < budget
    && rounds[i] == Accepted(arrivals(i + 1), budget - SpentIn(rounds[..i]))
  }

  /** The round loop. `emptied(i)`: pruning leaves no candidate after round `i`; `enough(i)`: the candidates
      agree well enough to stop; `cancelled(i)`: the request was cancelled before round `i`. */
  method RunRounds(budget: nat, maxRounds: nat, arrivals: nat -> seq<Arrival>,
                   emptied: nat -> bool, enough: nat -> bool, cancelled: nat -> bool)
    returns (used: nat, ghost rounds: seq<seq<Arrival>>)
    ensures |rounds| <= maxRounds && Rounds(rounds, arrivals, budget)
    ensures used == SpentIn(rounds) && used <= budget
    ensures forall i :: 1 <= i < |rounds| ==> !emptied(i) && !enough(i)
    ensures forall i :: 1 <= i <= |rounds| ==> !cancelled(i)
    ensures var n := |rounds|;
            n == maxRounds || cancelled(n + 1) || (n > 0 && (emptied(n) || enough(n)))
            || !RoundOf(arrivals(n + 1), budget - used).Fruitful?
  {
    hide *;
    used, rounds := 0, [];
    NoRounds(arrivals, budget);
    var round := 1;
    while round <= maxRounds
      invariant 1 <= round <= maxRounds + 1 && |rounds| == round - 1
      invariant Rounds(rounds, arrivals, budget) && used == SpentIn(rounds) <= budget
      invariant forall i :: 1 <= i < round ==> !emptied(i) && !enough(i) && !cancelled(i)
    {
      if cancelled(round) {
        break;
      }
      var r := RunRound(arrivals(round), budget - used);
      if !r.Fruitful? {
        break;
      }
      FruitfulRound(arrivals(round), budget - used);
      SpentSnoc(rounds, r.results);
      RoundsSnoc(rounds, arrivals, budget, r.results);
      rounds := rounds + [r.results];
      used := used + r.used;
      if emptied(round) {
        break;
      }
      if enough(round) {
        break;
      }
      round := round + 1;
    }
  }

  lemma NoRounds(arrivals: nat -> seq<Arrival>, budget: nat)
    ensures SpentIn([]) == 0 && Rounds([], arrivals, budget)
  {
  }

  lemma RoundsSnoc(rounds: seq<seq<Arrival>>, arrivals: nat -> seq<Arrival>, budget: nat, r: seq<Arrival>)
    requires Rounds(rounds, arrivals, budget) && r != [] && SpentIn(rounds) < budget
    requires r == Accepted(arrivals(|rounds| + 1), budget - SpentIn(rounds))
    ensures Rounds(rounds + [r], arrivals, budget)
  {
    hide Accepted;
    var longer := rounds + [r];
    forall i: nat | i < |longer| ensures RoundAt(longer, arrivals, budget, i) {
      assert longer[..i] == rounds[..i];
      if i < |rounds| {
        assert RoundAt(rounds, arrivals, budget, i);
      } else {
        assert rounds[..i] == rounds;
      }
    }
  }

  // ----- The subtasks of a decomposition

  /** The first distinct entries of a planner's list, trimmed, in order of first appearance. */
  function Distinct(items: seq<string>): seq<string> {
    if items == [] then []
    else
      var before := Distinct(items[..|items| - 1]);
      var v := Trim(items[|items| - 1]);
      if v == "" || v in before then before else before + [v]
  }

  lemma {:induction false} DistinctIsDistinct(items: seq<string>)
    ensures forall i, j :: 0 <= i < j < |Distinct(items)| ==> Distinct(items)[i] != Distinct(items)[j]
    ensures forall v :: v in Distinct(items) <==> v != "" && exists i :: 0 <= i < |items| && Trim(items[i]) == v
  {
    hide Trim;
    if items != [] {
      var n := |items| - 1;
      DistinctIsDistinct(items[..n]);
      forall v ensures v in Distinct(items) <==> v != "" && exists i :: 0 <= i < |items| && Trim(items[i]) == v {
        if v != "" && v == Trim(items[n]) {
          assert v in Distinct(items);
        } else if v in Distinct(items[..n]) {
          var i :| 0 <= i < n && Trim(items[..n][i]) == v;
          assert Trim(items[i]) == v;
        } else if v != "" {
          assert forall i :: 0 <= i < n ==> items[..n][i] == items[i];
        }
      }
    }
  }

  lemma {:induction false} DistinctGrows(items: seq<string>, k: nat)
    requires k <= |items|
    ensures Distinct(items[..k]) <= Distinct(items)
  {
    hide Trim;
    if k < |items| {
      DistinctGrows(items[..|items| - 1], k);
      assert items[..|items| - 1][..k] == items[..k];
    } else {
      assert items[..k] == items;
    }
  }

  function Least(a: nat, b: nat): nat {
    if a < b then a else b
  }

  /** The collection of subtasks: the first `max` distinct ones. The executor's maximum is at least one. */
  method CollectSubtasks(items: seq<string>, max: nat) returns (result: seq<string>)
    requires max >= 1
    ensures result == Distinct(items)[..Least(max, |Distinct(items)|)]
  {
    hide Trim;
    result := [];
    var seen: set<string> := {};
    assert items[..0] == [];
    for i := 0 to |items|
      invariant result == Distinct(items[..i]) && |result| < max
      invariant forall v :: v in seen <==> v in result
    {
      var v := Trim(items[i]);
      assert items[..i + 1][..i] == items[..i];
      if v != "" && v !in seen {
        seen := seen + {v};
        result := result + [v];
      }
      if |result| >= max {
        DistinctGrows(items, i + 1);
        return;
      }
    }
    assert items[..|items|] == items;
  }

  /** A subtask: its size, and the words of its worker's output unless the call fails. */
  datatype Subtask = Subtask(words: nat, reply: Option<nat>) {
    function Cost(): nat {
      if reply.None? then 0 else Estimate(words) + Estimate(reply.value)
    }
  }

  /** A finished call costs 1.3 tokens for each word of the subtask and of the output, and 16 more; a failed one
      costs nothing. */
  lemma CostsOfCalls(t: Subtask, a: Arrival)
    ensures t.reply == None ==> t.Cost() == 0
    ensures t.reply.Some? && t.words > 0 && t.reply.value > 0 ==>
              10 * (t.Cost() - 16) <= 13 * (t.words + t.reply.value) < 10 * (t.Cost() - 16) + 20
    ensures a == Failed ==> a.Cost() == 0
    ensures a.Output? && a.words > 0 ==> 10 * (a.Cost() - 8) <= 13 * a.words < 10 * (a.Cost() - 8) + 10
  {
  }

  ghost function Spent(tasks: seq<Subtask>): nat {
    if tasks == [] then 0 else Spent(tasks[..|tasks| - 1]) + tasks[|tasks| - 1].Cost()
  }

  /** The subtask loop: `calls` workers are called, in order, as long as the budget is not used up. */
  method RunSubtasks(tasks: seq<Subtask>, budget: int, cancelled: nat -> bool) returns (used: nat, calls: nat)
    ensures calls <= |tasks| && used == Spent(tasks[..calls])
    ensures forall i :: 0 <= i < calls ==> Spent(tasks[..i]) < budget && !cancelled(i)
    ensures calls == |tasks| || used >= budget || cancelled(calls)
  {
    hide Estimate;
    used, calls := 0, 0;
    while calls < |tasks|
      invariant calls <= |tasks| && used == Spent(tasks[..calls])
      invariant forall i :: 0 <= i < calls ==> Spent(tasks[..i]) < budget && !cancelled(i)
    {
      if cancelled(calls) {
        break;
      }
      if used >= budget {
        break;
      }
      var task := tasks[calls];
      assert tasks[..calls + 1][..calls] == tasks[..calls];
      if task.reply.Some? {
        used := used + (Estimate(task.words) + Estimate(task.reply.value));
      }
      calls := calls + 1;
    }
  }

  /** The total overshoots the budget by less than what the last successful subtask cost. */
  lemma {:induction false} OvershootIsLastCost(tasks: seq<Subtask>, budget: int, calls: nat)
    requires calls <= |tasks| && forall i :: 0 <= i < calls ==> Spent(tasks[..i]) < budget
    ensures Spent(tasks[..calls]) == 0
         || exists j :: 0 <= j < calls && tasks[j].reply.Some?
                     && Spent(tasks[..calls]) == Spent(tasks[..j]) + tasks[j].Cost() < budget + tasks[j].Cost()
  {
    hide Estimate;
    if calls > 0 {
      assert tasks[..calls][..calls - 1] == tasks[..calls - 1];
      if tasks[calls - 1].reply.Some? {
        assert Spent(tasks[..calls]) == Spent(tasks[..calls - 1]) + tasks[calls - 1].Cost();
      } else {
        OvershootIsLastCost(tasks, budget, calls - 1);
      }
    }
  }

  /** The budget of a decomposition: never above the configured one, and never under 200 unless that is. */
  method ResolveBudget(configured: int, requested: Option<int>) returns (budget: int)
    requires configured > 0
    ensures 0 < budget <= configured
    ensures configured >= 200 ==> budget >= 200
    ensures requested.None? || requested.value <= 0 || requested.value > configured ==> budget == configured
    ensures requested.Some? && 200 <= requested.value <= configured ==> budget == requested.value
    ensures requested.Some? && 0 < requested.value < 200 ==> budget == if configured < 200 then configured else 200
  {
    budget := configured;
    if requested.Some? && requested.value > 0 {
      budget := requested.value;
    }
    if budget < 200 {
      budget := 200;
    }
    if budget > configured {
      budget := configured;
    }
  }
}
