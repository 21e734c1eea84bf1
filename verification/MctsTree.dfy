/** The search tree of the MCTS reasoning mode, updated in place: selection, expansion and
    backpropagation over nodes whose counters and child lists change during one run. */
module MctsTree {
  import opened MctsScore

  datatype ActionPrior = ActionPrior(action: string, prior: real)

  function Sum(xs: seq<int>): int {
    if xs == [] then 0 else Sum(xs[..|xs| - 1]) + xs[|xs| - 1]
  }

  lemma {:induction false} SumBump(xs: seq<int>, j: nat, d: int)
    requires j < |xs|
    ensures Sum(xs[j := xs[j] + d]) == Sum(xs) + d
  {
    var last := |xs| - 1;
    var bumped := xs[j := xs[j] + d];
    if j < last {
      SumBump(xs[..last], j, d);
      assert bumped[..last] == xs[..last][j := xs[j] + d];
    } else {
      assert bumped[..last] == xs[..last];
    }
  }

  lemma SumStep(before: seq<int>, after: seq<int>, j: nat, d: int)
    requires j < |before| == |after| && after[j] == before[j] + d
    requires forall i :: 0 <= i < |before| && i != j ==> after[i] == before[i]
    ensures Sum(after) == Sum(before) + d
  {
    assert after == before[j := before[j] + d];
    SumBump(before, j, d);
  }

  lemma {:induction false} SumOfZeros(xs: seq<int>)
    requires forall i :: 0 <= i < |xs| ==> xs[i] == 0
    ensures Sum(xs) == 0
  {
    if xs != [] {
      SumOfZeros(xs[..|xs| - 1]);
    }
  }

  /** The loop of `selectMCTSChild`: the index of the first child whose score beats all before it,
      or -1 when no score compares above minus infinity. */
  function BestIndex(scores: seq<Float>): (best: int)
    ensures -1 <= best < |scores|
  {
    if scores == [] then -1
    else
      var last := |scores| - 1;
      var best := BestIndex(scores[..last]);
      if Greater(scores[last], if best < 0 then NegInf else scores[best]) then last else best
  }

  /** Among numbers, the selected child is the first one with the highest score. */
  lemma {:induction false} BestIndexIsArgMax(scores: seq<Float>)
    requires scores != []
    requires forall i :: 0 <= i < |scores| ==> scores[i].Fin? || scores[i].PosInf?
    ensures 0 <= BestIndex(scores) < |scores|
    ensures forall j :: 0 <= j < |scores| ==> !Greater(scores[j], scores[BestIndex(scores)])
    ensures forall j :: 0 <= j < BestIndex(scores) ==> Greater(scores[BestIndex(scores)], scores[j])
  {
    if |scores| > 1 {
      BestIndexIsArgMax(scores[..|scores| - 1]);
    }
  }

  /** Among unvisited children the first one is selected. */
  lemma {:induction false} FirstOfInfinite(scores: seq<Float>)
    requires scores != [] && forall i :: 0 <= i < |scores| ==> scores[i] == PosInf
    ensures BestIndex(scores) == 0
  {
    if |scores| > 1 {
      FirstOfInfinite(scores[..|scores| - 1]);
    }
  }

  lemma {:induction false} SetOfDistinct<T>(s: seq<T>)
    requires forall i, j :: 0 <= i < j < |s| ==> s[i] != s[j]
    ensures |set x | x in s| == |s|
  {
    if s != [] {
      var init, last := s[..|s| - 1], s[|s| - 1];
      SetOfDistinct(init);
      assert s == init + [last];
      assert (set x | x in s) == (set x | x in init) + {last};
    }
  }

  class Node {
    const path: seq<string>
    const depth: nat
    const prior: real
    const parent: Node?
    var visits: nat
    var value: int
    var terminal: bool
    var output: string
    var children: seq<Node>

    constructor (path: seq<string>, depth: nat, prior: real, parent: Node?)
      ensures this.path == path && this.depth == depth && this.prior == prior && this.parent == parent
      ensures visits == 0 && value == 0 && !terminal && output == "" && children == []
    {
      this.path, this.depth, this.prior, this.parent := path, depth, prior, parent;
      visits, value, terminal, output, children := 0, 0, false, "", [];
    }
  }

  function Visits(ns: seq<Node>): (xs: seq<int>)
    reads ns
    ensures |xs| == |ns|
    ensures forall i :: 0 <= i < |ns| ==> xs[i] == ns[i].visits
  {
    if ns == [] then [] else Visits(ns[..|ns| - 1]) + [ns[|ns| - 1].visits]
  }

  function Values(ns: seq<Node>): (xs: seq<int>)
    reads ns
    ensures |xs| == |ns|
    ensures forall i :: 0 <= i < |ns| ==> xs[i] == ns[i].value
  {
    if ns == [] then [] else Values(ns[..|ns| - 1]) + [ns[|ns| - 1].value]
  }

  function SumOfPriors(ns: seq<Node>): real {
    if ns == [] then 0.0 else SumOfPriors(ns[..|ns| - 1]) + ns[|ns| - 1].prior
  }

  /** The outcome of one simulation call. */
  datatype Simulation = CallFailed | Answered(output: string, score: int)

  datatype Rollout = AtMaxDepth | SimulationFailed(path: seq<string>) | Simulated(path: seq<string>)

  class Tree {
    const root: Node
    const maxDepth: nat
    const actions: seq<ActionPrior>
    const selection: Selection
    ghost var nodes: set<Node>
    /** The score of each node that was itself successfully simulated. */
    ghost var own: map<Node, int>

    constructor (maxDepth: nat, actions: seq<ActionPrior>, selection: Selection)
      requires selection.Valid() && actions != []
      requires forall i, j :: 0 <= i < j < |actions| ==> actions[i].action != actions[j].action
      ensures Valid() && fresh(nodes) && nodes == {root} && own == map[]
      ensures this.maxDepth == maxDepth && this.actions == actions && this.selection == selection
      ensures root.visits == 0 && root.value == 0 && root.children == []
    {
      root := new Node([], 0, 1.0, null);
      this.maxDepth, this.actions, this.selection := maxDepth, actions, selection;
      nodes := {root};
      own := map[];
    }

    // ----- Invariants

    ghost predicate NodeShape(n: Node)
      reads this, nodes, n
    {
      && |n.path| == n.depth <= maxDepth
      && (n.terminal ==> n.depth == maxDepth)
      && (n.children != [] ==> n.depth < maxDepth && |n.children| == |actions|)
      && (forall i :: 0 <= i < |n.children| ==>
            && n.children[i] in nodes
            && n.children[i].parent == n
            && n.children[i].depth == n.depth + 1
            && n.children[i].path == n.path + [actions[i].action])
      && (n != root ==> n.parent != null && n.parent in nodes && n in n.parent.children)
    }

    /** Nodes are told apart by their action paths. */
    ghost predicate Told(n: Node, m: Node) {
      n.path == m.path ==> n == m
    }

    ghost predicate Shape()
      reads this, nodes
    {
      && selection.Valid()
      && actions != []
      && (forall i, j :: 0 <= i < j < |actions| ==> actions[i].action != actions[j].action)
      && root in nodes && root.depth == 0 && root.path == [] && root.parent == null
      && (forall n {:trigger NodeShape(n)} :: n in nodes ==> NodeShape(n))
      && (forall n, m {:trigger Told(n, m)} :: n in nodes && m in nodes ==> Told(n, m))
    }

    /** A node's counters are its own simulation plus everything its children accumulated. */
    ghost predicate Conserved(n: Node)
      reads this, n, n.children
    {
      && n.visits == (if n in own then 1 else 0) + Sum(Visits(n.children))
      && n.value == (if n in own then own[n] else 0) + Sum(Values(n.children))
    }

    /** Values stay in range, and no child is visited twice before every sibling was visited. */
    ghost predicate Fair(n: Node)
      reads n, n.children
    {
      && 0 <= n.value <= UNIT * n.visits
      && forall i, j :: 0 <= i < |n.children| && 0 <= j < |n.children| && n.children[i].visits >= 2 ==>
           n.children[j].visits >= 1
    }

    ghost predicate Valid()
      reads this, nodes
    {
      && Shape()
      && own.Keys <= nodes
      && (forall n {:trigger Conserved(n)} :: n in nodes ==> NodeShape(n) && Conserved(n))
      && (forall n {:trigger Fair(n)} :: n in nodes ==> NodeShape(n) && Fair(n))
    }

    // ----- Selection

    function ScoresOf(cs: seq<Node>, parentVisits: nat): (scores: seq<Float>)
      requires parentVisits >= 1
      reads cs
      ensures |scores| == |cs|
      ensures forall i :: 0 <= i < |cs| ==>
                scores[i] == selection.Score(cs[i].visits, cs[i].value, cs[i].prior, parentVisits)
    {
      if cs == [] then []
      else
        var c := cs[|cs| - 1];
        ScoresOf(cs[..|cs| - 1], parentVisits) + [selection.Score(c.visits, c.value, c.prior, parentVisits)]
    }

    function Scores(n: Node): (scores: seq<Float>)
      reads n, n.children
      ensures |scores| == |n.children|
    {
      ScoresOf(n.children, Max(1, n.visits))
    }

    lemma ScoresAreNumbers(n: Node)
      requires Valid() && n in nodes && n.children != []
      ensures forall i :: 0 <= i < |n.children| ==> Scores(n)[i].Fin? || Scores(n)[i].PosInf?
      ensures forall i :: 0 <= i < |n.children| ==> (Scores(n)[i].PosInf? <==> n.children[i].visits == 0)
      ensures 0 <= BestIndex(Scores(n)) < |n.children|
    {
      assert NodeShape(n) && Fair(n);
      forall i | 0 <= i < |n.children|
        ensures Scores(n)[i].Fin? || Scores(n)[i].PosInf?
        ensures Scores(n)[i].PosInf? <==> n.children[i].visits == 0
      {
        var c := n.children[i];
        assert Fair(c);
        ScoreIsNumber(selection, c.visits, c.value, c.prior, Max(1, n.visits));
      }
      BestIndexIsArgMax(Scores(n));
    }

    /** The child the selection rule picks. */
    ghost function Picked(n: Node): (c: Node)
      requires Valid() && n in nodes && n.children != []
      reads this, nodes
      ensures c in n.children && c in nodes && c.parent == n && c.depth == n.depth + 1 <= maxDepth
    {
      ScoresAreNumbers(n);
      assert NodeShape(n);
      assert NodeShape(n.children[BestIndex(Scores(n))]);
      n.children[BestIndex(Scores(n))]
    }

    /** Visited children with the same mean and prior. */
    predicate Alike(c: Node, d: Node)
      reads c, d
    {
      c.visits >= 1 && d.visits >= 1 && c.value * d.visits == d.value * c.visits && c.prior == d.prior
    }

    /** Among children that look alike the one with the fewest visits is picked. */
    lemma PickedHasFewestVisits(n: Node, d: Node)
      requires Valid() && n in nodes && d in n.children && Alike(Picked(n), d)
      requires selection.Rising() && selection.exploration > 0.0 && n.visits >= 2
      ensures Picked(n).visits <= d.visits
    {
      hide Selection.Score, Selection.Rising;
      var c := Picked(n);
      var j :| 0 <= j < |n.children| && n.children[j] == d;
      ScoresAreNumbers(n);
      BestIndexIsArgMax(Scores(n));
      assert NodeShape(n) && Fair(c) && Fair(d);
      EqualMeans(selection, c.visits, c.value, d.visits, d.value);
      if d.visits < c.visits {
        FewerVisitsScoreHigher(selection, d.visits, d.value, c.visits, c.value, c.prior, n.visits);
      }
    }

    /** Among visited children with the same counters one with the highest prior is picked. */
    lemma PickedHasHighestPrior(n: Node, d: Node)
      requires Valid() && n in nodes && d in n.children
      requires d.visits == Picked(n).visits >= 1 && d.value == Picked(n).value
      ensures d.prior <= Picked(n).prior
    {
      hide Selection.Score;
      var c := Picked(n);
      var j :| 0 <= j < |n.children| && n.children[j] == d;
      ScoresAreNumbers(n);
      BestIndexIsArgMax(Scores(n));
      assert NodeShape(n) && Fair(c) && Fair(d);
      if c.prior < d.prior {
        HigherPriorScoresHigher(selection, c.visits, c.value, c.prior, d.prior, Max(1, n.visits));
      }
    }

    ghost predicate Explores(n: Node, best: Node)
      reads this, n, n.children, best
    {
      && (selection.Rising() && selection.exploration > 0.0 && n.visits >= 2 ==>
            forall d :: d in n.children && Alike(best, d) ==> best.visits <= d.visits)
      && (forall d :: d in n.children && d.visits == best.visits >= 1 && d.value == best.value ==>
            d.prior <= best.prior)
    }

    lemma PickedExplores(n: Node)
      requires Valid() && n in nodes && n.children != []
      ensures Explores(n, Picked(n))
    {
      hide Selection.Rising, Valid, Picked;
      forall d | selection.Rising() && selection.exploration > 0.0 && n.visits >= 2
                 && d in n.children && Alike(Picked(n), d)
        ensures Picked(n).visits <= d.visits
      {
        PickedHasFewestVisits(n, d);
      }
      forall d | d in n.children && d.visits == Picked(n).visits >= 1 && d.value == Picked(n).value
        ensures d.prior <= Picked(n).prior
      {
        PickedHasHighestPrior(n, d);
      }
    }

    /** `selectMCTSChild` on a node that has children. */
    method SelectChild(n: Node) returns (best: Node)
      requires Valid() && n in nodes && n.children != []
      ensures Valid() && best == Picked(n)
      ensures Explores(n, best)
    {
      PickedExplores(n);
      ghost var scores := Scores(n);
      var choice, bestScore := -1, NegInf;
      var parentVisits := Max(1, n.visits);
      for i := 0 to |n.children|
        invariant choice == BestIndex(scores[..i])
        invariant bestScore == if choice < 0 then NegInf else scores[choice]
      {
        var child := n.children[i];
        var score := selection.Score(child.visits, child.value, child.prior, parentVisits);
        assert score == scores[i] && scores[..i + 1][..i] == scores[..i];
        if Greater(score, bestScore) {
          bestScore := score;
          choice := i;
        }
      }
      assert scores[..|n.children|] == scores;
      ScoresAreNumbers(n);
      best := n.children[choice];
    }

    /** A parent-to-child path from the root; a node on it stands at the index of its own depth. */
    ghost predicate Lineage(chain: seq<Node>)
      reads this
    {
      && chain != [] && chain[0] == root
      && (forall i :: 0 <= i < |chain| ==> chain[i] in nodes && chain[i].depth == i)
      && (forall i {:trigger chain[i + 1]} :: 0 <= i < |chain| - 1 ==> chain[i + 1].parent == chain[i])
    }

    /** Below a node, a visited child is only chosen when no sibling is unvisited. */
    ghost predicate FairChoice(n: Node, c: Node)
      reads n, n.children, c
    {
      c.visits >= 1 ==> forall i :: 0 <= i < |n.children| ==> n.children[i].visits >= 1
    }

    ghost predicate FairPath(chain: seq<Node>)
      requires Shape() && Lineage(chain)
      reads this, nodes
    {
      forall i {:trigger chain[i + 1]} :: 0 <= i < |chain| - 1 ==>
        assert NodeShape(chain[i]);
        FairChoice(chain[i], chain[i + 1])
    }

    /** A visited child is only picked when every sibling was visited, since an unvisited one scores infinity. */
    lemma PickedIsFair(n: Node)
      requires Valid() && n in nodes && n.children != []
      ensures FairChoice(n, Picked(n))
    {
      ScoresAreNumbers(n);
      BestIndexIsArgMax(Scores(n));
      forall i | 0 <= i < |n.children| ensures Picked(n).visits >= 1 ==> n.children[i].visits >= 1 {
        assert !Greater(Scores(n)[i], Scores(n)[BestIndex(Scores(n))]);
      }
    }

    /** Where selection ends when it starts at `n`. */
    ghost function Follow(n: Node): (leaf: Node)
      requires Valid() && n in nodes
      reads this, nodes
      decreases maxDepth - n.depth
      ensures leaf in nodes && leaf.children == []
    {
      assert NodeShape(n);
      if n.children == [] then n else Follow(Picked(n))
    }

    /** A stage of the selection walk. */
    ghost predicate Walk(chain: seq<Node>)
      reads this, nodes
    {
      && Valid() && Lineage(chain) && FairPath(chain)
      && Follow(chain[|chain| - 1]) == Follow(root)
    }

    lemma WalkStarts()
      requires Valid()
      ensures Walk([root])
    {
    }

    lemma WalkFacts(chain: seq<Node>)
      requires Walk(chain)
      ensures Valid() && Lineage(chain) && FairPath(chain) && actions != []
      ensures chain[|chain| - 1] in nodes && root in nodes
    {
    }

    lemma WalkGrows(chain: seq<Node>)
      requires Walk(chain) && chain[|chain| - 1].children != []
      ensures Walk(chain + [Picked(chain[|chain| - 1])])
    {
      var last := chain[|chain| - 1];
      PickedIsFair(last);
      var longer := chain + [Picked(last)];
      forall i | 0 <= i < |longer| - 1
        ensures longer[i + 1].parent == longer[i]
        ensures FairChoice(longer[i], longer[i + 1])
      {
        assert longer[i] == chain[i];
        assert i == |chain| - 1 || longer[i + 1] == chain[i + 1];
      }
    }

    /** One turn of the selection loop. */
    method WalkOn(chain: seq<Node>) returns (next: Node)
      requires Walk(chain) && chain[|chain| - 1].children != []
      ensures Walk(chain + [next])
      ensures next.depth == chain[|chain| - 1].depth + 1 <= maxDepth
      ensures next.terminal ==> next.children == []
    {
      WalkGrows(chain);
      next := SelectChild(chain[|chain| - 1]);
      assert NodeShape(next);
    }

    /** `selectMCTSLeaf` */
    method SelectLeaf() returns (leaf: Node, chain: seq<Node>)
      requires Valid()
      ensures Walk(chain) && leaf == chain[|chain| - 1] == Follow(root)
    {
      hide Valid, FairPath;
      WalkStarts();
      leaf := root;
      chain := [root];
      while |leaf.children| > 0
        invariant Walk(chain) && leaf == chain[|chain| - 1]
        decreases maxDepth - leaf.depth
      {
        leaf := WalkOn(chain);
        chain := chain + [leaf];
        if leaf.terminal {
          break;
        }
      }
    }

    // ----- Expansion

    function TotalPrior(n: nat): real
      requires n <= |actions|
    {
      if n == 0 then 0.0 else TotalPrior(n - 1) + actions[n - 1].prior
    }

    function Divisor(): real {
      if TotalPrior(|actions|) <= 0.0 then |actions| as real else TotalPrior(|actions|)
    }

    /** The `i`-th child a freshly expanded node gets. */
    ghost predicate Newborn(c: Node, parent: Node, i: nat)
      requires i < |actions| && actions != []
      reads c
    {
      && c.parent == parent
      && c.depth == parent.depth + 1
      && c.path == parent.path + [actions[i].action]
      && c.prior == actions[i].prior / Divisor()
      && c.visits == 0 && c.value == 0 && !c.terminal && c.output == "" && c.children == []
    }

    lemma {:induction false} TotalIsPositive(n: nat)
      requires n <= |actions| && forall i :: 0 <= i < |actions| ==> actions[i].prior > 0.0
      ensures TotalPrior(n) >= 0.0 && (n > 0 ==> TotalPrior(n) > 0.0)
    {
      if n > 0 {
        TotalIsPositive(n - 1);
      }
    }

    lemma {:induction false} PartialPriors(leaf: Node, n: nat)
      requires actions != [] && |leaf.children| == |actions| && n <= |actions| && Divisor() != 0.0
      requires forall i :: 0 <= i < |actions| ==> Newborn(leaf.children[i], leaf, i)
      ensures SumOfPriors(leaf.children[..n]) == TotalPrior(n) / Divisor()
    {
      if n > 0 {
        PartialPriors(leaf, n - 1);
        assert Newborn(leaf.children[n - 1], leaf, n - 1);
        hide *;
        SumOfShares(TotalPrior(n - 1), actions[n - 1].prior, Divisor());
        PriorsStep(leaf, n);
      }
    }

    lemma PriorsStep(leaf: Node, n: nat)
      requires 0 < n <= |actions| == |leaf.children|
      ensures SumOfPriors(leaf.children[..n]) == SumOfPriors(leaf.children[..n - 1]) + leaf.children[n - 1].prior
      ensures TotalPrior(n) == TotalPrior(n - 1) + actions[n - 1].prior
      ensures SumOfPriors([]) == 0.0 && TotalPrior(0) == 0.0
    {
      assert leaf.children[..n][..n - 1] == leaf.children[..n - 1];
    }

    lemma SumOfShares(x: real, y: real, d: real)
      requires d != 0.0
      ensures x / d + y / d == (x + y) / d
    {
    }

    /** The priors of freshly expanded children add up to one. */
    lemma PriorsSumToOne(leaf: Node)
      requires actions != [] && |leaf.children| == |actions|
      requires forall i :: 0 <= i < |actions| ==> actions[i].prior > 0.0
      requires forall i :: 0 <= i < |actions| ==> Newborn(leaf.children[i], leaf, i)
      ensures SumOfPriors(leaf.children) == 1.0
    {
      TotalIsPositive(|actions|);
      PartialPriors(leaf, |actions|);
      assert leaf.children[..|actions|] == leaf.children;
      var total := TotalPrior(|actions|);
      assert total / total == 1.0;
    }

    /** The only thing that happened to old nodes is that `leaf` got children. */
    twostate predicate OnlyGrew(new leaf: Node)
      reads this, nodes, leaf
    {
      && leaf in nodes
      && nodes == old(nodes) + (set c | c in leaf.children)
      && own == old(own)
      && (forall n {:trigger n in old(nodes)} :: n in old(nodes) ==>
            && (n != leaf ==> n.children == old(n.children))
            && n.visits == old(n.visits) && n.value == old(n.value)
            && n.terminal == old(n.terminal) && n.output == old(n.output))
    }

    method NewChildren(leaf: Node, totalPrior: real) returns (kids: seq<Node>)
      requires totalPrior == Divisor() != 0.0 && actions != []
      ensures |kids| == |actions|
      ensures forall i :: 0 <= i < |actions| ==> fresh(kids[i]) && Newborn(kids[i], leaf, i)
    {
      kids := [];
      for i := 0 to |actions|
        invariant |kids| == i
        invariant forall j :: 0 <= j < i ==> fresh(kids[j]) && Newborn(kids[j], leaf, j)
      {
        var child := new Node(leaf.path + [actions[i].action], leaf.depth + 1, actions[i].prior / totalPrior, leaf);
        kids := kids + [child];
      }
    }

    /** `expandMCTSLeaf` */
    method Expand(leaf: Node)
      requires Valid() && leaf in nodes && leaf.children == [] && leaf.depth < maxDepth
      modifies this`nodes, leaf`children
      ensures Valid() && OnlyGrew(leaf)
      ensures |leaf.children| == |actions| && |nodes| == |old(nodes)| + |actions| && fresh(nodes - old(nodes))
      ensures forall i :: 0 <= i < |actions| ==>
                fresh(leaf.children[i]) && Newborn(leaf.children[i], leaf, i)
    {
      var totalPrior := 0.0;
      for i := 0 to |actions|
        invariant totalPrior == TotalPrior(i)
      {
        totalPrior := totalPrior + actions[i].prior;
      }
      if totalPrior <= 0.0 {
        totalPrior := |actions| as real;
      }
      var kids := NewChildren(leaf, totalPrior);
      leaf.children := kids;
      nodes := nodes + set c | c in kids;
      ExpandKeepsShape(leaf);
      ExpandKeepsCounters(leaf);
      ChildrenCount(leaf);
    }

    twostate lemma ExpandKeepsShape(leaf: Node)
      requires old(Valid()) && leaf in old(nodes) && old(leaf.children) == [] && leaf.depth < maxDepth
      requires OnlyGrew(leaf) && |leaf.children| == |actions|
      requires forall i :: 0 <= i < |actions| ==> leaf.children[i] !in old(nodes) && Newborn(leaf.children[i], leaf, i)
      ensures Shape()
    {
      forall n | n in nodes ensures NodeShape(n) {
        assert old(NodeShape(leaf));
        if n in old(nodes) {
          assert old(NodeShape(n));
        } else {
          var i :| 0 <= i < |leaf.children| && leaf.children[i] == n;
          assert Newborn(n, leaf, i);
        }
      }
      forall n, m | n in nodes && m in nodes ensures Told(n, m) {
        NewPathsTell(old(nodes), leaf, n, m);
      }
    }

    /** A new child shares its path with no sibling, as actions differ, and with no older node: that one
        would have been a child of `leaf` before. */
    lemma NewPathsTell(before: set<Node>, leaf: Node, n: Node, m: Node)
      requires forall n {:trigger NodeShape(n)} :: n in nodes ==> NodeShape(n)
      requires forall n, m {:trigger Told(n, m)} :: n in before && m in before ==> Told(n, m)
      requires forall i, j :: 0 <= i < j < |actions| ==> actions[i].action != actions[j].action
      requires root.path == [] && leaf in before && leaf.children != []
      requires nodes == before + (set c | c in leaf.children)
      requires forall c :: c in leaf.children ==> c !in before && c.children == []
      requires n in nodes && m in nodes
      ensures Told(n, m)
    {
      assert NodeShape(leaf);
      if n.path == m.path {
        if n in before && m in before {
          assert Told(n, m);
        } else if n !in before && m !in before {
          var i :| 0 <= i < |leaf.children| && leaf.children[i] == n;
          var j :| 0 <= j < |leaf.children| && leaf.children[j] == m;
          assert n.path[|leaf.path|] == actions[i].action;
          assert m.path[|leaf.path|] == actions[j].action;
        } else {
          OlderPathDiffers(before, leaf, if n in before then n else m, if n in before then m else n);
        }
      }
    }

    lemma OlderPathDiffers(before: set<Node>, leaf: Node, older: Node, child: Node)
      requires forall n {:trigger NodeShape(n)} :: n in nodes ==> NodeShape(n)
      requires forall n, m {:trigger Told(n, m)} :: n in before && m in before ==> Told(n, m)
      requires root.path == [] && leaf in before
      requires nodes == before + (set c | c in leaf.children)
      requires forall c :: c in leaf.children ==> c !in before && c.children == []
      requires older in before && child in leaf.children
      ensures older.path != child.path
    {
      assert NodeShape(leaf) && NodeShape(child);
      if older != root {
        assert NodeShape(older) && NodeShape(older.parent);
        if older.parent in before {
          assert Told(older.parent, leaf);
        }
        assert older.path[..|older.path| - 1] == older.parent.path;
        assert child.path[..|child.path| - 1] == leaf.path;
      }
    }

    twostate lemma ExpandKeepsCounters(leaf: Node)
      requires old(Valid()) && leaf in old(nodes) && old(leaf.children) == []
      requires OnlyGrew(leaf) && |leaf.children| == |actions| && Shape()
      requires forall i :: 0 <= i < |actions| ==> leaf.children[i] !in old(nodes) && Newborn(leaf.children[i], leaf, i)
      ensures Valid()
    {
      forall n | n in nodes ensures NodeShape(n) && Conserved(n) && Fair(n) {
        assert NodeShape(n);
        if n == leaf {
          LeafKept(leaf);
        } else if n in old(nodes) {
          ElsewhereKept(leaf, n);
        } else {
          assert n in leaf.children;
          NewbornKept(leaf, n);
        }
      }
    }

    twostate lemma LeafKept(leaf: Node)
      requires old(Valid()) && leaf in old(nodes) && old(leaf.children) == []
      requires OnlyGrew(leaf) && |leaf.children| == |actions|
      requires forall i :: 0 <= i < |actions| ==> Newborn(leaf.children[i], leaf, i)
      ensures Conserved(leaf) && Fair(leaf)
    {
      assert old(Conserved(leaf)) && old(Fair(leaf));
      SumOfZeros(Visits(leaf.children));
      SumOfZeros(Values(leaf.children));
    }

    lemma NewbornKept(leaf: Node, n: Node)
      requires own.Keys <= nodes && n in leaf.children && n !in own
      requires actions != [] && |leaf.children| == |actions|
      requires forall i :: 0 <= i < |actions| ==> Newborn(leaf.children[i], leaf, i)
      ensures Conserved(n) && Fair(n)
    {
    }

    twostate lemma ElsewhereKept(new leaf: Node, n: Node)
      requires old(Valid()) && OnlyGrew(leaf) && n in old(nodes) && n != leaf
      ensures Conserved(n) && Fair(n)
    {
      assert old(NodeShape(n)) && old(Conserved(n)) && old(Fair(n));
      NodeKept(n);
    }

    /** A node whose counters, and whose children's counters, did not change is as balanced as before. */
    twostate lemma NodeKept(n: Node)
      requires own == old(own)
      requires n.children == old(n.children) && n.visits == old(n.visits) && n.value == old(n.value)
      requires forall i :: 0 <= i < |n.children| ==>
                 n.children[i].visits == old(n.children[i].visits) && n.children[i].value == old(n.children[i].value)
      requires old(Conserved(n)) && old(Fair(n))
      ensures Conserved(n) && Fair(n)
    {
      assert Visits(n.children) == old(Visits(n.children));
      assert Values(n.children) == old(Values(n.children));
    }

    // ----- Backpropagation

    ghost predicate OnPath(chain: seq<Node>, n: Node) {
      n.depth < |chain| && chain[n.depth] == n
    }

    /** Exactly the nodes on the path were counted up. */
    twostate predicate Bumped(chain: seq<Node>, new score: int)
      reads this, nodes
    {
      && nodes == old(nodes)
      && (forall n {:trigger n in nodes} :: n in nodes ==>
            && n.children == old(n.children) && n.terminal == old(n.terminal) && n.output == old(n.output)
            && n.visits == old(n.visits) + (if OnPath(chain, n) then 1 else 0)
            && n.value == old(n.value) + (if OnPath(chain, n) then score else 0))
    }

    /** `backpropagateMCTS` */
    method Backpropagate(chain: seq<Node>, score: int)
      requires Lineage(chain)
      modifies chain`visits, chain`value
      ensures Bumped(chain, score)
    {
      var i := |chain| - 1;
      while i >= 0
        invariant -1 <= i < |chain|
        invariant forall n {:trigger n in nodes} :: n in nodes ==>
                    var done := OnPath(chain, n) && n.depth > i;
                    && n.visits == old(n.visits) + (if done then 1 else 0)
                    && n.value == old(n.value) + (if done then score else 0)
      {
        var n := chain[i];
        n.visits := n.visits + 1;
        n.value := n.value + score;
        i := i - 1;
      }
    }

    /** Backpropagation of a first simulation of `next`, the end of the path, keeps every invariant. */
    method Record(chain: seq<Node>, next: Node, score: int)
      requires Valid() && Lineage(chain) && FairPath(chain)
      requires next == chain[|chain| - 1] && next.children == [] && next !in own
      requires 0 <= score <= UNIT
      modifies this`own, chain`visits, chain`value
      ensures Valid() && Bumped(chain, score)
      ensures own == old(own)[next := score]
    {
      Backpropagate(chain, score);
      own := own[next := score];
      BumpedKeepsShape(chain, score);
      forall n | n in nodes ensures NodeShape(n) && Conserved(n) && Fair(n) {
        assert NodeShape(n);
        BumpedConserves(chain, score, n);
        BumpedIsFair(chain, score, n);
      }
    }

    twostate lemma BumpedKeepsShape(chain: seq<Node>, new score: int)
      requires old(Valid()) && Bumped(chain, score)
      ensures Shape()
    {
      forall n | n in nodes ensures NodeShape(n) {
        assert old(NodeShape(n));
      }
      forall n, m | n in nodes && m in nodes ensures Told(n, m) {
      }
    }

    /** Of the children of a node, the only one on the path is the next node of the path. */
    lemma ChildOnPath(chain: seq<Node>, n: Node, i: nat)
      requires Shape() && Lineage(chain) && n in nodes && i < |n.children|
      ensures OnPath(chain, n.children[i]) <==>
              OnPath(chain, n) && n.depth + 1 < |chain| && n.children[i] == chain[n.depth + 1]
    {
      assert NodeShape(n);
      if OnPath(chain, n.children[i]) {
        assert chain[n.depth + 1].parent == chain[n.depth];
      }
    }

    lemma SiblingsAreDistinct(n: Node, i: nat, j: nat)
      requires Shape() && n in nodes && i < |n.children| && j < |n.children| && n.children[i] == n.children[j]
      ensures i == j
    {
      assert NodeShape(n);
      assert n.children[i].path[|n.path|] == actions[i].action;
      assert n.children[j].path[|n.path|] == actions[j].action;
    }

    /** Below a node of the path, the children accumulated exactly this simulation. */
    twostate lemma OneChildBumped(chain: seq<Node>, new score: int, new n: Node, new j: nat)
      requires old(Valid()) && Shape() && Bumped(chain, score) && Lineage(chain) && n in old(nodes)
      requires OnPath(chain, n) && n.depth + 1 < |chain| && j < |n.children| && n.children[j] == chain[n.depth + 1]
      ensures forall i :: 0 <= i < |n.children| ==>
                && n.children[i].visits == old(n.children[i].visits) + (if i == j then 1 else 0)
                && n.children[i].value == old(n.children[i].value) + (if i == j then score else 0)
    {
      assert NodeShape(n);
      forall i | 0 <= i < |n.children| ensures n.children[i] in nodes && (OnPath(chain, n.children[i]) <==> i == j) {
        ChildOnPath(chain, n, i);
        if n.children[i] == n.children[j] {
          SiblingsAreDistinct(n, i, j);
        }
      }
    }

    /** Everywhere else, and below the end of the path, the children accumulated nothing. */
    twostate lemma NoChildBumped(chain: seq<Node>, new score: int, new n: Node)
      requires old(Valid()) && Shape() && Bumped(chain, score) && Lineage(chain) && n in old(nodes)
      requires !(OnPath(chain, n) && n.depth + 1 < |chain|)
      ensures forall i :: 0 <= i < |n.children| ==>
                n.children[i].visits == old(n.children[i].visits) && n.children[i].value == old(n.children[i].value)
    {
      assert NodeShape(n);
      forall i | 0 <= i < |n.children| ensures n.children[i] in nodes && !OnPath(chain, n.children[i]) {
        ChildOnPath(chain, n, i);
      }
    }

    twostate lemma BumpedConserves(chain: seq<Node>, new score: int, new n: Node)
      requires old(Valid()) && Shape() && Bumped(chain, score) && Lineage(chain) && n in old(nodes)
      requires chain[|chain| - 1] !in old(own) && own == old(own)[chain[|chain| - 1] := score]
      ensures Conserved(n)
    {
      if OnPath(chain, n) && n.depth + 1 < |chain| {
        OnPathConserves(chain, score, n);
      } else {
        OffPathConserves(chain, score, n);
      }
    }

    twostate lemma OffPathConserves(chain: seq<Node>, new score: int, new n: Node)
      requires old(Valid()) && Shape() && Bumped(chain, score) && Lineage(chain) && n in old(nodes)
      requires chain[|chain| - 1] !in old(own) && own == old(own)[chain[|chain| - 1] := score]
      requires !(OnPath(chain, n) && n.depth + 1 < |chain|)
      ensures Conserved(n)
    {
      NoChildBumped(chain, score, n);
      assert old(Conserved(n));
      assert Visits(n.children) == old(Visits(n.children));
      assert Values(n.children) == old(Values(n.children));
    }

    twostate lemma OnPathConserves(chain: seq<Node>, new score: int, new n: Node)
      requires old(Valid()) && Shape() && Bumped(chain, score) && Lineage(chain) && n in old(nodes)
      requires own == old(own)[chain[|chain| - 1] := score]
      requires OnPath(chain, n) && n.depth + 1 < |chain|
      ensures Conserved(n)
    {
      var j := IndexOnPath(chain, n);
      OneChildBumped(chain, score, n, j);
      OneMoreBelow(score, n, j);
      assert old(Conserved(n)) && n in nodes && n != chain[|chain| - 1];
    }

    twostate lemma OneMoreBelow(new score: int, n: Node, new j: nat)
      requires j < |n.children| && n.children == old(n.children)
      requires forall i :: 0 <= i < |n.children| ==>
                && n.children[i].visits == old(n.children[i].visits) + (if i == j then 1 else 0)
                && n.children[i].value == old(n.children[i].value) + (if i == j then score else 0)
      ensures Sum(Visits(n.children)) == old(Sum(Visits(n.children))) + 1
      ensures Sum(Values(n.children)) == old(Sum(Values(n.children))) + score
    {
      SumStep(old(Visits(n.children)), Visits(n.children), j, 1);
      SumStep(old(Values(n.children)), Values(n.children), j, score);
    }

    lemma IndexOnPath(chain: seq<Node>, n: Node) returns (j: nat)
      requires Shape() && Lineage(chain) && OnPath(chain, n) && n.depth + 1 < |chain|
      ensures j < |n.children| && n.children[j] == chain[n.depth + 1]
    {
      assert NodeShape(chain[n.depth + 1]) && chain[n.depth + 1].parent == n;
      j :| 0 <= j < |n.children| && n.children[j] == chain[n.depth + 1];
    }

    twostate lemma BumpedIsFair(chain: seq<Node>, new score: int, new n: Node)
      requires old(Valid()) && Shape() && Bumped(chain, score) && Lineage(chain) && n in old(nodes)
      requires old(Shape()) && old(Lineage(chain)) && old(FairPath(chain)) && 0 <= score <= UNIT
      ensures Fair(n)
    {
      assert old(Fair(n)) && NodeShape(n);
      forall i, j | 0 <= i < |n.children| && 0 <= j < |n.children| && n.children[i].visits >= 2
        ensures n.children[j].visits >= 1
      {
        ChildOnPath(chain, n, i);
        if OnPath(chain, n.children[i]) {
          assert old(FairChoice(chain[n.depth], chain[n.depth + 1]));
        }
      }
    }

    // ----- One rollout

    ghost predicate Explored(path: seq<string>)
      reads this
    {
      exists n :: n in nodes && n.path == path
    }

    lemma FirstChildIsPicked(leaf: Node)
      requires Valid() && leaf in nodes && |leaf.children| == |actions|
      requires forall i :: 0 <= i < |actions| ==> Newborn(leaf.children[i], leaf, i)
      ensures Picked(leaf) == leaf.children[0]
    {
      ScoresAreNumbers(leaf);
      FirstOfInfinite(Scores(leaf));
    }

    lemma ChildrenCount(leaf: Node)
      requires Shape() && leaf in nodes
      ensures |set c | c in leaf.children| == |leaf.children|
    {
      forall i, j | 0 <= i < j < |leaf.children| ensures leaf.children[i] != leaf.children[j] {
        if leaf.children[i] == leaf.children[j] {
          SiblingsAreDistinct(leaf, i, j);
        }
      }
      SetOfDistinct(leaf.children);
    }

    /** The path selection walked before `leaf` was expanded leads on to the child picked after. */
    twostate lemma WalkReachesChild(chain: seq<Node>, new leaf: Node, new next: Node)
      requires old(Valid()) && old(Lineage(chain)) && old(FairPath(chain)) && leaf == chain[|chain| - 1]
      requires OnlyGrew(leaf) && Valid() && next in leaf.children && next in nodes && next.visits == 0
      ensures Lineage(chain + [next]) && FairPath(chain + [next])
    {
      var longer := chain + [next];
      assert NodeShape(leaf);
      assert Lineage(longer);
      forall i | 0 <= i < |longer| - 1 ensures FairChoice(longer[i], longer[i + 1]) {
        if i < |chain| - 1 {
          assert old(NodeShape(chain[i])) && old(FairChoice(chain[i], chain[i + 1]));
          assert chain[i].depth != leaf.depth;
        }
      }
    }

    /** A path whose last node is ready for its first simulation. */
    ghost predicate Ready(path: seq<Node>)
      reads this, nodes
    {
      && Valid() && Lineage(path) && FairPath(path) && |path| >= 2
      && var next := path[|path| - 1];
         next.children == [] && next.visits == 0 && next !in own
         && next.path == path[|path| - 2].path + [actions[0].action]
    }

    twostate lemma GrowingKeepsRoot(new leaf: Node)
      requires OnlyGrew(leaf) && root in old(nodes)
      ensures old(nodes) <= nodes && own == old(own)
      ensures root.visits == old(root.visits) && root.value == old(root.value)
    {
    }

    /** Expanding the leaf makes its first new child the one selected next. */
    method ExpandAlong(leaf: Node, chain: seq<Node>)
      requires Valid() && Lineage(chain) && FairPath(chain) && actions != []
      requires leaf in nodes && root in nodes
      requires leaf == chain[|chain| - 1] && leaf.children == [] && leaf.depth < maxDepth
      modifies this`nodes, leaf`children
      ensures OnlyGrew(leaf) && |nodes| == |old(nodes)| + |actions| && fresh(nodes - old(nodes))
      ensures Valid() && leaf.children != [] && fresh(Picked(leaf))
      ensures Ready(chain + [Picked(leaf)])
      ensures old(nodes) <= nodes && own == old(own)
      ensures root.visits == old(root.visits) && root.value == old(root.value)
    {
      hide *;
      Expand(leaf);
      GrowingKeepsRoot(leaf);
      FirstChildIsPicked(leaf);
      ReadyAfterGrowth(chain, leaf);
    }

    twostate lemma ReadyAfterGrowth(chain: seq<Node>, new leaf: Node)
      requires old(Valid()) && old(Lineage(chain)) && old(FairPath(chain)) && leaf == chain[|chain| - 1]
      requires OnlyGrew(leaf) && Valid() && actions != [] && |leaf.children| == |actions|
      requires forall i :: 0 <= i < |actions| ==> leaf.children[i] !in old(nodes) && Newborn(leaf.children[i], leaf, i)
      ensures Ready(chain + [leaf.children[0]])
    {
      hide Conserved, Fair, FairPath, Follow;
      var next := leaf.children[0];
      assert Newborn(next, leaf, 0) && NodeShape(leaf);
      WalkReachesChild(chain, leaf, next);
    }

    /** The selecting and expanding half of a rollout: `next` is always a node created by it. */
    method Grow(leaf: Node, chain: seq<Node>) returns (next: Node)
      requires Walk(chain) && leaf == chain[|chain| - 1] && leaf.children == [] && leaf.depth < maxDepth
      modifies this`nodes, leaf`children
      ensures OnlyGrew(leaf) && |nodes| == |old(nodes)| + |actions| && fresh(nodes - old(nodes))
      ensures fresh(next) && Ready(chain + [next])
      ensures old(nodes) <= nodes && own == old(own)
      ensures root.visits == old(root.visits) && root.value == old(root.value)
    {
      hide *;
      WalkFacts(chain);
      ExpandAlong(leaf, chain);
      next := SelectChild(leaf);
    }

    /** Nothing selection looks at has changed. */
    twostate predicate SameForSelection()
      reads this, nodes
    {
      && nodes == old(nodes) && own == old(own)
      && (forall n {:trigger n in nodes} :: n in nodes ==>
            n.children == old(n.children) && n.visits == old(n.visits) && n.value == old(n.value))
    }

    /** Marking a leaf at the depth limit leaves selection, and everything else, as it was. */
    method MarkTerminal(leaf: Node)
      requires Valid() && leaf in nodes && leaf.depth >= maxDepth
      modifies leaf`terminal
      ensures leaf.terminal && SameForSelection() && Valid()
    {
      leaf.terminal := true;
      StillValid();
    }

    twostate lemma StillValid()
      requires old(Valid()) && SameForSelection()
      requires forall n {:trigger n in nodes} :: n in nodes && n.terminal ==> old(n.terminal) || n.depth >= maxDepth
      ensures Valid()
    {
      forall n | n in nodes ensures NodeShape(n) {
        assert old(NodeShape(n));
      }
      forall n, m | n in nodes && m in nodes ensures Told(n, m) {
      }
      forall n | n in nodes ensures Conserved(n) && Fair(n) {
        assert NodeShape(n) && old(Conserved(n)) && old(Fair(n));
        NodeKept(n);
      }
    }

    twostate lemma SelectionUnmoved(n: Node)
      requires old(Valid()) && Valid() && SameForSelection() && n in nodes
      ensures Follow(n) == old(Follow(n))
      decreases maxDepth - n.depth
    {
      assert NodeShape(n);
      if n.children != [] {
        assert Scores(n) == old(Scores(n));
        SelectionUnmoved(Picked(n));
      }
    }

    /** The bookkeeping half of a successful rollout. */
    method Finish(path: seq<Node>, next: Node, output: string, score: int)
      requires Ready(path) && next == path[|path| - 1] && 0 <= score <= UNIT
      modifies this`own, next`output, next`terminal, path`visits, path`value
      ensures Valid() && nodes == old(nodes) && own == old(own)[next := score]
      ensures root.visits == old(root.visits) + 1 && root.value == old(root.value) + score
      ensures next.output == output && (next.terminal <==> next.depth >= maxDepth)
    {
      next.output := output;
      next.terminal := next.depth >= maxDepth;
      StillValid();
      ReadyStays(path);
      Record(path, next, score);
    }

    twostate lemma ReadyStays(path: seq<Node>)
      requires old(Ready(path)) && Valid() && SameForSelection()
      ensures Ready(path)
    {
      forall i | 0 <= i < |path| - 1 ensures FairChoice(path[i], path[i + 1]) {
        assert NodeShape(path[i]) && old(FairChoice(path[i], path[i + 1]));
      }
    }

    twostate lemma PathsStayExplored(new n: Node, path: seq<string>)
      requires old(nodes) <= nodes && Valid() && n in nodes && n !in old(nodes) && path == n.path
      ensures Explored(path) && !old(Explored(path))
      ensures forall p {:trigger Explored(p)} :: old(Explored(p)) ==> Explored(p)
    {
      forall m | m in old(nodes) ensures m.path != n.path {
        assert Told(m, n);
      }
    }

    /** Expand, simulate, backpropagate. */
    method Simulate(leaf: Node, chain: seq<Node>, outcome: Simulation) returns (next: Node)
      requires Walk(chain) && leaf == chain[|chain| - 1] && leaf.children == [] && leaf.depth < maxDepth
      requires outcome.Answered? ==> 0 <= outcome.score <= UNIT
      modifies this, nodes
      ensures Valid() && old(nodes) <= nodes && |nodes| == |old(nodes)| + |actions| && fresh(nodes - old(nodes))
      ensures next in nodes && next !in old(nodes) && next.path == leaf.path + [actions[0].action]
      ensures next !in old(own) && own == if outcome.Answered? then old(own)[next := outcome.score] else old(own)
      ensures root.visits == old(root.visits) + (if outcome.Answered? then 1 else 0)
      ensures root.value == old(root.value) + (if outcome.Answered? then outcome.score else 0)
    {
      hide Valid, FairPath, Follow, OnlyGrew;
      next := Grow(leaf, chain);
      match outcome {
        case CallFailed =>
        case Answered(output, score) =>
          Finish(chain + [next], next, output, score);
      }
    }

    /** A rollout whose leaf lies above the depth limit. */
    method Visit(leaf: Node, chain: seq<Node>, outcome: Simulation) returns (r: Rollout)
      requires Walk(chain) && leaf == chain[|chain| - 1] && leaf.children == [] && leaf.depth < maxDepth
      requires outcome.Answered? ==> 0 <= outcome.score <= UNIT
      modifies this, nodes
      ensures Valid() && old(nodes) <= nodes && |nodes| == |old(nodes)| + |actions| && fresh(nodes - old(nodes))
      ensures r == if outcome.Answered? then Simulated(leaf.path + [actions[0].action])
                   else SimulationFailed(leaf.path + [actions[0].action])
      ensures Explored(r.path) && !old(Explored(r.path))
      ensures forall p {:trigger Explored(p)} :: old(Explored(p)) ==> Explored(p)
      ensures root.visits == old(root.visits) + (if outcome.Answered? then 1 else 0)
      ensures root.value == old(root.value) + (if outcome.Answered? then outcome.score else 0)
      ensures |own| == |old(own)| + (if outcome.Answered? then 1 else 0)
    {
      hide *;
      var next := Simulate(leaf, chain, outcome);
      PathsStayExplored(next, next.path);
      r := if outcome.Answered? then Simulated(next.path) else SimulationFailed(next.path);
    }

    /** A rollout whose leaf lies at the depth limit. */
    method Skip(leaf: Node)
      requires Valid() && leaf == Follow(root) && leaf.depth >= maxDepth
      modifies leaf`terminal
      ensures Valid() && SameForSelection() && Follow(root) == old(Follow(root))
      ensures nodes == old(nodes) && own == old(own)
      ensures root.visits == old(root.visits) && root.value == old(root.value)
    {
      MarkTerminal(leaf);
      SelectionUnmoved(root);
    }

    /** The tree part of one turn of the rollout loop, for any outcome of its simulation call. */
    method Rollout(outcome: Simulation) returns (r: Rollout)
      requires Valid()
      requires outcome.Answered? ==> 0 <= outcome.score <= UNIT
      modifies this, nodes
      ensures Valid() && fresh(nodes - old(nodes))
      ensures r.AtMaxDepth? <==> old(Follow(root)).depth >= maxDepth
      ensures r.AtMaxDepth? ==> SameForSelection() && nodes == old(nodes) && Follow(root) == old(Follow(root))
      ensures !r.AtMaxDepth? ==>
                && (r.Simulated? <==> outcome.Answered?)
                && old(nodes) <= nodes && |nodes| == |old(nodes)| + |actions|
                && r.path == old(Follow(root)).path + [actions[0].action]
                && !old(Explored(r.path)) && Explored(r.path)
      ensures forall p {:trigger Explored(p)} :: old(Explored(p)) ==> Explored(p)
      ensures root.visits == old(root.visits) + (if r.Simulated? then 1 else 0)
      ensures root.value == old(root.value) + (if r.Simulated? then outcome.score else 0)
      ensures |own| == |old(own)| + (if r.Simulated? then 1 else 0)
    {
      hide Valid, Walk;
      var leaf, chain := SelectLeaf();
      if leaf.depth >= maxDepth {
        Skip(leaf);
        r := AtMaxDepth;
      } else {
        r := Visit(leaf, chain, outcome);
      }
    }
  }

  function Max(a: int, b: int): (m: int)
    ensures m >= a && m >= b
  {
    if a > b then a else b
  }
}
