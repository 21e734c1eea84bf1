/** How many simulations the depth limit admits, whatever the rollout budget. */
module MctsBound {
  import opened MctsTree
  import opened MctsSearch

  /** The number of nodes of a full tree of the given depth in which every inner node has three children. */
  function Full(depth: nat): nat {
    if depth == 0 then 1 else 1 + 3 * Full(depth - 1)
  }

  ghost function Extended(paths: set<seq<string>>, action: string): set<seq<string>> {
    set p | p in paths :: p + [action]
  }

  ghost function OneLonger(actions: seq<ActionPrior>, paths: set<seq<string>>): set<seq<string>>
    requires |actions| == 3
  {
    {[]} + Extended(paths, actions[0].action) + Extended(paths, actions[1].action)
    + Extended(paths, actions[2].action)
  }

  /** All action paths of at most the given length. */
  ghost function PathsUpTo(actions: seq<ActionPrior>, depth: nat): set<seq<string>>
    requires |actions| == 3
  {
    if depth == 0 then {[]} else OneLonger(actions, PathsUpTo(actions, depth - 1))
  }

  lemma {:induction false} ExtendedSize(paths: set<seq<string>>, action: string)
    ensures |Extended(paths, action)| <= |paths|
  {
    if paths != {} {
      var p :| p in paths;
      ExtendedSize(paths - {p}, action);
      assert Extended(paths, action) == Extended(paths - {p}, action) + {p + [action]};
    }
  }

  lemma UnionSize<T>(a: set<T>, b: set<T>)
    ensures |a + b| <= |a| + |b|
  {
    assert a + b == a + (b - a);
    assert b == (b - a) + (b * a);
  }

  lemma OneLongerSize(actions: seq<ActionPrior>, paths: set<seq<string>>)
    requires |actions| == 3
    ensures |OneLonger(actions, paths)| <= 1 + 3 * |paths|
  {
    var a, b := Extended(paths, actions[0].action), Extended(paths, actions[1].action);
    var c := Extended(paths, actions[2].action);
    ExtendedSize(paths, actions[0].action);
    ExtendedSize(paths, actions[1].action);
    ExtendedSize(paths, actions[2].action);
    UnionSize({[]} + a + b, c);
    UnionSize({[]} + a, b);
    UnionSize({[]}, a);
  }

  lemma {:induction false} PathsUpToSize(actions: seq<ActionPrior>, depth: nat)
    requires |actions| == 3
    ensures |PathsUpTo(actions, depth)| <= Full(depth)
  {
    hide OneLonger;
    if depth > 0 {
      PathsUpToSize(actions, depth - 1);
      OneLongerSize(actions, PathsUpTo(actions, depth - 1));
    }
  }

  lemma OneLongerGrows(actions: seq<ActionPrior>, paths: set<seq<string>>, more: set<seq<string>>)
    requires |actions| == 3 && paths <= more
    ensures OneLonger(actions, paths) <= OneLonger(actions, more)
  {
  }

  lemma PathsUnfold(actions: seq<ActionPrior>, depth: nat)
    requires |actions| == 3
    ensures PathsUpTo(actions, depth + 1) == OneLonger(actions, PathsUpTo(actions, depth))
  {
    hide OneLonger;
  }

  lemma PathsUpToOne(actions: seq<ActionPrior>)
    requires |actions| == 3
    ensures PathsUpTo(actions, 0) <= PathsUpTo(actions, 1)
  {
  }

  lemma {:induction false} PathsUpToStep(actions: seq<ActionPrior>, depth: nat)
    requires |actions| == 3
    ensures PathsUpTo(actions, depth) <= PathsUpTo(actions, depth + 1)
  {
    hide *;
    if depth == 0 {
      PathsUpToOne(actions);
    } else {
      PathsUpToStep(actions, depth - 1);
      PathsUnfold(actions, depth - 1);
      PathsUnfold(actions, depth);
      OneLongerGrows(actions, PathsUpTo(actions, depth - 1), PathsUpTo(actions, depth));
    }
  }

  lemma {:induction false} PathsUpToGrow(actions: seq<ActionPrior>, depth: nat, more: nat)
    requires |actions| == 3 && depth <= more
    ensures PathsUpTo(actions, depth) <= PathsUpTo(actions, more)
    decreases more
  {
    hide *;
    if depth < more {
      PathsUpToGrow(actions, depth, more - 1);
      PathsUpToStep(actions, more - 1);
    }
  }

  /** The path of a node spells out actions of the table. */
  lemma {:induction false} NodePathIsListed(t: Tree, n: Node)
    requires t.Valid() && |t.actions| == 3 && n in t.nodes
    ensures n.path in PathsUpTo(t.actions, n.depth)
    decreases n.depth
  {
    assert t.NodeShape(n);
    if n != t.root {
      assert t.NodeShape(n.parent);
      var i :| 0 <= i < |n.parent.children| && n.parent.children[i] == n;
      NodePathIsListed(t, n.parent);
      var shorter := PathsUpTo(t.actions, n.parent.depth);
      assert n.parent.path + [t.actions[i].action] in Extended(shorter, t.actions[i].action);
    }
  }

  lemma {:induction false} InjectionSize(t: Tree, nodes: set<Node>, paths: set<seq<string>>)
    requires t.Valid() && nodes <= t.nodes && forall n :: n in nodes ==> n.path in paths
    ensures |nodes| <= |paths|
    decreases nodes
  {
    if nodes != {} {
      var n :| n in nodes;
      forall m | m in nodes - {n} ensures m.path in paths - {n.path} {
        assert t.Told(m, n);
      }
      InjectionSize(t, nodes - {n}, paths - {n.path});
    }
  }

  /** A tree never outgrows the full tree of its depth limit. */
  lemma TreeIsBounded(t: Tree)
    requires t.Valid() && |t.actions| == 3
    ensures |t.nodes| <= Full(t.maxDepth)
  {
    var paths := PathsUpTo(t.actions, t.maxDepth);
    forall n | n in t.nodes ensures n.path in paths {
      assert t.NodeShape(n);
      NodePathIsListed(t, n);
      PathsUpToGrow(t.actions, n.depth, t.maxDepth);
    }
    InjectionSize(t, t.nodes, paths);
    PathsUpToSize(t.actions, t.maxDepth);
  }

  /** However large the rollout budget, a run makes at most one simulation call per inner node of the
      full tree: 1 at depth 1, 4 at depth 2, 13 at depth 3. All further rollouts are skipped. */
  lemma SimulationsAreBounded(s: Search)
    requires s.Valid() && s.tree.maxDepth >= 1
    ensures |s.attempted| <= Full(s.tree.maxDepth - 1)
    ensures s.successfulRollouts <= Full(s.tree.maxDepth - 1)
    ensures Full(0) == 1 && Full(1) == 4 && Full(2) == 13
  {
    TreeIsBounded(s.tree);
  }
}
