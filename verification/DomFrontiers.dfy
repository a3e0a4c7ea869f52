/**
 The dominance-frontier analysis: walking up the tree of immediate dominators from each
 predecessor of a join finds exactly the textbook frontiers.
 */
module DomFrontiers {
  import opened Options
  import opened Ir
  import opened Dominance

  ghost predicate IsImmediateDominator(p: Program, d: Node, b: Node) {
    && Reachable(p, d) && StrictlyDominates(p, d, b)
    && forall x :: StrictlyDominates(p, x, b) ==> Dominates(p, x, d)
  }

  /** What the graph library promises of its dominator tree: nothing for the root and unreachable blocks. */
  ghost predicate IsDominatorTree(p: Program, idom: map<Node, Node>) {
    && (forall b :: b in idom <==> Reachable(p, b) && b != p.root)
    && forall b :: b in idom ==> IsImmediateDominator(p, idom[b], b)
  }

  ghost predicate IsDeadJoin(p: Program, b: Node, pred: Node) {
    && b < |p.blocks| && |Predecessors(p, b)| >= 2 && pred in Predecessors(p, b)
    && !(Reachable(p, b) && Reachable(p, pred))
  }

  /** A block with several predecessors that is unreachable or has an unreachable predecessor. */
  ghost predicate HasDeadJoin(p: Program) {
    exists b, pred :: IsDeadJoin(p, b, pred)
  }

  // ---------------------------------------------------------------------------------------
  // Dominance is a partial order on reachable blocks
  // ---------------------------------------------------------------------------------------

  lemma FirstOccurrence(s: seq<Node>, x: Node) returns (i: nat)
    requires x in s
    ensures i < |s| && s[i] == x && x !in s[..i]
  {
    i := 0;
    while s[i] != x
      invariant i < |s| && x !in s[..i] && x in s[i..]
      decreases |s| - i
    {
      i := i + 1;
    }
  }

  lemma DominatesTransitive(p: Program, x: Node, d: Node, b: Node)
    requires Dominates(p, x, d) && Dominates(p, d, b)
    ensures Dominates(p, x, b)
  {
    forall path | PathTo(p, path, b)
      ensures x in path
    {
      var i := FirstOccurrence(path, d);
      PathPrefix(p, path, b, i + 1);
      assert x in path[..i + 1];
    }
  }

  lemma DominatesAntisymmetric(p: Program, x: Node, y: Node)
    requires Reachable(p, y) && Dominates(p, x, y) && Dominates(p, y, x)
    ensures x == y
  {
    var path :| PathTo(p, path, y);
    var i := FirstOccurrence(path, x);
    PathPrefix(p, path, y, i + 1);
    if x != y {
      assert y in path[..i];
      var j := FirstOccurrence(path[..i], y);
      assert path[..i][..j + 1] == path[..j + 1];
      PathPrefix(p, path, y, j + 1);
    }
  }

  lemma DominatesReflexive(p: Program, b: Node)
    ensures Dominates(p, b, b)
  {
    assert forall path :: PathTo(p, path, b) ==> path[|path| - 1] == b;
  }

  /** A strict dominator of a block dominates all its predecessors. */
  lemma DominatesPredecessors(p: Program, d: Node, b: Node, pred: Node)
    requires StrictlyDominates(p, d, b) && (pred, b) in p.edges
    ensures Dominates(p, d, pred)
  {
    forall path | PathTo(p, path, pred)
      ensures d in path
    {
      PathExtend(p, path, pred, b);
      assert d in path + [b];
    }
  }

  lemma DominatorIsReachable(p: Program, x: Node, b: Node)
    requires Reachable(p, b) && Dominates(p, x, b)
    ensures Reachable(p, x)
  {
    var path :| PathTo(p, path, b);
    var i := FirstOccurrence(path, x);
    PathPrefix(p, path, b, i + 1);
  }

  lemma RootHasNoStrictDominator(p: Program, d: Node)
    ensures !StrictlyDominates(p, d, p.root)
  {
    assert PathTo(p, [p.root], p.root);
  }

  lemma ReachableIsBlock(p: Program, b: Node)
    requires ValidGraph(p) && Reachable(p, b)
    ensures b < |p.blocks|
  {
    var path :| PathTo(p, path, b);
    if |path| > 1 {
      assert (path[|path| - 2], path[|path| - 2 + 1]) in p.edges;
    }
  }

  ghost function Dominators(p: Program, b: Node): set<Node> {
    set d | 0 <= d < |p.blocks| && Dominates(p, d, b)
  }

  lemma DominatorsShrink(p: Program, d: Node, b: Node)
    requires ValidGraph(p) && Reachable(p, b) && StrictlyDominates(p, d, b)
    ensures Dominators(p, d) < Dominators(p, b)
  {
    forall x | x in Dominators(p, d)
      ensures x in Dominators(p, b)
    {
      DominatesTransitive(p, x, d, b);
    }
    ReachableIsBlock(p, b);
    DominatesReflexive(p, b);
    if b in Dominators(p, d) {
      DominatesAntisymmetric(p, d, b);
    }
  }

  // ---------------------------------------------------------------------------------------
  // Frontiers
  // ---------------------------------------------------------------------------------------

  lemma FrontierOfReachable(p: Program, x: Node, y: Node)
    requires InFrontier(p, x, y)
    ensures Reachable(p, x) && Reachable(p, y)
  {
    var pred :| (pred, y) in p.edges && Reachable(p, pred) && Dominates(p, x, pred);
    DominatorIsReachable(p, x, pred);
    var path :| PathTo(p, path, pred);
    PathExtend(p, path, pred, y);
  }

  /** Only joins lie on frontiers, which is why the analysis may skip every other block. */
  lemma FrontiersAreJoins(p: Program, x: Node, y: Node)
    requires ValidGraph(p) && InFrontier(p, x, y)
    ensures |Predecessors(p, y)| >= 2
  {
    var pred :| (pred, y) in p.edges && Reachable(p, pred) && Dominates(p, x, pred);
    assert pred in Predecessors(p, y);
    if |Predecessors(p, y)| < 2 {
      assert forall q :: q in Predecessors(p, y) ==> q == pred by {
        forall q | q in Predecessors(p, y) && q != pred
          ensures false
        {
          assert {q, pred} <= Predecessors(p, y);
          SubsetSize({q, pred}, Predecessors(p, y));
        }
      }
      forall path | PathTo(p, path, y)
        ensures x in path && x != y
      {
        var i := FirstOccurrence(path, y);
        assert i > 0 && (path[i - 1], path[i - 1 + 1]) in p.edges;
        assert path[i - 1] in Predecessors(p, y);
        PathPrefix(p, path, y, i);
      }
      var path :| PathTo(p, path, pred);
      PathExtend(p, path, pred, y);
    }
  }

  lemma SubsetSize(a: set<Node>, b: set<Node>)
    requires a <= b
    ensures |a| <= |b|
  {
    assert b == a + (b - a);
  }

  /** The blocks `y` is on the frontier of on account of its predecessor `pred`. */
  ghost predicate FrontierVia(p: Program, x: Node, pred: Node, y: Node) {
    Dominates(p, x, pred) && !StrictlyDominates(p, x, y)
  }

  ghost predicate FrontiersSoFar(p: Program, frontiers: map<Node, set<Node>>, done: set<Edge>) {
    && frontiers.Keys == NodeIds(p)
    && (forall x, y :: x in frontiers && y in frontiers[x] ==> exists pred ::
       (pred, y) in done && FrontierVia(p, x, pred, y))
    && (forall x, pred, y :: x in frontiers && (pred, y) in done && FrontierVia(p, x, pred, y) ==> y in frontiers[x])
  }

  /** Everything still missing on the walk from `pred` towards the immediate dominator of `y` lies above `runner`. */
  ghost predicate WalkInvariant(p: Program, before: map<Node, set<Node>>, now: map<Node, set<Node>>, pred: Node,
                                y: Node, runner: Node) {
    && now.Keys == before.Keys
    && (forall x :: x in now ==> before[x] <= now[x] <= before[x] + {y})
    && (forall x :: x in now && y in now[x] ==> y in before[x] || FrontierVia(p, x, pred, y))
    && (forall x :: x in now && Dominates(p, x, pred) ==> y in now[x] || Dominates(p, x, runner))
  }

  /** One step of the walk: `runner` belongs to the walk, and its immediate dominator is closer to that of `y`. */
  lemma WalkStep(p: Program, idom: map<Node, Node>, pred: Node, y: Node, runner: Node)
    requires ValidGraph(p) && IsDominatorTree(p, idom)
    requires (pred, y) in p.edges && Reachable(p, pred) && y in idom
    requires Reachable(p, runner) && Dominates(p, runner, pred) && Dominates(p, idom[y], runner) && runner != idom[y]
    ensures FrontierVia(p, runner, pred, y)
    ensures runner in idom && Dominates(p, idom[y], idom[runner]) && Dominates(p, idom[runner], pred)
    ensures Dominators(p, idom[runner]) < Dominators(p, runner)
    ensures forall x :: Dominates(p, x, runner) ==> x == runner || Dominates(p, x, idom[runner])
  {
    if StrictlyDominates(p, runner, y) {
      DominatesAntisymmetric(p, runner, idom[y]);
    }
    assert StrictlyDominates(p, idom[y], runner);
    if runner == p.root {
      RootHasNoStrictDominator(p, idom[y]);
    }
    DominatesTransitive(p, idom[runner], runner, pred);
    DominatorsShrink(p, idom[runner], runner);
  }

  lemma WalkAdvance(p: Program, before: map<Node, set<Node>>, now: map<Node, set<Node>>, pred: Node, y: Node,
                    runner: Node, next: Node)
    requires WalkInvariant(p, before, now, pred, y, runner)
    requires runner in now && FrontierVia(p, runner, pred, y)
    requires forall x :: Dominates(p, x, runner) ==> x == runner || Dominates(p, x, next)
    ensures WalkInvariant(p, before, now[runner := now[runner] + {y}], pred, y, next)
  {
  }

  /** What dominates the immediate dominator of a block strictly dominates the block. */
  lemma NotBeyondImmediate(p: Program, idom: map<Node, Node>, x: Node, y: Node)
    requires IsDominatorTree(p, idom) && y in idom
    ensures Dominates(p, x, idom[y]) ==> StrictlyDominates(p, x, y)
  {
    if Dominates(p, x, idom[y]) {
      DominatesTransitive(p, x, idom[y], y);
      if x == y {
        DominatesAntisymmetric(p, idom[y], y);
      }
    }
  }

  lemma WalkEnd(p: Program, idom: map<Node, Node>, before: map<Node, set<Node>>, now: map<Node, set<Node>>,
                done: set<Edge>, pred: Node, y: Node)
    requires ValidGraph(p) && IsDominatorTree(p, idom) && y in idom
    requires FrontiersSoFar(p, before, done)
    requires WalkInvariant(p, before, now, pred, y, idom[y])
    ensures FrontiersSoFar(p, now, done + {(pred, y)})
  {
    forall x, q, z | x in now && (q, z) in done + {(pred, y)} && FrontierVia(p, x, q, z)
      ensures z in now[x]
    {
      if (q, z) !in done && y !in now[x] {
        NotBeyondImmediate(p, idom, x, y);
      }
    }
    forall x, z | x in now && z in now[x]
      ensures exists q :: (q, z) in done + {(pred, y)} && FrontierVia(p, x, q, z)
    {
      if z in before[x] {
        var q :| (q, z) in done && FrontierVia(p, x, q, z);
        assert (q, z) in done + {(pred, y)};
      } else {
        assert (pred, z) in done + {(pred, y)};
      }
    }
  }

  /** The walk from one predecessor; `None` is the panic on a missing immediate dominator. */
  method WalkUp(p: Program, idom: map<Node, Node>, frontiers: map<Node, set<Node>>, ghost done: set<Edge>, pred: Node,
                node: Node)
    returns (r: Option<map<Node, set<Node>>>)
    requires ValidGraph(p) && IsDominatorTree(p, idom) && FrontiersSoFar(p, frontiers, done)
    requires (pred, node) in p.edges
    ensures r.Some? <==> Reachable(p, node) && Reachable(p, pred)
    ensures r.Some? ==> FrontiersSoFar(p, r.value, done + {(pred, node)})
  {
    if node !in idom {
      return None;
    }
    var now := frontiers;
    var runner := pred;
    DominatesPredecessors(p, idom[node], node, pred);
    DominatesReflexive(p, pred);
    while runner != idom[node]
      invariant if Reachable(p, pred) then Reachable(p, runner) else runner == pred
      invariant Dominates(p, runner, pred) && Dominates(p, idom[node], runner)
      invariant WalkInvariant(p, frontiers, now, pred, node, runner)
      decreases Dominators(p, runner)
    {
      if Reachable(p, pred) {
        WalkStep(p, idom, pred, node, runner);
        ReachableIsBlock(p, runner);
        WalkAdvance(p, frontiers, now, pred, node, runner, idom[runner]);
      }
      if runner !in idom {
        return None;
      }
      now := now[runner := now[runner] + {node}];
      runner := idom[runner];
    }
    WalkEnd(p, idom, frontiers, now, done, pred, node);
    r := Some(now);
  }

  /** The walks from all predecessors of a join, in any order. */
  method WalkFromPredecessors(p: Program, idom: map<Node, Node>, frontiers: map<Node, set<Node>>,
                              ghost start: set<Edge>, node: Node)
    returns (r: Option<map<Node, set<Node>>>)
    requires ValidGraph(p) && IsDominatorTree(p, idom) && FrontiersSoFar(p, frontiers, start)
    ensures r.Some? <==> forall pred :: pred in Predecessors(p, node) ==> Reachable(p, node) && Reachable(p, pred)
    ensures r.Some? ==> FrontiersSoFar(p, r.value, start + EdgesInto(p, node))
  {
    var now := frontiers;
    var todo := Predecessors(p, node);
    assert start == start + (EdgesInto(p, node) - EdgesFrom(todo, node)) by {
      assert EdgesInto(p, node) == EdgesFrom(todo, node);
    }
    while todo != {}
      invariant todo <= Predecessors(p, node)
      invariant FrontiersSoFar(p, now, start + (EdgesInto(p, node) - EdgesFrom(todo, node)))
      invariant forall pred :: pred in Predecessors(p, node) - todo ==> Reachable(p, node) && Reachable(p, pred)
      decreases todo
    {
      var pred :| pred in todo;
      ghost var done := start + (EdgesInto(p, node) - EdgesFrom(todo, node));
      var walked := WalkUp(p, idom, now, done, pred, node);
      if walked.None? {
        return None;
      }
      now := walked.value;
      todo := todo - {pred};
      SplitOffEdge(p, start, done, todo, pred, node);
    }
    assert EdgesInto(p, node) - EdgesFrom(todo, node) == EdgesInto(p, node);
    assert Predecessors(p, node) - todo == Predecessors(p, node);
    r := Some(now);
  }

  ghost function EdgesInto(p: Program, node: Node): set<Edge> {
    set e | e in p.edges && e.1 == node
  }

  ghost function EdgesFrom(sources: set<Node>, node: Node): set<Edge> {
    set q | q in sources :: (q, node)
  }

  lemma SplitOffEdge(p: Program, start: set<Edge>, done: set<Edge>, todo: set<Node>, pred: Node, node: Node)
    requires (pred, node) in p.edges && pred !in todo
    requires done == start + (EdgesInto(p, node) - EdgesFrom(todo + {pred}, node))
    ensures done + {(pred, node)} == start + (EdgesInto(p, node) - EdgesFrom(todo, node))
  {
  }

  /** The edges into joins among the first `n` blocks. */
  ghost function JoinEdges(p: Program, n: nat): set<Edge> {
    set e | e in p.edges && e.1 < n && |Predecessors(p, e.1)| >= 2
  }

  lemma FrontiersComplete(p: Program, frontiers: map<Node, set<Node>>)
    requires ValidGraph(p) && FrontiersSoFar(p, frontiers, JoinEdges(p, |p.blocks|)) && !HasDeadJoin(p)
    ensures forall x: Node, y: Node :: x in frontiers ==> (y in frontiers[x] <==> InFrontier(p, x, y))
  {
    forall x: Node, y: Node | x in frontiers
      ensures y in frontiers[x] <==> InFrontier(p, x, y)
    {
      if y in frontiers[x] {
        var pred :| (pred, y) in JoinEdges(p, |p.blocks|) && FrontierVia(p, x, pred, y);
        assert !IsDeadJoin(p, y, pred);
      }
      if InFrontier(p, x, y) {
        var pred :| (pred, y) in p.edges && Reachable(p, pred) && Dominates(p, x, pred);
        FrontiersAreJoins(p, x, y);
        assert (pred, y) in JoinEdges(p, |p.blocks|);
        assert FrontierVia(p, x, pred, y);
      }
    }
  }

  /**
   The analysis, over predecessors in any order. It panics exactly on programs with a dead join,
   and otherwise returns every block's frontier.
   */
  method ComputeDomFrontiers(p: Program, idom: map<Node, Node>) returns (r: Option<map<Node, set<Node>>>)
    requires ValidGraph(p) && IsDominatorTree(p, idom)
    ensures r.None? <==> HasDeadJoin(p)
    ensures r.Some? ==> r.value.Keys == NodeIds(p)
    ensures r.Some? ==> forall x: Node, y: Node :: x in r.value ==> (y in r.value[x] <==> InFrontier(p, x, y))
  {
    var frontiers: map<Node, set<Node>> := map x: Node | x in NodeIds(p) :: {};
    var node: Node := 0;
    assert JoinEdges(p, 0) == {};
    while node < |p.blocks|
      invariant node <= |p.blocks|
      invariant FrontiersSoFar(p, frontiers, JoinEdges(p, node))
      invariant forall e :: e in JoinEdges(p, node) ==> Reachable(p, e.0) && Reachable(p, e.1)
    {
      ghost var start := JoinEdges(p, node);
      if |Predecessors(p, node)| >= 2 {
        var walked := WalkFromPredecessors(p, idom, frontiers, start, node);
        if walked.None? {
          ghost var pred :| pred in Predecessors(p, node) && !(Reachable(p, node) && Reachable(p, pred));
          assert IsDeadJoin(p, node, pred);
          return None;
        }
        frontiers := walked.value;
        assert JoinEdges(p, node + 1) == start + EdgesInto(p, node);
        assert forall e :: e in EdgesInto(p, node) ==> e.0 in Predecessors(p, node);
      } else {
        assert JoinEdges(p, node + 1) == start;
      }
      node := node + 1;
    }
    forall b: Node, pred: Node | b < |p.blocks| && pred in Predecessors(p, b)
      ensures !IsDeadJoin(p, b, pred)
    {
      assert |Predecessors(p, b)| >= 2 ==> (pred, b) in JoinEdges(p, |p.blocks|);
    }
    FrontiersComplete(p, frontiers);
    r := Some(frontiers);
  }
}
