/** The whole SSA transform: analyses, phi placement, renaming, and the runs it preserves. */
module SsaTransform {
  import opened Options
  import opened Ir
  import opened Dominance
  import DomFrontiers
  import opened Liveness
  import opened PhiFrontiers
  import opened Naming
  import opened OptimizerState
  import opened Version
  import opened Renaming
  import opened SsaForm
  import opened SsaCorrect

  /** What the transform is given by the earlier phases. */
  ghost predicate TransformInput(p: Program) {
    WellFormed(p) && PlainNames(p) && TrivialPhis(p) && PhisComplete(p) && p.blocks[p.root].phis == []
  }

  // ---------------------------------------------------------------------------------------
  // Phi placement changes no run
  // ---------------------------------------------------------------------------------------

  lemma PlacedBlock(p: Program, q: Program, placed: map<Id, set<Node>>, b: Node)
    requires Placed(p, q, placed) && b < |p.blocks|
    ensures q.blocks[b].ops == p.blocks[b].ops && q.blocks[b].flow == p.blocks[b].flow
    ensures p.blocks[b].phis <= q.blocks[b].phis
  {
  }

  lemma PlacedPhi(p: Program, q: Program, placed: map<Id, set<Node>>, b: Node, i: nat)
    requires Placed(p, q, placed) && b < |p.blocks| && |p.blocks[b].phis| <= i < |q.blocks[b].phis|
    requires placed.Keys == p.variables
    ensures var phi := q.blocks[b].phis[i];
            phi.out.Versioned? && IsFreshPhi(p, b, phi.out.id, phi) && phi.out.id in p.variables &&
              b in placed[phi.out.id]
  {
    assert q.blocks[b].phis[|p.blocks[b].phis|..][i - |p.blocks[b].phis|] == q.blocks[b].phis[i];
  }

  lemma PlacedPhisAreTrivial(p: Program, q: Program, placed: map<Id, set<Node>>)
    requires Placed(p, q, placed) && placed.Keys == p.variables && TrivialPhis(p)
    ensures TrivialPhis(q)
  {
    forall b, i | 0 <= b < |q.blocks| && 0 <= i < |q.blocks[b].phis|
      ensures TrivialPhi(q.variables, q.blocks[b].phis[i])
    {
      if i < |p.blocks[b].phis| {
        assert q.blocks[b].phis[i] == p.blocks[b].phis[i];
      } else {
        PlacedPhi(p, q, placed, b, i);
      }
    }
  }

  lemma PlacedPhisAreComplete(p: Program, q: Program, placed: map<Id, set<Node>>)
    requires Placed(p, q, placed) && placed.Keys == p.variables && PhisComplete(p)
    ensures PhisComplete(q)
  {
    forall b, s, i | 0 <= b < |q.blocks| && s in Predecessors(q, b) && 0 <= i < |q.blocks[b].phis|
      ensures PhiValue(q.blocks[b].phis[i].entries, s).Some?
    {
      assert Predecessors(q, b) == Predecessors(p, b);
      if i < |p.blocks[b].phis| {
        assert q.blocks[b].phis[i] == p.blocks[b].phis[i];
      } else {
        PlacedPhi(p, q, placed, b, i);
        PhiValueIsEntry(q.blocks[b].phis[i].entries, s);
      }
    }
  }

  lemma PlacementKeepsSteps(p: Program, q: Program, placed: map<Id, set<Node>>, o: Oracle, c: Config)
    requires Placed(p, q, placed) && TrivialPhis(p) && TrivialPhis(q)
    ensures Step(p, o, c) == Step(q, o, c)
  {
    if c.At? && c.node < |p.blocks| {
      PlacedBlock(p, q, placed, c.node);
      assert Successors(p, c.node) == Successors(q, c.node);
      assert NextNode(p, c.node, c.st) == NextNode(q, c.node, c.st);
      if c.pc >= |p.blocks[c.node].ops| && NextNode(p, c.node, c.st).Goto? {
        var t := NextNode(p, c.node, c.st).target;
        if t < |p.blocks| {
          TrivialPhisAreNoOps(p.variables, p.blocks[t].phis, c.node, c.st.store);
          TrivialPhisAreNoOps(p.variables, q.blocks[t].phis, c.node, c.st.store);
        }
      }
    }
  }

  lemma {:induction false} PlacementKeepsRuns(p: Program, q: Program, placed: map<Id, set<Node>>, o: Oracle, c: Config,
                                              n: nat)
    requires Placed(p, q, placed) && TrivialPhis(p) && TrivialPhis(q)
    ensures Run(p, o, c, n) == Run(q, o, c, n)
  {
    if n > 0 {
      PlacementKeepsRuns(p, q, placed, o, c, n - 1);
      PlacementKeepsSteps(p, q, placed, o, Run(p, o, c, n - 1));
    }
  }

  // ---------------------------------------------------------------------------------------
  // The analyses support the renaming
  // ---------------------------------------------------------------------------------------

  /** Placement adds no edges, so paths and dominance stay as they were. */
  lemma SameGraph(p: Program, q: Program)
    requires p.edges == q.edges && p.root == q.root && |p.blocks| == |q.blocks|
    ensures forall path: seq<Node>, b: Node :: PathTo(p, path, b) <==> PathTo(q, path, b)
    ensures forall b: Node :: Reachable(p, b) <==> Reachable(q, b)
    ensures forall x: Node, y: Node :: InFrontier(p, x, y) <==> InFrontier(q, x, y)
  {
    forall path: seq<Node>, b: Node
      ensures PathTo(p, path, b) <==> PathTo(q, path, b)
    {
      assert IsPath(p, path) <==> IsPath(q, path);
    }
    forall x: Node, y: Node
      ensures Dominates(p, x, y) <==> Dominates(q, x, y)
    {
    }
  }

  /** Writes and frontiers are the textbook ones. */
  ghost predicate GraphAnalyses(p: Program, a: Analyses) {
    && Fits(p, a)
    && (forall b: Node, v: Id :: b in a.writes ==> (v in a.writes[b] <==> Killed(p.blocks[b].ops, v)))
    && (forall x: Node, y: Node :: x in a.frontiers ==> (y in a.frontiers[x] <==> InFrontier(p, x, y)))
  }

  ghost predicate AnalysesExact(p: Program, a: Analyses) {
    GraphAnalyses(p, a) && Exact(p, a.live)
  }

  /** A block has a phi for `v` after placement exactly if it had one or was chosen. */
  lemma PhiSites(p: Program, q: Program, placed: map<Id, set<Node>>, b: Node, v: Id)
    requires Placed(p, q, placed) && placed.Keys == p.variables && b < |p.blocks| && v in p.variables
    ensures HasPhi(q.blocks[b], v) <==> HasPhi(p.blocks[b], v) || b in placed[v]
  {
    var n := |p.blocks[b].phis|;
    if HasPhi(q.blocks[b], v) {
      var i :| 0 <= i < |q.blocks[b].phis| && q.blocks[b].phis[i].out.Versioned? && q.blocks[b].phis[i].out.id == v;
      if i < n {
        assert q.blocks[b].phis[i] == p.blocks[b].phis[i];
      } else {
        PlacedPhi(p, q, placed, b, i);
      }
    }
    if HasPhi(p.blocks[b], v) {
      var i :| 0 <= i < |p.blocks[b].phis| && p.blocks[b].phis[i].out.Versioned? && p.blocks[b].phis[i].out.id == v;
      assert q.blocks[b].phis[i] == p.blocks[b].phis[i];
    }
    if b in placed[v] {
      var added := q.blocks[b].phis[n..];
      assert AddedPhis(p, b, added, placed);
      var i :| 0 <= i < |added| && added[i].out == Versioned(v, 0);
      assert q.blocks[b].phis[n + i] == added[i];
    }
  }

  lemma PlacementIsWellFormed(p: Program, q: Program, placed: map<Id, set<Node>>, a: Analyses)
    requires TransformInput(p) && GraphAnalyses(p, a) && Placed(p, q, placed) && placed.Keys == p.variables
    requires forall v: Id :: v in placed ==> LeastPhiClosed(a, v, placed[v])
    ensures WellFormed(q) && PlainNames(q) && q.blocks[q.root].phis == []
  {
    forall b: Node | b < |q.blocks|
      ensures FlowMatchesEdges(q, b) && PlainBlock(q.variables, q.blocks[b])
    {
      PlacedBlock(p, q, placed, b);
      assert FlowMatchesEdges(p, b) && PlainBlock(p.variables, p.blocks[b]);
      assert Successors(p, b) == Successors(q, b);
    }
    if q.blocks[q.root].phis != [] {
      PlacedPhi(p, q, placed, p.root, 0);
      NothingPlacedAtRoot(p, a, q.blocks[q.root].phis[0].out.id, placed[q.blocks[q.root].phis[0].out.id]);
    }
  }

  lemma NothingPlacedAtRoot(p: Program, a: Analyses, v: Id, s: set<Node>)
    requires ValidGraph(p) && GraphAnalyses(p, a) && LeastPhiClosed(a, v, s)
    ensures p.root !in s
  {
    assert PhiClosed(a, v, s - {p.root}) by {
      forall x: Node, y: Node | (Writes(a, v, x) || x in s - {p.root}) && LiveFrontier(a, v, x, y)
        ensures y in s - {p.root}
      {
        assert InFrontier(p, x, y);
      }
    }
  }

  // ---------------------------------------------------------------------------------------
  // The transform
  // ---------------------------------------------------------------------------------------

  method CollectWrites(p: Program) returns (writes: VarSets)
    ensures writes.Keys == NodeIds(p)
    ensures forall b: Node, v: Id :: b in writes ==> (v in writes[b] <==> Killed(p.blocks[b].ops, v))
  {
    writes := map[];
    var b: Node := 0;
    while b < |p.blocks|
      invariant b <= |p.blocks| && writes.Keys == NodesBelow(b)
      invariant forall c: Node, v: Id :: c in writes ==> (v in writes[c] <==> Killed(p.blocks[c].ops, v))
    {
      var _, kill := CalculateBlockSets(p.blocks[b].ops);
      writes := writes[b := kill];
      b := b + 1;
    }
  }

  /** Everything the transform leaves behind as evidence. */
  datatype Evidence = Evidence(placed: Program, sites: map<Id, set<Node>>, now: Program, marks: map<Node, Mark>,
                               max: Versions, a: Analyses)

  /** Phis were placed by the analyses in the evidence, and the result renamed. */
  ghost predicate PlacedAndRenamed(p: Program, q: Program, e: Evidence) {
    && GraphAnalyses(p, e.a)
    && Placed(p, e.placed, e.sites) && e.sites.Keys == p.variables
    && (forall v: Id :: v in e.sites ==> LeastPhiClosed(e.a, v, e.sites[v]))
    && IsSsaForm(e.placed, e.now, e.marks, e.max)
    && q == Untracked(e.now)
  }

  ghost predicate Transformed(p: Program, q: Program, e: Evidence) {
    !DomFrontiers.HasDeadJoin(p) && AnalysesExact(p, e.a) && PlacedAndRenamed(p, q, e)
  }

  /**
   Runs the transform. The dominator tree and the order of the reachable blocks come from the
   graph library. The transform panics exactly on programs with a dead join.
   */
  method Transform(opt: Optimizer, idom: map<Node, Node>, order: seq<Node>)
    returns (ok: bool, ghost e: Option<Evidence>)
    requires TransformInput(opt.program) && DomFrontiers.IsDominatorTree(opt.program, idom)
    requires forall b: Node :: b in order <==> b < |opt.program.blocks| && Reachable(opt.program, b)
    modifies opt`program
    ensures ok <==> !DomFrontiers.HasDeadJoin(old(opt.program))
    ensures ok ==> e.Some? && Transformed(old(opt.program), opt.program, e.value)
  {
    ghost var p := opt.program;
    var writes := CollectWrites(opt.program);
    var live := AnalyzeLiveness(opt.program, order);
    var frontiers := DomFrontiers.ComputeDomFrontiers(opt.program, idom);
    if frontiers.None? {
      return false, None;
    }
    var a := Analyses(writes, live, frontiers.value);
    forall x: Node, y: Node | x in frontiers.value && y in frontiers.value[x]
      ensures y in NodeIds(p)
    {
      DomFrontiers.FrontierOfReachable(p, x, y);
      DomFrontiers.ReachableIsBlock(p, y);
    }
    ghost var sites := PlacePhiNodes(opt, a);
    ghost var q := opt.program;
    PlacedPhisAreComplete(p, q, sites);
    PlacementIsWellFormed(p, q, sites, a);
    ghost var marks;
    var max;
    marks, max := VersionProgram(opt);
    ghost var now := opt.program;
    opt.program := Untracked(opt.program);
    ok, e := true, Some(Evidence(q, sites, now, marks, max, a));
  }
}
