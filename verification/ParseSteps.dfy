/** The single changes the parser makes to the graph, as methods on the optimizer. */
module ParseSteps {
  import opened Options
  import opened Ir
  import opened Liveness
  import opened Version
  import opened OptimizerState
  import opened Layout
  import opened LayoutFacts
  import opened ParseState

  ghost predicate Untouched(c: Context, d: Context, x: Node) {
    && x < |c.p.blocks| && x < |d.p.blocks| && SameCode(c.p.blocks[x], d.p.blocks[x])
    && Successors(d.p, x) == Successors(c.p, x) && LimitOf(d, x) == LimitOf(c, x)
  }

  /** The graph has grown, and the blocks in `keep` are as they were. */
  ghost predicate Evolves(c: Context, d: Context, keep: set<Node>) {
    Grown(c, d) && forall x: Node {:trigger Untouched(c, d, x)} :: x in keep ==> Untouched(c, d, x)
  }

  lemma EvolvesTrans(c: Context, d: Context, e: Context, keep: set<Node>)
    requires Evolves(c, d, keep) && Evolves(d, e, keep)
    ensures Evolves(c, e, keep)
  {
    GrownTrans(c, d, e);
    forall x: Node | x in keep
      ensures Untouched(c, e, x)
    {
      assert Untouched(c, d, x) && Untouched(d, e, x);
    }
  }

  lemma EvolvesLess(c: Context, d: Context, keep: set<Node>, less: set<Node>)
    requires Evolves(c, d, keep) && less <= keep
    ensures Evolves(c, d, less)
  {
    forall x: Node | x in less
      ensures Untouched(c, d, x)
    {
      assert x in keep;
    }
  }

  /** The context describes the optimizer's graph. */
  ghost predicate Describes(opt: Optimizer, c: Context)
    reads opt
  {
    SoundState(c) && c.p == opt.program && opt.ret == c.rets[|c.rets| - 1]
  }

  /** An open block that nothing leaves yet. */
  ghost predicate Blank(p: Program, b: Node) {
    b < |p.blocks| && p.blocks[b].flow == Fallthrough && Successors(p, b) == {}
  }

  lemma KeepBlocks(c: Context, d: Context, keep: set<Node>)
    requires Grown(c, d) && keep <= NodeIds(c.p) && d.p.edges == c.p.edges
    requires forall x: Node :: x in keep && x < |c.p.blocks| ==> SameCode(c.p.blocks[x], d.p.blocks[x])
    ensures Evolves(c, d, keep)
  {
    forall x: Node | x in keep
      ensures Untouched(c, d, x)
    {
      assert Successors(d.p, x) == Successors(c.p, x);
    }
  }

  lemma NodeEvolves(c: Context, keep: set<Node>, limit: Option<nat>)
    requires SoundState(c) && keep <= NodeIds(c.p)
    ensures var n, d := |c.p.blocks|, NodeAdded(c, limit);
            SoundState(d) && Evolves(c, d, keep) && Blank(d.p, n) && NoPhis(d.p, n) && LimitOf(d, n) == limit
    ensures forall x: Node :: Successors(NodeAdded(c, limit).p, x) == Successors(c.p, x)
  {
    SoundStateGrows(c);
    var n, d := |c.p.blocks|, NodeAdded(c, limit);
    GrowNode(c, limit);
    assert WithinLimit(c, n);
    KeepBlocks(c, d, keep);
    assert Successors(d.p, n) == {};
    SoundStateGrows(d);
  }

  method AddNode(opt: Optimizer, ghost c: Context, ghost keep: set<Node>, ghost limit: Option<nat>)
    returns (n: Node, ghost d: Context)
    requires Describes(opt, c) && keep <= NodeIds(c.p)
    modifies opt`program
    ensures n == |c.p.blocks| && d == NodeAdded(c, limit)
    ensures Describes(opt, d) && Evolves(c, d, keep) && Blank(d.p, n) && NoPhis(d.p, n) && LimitOf(d, n) == limit
  {
    n := |opt.program.blocks|;
    opt.program := WithNode(opt.program);
    d := NodeAdded(c, limit);
    NodeEvolves(c, keep, limit);
  }

  /** An edge that may be added; edges are never added twice, so the graph has no parallel edges. */
  ghost predicate NewEdgeFits(c: Context, a: Node, b: Node) {
    && a in c.open && a != b && b != c.p.root && NoPhis(c.p, b) && (a, b) !in c.p.edges
    && (b in c.open || b in c.rets) && MayEnter(c, b) && Live(c, a)
  }

  lemma EdgeEvolves(c: Context, keep: set<Node>, a: Node, b: Node)
    requires SoundState(c) && keep <= NodeIds(c.p) && a !in keep && NewEdgeFits(c, a, b)
    ensures var d := c.(p := WithEdge(c.p, a, b));
            && SoundState(d) && Evolves(c, d, keep) && Live(d, b)
            && Successors(d.p, a) == Successors(c.p, a) + {b}
            && forall x :: x != a ==> Successors(d.p, x) == Successors(c.p, x)
  {
    SoundStateGrows(c);
    var d := c.(p := WithEdge(c.p, a, b));
    GrowEdge(c, a, b);
    EdgeChangesOneBlock(c.p, a, b);
    forall x: Node | x in keep
      ensures Untouched(c, d, x)
    {
    }
    SoundStateGrows(d);
  }

  method AddEdge(opt: Optimizer, ghost c: Context, ghost keep: set<Node>, a: Node, b: Node) returns (ghost d: Context)
    requires Describes(opt, c) && keep <= NodeIds(c.p) && a !in keep && NewEdgeFits(c, a, b)
    modifies opt`program
    ensures d == c.(p := WithEdge(c.p, a, b))
    ensures Describes(opt, d) && Evolves(c, d, keep) && Live(d, b)
    ensures Successors(d.p, a) == Successors(c.p, a) + {b}
    ensures forall x :: x != a ==> Successors(d.p, x) == Successors(c.p, x)
  {
    opt.program := WithEdge(opt.program, a, b);
    d := c.(p := opt.program);
    EdgeEvolves(c, keep, a, b);
  }

  ghost function EdgeFinished(c: Context, a: Node, b: Node): Context {
    c.(p := WithEdge(c.p, a, b), open := c.open - {a})
  }

  lemma NoEdgeYet(c: Context, a: Node, b: Node)
    requires Blank(c.p, a)
    ensures (a, b) !in c.p.edges
  {
    assert (a, b) in c.p.edges ==> b in Successors(c.p, a);
  }

  /** The open block `a` is ended with an edge to `b`. */
  lemma EdgeFinishes(c: Context, keep: set<Node>, a: Node, b: Node)
    requires SoundState(c) && keep <= NodeIds(c.p) && a !in keep && NewEdgeFits(c, a, b) && Blank(c.p, a)
    ensures var d := EdgeFinished(c, a, b);
            && SoundState(d) && Evolves(c, d, keep) && Live(d, b)
            && FallsTo(d, (a, |c.p.blocks[a].ops|), b)
            && forall x :: x != a ==> Successors(d.p, x) == Successors(c.p, x)
  {
    var e, d := c.(p := WithEdge(c.p, a, b)), EdgeFinished(c, a, b);
    EdgeEvolves(c, keep, a, b);
    SoundStateGrows(e);
    assert Successors(e.p, a) == {b};
    GrowClose(e, a);
    KeepBlocks(e, d, keep);
    EvolvesTrans(c, e, d, keep);
    SoundStateGrows(d);
  }

  /** Ends the open block `a` with an edge to `b`. */
  method FinishWithEdge(opt: Optimizer, ghost c: Context, ghost keep: set<Node>, a: Node, b: Node)
    returns (ghost d: Context)
    requires Describes(opt, c) && keep <= NodeIds(c.p) && a !in keep && NewEdgeFits(c, a, b) && Blank(c.p, a)
    modifies opt`program
    ensures d == EdgeFinished(c, a, b)
    ensures Describes(opt, d) && Evolves(c, d, keep) && Live(d, b)
    ensures FallsTo(d, (a, |c.p.blocks[a].ops|), b)
    ensures forall x :: x != a ==> Successors(d.p, x) == Successors(c.p, x)
  {
    EdgeFinishes(c, keep, a, b);
    opt.program := WithEdge(opt.program, a, b);
    d := EdgeFinished(c, a, b);
  }

  method PushOp(opt: Optimizer, ghost c: Context, ghost keep: set<Node>, b: Node, inst: Instruction)
    returns (ghost d: Context)
    requires Describes(opt, c) && keep <= NodeIds(c.p) && b in c.open && b !in keep && PlainInstruction(inst)
    modifies opt`program
    ensures d == c.(p := WithOp(c.p, b, inst))
    ensures Describes(opt, d) && Evolves(c, d, keep)
    ensures forall x :: Successors(d.p, x) == Successors(c.p, x)
  {
    SoundStateGrows(c);
    opt.program := WithOp(opt.program, b, inst);
    d := c.(p := opt.program);
    GrowOp(c, b, inst);
    KeepBlocks(c, d, keep);
    SoundStateGrows(d);
  }

  /** Ends the open block `b` with a terminator that matches its edges. */
  method FinishWithFlow(opt: Optimizer, ghost c: Context, ghost keep: set<Node>, b: Node, flow: ControlFlow)
    returns (ghost d: Context)
    requires Describes(opt, c) && keep <= NodeIds(c.p) && b in c.open && b !in keep
    requires TerminatorRead(flow).Some? ==> PlainOperand(TerminatorRead(flow).value)
    requires !flow.Fallthrough? && Successors(c.p, b) == Targets(flow) && FlowAllowed(c, flow)
    modifies opt`program
    ensures d == c.(p := WithFlow(c.p, b, flow), open := c.open - {b})
    ensures Describes(opt, d) && Evolves(c, d, keep)
    ensures EndsWith(d, (b, |c.p.blocks[b].ops|), flow)
    ensures forall x :: Successors(d.p, x) == Successors(c.p, x)
  {
    SoundStateGrows(c);
    opt.program := WithFlow(opt.program, b, flow);
    ghost var e := c.(p := opt.program);
    GrowFlow(c, b, flow);
    assert forall x :: Successors(e.p, x) == Successors(c.p, x);
    GrowClose(e, b);
    d := e.(open := e.open - {b});
    GrownTrans(c, e, d);
    KeepBlocks(c, d, keep);
    SoundStateGrows(d);
  }

  method MarkUse(opt: Optimizer, ghost c: Context, ghost keep: set<Node>, b: Node, use: BlockUse)
    returns (ghost d: Context)
    requires Describes(opt, c) && keep <= NodeIds(c.p) && b < |c.p.blocks|
    modifies opt`program
    ensures d == c.(p := WithUse(c.p, b, use))
    ensures Describes(opt, d) && Evolves(c, d, keep)
    ensures forall x: Node :: x < |c.p.blocks| ==> Untouched(c, d, x)
  {
    SoundStateGrows(c);
    opt.program := WithUse(opt.program, b, use);
    d := c.(p := opt.program);
    GrowUse(c, b, use);
    KeepBlocks(c, d, keep);
    assert forall x :: Successors(d.p, x) == Successors(c.p, x);
    SoundStateGrows(d);
  }

  method DeclareVars(opt: Optimizer, ghost c: Context, ghost keep: set<Node>, ids: set<Id>) returns (ghost d: Context)
    requires Describes(opt, c) && keep <= NodeIds(c.p) && ids <= c.declared
    modifies opt`program
    ensures d == c.(p := WithVars(c.p, ids))
    ensures Describes(opt, d) && Evolves(c, d, keep)
    ensures forall x :: Successors(d.p, x) == Successors(c.p, x)
  {
    SoundStateGrows(c);
    opt.program := WithVars(opt.program, ids);
    d := c.(p := opt.program);
    GrowVars(c, ids);
    KeepBlocks(c, d, keep);
    SoundStateGrows(d);
  }

  /** A phi for the tracked variable `id` at the open block `b`. */
  method PlacePhi(opt: Optimizer, ghost c: Context, ghost keep: set<Node>, b: Node, id: Id)
    returns (ghost d: Context, ghost phi: PhiInstruction)
    requires Describes(opt, c) && keep <= NodeIds(c.p) && b in c.open && b !in keep && b != c.p.root
    requires id in c.p.variables && Due(c, b, id)
    modifies opt`program
    ensures IsFreshPhi(c.p, b, id, phi) && d == c.(p := AddPhi(c.p, b, phi))
    ensures Describes(opt, d) && Evolves(c, d, keep)
    ensures forall x :: Successors(d.p, x) == Successors(c.p, x)
  {
    SoundStateGrows(c);
    InsertPhi(opt, b, id);
    phi :| IsFreshPhi(c.p, b, id, phi) && opt.program == AddPhi(c.p, b, phi);
    d := c.(p := opt.program);
    ReturnsAreFinished(c, b);
    GrowPhi(c, b, id, phi);
    KeepBlocks(c, d, keep);
    SoundStateGrows(d);
  }

  /** The block returns branch to; once it is a merge block a new one is put in front of it. */
  method Ret(opt: Optimizer) returns (r: Node)
    requires opt.ret < |opt.program.blocks|
    modifies opt`program, opt`ret
    ensures r == opt.ret
    ensures var p, ret := old(opt.program), old(opt.ret);
            if Merge in p.blocks[ret].blockUse then r == |p.blocks| && opt.program == WithEdge(WithNode(p), r, ret)
            else r == ret && opt.program == p
  {
    if Merge in opt.program.blocks[opt.ret].blockUse {
      r := |opt.program.blocks|;
      opt.program := WithNode(opt.program);
      opt.program := WithEdge(opt.program, r, opt.ret);
      opt.ret := r;
    } else {
      r := opt.ret;
    }
  }

  /** The block `n`, which leads to the last return block, becomes the new one. */
  lemma ReturnEvolves(c0: Context, c: Context, keep: set<Node>, n: Node)
    requires SoundState(c) && keep <= NodeIds(c.p) && KeepsRegions(c0, c.(rets := c.rets + [n])) && SoundState(c0)
    requires FallsTo(c, (n, 0), c.rets[|c.rets| - 1]) && NoPhis(c.p, n) && n != c.p.root && Free(c, n)
    requires forall b: Node :: b < |c0.p.blocks| ==> c.p.blocks[b].phis == c0.p.blocks[b].phis
    requires forall b: Node :: |c0.p.blocks| <= b < |c.p.blocks| ==> c.p.blocks[b].phis == []
    ensures var d := c.(rets := c.rets + [n]); SoundState(d) && Evolves(c, d, keep)
  {
    var d := c.(rets := c.rets + [n]);
    SoundStateGrows(c0);
    SoundStateGrows(c);
    GrownReturn(c, d, n);
    AllDueStay(c0, d);
    GrowReturn(c, n);
    SoundStateGrows(d);
    KeepBlocks(c, d, keep);
  }

  /** Ends the block `a` with a branch to a new block, which leads to the last return block. */
  ghost function ReturnBranched(c: Context, a: Node): Context
    requires c.rets != []
  {
    EdgeFinished(EdgeFinished(NodeAdded(c, None), a, |c.p.blocks|), |c.p.blocks|, c.rets[|c.rets| - 1])
  }

  lemma EntersNewBlock(c: Context, keep: set<Node>, a: Node)
    requires SoundState(c) && keep <= NodeIds(c.p) && a in c.open && a !in keep && Blank(c.p, a) && Live(c, a)
    ensures var n, d := |c.p.blocks|, EdgeFinished(NodeAdded(c, None), a, |c.p.blocks|);
            && SoundState(d) && Evolves(c, d, keep) && Live(d, n) && FallsTo(d, (a, |c.p.blocks[a].ops|), n)
            && Blank(d.p, n) && n != d.p.root
  {
    var n, c1 := |c.p.blocks|, NodeAdded(c, None);
    NodeEvolves(c, keep + {a}, None);
    LiveGrows(c, c1, a);
    assert Untouched(c, c1, a);
    NoEdgeYet(c1, a, n);
    EdgeFinishes(c1, keep, a, n);
    EvolvesLess(c, c1, keep + {a}, keep);
    EvolvesTrans(c, c1, EdgeFinished(c1, a, n), keep);
  }

  lemma ReturnBranches(c: Context, keep: set<Node>, a: Node)
    requires SoundState(c) && keep <= NodeIds(c.p) && a in c.open && a !in keep && Blank(c.p, a) && Live(c, a)
    ensures var n, d := |c.p.blocks|, ReturnBranched(c, a);
            && SoundState(d) && Evolves(c, d, keep)
            && FallsTo(d, (a, |c.p.blocks[a].ops|), n) && FallsTo(d, (n, 0), c.rets[|c.rets| - 1])
  {
    var n, last, c1 := |c.p.blocks|, c.rets[|c.rets| - 1], EdgeFinished(NodeAdded(c, None), a, |c.p.blocks|);
    EntersNewBlock(c, keep, a);
    SoundStateGrows(c);
    assert ReturnLink(c, |c.rets| - 1);
    ReturnsAreFinished(c, a);
    NoEdgeYet(c1, n, last);
    EdgeFinishes(c1, keep, n, last);
    EvolvesTrans(c, c1, ReturnBranched(c, a), keep);
    FallsToGrows(c1, ReturnBranched(c, a), (a, |c.p.blocks[a].ops|), n);
  }

  lemma BranchKeepsRegions(c: Context, a: Node)
    requires SoundState(c) && a in c.open && Grown(c, ReturnBranched(c, a))
    ensures var d := ReturnBranched(c, a); KeepsRegions(c, d.(rets := d.rets + [|c.p.blocks|]))
  {
    var d := ReturnBranched(c, a);
    GrownReturn(d, d.(rets := d.rets + [|c.p.blocks|]), |c.p.blocks|);
    GrownTrans(c, d, d.(rets := d.rets + [|c.p.blocks|]));
  }

  /** Ends the block `a` with a branch to a new return block. */
  lemma ReturnChains(c: Context, keep: set<Node>, a: Node)
    requires SoundState(c) && keep <= NodeIds(c.p) && a in c.open && a !in keep && Blank(c.p, a) && Live(c, a)
    ensures var n, d := |c.p.blocks|, ReturnBranched(c, a).(rets := c.rets + [|c.p.blocks|]);
            && SoundState(d) && Evolves(c, d, keep) && d.open == c.open - {a}
            && FallsTo(d, (a, |c.p.blocks[a].ops|), n) && n in d.rets
  {
    var n, d := |c.p.blocks|, ReturnBranched(c, a);
    ReturnBranches(c, keep, a);
    BranchKeepsRegions(c, a);
    SoundStateGrows(c);
    assert WithinLimit(c, n);
    ReturnEvolves(c, d, keep, n);
    EvolvesTrans(c, d, d.(rets := d.rets + [n]), keep);
    assert d.open == c.open - {a};
    assert (c.rets + [n])[|c.rets|] == n;
  }

  lemma ReturnsAreFinished(c: Context, b: Node)
    requires ReturnChain(c) && b in c.open
    ensures b !in c.rets
  {
    forall i: nat | i < |c.rets|
      ensures c.rets[i] != b
    {
      assert ReturnLink(c, i);
    }
  }

  lemma GrownReturn(c: Context, d: Context, n: Node)
    requires d == c.(rets := c.rets + [n])
    ensures Grown(c, d)
  {
    forall b: Node
      ensures GrownAt(c, d, b)
    {
    }
  }

  lemma GrownReflexive(c: Context)
    ensures Grown(c, c)
  {
    forall b: Node
      ensures GrownAt(c, c, b)
    {
    }
  }
}
