/** The graph built for a kernel is well formed and runs exactly like the kernel. */
module LoweringCorrect {
  import opened Options
  import opened Ir
  import opened Structured
  import opened Version
  import opened SsaForm
  import opened OptimizerState
  import opened Layout
  import opened LayoutFacts
  import opened ParseState
  import opened ParseSteps
  import opened Lowering
  import opened LoopRegions
  import opened SplitEdges

  /** `p` holds the whole kernel: laid out from the root, with what follows it leading to a return. */
  ghost predicate IsLowering(p: Program, body: seq<Stmt>, base: nat, c: Context, l: ScopeLayout) {
    && c.p == p && c.open == {} && Growing(c) && ProperBody(base, body, false) && c.clean == !BodyRangeBreaks(body)
    && c.quiet == !BodyMutableBranch(body) && c.flows == BodyFlows(body)
    && LaidBody(c, None, body, l.items, (p.root, 0), l.exit) && TmpsFresh(base, l.items)
    && (l.exit.Some? ==> exists r :: r in c.rets && FallsTo(c, l.exit.value, r))
  }

  method ParseGraph(opt: Optimizer, scope: Scope, ghost base: nat) returns (ghost l: ScopeLayout, ghost c: Context)
    requires opt.program == Program([], {}, 0, {}) && opt.loopBreak == [] && base <= opt.nextLocal
    requires ProperBody(base, scope.body, false)
    modifies opt
    ensures IsLowering(opt.program, scope.body, base, c, l) && opt.program.variables == ScopeVars(scope)
  {
    ghost var c0 := BeginGraph(opt, ScopeTraits(scope));
    var isBreak, l1, c1 := ParseScope(opt, scope, base, c0, {});
    l := l1;
    c := EndGraph(opt, scope, l, c1);
    BodyIsDeclared(c, None, scope.body, l.items, (0, 0), l.exit);
  }

  /** The entry block and the return block. */
  method BeginGraph(opt: Optimizer, ghost traits: Traits) returns (ghost c: Context)
    requires opt.loopBreak == []
    modifies opt`program, opt`currentBlock, opt`ret
    ensures Ready(opt, c, {}) && Allowed(c, [], traits) && opt.currentBlock == Some(0)
    ensures c == Context(opt.program, {0}, [1], map[], !traits.rangeBreaks, !traits.mutableBranch, traits.flows,
            traits.vars)
    ensures opt.program.blocks == [EMPTY_BLOCK, EMPTY_BLOCK.(flow := Return)] && opt.program.root == 0
  {
    var entry := BasicBlock({}, [], [], Fallthrough);
    var ret := BasicBlock({}, [], [], Return);
    opt.program := Program([entry, ret], {}, 0, {});
    opt.currentBlock := Some(0);
    opt.ret := 1;
    c := Context(opt.program, {0}, [1], map[], !traits.rangeBreaks, !traits.mutableBranch, traits.flows, traits.vars);
    FirstBlocksGrow(c);
    SoundStateGrows(c);
    assert c.open == {} + AsSet(opt.currentBlock);
    assert Successors(c.p, 0) == {};
  }

  /** What is left of the kernel leads to the return block. */
  method EndGraph(opt: Optimizer, ghost scope: Scope, ghost l: ScopeLayout, ghost c: Context) returns (ghost d: Context)
    requires Describes(opt, c) && c.open == AsSet(opt.currentBlock) && l.exit == Here(c.p, opt.currentBlock)
    requires opt.currentBlock.Some? ==> Blank(c.p, opt.currentBlock.value) && Live(c, opt.currentBlock.value)
    requires LaidBody(c, None, scope.body, l.items, (c.p.root, 0), l.exit)
    modifies opt`program
    ensures d.p == opt.program && Growing(d) && d.open == {} && Grown(c, d) && d.p.variables == c.p.variables
    ensures LaidBody(d, None, scope.body, l.items, (d.p.root, 0), l.exit)
    ensures l.exit.Some? ==> exists r :: r in d.rets && FallsTo(d, l.exit.value, r)
  {
    if opt.currentBlock.Some? {
      SoundStateGrows(c);
      ReturnIsBlock(c);
      ReturnsAreFinished(c, opt.currentBlock.value);
      NoEdgeYet(c, opt.currentBlock.value, opt.ret);
      assert ReturnLink(c, |c.rets| - 1);
      d := FinishWithEdge(opt, c, {}, opt.currentBlock.value, opt.ret);
      LaidBodyGrows(c, d, None, scope.body, l.items, (c.p.root, 0), l.exit);
      assert d.rets[|d.rets| - 1] in d.rets && FallsTo(d, l.exit.value, d.rets[|d.rets| - 1]);
    } else {
      d := c;
      GrownReflexive(c);
    }
    assert d.open == {};
    SoundStateGrows(d);
  }

  lemma FirstBlocksGrow(c: Context)
    requires c.p.blocks == [EMPTY_BLOCK, EMPTY_BLOCK.(flow := Return)] && c.p.edges == {} && c.p.root == 0
    requires c.open == {0} && c.rets == [1] && c.limit == map[] && c.p.variables <= c.declared
    ensures Growing(c)
  {
    forall b: Node
      ensures MatchedAt(c, b) && SoundBlock(c.p, b) && PhisDue(c, b) && WithinLimit(c, b) && AllowedAt(c, b)
    {
      assert Successors(c.p, b) == {};
    }
    forall i: nat
      ensures ReturnLink(c, i)
    {
    }
  }

  /** What later phases may rely on. */
  lemma LoweredIsWellFormed(p: Program, body: seq<Stmt>, base: nat, c: Context, l: ScopeLayout)
    requires IsLowering(p, body, base, c, l)
    ensures WellFormed(p) && SoundCode(p) && EntriesInRange(p) && Runnable(c)
    ensures PhisAreIndices(p)
  {
    forall b: Node | b < |p.blocks|
      ensures FlowMatchesEdges(p, b) && PlainBlock(p.variables, p.blocks[b])
    {
      assert MatchedAt(c, b) && SoundBlock(p, b);
    }
    forall b, i | 0 <= b < |p.blocks| && 0 <= i < |p.blocks[b].phis|
      ensures SoundPhi(p, b, p.blocks[b].phis[i])
    {
      assert SoundBlock(p, b);
    }
    forall b: Node, v: Id | b < |p.blocks| && HasPhi(p.blocks[b], v)
      ensures IsLoopIndex(p, b, v)
    {
      assert PhisDue(c, b);
      var nodes: set<Node>, tail: Node, latch: Node :| Sealed(c, b, v, nodes, tail, latch);
      assert LoopRegion(p, b, v, nodes, tail, latch);
    }
  }

  ghost predicate EndsWithin(o: Oracle, fuel: nat, body: seq<Stmt>, st: State, final: State) {
    var out := ExecBody(o, fuel, body, st);
    (out.Normal? || out.Returned?) && out.st == final
  }

  /** The kernel started on `st` ends in `final`. */
  ghost predicate KernelEnds(o: Oracle, body: seq<Stmt>, st: State, final: State) {
    exists fuel: nat :: EndsWithin(o, fuel, body, st, final)
  }

  // One predicate for each direction in which kernel and graph end together.

  ghost predicate GraphFollowsKernel(body: seq<Stmt>, base: nat, p: Program, o: Oracle, st: State) {
    forall r: State :: KernelEnds(o, body, st, r) ==> exists mid: State :: Halts(p, o, st, mid) && Similar(base, r, mid)
  }

  ghost predicate KernelFollowsGraph(body: seq<Stmt>, base: nat, p: Program, o: Oracle, st: State) {
    forall mid: State :: Halts(p, o, st, mid) ==> exists r: State :: KernelEnds(o, body, st, r) && Similar(base, r, mid)
  }

  /** A kernel that ends makes the graph halt, and one that runs out of fuel keeps it running as long. */
  lemma LoweredRuns(p: Program, body: seq<Stmt>, base: nat, c: Context, l: ScopeLayout, o: Oracle, fuel: nat, st: State)
    returns (n: nat, end: Config)
    requires IsLowering(p, body, base, c, l)
    ensures Run(p, o, At(p.root, 0, st), n) == end
    ensures match ExecBody(o, fuel, body, st)
            case OutOfFuel => end.At? && n >= fuel
            case Broke(_) => false
            case other => end.Halted? && Similar(base, other.st, end.st)
  {
    LoweredIsWellFormed(p, body, base, c, l);
    assert Similar(base, st, st);
    n, end := RunsBody(c, o, base, None, fuel, body, l.items, (p.root, 0), l.exit, false, st, st);
    if ExecBody(o, fuel, body, st).Normal? {
      var r :| r in c.rets && FallsTo(c, l.exit.value, r);
      var m := RunsReturn(c, o, l.exit.value, r, end.st);
      assert end == StateAt(l.exit.value, end.st);
      LeadsTrans(p, o, At(p.root, 0, st), n, end, m, Halted(end.st));
      n, end := n + m, Halted(end.st);
    }
    LeadsMeansRun(p, o, At(p.root, 0, st), n, end);
  }

  /** Once halted, the machine stays so. */
  lemma HaltedStays(p: Program, o: Oracle, c: Config, m: nat, n: nat, final: State)
    requires Run(p, o, c, m) == Halted(final) && m <= n
    ensures Run(p, o, c, n) == Halted(final)
  {
    RunPlus(p, o, c, m, n - m);
    RunStaysHalted(p, o, Halted(final), n - m);
  }

  /** If the graph halts after `m` steps, the kernel ends with `m + 1` units of fuel. */
  lemma HaltingHasFuel(p: Program, body: seq<Stmt>, base: nat, c: Context, l: ScopeLayout, o: Oracle, st: State, m: nat,
                       final: State)
    requires IsLowering(p, body, base, c, l) && Run(p, o, At(p.root, 0, st), m) == Halted(final)
    ensures var out := ExecBody(o, m + 1, body, st); (out.Normal? || out.Returned?) && Similar(base, out.st, final)
  {
    var start := At(p.root, 0, st);
    var n, end := LoweredRuns(p, body, base, c, l, o, m + 1, st);
    if n <= m {
      if end.Halted? {
        HaltedStays(p, o, start, n, m, end.st);
      }
    } else {
      HaltedStays(p, o, start, m, n, final);
    }
  }

  /**
   Lowering preserves meaning: kernel and graph end together, in states that differ only in the
   parser's temporaries.
   */
  lemma LoweringPreservesMeaning(p: Program, body: seq<Stmt>, base: nat, c: Context, l: ScopeLayout, o: Oracle,
                                 st: State)
    requires IsLowering(p, body, base, c, l)
    ensures GraphFollowsKernel(body, base, p, o, st) && KernelFollowsGraph(body, base, p, o, st)
  {
    forall r: State | KernelEnds(o, body, st, r)
      ensures exists final: State :: Halts(p, o, st, final) && Similar(base, r, final)
    {
      var fuel: nat :| EndsWithin(o, fuel, body, st, r);
      var n, end := LoweredRuns(p, body, base, c, l, o, fuel, st);
      assert Halts(p, o, st, end.st);
    }
    forall final: State | Halts(p, o, st, final)
      ensures exists r: State :: KernelEnds(o, body, st, r) && Similar(base, r, final)
    {
      var m: nat :| Run(p, o, At(p.root, 0, st), m) == Halted(final);
      HaltingHasFuel(p, body, base, c, l, o, st, m, final);
      var r := ExecBody(o, m + 1, body, st).st;
      assert EndsWithin(o, m + 1, body, st, r);
      assert KernelEnds(o, body, st, r);
    }
  }
}
