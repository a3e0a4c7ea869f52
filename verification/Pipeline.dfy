/** The front half of the optimizer as a whole: from a structured kernel to its SSA form. */
module Pipeline {
  import opened Options
  import opened Ir
  import opened Structured
  import opened Dominance
  import DomFrontiers
  import opened Liveness
  import opened OptimizerState
  import opened Layout
  import opened ParseState
  import opened LoopRegions
  import opened LoweringCorrect
  import opened DeadJoins
  import opened SplitEdges
  import opened RangeBreaks
  import opened SsaForm
  import opened SsaCorrect
  import opened SsaTransform
  import opened PhiDemand

  /** Phis at the headers of range loops stand where placement wants them. */
  lemma IndicesAreDue(p: Program)
    requires PhisAreIndices(p) && !DomFrontiers.HasDeadJoin(p)
    ensures ExistingPhisAreDue(p)
  {
    forall b: Node, v: Id | b < |p.blocks| && Reachable(p, b) && v in p.variables && HasPhi(p.blocks[b], v)
      ensures DueAt(p, b, v)
    {
      var nodes: set<Node>, tail: Node, latch: Node :| LoopRegion(p, b, v, nodes, tail, latch);
      HeaderIsInFrontier(p, b, v, nodes, tail, latch);
    }
  }

  /** A lowered and split program is fit for the transform, unless a `break` leaves a range loop. */
  lemma SplitIsReady(p0: Program, p: Program, body: seq<Stmt>, base: nat, c: Context, l: ScopeLayout)
    requires IsLowering(p0, body, base, c, l) && IsSplit(p0, p) && !BodyRangeBreaks(body)
    ensures TransformInput(p) && SameHalting(p0, p)
  {
    LoweredIsWellFormed(p0, body, base, c, l);
    SplittingIsSoundIffNoRangeBreak(p0, p, body, base, c, l);
  }

  /** What the phases leave behind as evidence: the lowered and the split program and the transform's own. */
  datatype Stages = Stages(lowered: Program, context: Context, layout: ScopeLayout, split: Program,
                           ssa: Option<Evidence>)

  ghost predicate Built(kernel: Scope, base: nat, q: Program, s: Stages) {
    && IsLowering(s.lowered, kernel.body, base, s.context, s.layout) && s.lowered.variables == ScopeVars(kernel)
    && IsSplit(s.lowered, s.split)
    && (s.ssa.Some? ==> !BodyRangeBreaks(kernel.body) && Transformed(s.split, q, s.ssa.value))
  }

  /** What the graph library promises of its traversals. */
  ghost predicate IsGraphLibrary(dominators: Program -> map<Node, Node>, order: Program -> seq<Node>) {
    forall p: Program {:trigger dominators(p)} {:trigger order(p)} :: ValidGraph(p) ==>
      && DomFrontiers.IsDominatorTree(p, dominators(p))
      && forall b: Node :: b in order(p) <==> b < |p.blocks| && Reachable(p, b)
  }

  /** Parsing and splitting; the kernel may be any the parser accepts. */
  method ParseAndSplit(opt: Optimizer, scope: Scope, ghost base: nat) returns (ghost s: Stages)
    requires opt.program == Program([], {}, 0, {}) && opt.loopBreak == [] && base <= opt.nextLocal
    requires ProperBody(base, scope.body, false)
    modifies opt
    ensures s.split == opt.program && s.ssa == None && Built(scope, base, opt.program, s)
  {
    var l, c := ParseGraph(opt, scope, base);
    ghost var lowered := opt.program;
    LoweredIsWellFormed(lowered, scope.body, base, c, l);
    SplitCriticalEdges(opt);
    s := Stages(lowered, c, l, opt.program, None);
  }

  /** The transform after parsing and splitting: it stops on dead joins, and else leaves SSA form. */
  method ToSsa(opt: Optimizer, dominators: Program -> map<Node, Node>, order: Program -> seq<Node>,
               ghost kernel: Scope, ghost base: nat, ghost s0: Stages)
    returns (ok: bool, ghost s: Stages)
    requires Built(kernel, base, opt.program, s0) && s0.split == opt.program && s0.ssa == None
    requires !BodyRangeBreaks(kernel.body)
    requires IsGraphLibrary(dominators, order)
    modifies opt`program
    ensures ok <==> !DomFrontiers.HasDeadJoin(s0.split)
    ensures ok ==> s.ssa.Some? && s == s0.(ssa := s.ssa) && Built(kernel, base, opt.program, s)
  {
    SplitIsReady(s0.lowered, s0.split, kernel.body, base, s0.context, s0.layout);
    ghost var e;
    ok, e := Transform(opt, dominators(opt.program), order(opt.program));
    s := s0.(ssa := e);
  }

  /** The front half has gone as far as it goes: it stops before SSA form exactly on dead joins. */
  ghost predicate Completed(kernel: Scope, base: nat, q: Program, s: Stages) {
    && Built(kernel, base, q, s) && !BodyRangeBreaks(kernel.body)
    && (s.ssa.Some? <==> !DomFrontiers.HasDeadJoin(s.split))
  }

  /** The front half on a kernel without a `break` out of a range loop. */
  method FrontHalf(opt: Optimizer, kernel: Scope, dominators: Program -> map<Node, Node>, order: Program -> seq<Node>,
                   ghost base: nat)
    returns (ok: bool, ghost s: Stages)
    requires opt.program == Program([], {}, 0, {}) && opt.loopBreak == [] && base <= opt.nextLocal
    requires ProperBody(base, kernel.body, false) && !BodyRangeBreaks(kernel.body) && IsGraphLibrary(dominators, order)
    modifies opt
    ensures ok == s.ssa.Some? && exists q: Program :: Completed(kernel, base, q, s) && (ok ==> opt.program == q)
  {
    ghost var s0 := ParseAndSplit(opt, kernel, base);
    ghost var p := opt.program;
    ok, s := ToSsa(opt, dominators, order, kernel, base, s0);
    if !ok {
      s := s0;
      assert Completed(kernel, base, p, s0);
    } else {
      assert Completed(kernel, base, opt.program, s);
    }
  }

  /**
   The front half reaches SSA form on every kernel all of which can be reached, and, if loops can
   be left, on no other.
   */
  lemma StopsIffStuck(kernel: Scope, base: nat, q: Program, s: Stages)
    requires Completed(kernel, base, q, s)
    ensures BodyFlows(kernel.body) ==> s.ssa.Some?
    ensures BodyLeaves(kernel.body) ==> (s.ssa.Some? <==> BodyFlows(kernel.body))
  {
    if BodyFlows(kernel.body) {
      FlowingHasNoDeadJoin(s.lowered, kernel.body, base, s.context, s.layout);
    } else if BodyLeaves(kernel.body) {
      StuckHasDeadJoin(s.lowered, kernel.body, base, s.context, s.layout);
    }
  }

  /** States that differ at most in mutable variables and the parser's temporaries; the traces are the same. */
  ghost predicate SameResult(base: nat, vars: set<Id>, r: State, final: State) {
    r.trace == final.trace && forall x: Variable ::
      ProperVar(base, x) && !Tracked(vars, x) ==> Get(r.store, x) == Get(final.store, x)
  }

  lemma ResultsCompose(base: nat, vars: set<Id>, r: State, mid: State, final: State)
    requires Similar(base, r, mid) && mid.trace == final.trace && SameUntracked(vars, mid.store, final.store)
    ensures SameResult(base, vars, r, final)
  {
    forall x: Variable | ProperVar(base, x) && !Tracked(vars, x)
      ensures Get(r.store, x) == Get(final.store, x)
    {
      SimilarRead({}, base, r, mid, x);
    }
  }

  // One predicate for each direction in which two programs end together.

  /**
   When the kernel ends, the SSA program halts, having done the same operations with the same
   values in the same order.
   */
  ghost predicate SsaFollowsKernel(body: seq<Stmt>, base: nat, vars: set<Id>, q: Program, o: Oracle, st: State,
                                   st': State) {
    forall r: State :: KernelEnds(o, body, st, r) ==> exists final: State ::
      Halts(q, o, st', final) && SameResult(base, vars, r, final)
  }

  /** And the other way around. */
  ghost predicate KernelFollowsSsa(body: seq<Stmt>, base: nat, vars: set<Id>, q: Program, o: Oracle, st: State,
                                   st': State) {
    forall final: State :: Halts(q, o, st', final) ==> exists r: State ::
      KernelEnds(o, body, st, r) && SameResult(base, vars, r, final)
  }

  lemma ForwardComposes(body: seq<Stmt>, base: nat, p0: Program, p: Program, q: Program, o: Oracle, st: State,
                        st': State)
    requires GraphFollowsKernel(body, base, p0, o, st) && SameHalting(p0, p) && SsaFollowsGraph(p, q, o, st, st')
    ensures SsaFollowsKernel(body, base, p.variables, q, o, st, st')
  {
    forall r: State | KernelEnds(o, body, st, r)
      ensures exists final: State :: Halts(q, o, st', final) && SameResult(base, p.variables, r, final)
    {
      var mid: State :| Halts(p0, o, st, mid) && Similar(base, r, mid);
      assert Halts(p, o, st, mid);
      var final: State :| Halts(q, o, st', final) && final.trace == mid.trace &&
          SameUntracked(p.variables, mid.store, final.store);
      ResultsCompose(base, p.variables, r, mid, final);
    }
  }

  lemma BackwardComposes(body: seq<Stmt>, base: nat, p0: Program, p: Program, q: Program, o: Oracle, st: State,
                         st': State)
    requires KernelFollowsGraph(body, base, p0, o, st) && SameHalting(p0, p) && GraphFollowsSsa(p, q, o, st, st')
    ensures KernelFollowsSsa(body, base, p.variables, q, o, st, st')
  {
    forall final: State | Halts(q, o, st', final)
      ensures exists r: State :: KernelEnds(o, body, st, r) && SameResult(base, p.variables, r, final)
    {
      var mid: State :| Halts(p, o, st, mid) && final.trace == mid.trace &&
          SameUntracked(p.variables, mid.store, final.store);
      assert Halts(p0, o, st, mid);
      var r: State :| KernelEnds(o, body, st, r) && Similar(base, r, mid);
      ResultsCompose(base, p.variables, r, mid, final);
    }
  }

  /** The front half preserves meaning, whatever the generic operations return. */
  lemma FrontHalfPreservesMeaning(kernel: Scope, base: nat, q: Program, s: Stages, o: Oracle, st: State, st': State)
    requires Built(kernel, base, q, s) && s.ssa.Some? && PhisSuffice(s.split)
    requires InitialStates(s.split, st, st')
    ensures SsaFollowsKernel(kernel.body, base, s.split.variables, q, o, st, st')
    ensures KernelFollowsSsa(kernel.body, base, s.split.variables, q, o, st, st')
  {
    SplitIsReady(s.lowered, s.split, kernel.body, base, s.context, s.layout);
    LoweringPreservesMeaning(s.lowered, kernel.body, base, s.context, s.layout, o, st);
    TransformPreservesHalting(s.split, q, s.ssa.value, o, st, st');
    ForwardComposes(kernel.body, base, s.lowered, s.split, q, o, st, st');
    BackwardComposes(kernel.body, base, s.lowered, s.split, q, o, st, st');
  }

  /** If no branch of the kernel is decided by a mutable variable, no terminator reads one. */
  lemma QuietTerminators(kernel: Scope, base: nat, q: Program, s: Stages, b: Node, v: Id)
    requires Built(kernel, base, q, s) && !BodyMutableBranch(kernel.body) && b < |s.split.blocks|
    ensures !ReadByTerminator(s.split, b, v)
  {
    if b < |s.lowered.blocks| {
      assert KeepsBlock(s.lowered, s.split, b) && AllowedAt(s.context, b);
    } else {
      assert OnCriticalEdge(s.lowered, s.split, b);
    }
  }

  /** If no branch is decided by a mutable variable, kernel and SSA program end together. */
  lemma QuietBuiltIsPreserved(kernel: Scope, base: nat, q: Program, s: Stages, o: Oracle, st: State, st': State)
    requires Built(kernel, base, q, s) && s.ssa.Some? && !BodyMutableBranch(kernel.body)
    requires InitialStates(s.split, st, st')
    ensures SsaFollowsKernel(kernel.body, base, s.split.variables, q, o, st, st')
    ensures KernelFollowsSsa(kernel.body, base, s.split.variables, q, o, st, st')
  {
    LoweredIsWellFormed(s.lowered, kernel.body, base, s.context, s.layout);
    IndicesAreDue(s.split);
    SplitIsReady(s.lowered, s.split, kernel.body, base, s.context, s.layout);
    assert TerminatorsCovered(s.split, s.ssa.value.a.live) by {
      forall b: Node, v: Id | b < |s.split.blocks|
        ensures !ReadByTerminator(s.split, b, v)
      {
        QuietTerminators(kernel, base, q, s, b, v);
      }
    }
    CoveredTerminatorsSuffice(s.split, s.ssa.value.a.live);
    FrontHalfPreservesMeaning(kernel, base, q, s, o, st, st');
  }

  /**
   The whole statement in terms of the kernel: if no `break` leaves a range loop, all of the kernel can
   be reached and no branch is decided by a mutable variable, then the front half reaches SSA form,
   and kernel and SSA program end together.
   */
  lemma QuietKernelsArePreserved(kernel: Scope, base: nat, q: Program, s: Stages, o: Oracle, st: State, st': State)
    requires Completed(kernel, base, q, s) && BodyFlows(kernel.body) && !BodyMutableBranch(kernel.body)
    requires InitialStates(s.split, st, st')
    ensures s.ssa.Some?
    ensures SsaFollowsKernel(kernel.body, base, s.split.variables, q, o, st, st')
    ensures KernelFollowsSsa(kernel.body, base, s.split.variables, q, o, st, st')
  {
    StopsIffStuck(kernel, base, q, s);
    QuietBuiltIsPreserved(kernel, base, q, s, o, st, st');
  }
}
