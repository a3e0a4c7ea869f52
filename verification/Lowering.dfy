/**
 Lowering of the structured form to a control flow graph. Each method also returns where it put
 the statement; the layout is what ties the graph to the meaning of the statement.
 */
module Lowering {
  import opened Options
  import opened Arithmetic
  import opened Ir
  import opened Structured
  import opened Liveness
  import opened OptimizerState
  import opened Layout
  import opened LayoutFacts
  import opened ParseState
  import opened ParseSteps
  import opened LoopRegions

  function AsSet(b: Option<Node>): set<Node> {
    if b.Some? then {b.value} else {}
  }

  function Innermost(loopBreak: seq<Node>): Option<Node> {
    if loopBreak == [] then None else Some(loopBreak[|loopBreak| - 1])
  }

  /** Where instructions are appended next. */
  function Here(p: Program, current: Option<Node>): Option<Point> {
    if current.Some? && current.value < |p.blocks| then Some((current.value, |p.blocks[current.value].ops|)) else None
  }

  /** The break targets are reserved blocks without phis. */
  ghost predicate BreakTargets(p: Program, rest: set<Node>, loopBreak: seq<Node>) {
    forall i :: 0 <= i < |loopBreak| ==> loopBreak[i] in rest && loopBreak[i] != p.root && NoPhis(p, loopBreak[i])
  }

  /** Before a statement is parsed: `rest` is reserved by the enclosing statements. */
  ghost predicate Ready(opt: Optimizer, c: Context, rest: set<Node>)
    reads opt
  {
    && Describes(opt, c) && opt.currentBlock.Some? && opt.currentBlock.value !in rest
    && c.open == rest + AsSet(opt.currentBlock) && Blank(c.p, opt.currentBlock.value) && Live(c, opt.currentBlock.value)
    && BreakTargets(c.p, rest, opt.loopBreak)
  }

  /** After it: nothing reserved has changed, and the current block is the old one or a new one. */
  ghost predicate Parsed(opt: Optimizer, c: Context, d: Context, rest: set<Node>, current: Node)
    reads opt
  {
    && Describes(opt, d) && Evolves(c, d, rest) && d.p.root == c.p.root
    && d.open == rest + AsSet(opt.currentBlock)
    && (opt.currentBlock.Some? ==>
          && opt.currentBlock.value !in rest && Blank(d.p, opt.currentBlock.value) && Live(d, opt.currentBlock.value)
          && (opt.currentBlock.value == current || opt.currentBlock.value >= |c.p.blocks|))
  }

  /** A `break` in what is parsed may enter its target, and the parts of a kernel keep what is said of all of it. */
  ghost predicate Allowed(c: Context, loopBreak: seq<Node>, t: Traits) {
    && (t.breaks && loopBreak != [] ==> Free(c, loopBreak[|loopBreak| - 1]))
    && (c.clean ==> !t.rangeBreaks) && (c.quiet ==> !t.mutableBranch) && (c.flows ==> t.flows)
    && t.vars <= c.declared
  }

  /** A part does no more than the whole, and flows if the whole does. */
  predicate PartOf(part: Traits, whole: Traits) {
    && (part.breaks ==> whole.breaks) && (part.rangeBreaks ==> whole.rangeBreaks)
    && (part.mutableBranch ==> whole.mutableBranch) && (whole.flows ==> part.flows)
    && part.vars <= whole.vars
  }

  lemma AllowedKept(c: Context, d: Context, rest: set<Node>, loopBreak: seq<Node>, whole: Traits, part: Traits)
    requires BreakTargets(c.p, rest, loopBreak) && Evolves(c, d, rest) && Allowed(c, loopBreak, whole)
    requires PartOf(part, whole)
    ensures Allowed(d, loopBreak, part)
  {
    if loopBreak != [] {
      assert Untouched(c, d, loopBreak[|loopBreak| - 1]);
    }
  }

  /** A `break` that was parsed leads to its target. */
  ghost predicate Breaking(c: Context, loopBreak: seq<Node>, breaks: bool) {
    breaks && loopBreak != [] ==> Live(c, loopBreak[|loopBreak| - 1])
  }

  lemma BreakingKept(c: Context, d: Context, loopBreak: seq<Node>, breaks: bool)
    requires Grown(c, d) && Breaking(c, loopBreak, breaks)
    ensures Breaking(d, loopBreak, breaks)
  {
    if breaks && loopBreak != [] {
      LiveGrows(c, d, loopBreak[|loopBreak| - 1]);
    }
  }

  lemma {:induction false} TraitsAt(body: seq<Stmt>, k: nat)
    requires k < |body|
    ensures PartOf(StmtTraits(body[k]), BodyTraits(body))
    decreases k
  {
    if k > 0 {
      TraitsAt(body[1..], k - 1);
    }
  }

  /** After the statement `s` that was started in `current`. */
  ghost predicate StmtParsed(opt: Optimizer, c: Context, d: Context, rest: set<Node>, current: Node, s: Stmt,
                             l: StmtLayout, base: nat)
    reads opt
    requires current < |c.p.blocks|
  {
    && Parsed(opt, c, d, rest, current) && (opt.currentBlock.Some? <==> !IsJump(s))
    && LaidStmt(d, Innermost(opt.loopBreak), s, l, (current, |c.p.blocks[current].ops|))
    && l.to == Here(d.p, opt.currentBlock) && TmpFresh(base, l) && Breaking(d, opt.loopBreak, StmtBreaks(s))
  }

  lemma BreakTargetsKept(c: Context, d: Context, rest: set<Node>, loopBreak: seq<Node>)
    requires BreakTargets(c.p, rest, loopBreak) && Evolves(c, d, rest) && d.p.root == c.p.root
    ensures BreakTargets(d.p, rest, loopBreak)
  {
    forall i | 0 <= i < |loopBreak|
      ensures loopBreak[i] != d.p.root && NoPhis(d.p, loopBreak[i])
    {
      assert Untouched(c, d, loopBreak[i]);
    }
  }

  lemma MoreBreakTargets(p: Program, rest: set<Node>, more: set<Node>, loopBreak: seq<Node>, next: Node)
    requires BreakTargets(p, rest, loopBreak) && rest <= more
    ensures BreakTargets(p, more, loopBreak)
    ensures next in more && next != p.root && NoPhis(p, next) ==> BreakTargets(p, more, loopBreak + [next])
  {
  }

  // ---------------------------------------------------------------------------------------
  // Jumps and instructions
  // ---------------------------------------------------------------------------------------

  method ParseReturn(opt: Optimizer, s: Stmt, ghost base: nat, ghost c: Context, ghost rest: set<Node>)
    returns (ghost l: StmtLayout, ghost d: Context)
    requires Ready(opt, c, rest) && s.ReturnStmt?
    modifies opt`program, opt`ret, opt`currentBlock
    ensures StmtParsed(opt, c, d, rest, old(opt.currentBlock.value), s, l, base)
  {
    var current := opt.currentBlock.value;
    opt.currentBlock := None;
    ReturnIsBlock(c);
    ghost var chained := Merge in opt.program.blocks[opt.ret].blockUse;
    var r := Ret(opt);
    opt.program := WithEdge(opt.program, current, r);
    d := ReturnEdge(c, rest, current, chained);
    assert d.open == rest;
    l := JumpAt(None, r);
  }

  /** The branch of a returning block, to the last return block or to a new one in front of it. */
  lemma ReturnEdge(c: Context, rest: set<Node>, current: Node, chained: bool) returns (d: Context)
    requires SoundState(c) && rest <= NodeIds(c.p) && current in c.open && current !in rest && Blank(c.p, current)
    requires Live(c, current)
    ensures SoundState(d) && Evolves(c, d, rest) && d.open == c.open - {current}
    ensures var n, last := |c.p.blocks|, c.rets[|c.rets| - 1];
            var r := if chained then n else last;
            && d.p == WithEdge(if chained then WithEdge(WithNode(c.p), n, last) else c.p, current, r)
            && r == d.rets[|d.rets| - 1] && r in d.rets && FallsTo(d, (current, |c.p.blocks[current].ops|), r)
  {
    var last := c.rets[|c.rets| - 1];
    if chained {
      ReturnChains(c, rest, current);
      d := ReturnBranched(c, current).(rets := c.rets + [|c.p.blocks|]);
      assert d.p.edges == c.p.edges + {(|c.p.blocks|, last)} + {(current, |c.p.blocks|)};
    } else {
      SoundStateGrows(c);
      ReturnIsBlock(c);
      ReturnsAreFinished(c, current);
      NoEdgeYet(c, current, last);
      EdgeFinishes(c, rest, current, last);
      d := EdgeFinished(c, current, last);
    }
  }

  method ParseBreak(opt: Optimizer, s: Stmt, ghost base: nat, ghost c: Context, ghost rest: set<Node>)
    returns (ghost l: StmtLayout, ghost d: Context)
    requires Ready(opt, c, rest) && s.BreakStmt? && opt.loopBreak != [] && Allowed(c, opt.loopBreak, StmtTraits(s))
    modifies opt`program, opt`currentBlock
    ensures StmtParsed(opt, c, d, rest, old(opt.currentBlock.value), s, l, base)
  {
    var current := opt.currentBlock.value;
    opt.currentBlock := None;
    var target := opt.loopBreak[|opt.loopBreak| - 1];
    NoEdgeYet(c, current, target);
    d := FinishWithEdge(opt, c, rest, current, target);
    l := JumpAt(None, target);
  }

  method ParseOperation(opt: Optimizer, s: Stmt, ghost base: nat, ghost c: Context, ghost rest: set<Node>)
    returns (ghost l: StmtLayout, ghost d: Context)
    requires Ready(opt, c, rest) && s.Operation? && ProperStmt(base, s, opt.loopBreak != [])
    modifies opt`program
    ensures StmtParsed(opt, c, d, rest, old(opt.currentBlock.value), s, l, base)
  {
    var current := opt.currentBlock.value;
    d := PushOp(opt, c, rest, current, s.inst);
    LiveGrows(c, d, current);
    l := InlineAt(Some((current, |c.p.blocks[current].ops| + 1)));
  }

  // ---------------------------------------------------------------------------------------
  // Branches
  // ---------------------------------------------------------------------------------------

  /** Ends a scope: if it can end normally, its last block goes on to `next`. */
  method JoinScope(opt: Optimizer, ghost c: Context, ghost rest: set<Node>, next: Node) returns (ghost d: Context)
    requires Describes(opt, c) && c.open == rest + AsSet(opt.currentBlock) && next != c.p.root && NoPhis(c.p, next)
    requires next in rest
    requires opt.currentBlock.Some? ==>
               && opt.currentBlock.value !in rest && Blank(c.p, opt.currentBlock.value)
               && Live(c, opt.currentBlock.value)
               && Free(c, next)
    modifies opt`program
    ensures Describes(opt, d) && Evolves(c, d, rest) && d.open == rest && d.p.root == c.p.root
    ensures opt.currentBlock.Some? ==> Live(d, next)
    ensures ExitsTo(d, Here(c.p, opt.currentBlock), next)
    ensures |d.p.blocks| == |c.p.blocks| && d.p.blocks == c.p.blocks
  {
    if opt.currentBlock.Some? {
      NoEdgeYet(c, opt.currentBlock.value, next);
      d := FinishWithEdge(opt, c, rest, opt.currentBlock.value, next);
      assert d.open == rest;
    } else {
      d := c;
      GrownReflexive(c);
      KeepBlocks(c, d, rest);
    }
  }

  /** A new block that the open block `current` branches to. */
  method AddChild(opt: Optimizer, current: Node, ghost c: Context, ghost rest: set<Node>, ghost limit: Option<nat>)
    returns (a: Node, ghost d: Context)
    requires Describes(opt, c) && current in c.open && current !in rest && rest <= NodeIds(c.p) && Live(c, current)
    requires limit.Some? ==> limit.value > 0
    modifies opt`program
    ensures Describes(opt, d) && Evolves(c, d, rest) && d.p.root == c.p.root
    ensures a == |c.p.blocks| && d.p.blocks == c.p.blocks + [EMPTY_BLOCK] && d.open == c.open + {a} && Blank(d.p, a)
    ensures d.p.variables == c.p.variables
    ensures Successors(d.p, current) == Successors(c.p, current) + {a} && LimitOf(d, a) == limit && Live(d, a)
    ensures forall x :: x != current ==> Successors(d.p, x) == Successors(c.p, x)
  {
    ghost var c1;
    SoundIsValid(c);
    a, c1 := AddNode(opt, c, rest, limit);
    assert forall x :: Successors(c1.p, x) == Successors(c.p, x);
    assert Predecessors(c1.p, a) == {};
    LiveGrows(c, c1, current);
    assert (current, a) !in c1.p.edges;
    d := AddEdge(opt, c1, rest, current, a);
    EvolvesTrans(c, c1, d, rest);
  }

  /** Two new blocks that the open block `current` branches to. */
  method Fork(opt: Optimizer, current: Node, ghost c: Context, ghost rest: set<Node>, ghost limit: Option<nat>)
    returns (a: Node, b: Node, ghost d: Context)
    requires Describes(opt, c) && current in c.open && current !in rest && rest <= NodeIds(c.p) && Blank(c.p, current)
    requires Live(c, current) && (limit.Some? ==> limit.value > 0)
    modifies opt`program
    ensures Describes(opt, d) && Evolves(c, d, rest) && d.p.root == c.p.root && d.p.variables == c.p.variables
    ensures a == |c.p.blocks| && b == a + 1 && |d.p.blocks| == b + 1 && d.open == c.open + {a, b}
    ensures d.p.blocks[a] == EMPTY_BLOCK && d.p.blocks[b] == EMPTY_BLOCK && Blank(d.p, a) && Blank(d.p, b)
    ensures d.p.blocks[current] == c.p.blocks[current] && Successors(d.p, current) == {a, b}
    ensures LimitOf(d, a) == LimitOf(d, b) == limit && Live(d, a) && Live(d, b)
  {
    ghost var c1;
    a, c1 := AddChild(opt, current, c, rest, limit);
    LiveGrows(c, c1, current);
    b, d := AddChild(opt, current, c1, rest, limit);
    LiveGrows(c1, d, a);
    EvolvesTrans(c, c1, d, rest);
  }

  /** A scope sits at `start` and goes on to `next`, as far as it goes on. */
  ghost predicate Branched(c: Context, loopBreak: seq<Node>, scope: Scope, l: ScopeLayout, start: Node, next: Node,
                           base: nat) {
    && LaidScope(c, Innermost(loopBreak), scope, l, start) && ExitsTo(c, l.exit, next) && TmpsFresh(base, l.items)
    && (EndsNormally(scope.body) ==> Live(c, next)) && Breaking(c, loopBreak, BodyBreaks(scope.body))
  }

  lemma BranchedGrows(c: Context, d: Context, loopBreak: seq<Node>, scope: Scope, l: ScopeLayout, start: Node,
                      next: Node, base: nat)
    requires Grown(c, d) && Branched(c, loopBreak, scope, l, start, next, base)
    ensures Branched(d, loopBreak, scope, l, start, next, base)
  {
    LaidScopeGrows(c, d, Innermost(loopBreak), scope, l, start, next);
    BreakingKept(c, d, loopBreak, BodyBreaks(scope.body));
    if EndsNormally(scope.body) {
      LiveGrows(c, d, next);
    }
  }

  /** Parses a scope into the new block `start` and joins it to `next`. */
  method ParseBranch(opt: Optimizer, scope: Scope, start: Node, next: Node, ghost base: nat, ghost c: Context,
                     ghost rest: set<Node>)
    returns (isBreak: bool, returned: bool, ghost l: ScopeLayout, ghost d: Context)
    requires Describes(opt, c) && c.open == rest + {start} && start !in rest && Blank(c.p, start)
    requires c.p.blocks[start].ops == []
    requires next in rest && next != c.p.root && NoPhis(c.p, next) && BreakTargets(c.p, rest, opt.loopBreak)
    requires Live(c, start)
    requires EndsNormally(scope.body) ==> Free(c, next)
    requires ProperBody(base, scope.body, opt.loopBreak != []) && base <= opt.nextLocal
    requires Allowed(c, opt.loopBreak, ScopeTraits(scope))
    modifies opt
    ensures Describes(opt, d) && Evolves(c, d, rest) && d.open == rest && d.p.root == c.p.root
    ensures opt.loopBreak == old(opt.loopBreak) && opt.nextLocal >= old(opt.nextLocal)
    ensures Branched(d, opt.loopBreak, scope, l, start, next, base)
    ensures isBreak == (BreakStmt in scope.body) && returned == !EndsNormally(scope.body)
    decreases scope, 1
  {
    opt.currentBlock := Some(start);
    ghost var c1;
    isBreak, l, c1 := ParseScope(opt, scope, base, c, rest);
    returned := opt.currentBlock.None?;
    assert Untouched(c, c1, next);
    d := JoinScope(opt, c1, rest, next);
    EvolvesTrans(c, c1, d, rest);
    BreakingKept(c1, d, opt.loopBreak, BodyBreaks(scope.body));
    LaidBodyGrows(c1, d, Innermost(opt.loopBreak), scope.body, l.items, (start, 0), l.exit);
  }

  /** The same, seen from the statement that started in `c0` and also holds the blocks `held`. */
  method ParseBranchWithin(opt: Optimizer, scope: Scope, start: Node, next: Node, ghost base: nat, ghost c0: Context,
                           ghost c: Context,
                           ghost rest: set<Node>, ghost held: set<Node>)
    returns (isBreak: bool, returned: bool, ghost l: ScopeLayout, ghost d: Context)
    requires Describes(opt, c) && c.open == rest + held + {start} && start !in rest + held && Blank(c.p, start)
    requires c.p.blocks[start].ops == []
    requires next in held && next != c.p.root && NoPhis(c.p, next) && Live(c, start)
    requires EndsNormally(scope.body) ==> Free(c, next)
    requires Evolves(c0, c, rest) && c.p.root == c0.p.root && BreakTargets(c0.p, rest, opt.loopBreak)
    requires ProperBody(base, scope.body, opt.loopBreak != []) && base <= opt.nextLocal
    requires Allowed(c0, opt.loopBreak, ScopeTraits(scope))
    modifies opt
    ensures Describes(opt, d) && d.open == rest + held && d.p.root == c.p.root && |d.p.blocks| >= |c.p.blocks|
    ensures Evolves(c0, d, rest) && Grown(c, d) && forall x :: x in held ==> Untouched(c, d, x)
    ensures opt.loopBreak == old(opt.loopBreak) && opt.nextLocal >= old(opt.nextLocal) && opt.ret < |d.p.blocks|
    ensures Branched(d, opt.loopBreak, scope, l, start, next, base)
    ensures isBreak == (BreakStmt in scope.body) && returned == !EndsNormally(scope.body)
    decreases scope, 2
  {
    BreakTargetsKept(c0, c, rest, opt.loopBreak);
    MoreBreakTargets(c.p, rest, rest + held, opt.loopBreak, next);
    AllowedKept(c0, c, rest, opt.loopBreak, ScopeTraits(scope), ScopeTraits(scope));
    isBreak, returned, l, d := ParseBranch(opt, scope, start, next, base, c, rest + held);
    EvolvesLess(c, d, rest + held, rest);
    EvolvesTrans(c0, c, d, rest);
    ReturnIsBlock(d);
  }

  /** Ends a branching block and goes on with `next`, marking the merge block. */
  method CloseFork(opt: Optimizer, current: Node, next: Node, flow: ControlFlow, merge: Option<Node>, ghost c: Context,
                   ghost rest: set<Node>)
    returns (ghost d: Context)
    requires Describes(opt, c) && c.open == rest + {current, next} && current !in rest && next !in rest
    requires current != next
    requires !flow.Fallthrough? && Successors(c.p, current) == Targets(flow) && Blank(c.p, next) && Live(c, next)
    requires TerminatorRead(flow).Some? ==> PlainOperand(TerminatorRead(flow).value)
    requires merge.Some? ==> merge.value < |c.p.blocks|
    requires FlowAllowed(c, flow)
    modifies opt`program, opt`currentBlock
    ensures Describes(opt, d) && Evolves(c, d, rest) && d.p.root == c.p.root
    ensures opt.currentBlock == Some(next) && d.open == rest + {next} && Blank(d.p, next) && Live(d, next)
    ensures d.p.blocks[next].ops == c.p.blocks[next].ops && Grown(c, d)
    ensures EndsWith(d, (current, |c.p.blocks[current].ops|), flow)
    ensures d.p.blocks[current].phis == c.p.blocks[current].phis && MergeMarked(d, merge)
  {
    d := FinishWithFlow(opt, c, rest, current, flow);
    if merge.Some? {
      ghost var c1 := d;
      d := MarkUse(opt, c1, rest, merge.value, Merge);
      EvolvesTrans(c, c1, d, rest);
      EndsWithGrows(c1, d, (current, |c.p.blocks[current].ops|), flow);
      assert Untouched(c1, d, next) && Untouched(c1, d, current);
    }
    LiveGrows(c, d, next);
    opt.currentBlock := Some(next);
  }

  /** The branch of an if, before the branching block itself is ended. */
  method ParseThen(opt: Optimizer, scope: Scope, ghost base: nat, ghost c: Context, ghost rest: set<Node>)
    returns (then_: Node, next: Node, merge: Option<Node>, ghost inner: ScopeLayout, ghost d: Context)
    requires Ready(opt, c, rest) && base <= opt.nextLocal && ProperBody(base, scope.body, opt.loopBreak != [])
    requires Allowed(c, opt.loopBreak, ScopeTraits(scope))
    modifies opt
    ensures Describes(opt, d) && Evolves(c, d, rest) && d.p.root == c.p.root
    ensures opt.loopBreak == old(opt.loopBreak) && opt.nextLocal >= old(opt.nextLocal)
    ensures merge.Some? ==> merge.value < |d.p.blocks|
    ensures MergeIs(d, merge, next, BreakStmt in scope.body, !EndsNormally(scope.body))
    ensures var current := old(opt.currentBlock.value);
            && d.open == rest + {current, next} && current < |c.p.blocks| <= next && next !in rest
            && current < |d.p.blocks| && Successors(d.p, current) == {then_, next}
            && d.p.blocks[current].ops == c.p.blocks[current].ops
    ensures Blank(d.p, next) && d.p.blocks[next].ops == [] && Live(d, next)
    ensures Branched(d, opt.loopBreak, scope, inner, then_, next, base)
    decreases scope, 3
  {
    var current := opt.currentBlock.value;
    ghost var c1;
    then_, next, c1 := Fork(opt, opt.currentBlock.value, c, rest, None);
    assert c1.open == rest + {current, next} + {then_};
    var isBreak, returned;
    isBreak, returned, inner, d := ParseBranchWithin(opt, scope, then_, next, base, c, c1, rest, {current, next});
    assert Untouched(c1, d, current) && Untouched(c1, d, next);
    LiveGrows(c1, d, next);
    merge := if isBreak then None else Some(if returned then opt.ret else next);
  }

  method ParseIf(opt: Optimizer, s: Stmt, ghost base: nat, ghost c: Context, ghost rest: set<Node>)
    returns (ghost l: StmtLayout, ghost d: Context)
    requires Ready(opt, c, rest) && s.Conditional? && ProperStmt(base, s, opt.loopBreak != []) && base <= opt.nextLocal
    requires Allowed(c, opt.loopBreak, StmtTraits(s))
    modifies opt
    ensures opt.loopBreak == old(opt.loopBreak) && opt.nextLocal >= old(opt.nextLocal)
    ensures StmtParsed(opt, c, d, rest, old(opt.currentBlock.value), s, l, base)
    decreases s.scope, 4
  {
    var current := opt.currentBlock.value;
    var then_, next, merge, inner, c1 := ParseThen(opt, s.scope, base, c, rest);
    d := CloseFork(opt, current, next, IfElse(s.cond, then_, next), merge, c1, rest);
    EvolvesTrans(c, c1, d, rest);
    BreakingKept(c1, d, opt.loopBreak, StmtBreaks(s));
    l := IfAt(Some((next, 0)), then_, next, inner, merge);
    IfIsLaid(c1, d, Innermost(opt.loopBreak), s, l, (current, |c.p.blocks[current].ops|));
  }

  lemma IfIsLaid(c: Context, d: Context, brk: Option<Node>, s: Stmt, l: StmtLayout, from: Point)
    requires s.Conditional? && l.IfAt? && l.to == Some((l.next, 0)) && Grown(c, d)
    requires EndsWith(d, from, IfElse(s.cond, l.then_, l.next))
    requires LaidScope(c, brk, s.scope, l.inner, l.then_) && ExitsTo(c, l.inner.exit, l.next)
    requires MergeIs(c, l.merge, l.next, BreakStmt in s.scope.body, !EndsNormally(s.scope.body))
    requires MergeMarked(d, l.merge)
    ensures LaidStmt(d, brk, s, l, from)
  {
    MergeGrows(c, d, l.merge, l.next, BreakStmt in s.scope.body, !EndsNormally(s.scope.body));
    LaidScopeGrows(c, d, brk, s.scope, l.inner, l.then_, l.next);
  }

  /** How a branch may end, as far as the merge block depends on it. */
  datatype Ending = Ending(isBreak: bool, isReturn: bool)

  /** The blocks of an if-else: two branches and the block after it. */
  method ForkAndJoin(opt: Optimizer, ghost c: Context, ghost rest: set<Node>, ghost limit: Option<nat>)
    returns (a: Node, b: Node, next: Node, ghost d: Context)
    requires Ready(opt, c, rest)
    modifies opt`program
    ensures Describes(opt, d) && Evolves(c, d, rest) && d.p.root == c.p.root
    ensures a == |c.p.blocks| && b == a + 1 && next == b + 1 && |d.p.blocks| == next + 1
    ensures d.open == c.open + {a, b, next}
    ensures d.p.blocks[a] == EMPTY_BLOCK && d.p.blocks[b] == EMPTY_BLOCK && d.p.blocks[next] == EMPTY_BLOCK
    ensures Blank(d.p, a) && Blank(d.p, b) && Blank(d.p, next)
    ensures d.p.blocks[opt.currentBlock.value] == c.p.blocks[opt.currentBlock.value]
    ensures Successors(d.p, opt.currentBlock.value) == {a, b}
    ensures LimitOf(d, next) == limit && Live(d, a) && Live(d, b)
  {
    ghost var c1;
    a, b, c1 := Fork(opt, opt.currentBlock.value, c, rest, None);
    next, d := AddNode(opt, c1, rest, limit);
    EvolvesTrans(c, c1, d, rest);
    LiveGrows(c1, d, a);
    LiveGrows(c1, d, b);
    assert forall x :: Successors(d.p, x) == Successors(c1.p, x);
  }

  /** The blocks of an if-else once its first branch has been parsed. */
  ghost predicate FirstParsed(opt: Optimizer, s: Stmt, c: Context, d: Context, rest: set<Node>, current: Node,
                              then_: Node, orElse: Node, next: Node)
    reads opt
    requires s.Alternative?
  {
    && Describes(opt, d) && Evolves(c, d, rest) && d.open == rest + {current, next} + {orElse}
    && current < |c.p.blocks| < orElse < next < |d.p.blocks|
    && Successors(d.p, current) == {then_, orElse} && d.p.blocks[current].ops == c.p.blocks[current].ops
    && Blank(d.p, orElse) && d.p.blocks[orElse].ops == [] && Live(d, orElse)
    && Blank(d.p, next) && d.p.blocks[next].ops == [] && NoPhis(d.p, next) && next != d.p.root
    && LimitOf(d, next) == if EndsNormally(s.scopeIf.body) || EndsNormally(s.scopeElse.body) then None else Some(0)
  }

  /** The first branch of an if-else. */
  method ParseFirstBranch(opt: Optimizer, s: Stmt, ghost base: nat, ghost c: Context, ghost rest: set<Node>)
    returns (then_: Node, orElse: Node, next: Node, ending: Ending, ghost inner: ScopeLayout, ghost d: Context)
    requires Ready(opt, c, rest) && base <= opt.nextLocal && s.Alternative?
    requires ProperBody(base, s.scopeIf.body, opt.loopBreak != [])
    requires Allowed(c, opt.loopBreak, ScopeTraits(s.scopeIf))
    modifies opt
    ensures opt.loopBreak == old(opt.loopBreak) && opt.nextLocal >= old(opt.nextLocal)
    ensures FirstParsed(opt, s, c, d, rest, old(opt.currentBlock.value), then_, orElse, next)
    ensures Branched(d, opt.loopBreak, s.scopeIf, inner, then_, next, base)
    ensures ending == Ending(BreakStmt in s.scopeIf.body, !EndsNormally(s.scopeIf.body))
    decreases s, 1
  {
    var current := opt.currentBlock.value;
    ghost var c1;
    ghost var joined := EndsNormally(s.scopeIf.body) || EndsNormally(s.scopeElse.body);
    then_, orElse, next, c1 := ForkAndJoin(opt, c, rest, if joined then None else Some(0));
    ghost var held := {current, next, orElse};
    assert c1.open == rest + held + {then_};
    var isBreak, returned;
    isBreak, returned, inner, d := ParseBranchWithin(opt, s.scopeIf, then_, next, base, c, c1, rest, held);
    assert Untouched(c1, d, current) && Untouched(c1, d, next) && Untouched(c1, d, orElse);
    LiveGrows(c1, d, orElse);
    ending := Ending(isBreak, returned);
  }

  /** Both branches of an if-else, before the branching block itself is ended. */
  method ParseBranches(opt: Optimizer, s: Stmt, ghost base: nat, ghost c: Context, ghost rest: set<Node>)
    returns (then_: Node, orElse: Node, next: Node, merge: Option<Node>, ghost innerIf: ScopeLayout,
        ghost innerElse: ScopeLayout, ghost d: Context)
    requires Ready(opt, c, rest) && base <= opt.nextLocal && s.Alternative?
    requires ProperBody(base, s.scopeIf.body, opt.loopBreak != [])
    requires ProperBody(base, s.scopeElse.body, opt.loopBreak != [])
    requires Allowed(c, opt.loopBreak, ScopeTraits(s.scopeIf)) && Allowed(c, opt.loopBreak, ScopeTraits(s.scopeElse))
    requires c.flows ==> EndsNormally(s.scopeIf.body) || EndsNormally(s.scopeElse.body)
    modifies opt
    ensures Describes(opt, d) && Evolves(c, d, rest) && d.p.root == c.p.root
    ensures opt.loopBreak == old(opt.loopBreak) && opt.nextLocal >= old(opt.nextLocal)
    ensures merge.Some? ==> merge.value < |d.p.blocks|
    ensures MergeIs(d, merge, next, BreakStmt in s.scopeIf.body || BreakStmt in s.scopeElse.body,
                    !EndsNormally(s.scopeIf.body) || !EndsNormally(s.scopeElse.body))
    ensures var current := old(opt.currentBlock.value);
            && d.open == rest + {current, next} && current < |c.p.blocks| <= next && next !in rest
            && current < |d.p.blocks| && Successors(d.p, current) == {then_, orElse}
            && d.p.blocks[current].ops == c.p.blocks[current].ops
    ensures Blank(d.p, next) && d.p.blocks[next].ops == [] && Live(d, next)
    ensures !EndsNormally(s.scopeIf.body) && !EndsNormally(s.scopeElse.body) ==> Barred(d, next)
    ensures Branched(d, opt.loopBreak, s.scopeIf, innerIf, then_, next, base)
    ensures Branched(d, opt.loopBreak, s.scopeElse, innerElse, orElse, next, base)
    decreases s, 2
  {
    var current := opt.currentBlock.value;
    var ending;
    ghost var c1;
    then_, orElse, next, ending, innerIf, c1 := ParseFirstBranch(opt, s, base, c, rest);
    var isBreak, returned;
    isBreak, returned, innerElse, d :=
      ParseBranchWithin(opt, s.scopeElse, orElse, next, base, c, c1, rest, {current, next});
    assert Untouched(c1, d, current) && Untouched(c1, d, next);
    BranchedGrows(c1, d, opt.loopBreak, s.scopeIf, innerIf, then_, next, base);
    merge := if ending.isBreak || isBreak then None else Some(if ending.isReturn || returned then opt.ret else next);
  }

  lemma BranchesAllowed(c: Context, loopBreak: seq<Node>, s: Stmt)
    requires s.Alternative? && Allowed(c, loopBreak, StmtTraits(s))
    ensures Allowed(c, loopBreak, ScopeTraits(s.scopeIf)) && Allowed(c, loopBreak, ScopeTraits(s.scopeElse))
    ensures c.flows ==> EndsNormally(s.scopeIf.body) || EndsNormally(s.scopeElse.body)
  {
  }

  method ParseIfElse(opt: Optimizer, s: Stmt, ghost base: nat, ghost c: Context, ghost rest: set<Node>)
    returns (ghost l: StmtLayout, ghost d: Context)
    requires Ready(opt, c, rest) && s.Alternative? && ProperStmt(base, s, opt.loopBreak != []) && base <= opt.nextLocal
    requires Allowed(c, opt.loopBreak, StmtTraits(s))
    modifies opt
    ensures opt.loopBreak == old(opt.loopBreak) && opt.nextLocal >= old(opt.nextLocal)
    ensures StmtParsed(opt, c, d, rest, old(opt.currentBlock.value), s, l, base)
    decreases s, 3
  {
    BranchesAllowed(c, opt.loopBreak, s);
    var current := opt.currentBlock.value;
    var then_, orElse, next, merge, innerIf, innerElse, c1 := ParseBranches(opt, s, base, c, rest);
    d := CloseFork(opt, current, next, IfElse(s.cond, then_, orElse), merge, c1, rest);
    EvolvesTrans(c, c1, d, rest);
    BreakingKept(c1, d, opt.loopBreak, StmtBreaks(s));
    l := IfElseAt(Some((next, 0)), then_, orElse, next, innerIf, innerElse, merge);
    IfElseIsLaid(c1, d, Innermost(opt.loopBreak), s, l, (current, |c.p.blocks[current].ops|));
  }

  lemma IfElseIsLaid(c: Context, d: Context, brk: Option<Node>, s: Stmt, l: StmtLayout, from: Point)
    requires s.Alternative? && l.IfElseAt? && l.to == Some((l.next, 0)) && Grown(c, d)
    requires EndsWith(d, from, IfElse(s.cond, l.then_, l.orElse))
    requires LaidScope(c, brk, s.scopeIf, l.innerIf, l.then_) && ExitsTo(c, l.innerIf.exit, l.next)
    requires LaidScope(c, brk, s.scopeElse, l.innerElse, l.orElse) && ExitsTo(c, l.innerElse.exit, l.next)
    requires !EndsNormally(s.scopeIf.body) && !EndsNormally(s.scopeElse.body) ==> Barred(c, l.next)
    requires MergeIs(c, l.merge, l.next, BreakStmt in s.scopeIf.body || BreakStmt in s.scopeElse.body,
                     !EndsNormally(s.scopeIf.body) || !EndsNormally(s.scopeElse.body))
    requires MergeMarked(d, l.merge)
    ensures LaidStmt(d, brk, s, l, from)
  {
    MergeGrows(c, d, l.merge, l.next, BreakStmt in s.scopeIf.body || BreakStmt in s.scopeElse.body,
               !EndsNormally(s.scopeIf.body) || !EndsNormally(s.scopeElse.body));
    LaidScopeGrows(c, d, brk, s.scopeIf, l.innerIf, l.then_, l.next);
    LaidScopeGrows(c, d, brk, s.scopeElse, l.innerElse, l.orElse, l.next);
  }

  // ---------------------------------------------------------------------------------------
  // Switches
  // ---------------------------------------------------------------------------------------

  ghost function CaseNodes(l: CasesLayout): set<Node> {
    match l
    case DefaultAt(node, _) => {node}
    case CaseAt(node, _, rest) => {node} + CaseNodes(rest)
  }

  lemma {:induction false} TargetsOfCases(v: Variable, cases: Cases, l: CasesLayout)
    requires LaidShape(cases, l)
    ensures Targets(Switch(v, DefaultNode(l), Branches(cases, l))) == CaseNodes(l)
  {
    if cases.Case? {
      TargetsOfCases(v, cases.rest, l.rest);
      var all, rest := Branches(cases, l), Branches(cases.rest, l.rest);
      assert all == [(ToU32(cases.constant), l.node)] + rest;
      forall x
        ensures x in Targets(Switch(v, DefaultNode(l), all)) <==>
                x == l.node || x in Targets(Switch(v, DefaultNode(l.rest), rest))
      {
        if x == l.node {
          assert all[0].1 == x;
        }
        if i :| 0 <= i < |rest| && rest[i].1 == x {
          assert all[i + 1].1 == x;
        }
        if i :| 0 <= i < |all| && all[i].1 == x && i > 0 {
          assert rest[i - 1].1 == x;
        }
      }
    }
  }

  ghost predicate LaidShape(cases: Cases, l: CasesLayout) {
    match cases
    case Default(_) => l.DefaultAt?
    case Case(_, _, rest) => l.CaseAt? && LaidShape(rest, l.rest)
  }

  lemma ReturnIsBlock(c: Context)
    requires SoundState(c)
    ensures c.rets[|c.rets| - 1] < |c.p.blocks|
  {
    SoundStateGrows(c);
    assert ReturnLink(c, |c.rets| - 1);
  }

  /** While cases are parsed, the branching block and the block after the switch are held. */
  ghost predicate CaseState(opt: Optimizer, c0: Context, c: Context, rest: set<Node>, current: Node, next: Node)
    reads opt
  {
    && Describes(opt, c) && c.open == rest + {current, next} && current !in rest && next !in rest && current != next
    && next != c.p.root && NoPhis(c.p, next) && Blank(c.p, next) && c.p.blocks[next].ops == [] && Live(c, current)
    && Evolves(c0, c, rest) && opt.ret < |c.p.blocks|
  }

  /** What a case adds to the branching block. */
  ghost predicate CaseAdded(c: Context, d: Context, current: Node, next: Node, nodes: set<Node>) {
    && Grown(c, d) && current < |c.p.blocks| && LimitOf(d, next) == LimitOf(c, next)
    && d.p.blocks[current].ops == c.p.blocks[current].ops
    && Successors(d.p, current) == Successors(c.p, current) + nodes
  }

  /** Parses one case into a new block that `current` branches to. */
  method ParseCase(opt: Optimizer, scope: Scope, current: Node, next: Node, ghost base: nat, ghost c0: Context,
                   ghost c: Context, ghost rest: set<Node>)
    returns (node: Node, ending: Ending, ghost inner: ScopeLayout, ghost d: Context)
    requires CaseState(opt, c0, c, rest, current, next) && BreakTargets(c0.p, rest, opt.loopBreak)
    requires EndsNormally(scope.body) ==> Free(c, next)
    requires ProperBody(base, scope.body, opt.loopBreak != []) && base <= opt.nextLocal
    requires Allowed(c0, opt.loopBreak, ScopeTraits(scope))
    modifies opt
    ensures CaseState(opt, c0, d, rest, current, next) && CaseAdded(c, d, current, next, {node})
    ensures opt.loopBreak == old(opt.loopBreak) && opt.nextLocal >= old(opt.nextLocal)
    ensures ending == Ending(BreakStmt in scope.body, !EndsNormally(scope.body) && BreakStmt !in scope.body)
    ensures Branched(d, opt.loopBreak, scope, inner, node, next, base)
    decreases scope, 3
  {
    ghost var c1;
    node, c1 := AddChild(opt, current, c, rest, None);
    EvolvesTrans(c0, c, c1, rest);
    ghost var held := {current, next};
    assert c1.open == rest + held + {node};
    var isBreak, returned;
    isBreak, returned, inner, d := ParseBranchWithin(opt, scope, node, next, base, c0, c1, rest, held);
    assert Untouched(c1, d, current) && Untouched(c1, d, next);
    GrownTrans(c, c1, d);
    LiveGrows(c, d, current);
    ending := Ending(isBreak, returned && !isBreak);
  }

  /** Cases sit where their layout says and go on to `next`, as far as they go on. */
  ghost predicate CasesBranched(c: Context, loopBreak: seq<Node>, cases: Cases, l: CasesLayout, next: Node, base: nat) {
    && LaidCases(c, Innermost(loopBreak), cases, l, next) && LaidShape(cases, l) && TmpsFreshCases(base, l)
    && (CasesEnd(cases) ==> Live(c, next)) && Breaking(c, loopBreak, CasesBreak(cases))
  }

  lemma OneMoreCase(c: Context, d: Context, loopBreak: seq<Node>, cases: Cases, l: CasesLayout, next: Node, base: nat)
    requires cases.Case? && l.CaseAt? && Grown(c, d) && Branched(c, loopBreak, cases.scope, l.inner, l.node, next, base)
    requires CasesBranched(d, loopBreak, cases.rest, l.rest, next, base)
    ensures CasesBranched(d, loopBreak, cases, l, next, base)
  {
    BranchedGrows(c, d, loopBreak, cases.scope, l.inner, l.node, next, base);
  }

  lemma CaseAddedTrans(c: Context, d: Context, e: Context, current: Node, next: Node, nodes: set<Node>, more: set<Node>)
    requires CaseAdded(c, d, current, next, nodes) && CaseAdded(d, e, current, next, more)
    ensures CaseAdded(c, e, current, next, nodes + more)
  {
    GrownTrans(c, d, e);
  }

  lemma CasesAllowed(c: Context, loopBreak: seq<Node>, cases: Cases)
    requires Allowed(c, loopBreak, CasesTraits(cases))
    ensures Allowed(c, loopBreak, ScopeTraits(cases.scope))
    ensures cases.Case? ==> Allowed(c, loopBreak, CasesTraits(cases.rest))
  {
  }

  /** Parses all cases, each into a new block that `current` branches to. */
  method ParseCases(opt: Optimizer, cases: Cases, current: Node, next: Node, ghost base: nat, ghost c0: Context,
                    ghost c: Context, ghost rest: set<Node>)
    returns (branches: seq<(int, Node)>, default: Node, ending: Ending, ghost l: CasesLayout, ghost d: Context)
    requires CaseState(opt, c0, c, rest, current, next) && BreakTargets(c0.p, rest, opt.loopBreak)
    requires CasesEnd(cases) ==> Free(c, next)
    requires ProperCases(base, cases, opt.loopBreak != []) && base <= opt.nextLocal
    requires Allowed(c0, opt.loopBreak, CasesTraits(cases))
    modifies opt
    ensures CaseState(opt, c0, d, rest, current, next) && CaseAdded(c, d, current, next, CaseNodes(l))
    ensures opt.loopBreak == old(opt.loopBreak) && opt.nextLocal >= old(opt.nextLocal)
    ensures CasesBranched(d, opt.loopBreak, cases, l, next, base)
    ensures branches == Branches(cases, l) && default == DefaultNode(l)
    ensures ending == Ending(CasesHoldBreak(cases), CasesReturn(cases))
    decreases cases, 4
  {
    CasesAllowed(c0, opt.loopBreak, cases);
    var node, first, inner, c1 := ParseCase(opt, cases.scope, current, next, base, c0, c, rest);
    match cases
    case Default(_) =>
      branches, default, ending := [], node, first;
      l, d := DefaultAt(node, inner), c1;
    case Case(constant, scope, more) =>
      ghost var l1;
      branches, default, ending, l1, d := ParseCases(opt, more, current, next, base, c0, c1, rest);
      branches := [(ToU32(constant), node)] + branches;
      ending := Ending(first.isBreak || ending.isBreak, first.isReturn || ending.isReturn);
      l := CaseAt(node, inner, l1);
      OneMoreCase(c1, d, opt.loopBreak, cases, l, next, base);
      CaseAddedTrans(c, c1, d, current, next, {node}, CaseNodes(l1));
  }

  /** The block after a switch. */
  method OpenSwitch(opt: Optimizer, ghost c: Context, ghost rest: set<Node>, ghost limit: Option<nat>)
    returns (next: Node, ghost d: Context)
    requires Ready(opt, c, rest)
    modifies opt`program
    ensures CaseState(opt, c, d, rest, opt.currentBlock.value, next) && LimitOf(d, next) == limit
    ensures next == |c.p.blocks|
    ensures Successors(d.p, opt.currentBlock.value) == {} && opt.currentBlock.value < |c.p.blocks|
    ensures d.p.blocks[opt.currentBlock.value] == c.p.blocks[opt.currentBlock.value]
  {
    var current := opt.currentBlock.value;
    next, d := AddNode(opt, c, rest, limit);
    assert Successors(d.p, current) == {};
    assert d.open == rest + {current, next};
    LiveGrows(c, d, current);
    ReturnIsBlock(d);
  }

  /** All cases of a switch, before the branching block itself is ended. */
  method ParseAllCases(opt: Optimizer, value: Variable, cases: Cases, ghost base: nat, ghost c: Context,
                       ghost rest: set<Node>)
    returns (flow: ControlFlow, next: Node, merge: Option<Node>, ghost inner: CasesLayout, ghost d: Context)
    requires Ready(opt, c, rest) && ProperCases(base, cases, opt.loopBreak != []) && base <= opt.nextLocal
    requires Allowed(c, opt.loopBreak, CasesTraits(cases))
    modifies opt
    ensures Describes(opt, d) && Evolves(c, d, rest) && d.p.root == c.p.root
    ensures opt.loopBreak == old(opt.loopBreak) && opt.nextLocal >= old(opt.nextLocal)
    ensures MergeIs(d, merge, next, CasesHoldBreak(cases), CasesReturn(cases))
    ensures flow == Switch(value, DefaultNode(inner), Branches(cases, inner))
    ensures var current := old(opt.currentBlock.value);
            && d.open == rest + {current, next} && current < |c.p.blocks| <= next && next !in rest
            && current < |d.p.blocks| && Successors(d.p, current) == Targets(flow)
            && d.p.blocks[current].ops == c.p.blocks[current].ops
    ensures Blank(d.p, next) && d.p.blocks[next].ops == [] && (!CasesEnd(cases) ==> Barred(d, next))
    ensures CasesBranched(d, opt.loopBreak, cases, inner, next, base)
    decreases cases, 5
  {
    var current := opt.currentBlock.value;
    ghost var c1;
    next, c1 := OpenSwitch(opt, c, rest, if CasesEnd(cases) then None else Some(0));
    var branches, default, ending;
    branches, default, ending, inner, d := ParseCases(opt, cases, current, next, base, c, c1, rest);
    flow := Switch(value, default, branches);
    TargetsOfCases(value, cases, inner);
    merge := if ending.isBreak then None else Some(if ending.isReturn then opt.ret else next);
  }

  method ParseSwitch(opt: Optimizer, s: Stmt, ghost base: nat, ghost c: Context, ghost rest: set<Node>)
    returns (ghost l: StmtLayout, ghost d: Context)
    requires Ready(opt, c, rest) && s.Selection? && ProperStmt(base, s, opt.loopBreak != []) && base <= opt.nextLocal
    requires Allowed(c, opt.loopBreak, StmtTraits(s))
    modifies opt
    ensures opt.loopBreak == old(opt.loopBreak) && opt.nextLocal >= old(opt.nextLocal)
    ensures StmtParsed(opt, c, d, rest, old(opt.currentBlock.value), s, l, base)
    decreases s.cases, 6
  {
    var current := opt.currentBlock.value;
    var flow, next, merge, inner, c1 := ParseAllCases(opt, s.value, s.cases, base, c, rest);
    d := CloseFork(opt, current, next, flow, if merge == Some(next) then merge else None, c1, rest);
    EvolvesTrans(c, c1, d, rest);
    BreakingKept(c1, d, opt.loopBreak, StmtBreaks(s));
    l := SwitchAt(Some((next, 0)), next, inner, merge);
    SwitchIsLaid(c1, d, Innermost(opt.loopBreak), s, l, (current, |c.p.blocks[current].ops|));
  }

  lemma SwitchIsLaid(c: Context, d: Context, brk: Option<Node>, s: Stmt, l: StmtLayout, from: Point)
    requires s.Selection? && l.SwitchAt? && l.to == Some((l.next, 0)) && Grown(c, d)
    requires EndsWith(d, from, Switch(s.value, DefaultNode(l.cases), Branches(s.cases, l.cases)))
    requires LaidCases(c, brk, s.cases, l.cases, l.next) && (!CasesEnd(s.cases) ==> Barred(c, l.next))
    requires MergeIs(c, l.merge, l.next, CasesHoldBreak(s.cases), CasesReturn(s.cases))
    requires !CasesHoldBreak(s.cases) && !CasesReturn(s.cases) ==> HasUse(d, l.next, Merge)
    ensures LaidStmt(d, brk, s, l, from)
  {
    MergeGrows(c, d, l.merge, l.next, CasesHoldBreak(s.cases), CasesReturn(s.cases));
    LaidCasesGrows(c, d, brk, s.cases, l.cases, l.next);
  }

  // ---------------------------------------------------------------------------------------
  // Loops
  // ---------------------------------------------------------------------------------------

  /** The new header of a loop, entered from the current block, which is ended. */
  method EnterHeader(opt: Optimizer, ghost c: Context, ghost rest: set<Node>) returns (header: Node, ghost d: Context)
    requires Ready(opt, c, rest)
    modifies opt`program
    ensures Describes(opt, d) && Evolves(c, d, rest) && d.p.root == c.p.root
    ensures header == |c.p.blocks| && |d.p.blocks| == header + 1 && d.open == rest + {header}
    ensures d.p.variables == c.p.variables
    ensures d.p.blocks[header] == EMPTY_BLOCK && Blank(d.p, header) && header != d.p.root && Free(d, header)
    ensures Live(d, header)
    ensures FallsTo(d, Here(c.p, opt.currentBlock).value, header)
  {
    ghost var c1;
    header, c1 := AddNode(opt, c, rest, None);
    assert Successors(c1.p, opt.currentBlock.value) == {};
    LiveGrows(c, c1, opt.currentBlock.value);
    NoEdgeYet(c1, opt.currentBlock.value, header);
    d := FinishWithEdge(opt, c1, rest, opt.currentBlock.value, header);
    EvolvesTrans(c, c1, d, rest);
    assert d.open == rest + {header};
  }

  /** After the body of a loop, which was started in `c` and holds the blocks `held`. */
  ghost predicate InsideParsed(opt: Optimizer, c0: Context, c: Context, d: Context, rest: set<Node>, held: set<Node>,
                               scope: Scope, body: Node, next: Node, l: ScopeLayout, base: nat)
    reads opt
  {
    && Describes(opt, d) && d.open == rest + held + AsSet(opt.currentBlock)
    && Evolves(c0, d, rest) && Grown(c, d) && (forall x :: x in held ==> Untouched(c, d, x))
    && (opt.currentBlock.Some? ==>
          opt.currentBlock.value !in rest + held && Blank(d.p, opt.currentBlock.value) &&
            Live(d, opt.currentBlock.value))
    && (BodyBreaks(scope.body) ==> Live(d, next)) && (EndsNormally(scope.body) <==> opt.currentBlock.Some?)
    && LaidScope(d, Some(next), scope, l, body) && l.exit == Here(d.p, opt.currentBlock) && TmpsFresh(base, l.items)
  }

  /** Parses the body of a loop into `body`, with `next` as break target. */
  method ParseLoopBody(opt: Optimizer, scope: Scope, body: Node, next: Node, ghost base: nat, ghost c0: Context,
                       ghost c: Context,
                       ghost rest: set<Node>, ghost held: set<Node>)
    returns (ghost l: ScopeLayout, ghost d: Context)
    requires Describes(opt, c) && c.open == rest + held + {body} && body !in rest + held && Blank(c.p, body)
    requires c.p.blocks[body].ops == []
    requires Live(c, body) && next in held && next != c.p.root && NoPhis(c.p, next)
    requires Evolves(c0, c, rest) && c.p.root == c0.p.root && BreakTargets(c0.p, rest, opt.loopBreak)
    requires ProperBody(base, scope.body, true) && base <= opt.nextLocal
    requires Allowed(c, [next], ScopeTraits(scope))
    modifies opt
    ensures opt.loopBreak == old(opt.loopBreak) && opt.nextLocal >= old(opt.nextLocal)
    ensures InsideParsed(opt, c0, c, d, rest, held, scope, body, next, l, base)
    decreases scope, 1
  {
    BreakTargetsKept(c0, c, rest, opt.loopBreak);
    MoreBreakTargets(c.p, rest, rest + held, opt.loopBreak, next);
    opt.loopBreak := opt.loopBreak + [next];
    opt.currentBlock := Some(body);
    var _, l1, d1 := ParseScope(opt, scope, base, c, rest + held);
    l, d := l1, d1;
    opt.loopBreak := opt.loopBreak[..|opt.loopBreak| - 1];
    EvolvesLess(c, d, rest + held, rest);
    EvolvesTrans(c0, c, d, rest);
    assert forall x :: x in held ==> Untouched(c, d, x);
  }

  /** A new block that loops continue through, entered from `current` if there is one. */
  method AddContinueTarget(opt: Optimizer, current: Option<Node>, ghost c: Context, ghost rest: set<Node>)
    returns (n: Node, ghost d: Context)
    requires Describes(opt, c) && c.open == rest + AsSet(current)
    requires current.Some? ==> current.value !in rest && Blank(c.p, current.value) && Live(c, current.value)
    modifies opt`program
    ensures Describes(opt, d) && Evolves(c, d, rest) && d.p.root == c.p.root && d.open == rest + {n} && n != d.p.root
    ensures n == |c.p.blocks| && n < |d.p.blocks| && Blank(d.p, n) && d.p.blocks[n].ops == [] && NoPhis(d.p, n)
    ensures Predecessors(d.p, n) == AsSet(current)
    ensures ExitsTo(d, Here(c.p, current), n) && HasUse(d, n, ContinueTarget)
    ensures if current.Some? then Live(d, n) else Barred(d, n)
  {
    ghost var c1;
    n, c1 := AddNode(opt, c, rest, if current.Some? then None else Some(0));
    assert current.Some? ==> Successors(c1.p, current.value) == {};
    d := MarkUse(opt, c1, rest, n, ContinueTarget);
    EvolvesTrans(c, c1, d, rest);
    assert Untouched(c1, d, n) && (current.Some? ==> Untouched(c1, d, current.value));
    SoundStateGrows(c);
    assert Predecessors(d.p, n) == {};
    if current.Some? {
      ghost var c2 := d;
      GrownTrans(c, c1, c2);
      LiveGrows(c, c2, current.value);
      NoEdgeYet(c2, current.value, n);
      d := FinishWithEdge(opt, c2, rest, current.value, n);
      EvolvesTrans(c, c2, d, rest);
      assert (current.value, n) in d.p.edges;
      assert Predecessors(d.p, n) == {current.value};
    }
  }

  /**
   A new empty block that leads back to the header of a loop, entered from the end of the body if
   that can be reached.
   */
  method ContinueThrough(opt: Optimizer, current: Option<Node>, header: Node, ghost c: Context, ghost rest: set<Node>)
    returns (n: Node, ghost d: Context)
    requires Describes(opt, c) && c.open == rest + AsSet(current) && header in rest && header != c.p.root
    requires NoPhis(c.p, header) && Free(c, header)
    requires current.Some? ==> current.value !in rest && Blank(c.p, current.value) && Live(c, current.value)
    requires current.None? ==> !c.flows
    modifies opt`program
    ensures Describes(opt, d) && Evolves(c, d, rest) && d.p.root == c.p.root && d.open == rest
    ensures n == |c.p.blocks| && n < |d.p.blocks| && FallsTo(d, (n, 0), header)
    ensures Predecessors(d.p, n) == AsSet(current)
    ensures ExitsTo(d, Here(c.p, current), n) && (current.None? ==> Barred(d, n)) && HasUse(d, n, ContinueTarget)
  {
    ghost var c1;
    n, c1 := AddContinueTarget(opt, current, c, rest);
    assert Untouched(c, c1, header);
    NoEdgeYet(c1, n, header);
    d := FinishWithEdge(opt, c1, rest, n, header);
    EvolvesTrans(c, c1, d, rest);
    assert d.open == rest;
    assert Predecessors(d.p, n) == Predecessors(c1.p, n);
    ExitsToGrows(c1, d, Here(c.p, current), n);
  }

  /** The blocks of a loop: its header, entered from the current block, its body and the block after it. */
  method OpenLoop(opt: Optimizer, ghost c: Context, ghost rest: set<Node>, ghost limit: Option<nat>)
    returns (header: Node, body: Node, next: Node, ghost d: Context)
    requires Ready(opt, c, rest)
    modifies opt`program
    ensures Describes(opt, d) && Evolves(c, d, rest) && d.p.root == c.p.root
    ensures header == |c.p.blocks| && body == header + 1 && next == header + 2 && |d.p.blocks| == header + 3
    ensures d.open == rest + {header, next} + {body} && header != d.p.root && next != d.p.root
    ensures d.p.blocks[header] == EMPTY_BLOCK && d.p.blocks[body] == EMPTY_BLOCK && d.p.blocks[next] == EMPTY_BLOCK
    ensures Successors(d.p, header) == {body} && Blank(d.p, body) && Blank(d.p, next)
    ensures FallsTo(d, Here(c.p, opt.currentBlock).value, header) && Free(d, header) && LimitOf(d, next) == limit
    ensures Live(d, body)
  {
    ghost var c1, c2;
    header, c1 := EnterHeader(opt, c, rest);
    body, c2 := AddChild(opt, header, c1, rest, None);
    next, d := AddNode(opt, c2, rest, limit);
    LiveGrows(c2, d, body);
    EvolvesTrans(c, c1, c2, rest);
    EvolvesTrans(c, c2, d, rest);
    assert forall x :: Successors(d.p, x) == Successors(c2.p, x);
    GrownTrans(c1, c2, d);
    FallsToGrows(c1, d, Here(c.p, opt.currentBlock).value, header);
  }

  /** A loop with its header, the end of its body, if that can be reached, and the block after it still open. */
  ghost predicate LoopOpen(opt: Optimizer, c: Context, rest: set<Node>, header: Node, body: Node, next: Node)
    reads opt
  {
    && Describes(opt, c) && c.open == rest + {header, next} + AsSet(opt.currentBlock)
    && header !in rest && next !in rest && header != next && header != c.p.root
    && (opt.currentBlock.Some? ==>
          && opt.currentBlock.value !in rest + {header, next} && Blank(c.p, opt.currentBlock.value)
          && Live(c, opt.currentBlock.value))
    && c.p.blocks[header].phis == [] && c.p.blocks[header].ops == [] && Successors(c.p, header) == {body}
    && Blank(c.p, next) && c.p.blocks[next].ops == [] && Free(c, header)
  }

  /** Ends a loop: the body leads to a new block that leads back to the header. */
  method CloseLoop(opt: Optimizer, header: Node, body: Node, next: Node, ghost c: Context, ghost rest: set<Node>)
    returns (continueTarget: Node, ghost d: Context)
    requires LoopOpen(opt, c, rest, header, body, next) && (opt.currentBlock.None? ==> !c.flows) && Live(c, next)
    modifies opt`program, opt`currentBlock
    ensures Describes(opt, d) && Evolves(c, d, rest) && d.p.root == c.p.root
    ensures opt.currentBlock == Some(next) && d.open == rest + {next} && Blank(d.p, next) && Live(d, next)
    ensures d.p.blocks[next].ops == [] && Grown(c, d)
    ensures EndsWith(d, (header, 0), Loop(body)) && FallsTo(d, (continueTarget, 0), header)
    ensures ExitsTo(d, old(Here(c.p, opt.currentBlock)), continueTarget)
    ensures old(opt.currentBlock).None? ==> Barred(d, continueTarget)
    ensures HasUse(d, continueTarget, ContinueTarget) && HasUse(d, next, Merge)
  {
    ghost var held := {header, next};
    ghost var exit := Here(c.p, opt.currentBlock);
    ghost var c1;
    continueTarget, c1 := ContinueThrough(opt, opt.currentBlock, header, c, rest + held);
    assert Untouched(c, c1, header) && Untouched(c, c1, next);
    EvolvesLess(c, c1, rest + held, rest);
    assert c1.open == rest + {header, next};
    LiveGrows(c, c1, next);
    d := CloseFork(opt, header, next, Loop(body), Some(next), c1, rest);
    EvolvesTrans(c, c1, d, rest);
    FallsToGrows(c1, d, (continueTarget, 0), header);
    ExitsToGrows(c1, d, exit, continueTarget);
    UseGrows(c1, d, continueTarget, ContinueTarget);
  }

  /** Header and body of a loop, before it is closed. */
  method ParseLoopInside(opt: Optimizer, scope: Scope, ghost base: nat, ghost c: Context, ghost rest: set<Node>)
    returns (header: Node, body: Node, next: Node, ghost inner: ScopeLayout, ghost d: Context)
    requires Ready(opt, c, rest) && ProperBody(base, scope.body, true) && base <= opt.nextLocal
    requires Allowed(c, [], ScopeTraits(scope))
    modifies opt
    ensures opt.loopBreak == old(opt.loopBreak) && opt.nextLocal >= old(opt.nextLocal)
    ensures LoopOpen(opt, d, rest, header, body, next) && Evolves(c, d, rest) && next >= |c.p.blocks|
    ensures if BodyBreaks(scope.body) then Live(d, next) else Barred(d, next)
    ensures EndsNormally(scope.body) <==> opt.currentBlock.Some?
    ensures FallsTo(d, Here(c.p, old(opt.currentBlock)).value, header)
    ensures LaidScope(d, Some(next), scope, inner, body) && inner.exit == Here(d.p, opt.currentBlock)
    ensures TmpsFresh(base, inner.items)
    decreases scope, 2
  {
    ghost var from := Here(c.p, opt.currentBlock).value;
    ghost var c1;
    header, body, next, c1 := OpenLoop(opt, c, rest, if BodyBreaks(scope.body) then None else Some(0));
    inner, d := ParseLoopBody(opt, scope, body, next, base, c, c1, rest, {header, next});
    assert Untouched(c1, d, header) && Untouched(c1, d, next);
    FallsToGrows(c1, d, from, header);
  }

  lemma LoopAllowed(c: Context, loopBreak: seq<Node>, s: Stmt)
    requires s.Forever? && Allowed(c, loopBreak, StmtTraits(s))
    ensures Allowed(c, [], ScopeTraits(s.scope)) && (c.flows ==> EndsNormally(s.scope.body) && BodyBreaks(s.scope.body))
  {
  }

  method ParseLoop(opt: Optimizer, s: Stmt, ghost base: nat, ghost c: Context, ghost rest: set<Node>)
    returns (ghost l: StmtLayout, ghost d: Context)
    requires Ready(opt, c, rest) && s.Forever? && ProperStmt(base, s, opt.loopBreak != []) && base <= opt.nextLocal
    requires Allowed(c, opt.loopBreak, StmtTraits(s))
    modifies opt
    ensures opt.loopBreak == old(opt.loopBreak) && opt.nextLocal >= old(opt.nextLocal)
    ensures StmtParsed(opt, c, d, rest, old(opt.currentBlock.value), s, l, base)
    decreases s.scope, 3
  {
    LoopAllowed(c, opt.loopBreak, s);
    ghost var from := Here(c.p, opt.currentBlock).value;
    var header, body, next, inner, c1 := ParseLoopInside(opt, s.scope, base, c, rest);
    var continueTarget, d1 := CloseLoop(opt, header, body, next, c1, rest);
    d := d1;
    EvolvesTrans(c, c1, d, rest);
    l := LoopAt(Some((next, 0)), header, body, next, continueTarget, inner);
    LoopIsLaid(c1, d, Innermost(opt.loopBreak), s, l, from);
    LoopIsParsed(opt, c, d, rest, from.0, next, s, l, base);
  }

  /** After a loop control goes on with the empty block `next`. */
  lemma LoopIsParsed(opt: Optimizer, c: Context, d: Context, rest: set<Node>, current: Node, next: Node, s: Stmt,
                     l: StmtLayout, base: nat)
    requires Describes(opt, d) && Evolves(c, d, rest) && opt.currentBlock == Some(next) && d.open == rest + {next}
    requires next !in rest && next >= |c.p.blocks| && Blank(d.p, next) && Live(d, next) && d.p.blocks[next].ops == []
    requires (s.Forever? || s.RangeLoop?) && current < |c.p.blocks| && l.to == Some((next, 0)) && TmpFresh(base, l)
    requires LaidStmt(d, Innermost(opt.loopBreak), s, l, (current, |c.p.blocks[current].ops|))
    ensures StmtParsed(opt, c, d, rest, current, s, l, base)
  {
  }

  lemma LoopIsLaid(c: Context, d: Context, brk: Option<Node>, s: Stmt, l: StmtLayout, from: Point)
    requires s.Forever? && l.LoopAt? && l.to == Some((l.next, 0)) && Grown(c, d)
    requires FallsTo(c, from, l.header) && LaidScope(c, Some(l.next), s.scope, l.inner, l.body)
    requires EndsWith(d, (l.header, 0), Loop(l.body)) && ExitsTo(d, l.inner.exit, l.continueTarget)
    requires FallsTo(d, (l.continueTarget, 0), l.header)
    requires (!EndsNormally(s.scope.body) ==> Barred(d, l.continueTarget))
    requires (!BodyBreaks(s.scope.body) ==> Barred(c, l.next))
    requires HasUse(d, l.continueTarget, ContinueTarget) && HasUse(d, l.next, Merge)
    ensures LaidStmt(d, brk, s, l, from)
  {
    FallsToGrows(c, d, from, l.header);
    LaidBodyGrows(c, d, Some(l.next), s.scope.body, l.inner.items, (l.body, 0), l.inner.exit);
  }

  /** Declares the index of a range loop and sets it in the current block. */
  method SetIndex(opt: Optimizer, id: Id, start: Variable, ghost base: nat, ghost c: Context, ghost rest: set<Node>)
    returns (ghost d: Context)
    requires Ready(opt, c, rest) && ProperVar(base, start) && id in c.declared
    modifies opt`program
    ensures Ready(opt, d, rest) && Evolves(c, d, rest) && d.p.root == c.p.root && id in d.p.variables
    ensures |d.p.blocks| == |c.p.blocks|
    ensures var from := Here(c.p, opt.currentBlock).value;
            HasInstruction(d, from, Initialize(id, start)) && Here(d.p, opt.currentBlock) == Some((from.0, from.1 + 1))
  {
    ghost var c1 := DeclareVars(opt, c, rest, {id});
    d := PushOp(opt, c1, rest, opt.currentBlock.value, Initialize(id, start));
    EvolvesTrans(c, c1, d, rest);
    BreakTargetsKept(c, d, rest, opt.loopBreak);
    LiveGrows(c, d, opt.currentBlock.value);
  }

  /** A header entered from the current block, with two blocks it branches to. */
  method OpenHeader(opt: Optimizer, ghost c: Context, ghost rest: set<Node>)
    returns (header: Node, body: Node, next: Node, ghost d: Context)
    requires Ready(opt, c, rest)
    modifies opt`program
    ensures Describes(opt, d) && Evolves(c, d, rest) && d.p.root == c.p.root && d.p.variables == c.p.variables
    ensures header == |c.p.blocks| && body == header + 1 && next == header + 2 && |d.p.blocks| == header + 3
    ensures d.open == rest + {header, next} + {body} && header != d.p.root && next != d.p.root
    ensures d.p.blocks[header] == EMPTY_BLOCK && d.p.blocks[body] == EMPTY_BLOCK && d.p.blocks[next] == EMPTY_BLOCK
    ensures Successors(d.p, header) == {body, next} && Blank(d.p, body) && Blank(d.p, next)
    ensures Free(d, header) && Live(d, body) && Live(d, next)
    ensures LimitOf(d, body) == LimitOf(d, next) == if c.clean then Some(1) else None
    ensures FallsTo(d, Here(c.p, opt.currentBlock).value, header)
  {
    ghost var c1;
    header, c1 := EnterHeader(opt, c, rest);
    body, next, d := Fork(opt, header, c1, rest, if c.clean then Some(1) else None);
    EvolvesTrans(c, c1, d, rest);
    FallsToGrows(c1, d, Here(c.p, opt.currentBlock).value, header);
  }

  /** The blocks of a range loop, before its body is parsed. */
  ghost predicate RangeBlocks(c: Context, d: Context, rest: set<Node>, from: Point, id: Id, start: Variable,
                              header: Node, body: Node, next: Node) {
    && Evolves(c, d, rest) && id in d.p.variables
    && header == |c.p.blocks| && body == header + 1 && next == header + 2 && |d.p.blocks| == header + 3
    && d.open == rest + {header, next} + {body} && header != d.p.root && next != d.p.root
    && d.p.blocks[header] == EMPTY_BLOCK && d.p.blocks[body] == EMPTY_BLOCK && d.p.blocks[next] == EMPTY_BLOCK
    && Successors(d.p, header) == {body, next} && Blank(d.p, body) && Blank(d.p, next)
    && Free(d, header) && Live(d, body) && Live(d, next)
    && LimitOf(d, body) == LimitOf(d, next) == (if c.clean then Some(1) else None)
    && HasInstruction(d, from, Initialize(id, start)) && FallsTo(d, (from.0, from.1 + 1), header)
  }

  /** The blocks of a range loop; the current block sets the index and leads to the header. */
  method OpenRange(opt: Optimizer, id: Id, start: Variable, ghost base: nat, ghost c: Context, ghost rest: set<Node>)
    returns (header: Node, body: Node, next: Node, ghost d: Context)
    requires Ready(opt, c, rest) && ProperVar(base, start) && id in c.declared
    modifies opt`program
    ensures Describes(opt, d)
    ensures RangeBlocks(c, d, rest, Here(c.p, opt.currentBlock).value, id, start, header, body, next)
  {
    ghost var c1 := SetIndex(opt, id, start, base, c, rest);
    header, body, next, d := OpenHeader(opt, c1, rest);
    EvolvesTrans(c, c1, d, rest);
    HasInstructionGrows(c1, d, Here(c.p, opt.currentBlock).value, Initialize(id, start));
  }

  /**
   Ends the body of a loop in `current`: control returns to the header, through a new block if
   `current` is a merge block.
   */
  method ReturnToHeader(opt: Optimizer, header: Node, current: Node, ghost c: Context, ghost rest: set<Node>)
    returns (continueTarget: Node, ghost d: Context)
    requires Describes(opt, c) && current !in rest && Blank(c.p, current) && Live(c, current)
    requires c.open == rest + {current} && header in rest && header != c.p.root && NoPhis(c.p, header)
    requires Free(c, header)
    modifies opt`program
    ensures Describes(opt, d) && Evolves(c, d, rest) && d.p.root == c.p.root && d.open == rest
    ensures HasUse(d, continueTarget, ContinueTarget)
    ensures LoopsBack(d, (current, |c.p.blocks[current].ops|), continueTarget, header)
    ensures continueTarget == current ||
            (continueTarget >= |c.p.blocks| && Predecessors(d.p, continueTarget) == {current})
  {
    if Merge in opt.program.blocks[current].blockUse {
      continueTarget, d := ContinueThrough(opt, Some(current), header, c, rest);
    } else {
      continueTarget := current;
      ghost var c1 := MarkUse(opt, c, rest, current, ContinueTarget);
      assert Untouched(c, c1, current) && Untouched(c, c1, header);
      LiveGrows(c, c1, current);
      NoEdgeYet(c1, current, header);
      d := FinishWithEdge(opt, c1, rest, current, header);
      EvolvesTrans(c, c1, d, rest);
    }
    assert d.open == rest;
  }

  /** Ends the body of a range loop: the index advances and control returns to the header. */
  method CloseBody(opt: Optimizer, header: Node, id: Id, step: Option<Variable>, ghost base: nat, ghost c: Context,
                   ghost rest: set<Node>)
    returns (continueTarget: Node, ghost d: Context)
    requires Describes(opt, c) && opt.currentBlock.Some? && opt.currentBlock.value !in rest
    requires Blank(c.p, opt.currentBlock.value)
    requires Live(c, opt.currentBlock.value) && c.open == rest + {opt.currentBlock.value}
    requires header in rest && header != c.p.root && NoPhis(c.p, header) && Free(c, header)
    requires ProperVar(base, StepOf(step))
    modifies opt`program
    ensures Describes(opt, d) && Evolves(c, d, rest) && d.p.root == c.p.root && d.open == rest
    ensures HasUse(d, continueTarget, ContinueTarget)
    ensures var exit := Here(c.p, opt.currentBlock).value;
            && HasInstruction(d, exit, Advance(id, step)) && LoopsBack(d, (exit.0, exit.1 + 1), continueTarget, header)
            && (continueTarget == exit.0 ||
               (continueTarget >= |c.p.blocks| && Predecessors(d.p, continueTarget) == {exit.0}))
  {
    var current := opt.currentBlock.value;
    ghost var c1 := PushOp(opt, c, rest, current, Advance(id, step));
    LiveGrows(c, c1, current);
    continueTarget, d := ReturnToHeader(opt, header, current, c1, rest);
    EvolvesTrans(c, c1, d, rest);
    HasInstructionGrows(c1, d, Here(c.p, opt.currentBlock).value, Advance(id, step));
  }

  /** A phi for the index and the comparison, in the header of a range loop. */
  method CompareIndex(opt: Optimizer, header: Node, id: Id, end: Variable, inclusive: bool, ghost base: nat,
                      ghost c: Context, ghost rest: set<Node>)
    returns (tmp: Id, ghost d: Context)
    requires Describes(opt, c) && header in c.open && header !in rest && rest <= NodeIds(c.p)
    requires header != c.p.root && c.p.blocks[header].ops == [] && id in c.p.variables && ProperVar(base, end)
    requires Due(c, header, id)
    modifies opt`program, opt`nextLocal
    ensures Describes(opt, d) && Evolves(c, d, rest) && d.p.root == c.p.root && d.open == c.open
    ensures |d.p.blocks| == |c.p.blocks|
    ensures tmp == old(opt.nextLocal) && opt.nextLocal == tmp + 1
    ensures d.p.blocks[header].ops == [Comparison(id, end, inclusive, LocalConst(tmp))] && HasIndexPhi(d, header, id)
    ensures Grown(c, d)
    ensures forall x: Node :: x != header && x < |c.p.blocks| ==> d.p.blocks[x] == c.p.blocks[x]
    ensures forall x :: Successors(d.p, x) == Successors(c.p, x)
  {
    ghost var c1, phi := PlacePhi(opt, c, rest, header, id);
    tmp := opt.nextLocal;
    opt.nextLocal := opt.nextLocal + 1;
    d := PushOp(opt, c1, rest, header, Comparison(id, end, inclusive, LocalConst(tmp)));
    assert d.p.blocks[header].phis[|c.p.blocks[header].phis|] == phi;
    EvolvesTrans(c, c1, d, rest);
  }

  /** Ends the header of a range loop: a phi for the index, the comparison and the branch. */
  method CloseHeader(opt: Optimizer, header: Node, body: Node, next: Node, id: Id, end: Variable, inclusive: bool,
                     ghost base: nat, ghost c: Context, ghost rest: set<Node>)
    returns (tmp: Id, ghost d: Context)
    requires Describes(opt, c) && c.open == rest + {header, next} && header !in rest && next !in rest && header != next
    requires header != c.p.root && c.p.blocks[header].ops == [] && Successors(c.p, header) == {body, next}
    requires Blank(c.p, next)
    requires id in c.p.variables && ProperVar(base, end) && Due(c, header, id) && Live(c, next) && body < |c.p.blocks|
    requires c.clean ==> LimitOf(c, body) == LimitOf(c, next) == Some(1)
    modifies opt`program, opt`nextLocal, opt`currentBlock
    ensures Describes(opt, d) && Evolves(c, d, rest) && d.p.root == c.p.root
    ensures tmp == old(opt.nextLocal) && opt.nextLocal == tmp + 1
    ensures opt.currentBlock == Some(next) && d.open == rest + {next} && Blank(d.p, next) && Live(d, next)
    ensures d.p.blocks[next].ops == c.p.blocks[next].ops
    ensures HasInstruction(d, (header, 0), Comparison(id, end, inclusive, LocalConst(tmp)))
    ensures EndsWith(d, (header, 1), LoopBreak(LocalConst(tmp), body, next)) && HasIndexPhi(d, header, id)
    ensures HasUse(d, next, Merge)
  {
    ghost var c1;
    tmp, c1 := CompareIndex(opt, header, id, end, inclusive, base, c, rest);
    LiveGrows(c, c1, next);
    d := CloseFork(opt, header, next, LoopBreak(LocalConst(tmp), body, next), Some(next), c1, rest);
    EvolvesTrans(c, c1, d, rest);
    HasInstructionGrows(c1, d, (header, 0), Comparison(id, end, inclusive, LocalConst(tmp)));
  }

  /** The loop was opened in `c0` at the end of `from`; folded like `SoundState`. */
  ghost predicate Opened(c0: Context, from: Node, c: Context, rest: set<Node>, header: Node, next: Node) {
    forall d: Context {:trigger Fold(d)} :: d == c ==>
      && ValidGraph(c0.p) && Evolves(c0, d, rest) && c0.open == rest + {from} && from < |c0.p.blocks|
      && Finished(d, from)
      && Successors(d.p, from) == {header} && header >= |c0.p.blocks| && next >= |c0.p.blocks| && c0.p.root == d.p.root
  }

  /** A range loop that was opened in `c0`, with its header, the end of its body and the block after it still open. */
  ghost predicate RangeOpen(opt: Optimizer, s: Stmt, c0: Context, from: Node, c: Context, rest: set<Node>, header: Node,
                            body: Node, next: Node)
    reads opt
  {
    && Describes(opt, c) && opt.currentBlock.Some? && opt.currentBlock.value !in rest + {header, next}
    && Blank(c.p, opt.currentBlock.value) && Live(c, opt.currentBlock.value)
    && c.open == rest + {header, next} + {opt.currentBlock.value} && header !in rest && next !in rest && header != next
    && header != c.p.root && NoPhis(c.p, header) && c.p.blocks[header].ops == []
    && Successors(c.p, header) == {body, next}
    && body < |c.p.blocks| && Blank(c.p, next) && c.p.blocks[next].ops == [] && Live(c, next)
    && Free(c, header) && (c.clean ==> LimitOf(c, body) == LimitOf(c, next) == Some(1))
    && s.RangeLoop? && s.i in c.p.variables && Opened(c0, from, c, rest, header, next)
  }

  /** Header and body of a range loop, before the body is ended. */
  method ParseRangeBody(opt: Optimizer, s: Stmt, ghost base: nat, ghost c: Context, ghost rest: set<Node>)
    returns (header: Node, body: Node, next: Node, ghost inner: ScopeLayout, ghost d: Context)
    requires Ready(opt, c, rest) && s.RangeLoop? && ProperStmt(base, s, opt.loopBreak != []) && base <= opt.nextLocal
    requires Allowed(c, opt.loopBreak, StmtTraits(s))
    modifies opt
    ensures opt.loopBreak == old(opt.loopBreak) && opt.nextLocal >= old(opt.nextLocal)
    ensures RangeOpen(opt, s, c, old(opt.currentBlock.value), d, rest, header, body, next)
    ensures next >= |c.p.blocks| && body != next
    ensures var from := Here(c.p, old(opt.currentBlock)).value;
            HasInstruction(d, from, Initialize(s.i, s.start)) && FallsTo(d, (from.0, from.1 + 1), header)
    ensures LaidScope(d, Some(next), s.scope, inner, body) && TmpsFresh(base, inner.items)
    ensures inner.exit == Here(d.p, opt.currentBlock)
    decreases s.scope, 2
  {
    ghost var from := Here(c.p, opt.currentBlock).value;
    SoundIsValid(c);
    ghost var c1;
    header, body, next, c1 := OpenRange(opt, s.i, s.start, base, c, rest);
    inner, d := ParseLoopBody(opt, s.scope, body, next, base, c, c1, rest, {header, next});
    RangeIsOpen(opt, s, c, from, c1, d, rest, header, body, next, inner, base);
  }

  lemma RangeIsOpen(opt: Optimizer, s: Stmt, c0: Context, from: Point, c: Context, d: Context, rest: set<Node>,
                    header: Node, body: Node, next: Node, inner: ScopeLayout, base: nat)
    requires s.RangeLoop? && EndsNormally(s.scope.body) && from.0 < |c0.p.blocks| && ValidGraph(c0.p)
    requires c0.open == rest + {from.0} && rest <= NodeIds(c0.p)
    requires RangeBlocks(c0, c, rest, from, s.i, s.start, header, body, next)
    requires InsideParsed(opt, c0, c, d, rest, {header, next}, s.scope, body, next, inner, base)
    ensures RangeOpen(opt, s, c0, from.0, d, rest, header, body, next)
    ensures HasInstruction(d, from, Initialize(s.i, s.start)) && FallsTo(d, (from.0, from.1 + 1), header)
  {
    assert Untouched(c, d, header) && Untouched(c, d, next);
    LiveGrows(c, d, next);
    HasInstructionGrows(c, d, from, Initialize(s.i, s.start));
    FallsToGrows(c, d, (from.0, from.1 + 1), header);
  }

  /** Ends the body of a range loop; its blocks are entered only at the header from now on. */
  method EndRangeBody(opt: Optimizer, s: Stmt, header: Node, ghost body: Node, ghost next: Node, ghost base: nat,
                      ghost c0: Context, ghost from: Node, ghost c: Context, ghost rest: set<Node>)
    returns (continueTarget: Node, ghost d: Context)
    requires RangeOpen(opt, s, c0, from, c, rest, header, body, next) && ProperVar(base, StepOf(s.step))
    modifies opt`program
    ensures Describes(opt, d) && Evolves(c0, d, rest) && Grown(c, d) && d.p.root == c.p.root
    ensures d.open == rest + {header, next}
    ensures Untouched(c, d, header) && Untouched(c, d, next) && Due(d, header, s.i)
    ensures HasUse(d, continueTarget, ContinueTarget)
    ensures var exit := Here(c.p, opt.currentBlock).value;
            HasInstruction(d, exit, Advance(s.i, s.step)) && LoopsBack(d, (exit.0, exit.1 + 1), continueTarget, header)
  {
    ghost var exit := Here(c.p, opt.currentBlock).value;
    assert Fold(c);
    continueTarget, d := CloseBody(opt, header, s.i, s.step, base, c, rest + {header, next});
    assert Untouched(c, d, header) && Untouched(c, d, next);
    EvolvesLess(c, d, rest + {header, next}, rest);
    EvolvesTrans(c0, c, d, rest);
    BodyEndIsDue(c0, c, d, rest, from, header, next, exit, continueTarget, s.i, s.step);
  }

  /** Where a range loop sits while its header is still open: up to `c` its body, up to `d` the way back. */
  ghost predicate RangeLaid(c: Context, d: Context, s: Stmt, from: Point, header: Node, body: Node, next: Node,
                            continueTarget: Node, inner: ScopeLayout) {
    && s.RangeLoop? && Grown(c, d) && body != next && inner.exit.Some?
    && HasInstruction(c, from, Initialize(s.i, s.start)) && FallsTo(c, (from.0, from.1 + 1), header)
    && LaidScope(c, Some(next), s.scope, inner, body)
    && HasInstruction(d, inner.exit.value, Advance(s.i, s.step))
    && LoopsBack(d, (inner.exit.value.0, inner.exit.value.1 + 1), continueTarget, header)
  }

  /** Ends the body and the header of a range loop. */
  method CloseRange(opt: Optimizer, s: Stmt, header: Node, body: Node, next: Node, ghost base: nat, ghost c0: Context,
                    ghost from: Node, ghost c: Context, ghost rest: set<Node>)
    returns (continueTarget: Node, tmp: Id, ghost c1: Context, ghost d: Context)
    requires RangeOpen(opt, s, c0, from, c, rest, header, body, next) && ProperVar(base, s.end)
    requires ProperVar(base, StepOf(s.step))
    modifies opt`program, opt`nextLocal, opt`currentBlock
    ensures Describes(opt, d) && Evolves(c0, d, rest) && Grown(c, c1) && Grown(c1, d) && d.p.root == c.p.root
    ensures tmp == old(opt.nextLocal) && opt.nextLocal == tmp + 1
    ensures opt.currentBlock == Some(next) && d.open == rest + {next} && Blank(d.p, next) && Live(d, next)
    ensures d.p.blocks[next].ops == []
    ensures HasInstruction(d, (header, 0), Comparison(s.i, s.end, s.inclusive, LocalConst(tmp)))
    ensures EndsWith(d, (header, 1), LoopBreak(LocalConst(tmp), body, next)) && HasIndexPhi(d, header, s.i)
    ensures var exit := old(Here(c.p, opt.currentBlock)).value;
            HasInstruction(c1, exit, Advance(s.i, s.step)) &&
              LoopsBack(c1, (exit.0, exit.1 + 1), continueTarget, header)
    ensures HasUse(d, continueTarget, ContinueTarget) && HasUse(d, next, Merge)
  {
    continueTarget, c1 := EndRangeBody(opt, s, header, body, next, base, c0, from, c, rest);
    LiveGrows(c, c1, next);
    tmp, d := CloseHeader(opt, header, body, next, s.i, s.end, s.inclusive, base, c1, rest);
    EvolvesTrans(c0, c1, d, rest);
    UseGrows(c1, d, continueTarget, ContinueTarget);
  }

  /** The same, seen when the body has been ended. */
  lemma BodyEndIsDue(c0: Context, c: Context, d: Context, rest: set<Node>, from: Node, header: Node, next: Node,
                     exit: Point, latch: Node, id: Id, step: Option<Variable>)
    requires ValidGraph(c0.p) && Evolves(c0, c, rest) && c0.open == rest + {from} && from < |c0.p.blocks|
    requires Finished(c, from)
    requires Successors(c.p, from) == {header} && header >= |c0.p.blocks| && next >= |c0.p.blocks|
    requires c0.p.root == d.p.root
    requires SoundState(d) && Evolves(c, d, rest) && d.open == rest + {header, next} && header != next
    requires Blank(d.p, next)
    requires exit.0 in c.open && exit.0 !in d.open && HasInstruction(d, exit, Advance(id, step))
    requires LoopsBack(d, (exit.0, exit.1 + 1), latch, header)
    requires latch == exit.0 || (latch >= |c.p.blocks| && Predecessors(d.p, latch) == {exit.0})
    ensures Due(d, header, id)
  {
    EvolvesTrans(c0, c, d, rest);
    assert GrownAt(c0, c, exit.0) && GrownAt(c, d, from);
    SoundStateGrows(d);
    ReturnsAreFinished(d, header);
    IndexIsDue(c0, d, rest, from, header, next, exit, latch, id, step);
  }

  /** The blocks made for a range loop form a region that is entered only at the header. */
  lemma IndexIsDue(c: Context, d: Context, rest: set<Node>, from: Node, header: Node, next: Node, exit: Point,
                   latch: Node, id: Id, step: Option<Variable>)
    requires ValidGraph(c.p) && Evolves(c, d, rest) && Growing(d) && c.open == rest + {from} && from < |c.p.blocks|
    requires c.p.root == d.p.root
    requires d.open == rest + {header, next} && header != next && Successors(d.p, from) == {header} && Blank(d.p, next)
    requires header >= |c.p.blocks| && next >= |c.p.blocks| && exit.0 >= |c.p.blocks| && latch >= |c.p.blocks|
    requires header !in d.rets && exit.0 !in d.open && HasInstruction(d, exit, Advance(id, step))
    requires LoopsBack(d, (exit.0, exit.1 + 1), latch, header)
    requires latch == exit.0 || Predecessors(d.p, latch) == {exit.0}
    ensures Due(d, header, id)
  {
    var nodes := set b: Node | b in NodeIds(d.p) && b >= |c.p.blocks| && b !in d.rets && b != next;
    assert WritesLocal(d.p.blocks[exit.0].ops[exit.1], id);
    RegionIsEnteredAtHeader(c, d, rest, from, header, next, nodes);
    assert header in Successors(d.p, latch);
    ReturnsStayApart(d, latch, header);
    if latch != exit.0 {
      assert latch in Successors(d.p, exit.0);
      ReturnsStayApart(d, exit.0, latch);
    }
    assert LoopRegion(d.p, header, id, nodes, exit.0, latch);
    forall b | b in nodes * d.open
      ensures b == header
    {
      assert b in rest ==> Untouched(c, d, b);
    }
    assert Sealed(d, header, id, nodes, exit.0, latch);
  }

  /** A block that leads to something else than a return block is not a return block. */
  lemma ReturnsStayApart(c: Context, b: Node, t: Node)
    requires Growing(c) && t in Successors(c.p, b) && t !in c.rets
    ensures b !in c.rets
  {
    forall i: nat | i < |c.rets|
      ensures c.rets[i] != b
    {
      assert ReturnLink(c, i) && MatchedAt(c, c.rets[i]);
      if i > 0 {
        assert c.rets[i - 1] in c.rets;
      }
    }
  }

  lemma RegionIsEnteredAtHeader(c: Context, d: Context, rest: set<Node>, from: Node, header: Node, next: Node,
                                nodes: set<Node>)
    requires ValidGraph(c.p) && Evolves(c, d, rest) && Growing(d) && c.open == rest + {from}
    requires Successors(d.p, from) == {header} && Successors(d.p, next) == {} && header >= |c.p.blocks|
    requires nodes == set b: Node | b in NodeIds(d.p) && b >= |c.p.blocks| && b !in d.rets && b != next
    ensures EnteredOnlyAt(d.p, nodes, header)
  {
    forall e: Edge | e in d.p.edges && e.1 in nodes && e.0 !in nodes
      ensures e.1 == header
    {
      assert e.1 in Successors(d.p, e.0);
      assert GrownAt(c, d, e.0) && (e.0 in rest ==> Untouched(c, d, e.0));
      assert e in c.p.edges <==> e.1 in Successors(c.p, e.0);
      if e.0 in d.rets {
        ReturnsStayApart(d, e.0, e.1);
      }
    }
  }

  lemma LoopsBackGrows(c: Context, d: Context, at: Point, continueTarget: Node, header: Node)
    requires Grown(c, d) && LoopsBack(c, at, continueTarget, header)
    ensures LoopsBack(d, at, continueTarget, header)
  {
    if continueTarget == at.0 {
      FallsToGrows(c, d, at, header);
    } else {
      FallsToGrows(c, d, at, continueTarget);
      FallsToGrows(c, d, (continueTarget, 0), header);
    }
  }

  method ParseForLoop(opt: Optimizer, s: Stmt, ghost base: nat, ghost c: Context, ghost rest: set<Node>)
    returns (ghost l: StmtLayout, ghost d: Context)
    requires Ready(opt, c, rest) && s.RangeLoop? && ProperStmt(base, s, opt.loopBreak != []) && base <= opt.nextLocal
    requires Allowed(c, opt.loopBreak, StmtTraits(s))
    modifies opt
    ensures opt.loopBreak == old(opt.loopBreak) && opt.nextLocal >= old(opt.nextLocal)
    ensures StmtParsed(opt, c, d, rest, old(opt.currentBlock.value), s, l, base)
    decreases s.scope, 3
  {
    ghost var from := Here(c.p, opt.currentBlock).value;
    var header, body, next, inner, c1 := ParseRangeBody(opt, s, base, c, rest);
    l, d := EndRange(opt, s, header, body, next, base, c, from, c1, rest, inner);
  }

  /** Ends a range loop and goes on after it. */
  method EndRange(opt: Optimizer, s: Stmt, header: Node, body: Node, next: Node, ghost base: nat,
                  ghost c0: Context, ghost from: Point, ghost c: Context, ghost rest: set<Node>,
                  ghost inner: ScopeLayout)
    returns (ghost l: StmtLayout, ghost d: Context)
    requires RangeOpen(opt, s, c0, from.0, c, rest, header, body, next) && ProperVar(base, s.end)
    requires ProperVar(base, StepOf(s.step))
    requires base <= opt.nextLocal && from.0 < |c0.p.blocks| <= next && from.1 == |c0.p.blocks[from.0].ops|
    requires body != next
    requires HasInstruction(c, from, Initialize(s.i, s.start)) && FallsTo(c, (from.0, from.1 + 1), header)
    requires LaidScope(c, Some(next), s.scope, inner, body) && TmpsFresh(base, inner.items)
    requires inner.exit == Here(c.p, opt.currentBlock)
    modifies opt`program, opt`nextLocal, opt`currentBlock
    ensures opt.nextLocal >= old(opt.nextLocal)
    ensures StmtParsed(opt, c0, d, rest, from.0, s, l, base)
  {
    var continueTarget, tmp, c1, d1 := CloseRange(opt, s, header, body, next, base, c0, from.0, c, rest);
    d := d1;
    l := RangeAt(Some((next, 0)), header, body, next, continueTarget, tmp, inner);
    RangeIsLaid(c, c1, d, Innermost(opt.loopBreak), s, l, from);
    LoopIsParsed(opt, c0, d, rest, from.0, next, s, l, base);
  }

  lemma RangeIsLaid(c1: Context, c2: Context, d: Context, brk: Option<Node>, s: Stmt, l: StmtLayout, from: Point)
    requires l.RangeAt? && l.to == Some((l.next, 0)) && Grown(c2, d)
    requires RangeLaid(c1, c2, s, from, l.header, l.body, l.next, l.continueTarget, l.inner)
    requires HasInstruction(d, (l.header, 0), Comparison(s.i, s.end, s.inclusive, LocalConst(l.tmp)))
    requires EndsWith(d, (l.header, 1), LoopBreak(LocalConst(l.tmp), l.body, l.next)) && HasIndexPhi(d, l.header, s.i)
    requires s.i in c1.p.variables
    requires HasUse(d, l.continueTarget, ContinueTarget) && HasUse(d, l.next, Merge)
    ensures LaidStmt(d, brk, s, l, from)
  {
    var exit := l.inner.exit.value;
    GrownTrans(c1, c2, d);
    HasInstructionGrows(c1, d, from, Initialize(s.i, s.start));
    FallsToGrows(c1, d, (from.0, from.1 + 1), l.header);
    LaidBodyGrows(c1, d, Some(l.next), s.scope.body, l.inner.items, (l.body, 0), l.inner.exit);
    HasInstructionGrows(c2, d, exit, Advance(s.i, s.step));
    LoopsBackGrows(c2, d, (exit.0, exit.1 + 1), l.continueTarget, l.header);
  }

  // ---------------------------------------------------------------------------------------
  // Statements and scopes
  // ---------------------------------------------------------------------------------------

  method ParseStmt(opt: Optimizer, s: Stmt, ghost base: nat, ghost c: Context, ghost rest: set<Node>)
    returns (ghost l: StmtLayout, ghost d: Context)
    requires Ready(opt, c, rest) && ProperStmt(base, s, opt.loopBreak != []) && base <= opt.nextLocal
    requires Allowed(c, opt.loopBreak, StmtTraits(s))
    modifies opt
    ensures opt.loopBreak == old(opt.loopBreak) && opt.nextLocal >= old(opt.nextLocal)
    ensures StmtParsed(opt, c, d, rest, old(opt.currentBlock.value), s, l, base)
    decreases s, 7
  {
    match s {
      case Operation(_) => l, d := ParseOperation(opt, s, base, c, rest);
      case Conditional(_, _) => l, d := ParseIf(opt, s, base, c, rest);
      case Alternative(_, _, _) => l, d := ParseIfElse(opt, s, base, c, rest);
      case Selection(_, _) => l, d := ParseSwitch(opt, s, base, c, rest);
      case RangeLoop(_, _, _, _, _, _) => l, d := ParseForLoop(opt, s, base, c, rest);
      case Forever(_) => l, d := ParseLoop(opt, s, base, c, rest);
      case ReturnStmt => l, d := ParseReturn(opt, s, base, c, rest);
      case BreakStmt => l, d := ParseBreak(opt, s, base, c, rest);
    }
  }

  /** A body whose first `k` statements were parsed without a jump. */
  lemma {:induction false} ProperAt(base: nat, body: seq<Stmt>, inLoop: bool, k: nat)
    requires ProperBody(base, body, inLoop) && k < |body|
    ensures ProperStmt(base, body[k], inLoop) && (IsJump(body[k]) ==> k == |body| - 1)
    decreases k
  {
    if k > 0 {
      ProperAt(base, body[1..], inLoop, k - 1);
    }
  }

  /** What holds after the first `k` statements of a body. */
  ghost predicate ParsedUpTo(opt: Optimizer, c: Context, d: Context, rest: set<Node>, current: Node, body: seq<Stmt>,
                             k: nat,
                             items: seq<StmtLayout>, from: Point, base: nat)
    reads opt
    requires k <= |body|
  {
    && Parsed(opt, c, d, rest, current)
    && LaidBody(d, Innermost(opt.loopBreak), body[..k], items, from, Here(d.p, opt.currentBlock))
    && TmpsFresh(base, items)
    && (opt.currentBlock.None? <==> k > 0 && IsJump(body[k - 1])) && (opt.currentBlock.None? ==> k == |body|)
    && Breaking(d, opt.loopBreak, BodyBreaks(body[..k]))
  }

  method ParseNext(opt: Optimizer, body: seq<Stmt>, k: nat, ghost base: nat, ghost c: Context, ghost d0: Context,
                   ghost rest: set<Node>,
                   ghost current: Node, ghost items0: seq<StmtLayout>, ghost from: Point)
    returns (ghost items: seq<StmtLayout>, ghost d: Context)
    requires k < |body| && ParsedUpTo(opt, c, d0, rest, current, body, k, items0, from, base)
    requires BreakTargets(c.p, rest, opt.loopBreak) && ProperBody(base, body, opt.loopBreak != [])
    requires base <= opt.nextLocal
    requires Allowed(c, opt.loopBreak, BodyTraits(body))
    modifies opt
    ensures ParsedUpTo(opt, c, d, rest, current, body, k + 1, items, from, base)
    ensures opt.loopBreak == old(opt.loopBreak) && opt.nextLocal >= old(opt.nextLocal)
    ensures d0.p.variables <= d.p.variables
    decreases body, 0
  {
    ghost var brk, at, done := Innermost(opt.loopBreak), Here(d0.p, opt.currentBlock).value, body[..k];
    ProperAt(base, body, opt.loopBreak != [], k);
    BreakTargetsKept(c, d0, rest, opt.loopBreak);
    TraitsAt(body, k);
    AllowedKept(c, d0, rest, opt.loopBreak, BodyTraits(body), StmtTraits(body[k]));
    ghost var item;
    item, d := ParseStmt(opt, body[k], base, d0, rest);
    EvolvesTrans(c, d0, d, rest);
    items := items0 + [item];
    AppendStatement(d0, d, brk, done, items0, from, at, body[k], item, base);
    TakeNext(body, k);
    BreakingKept(d0, d, opt.loopBreak, BodyBreaks(done));
    BreaksSnoc(done, body[k]);
  }

  lemma {:induction false} BreaksSnoc(body: seq<Stmt>, s: Stmt)
    ensures BodyBreaks(body + [s]) <==> BodyBreaks(body) || StmtBreaks(s)
  {
    if body == [] {
      assert (body + [s])[1..] == [];
    } else {
      BreaksSnoc(body[1..], s);
      assert (body + [s])[1..] == body[1..] + [s];
    }
  }

  lemma TakeNext(body: seq<Stmt>, k: nat)
    requires k < |body|
    ensures body[..k + 1] == body[..k] + [body[k]]
  {
  }

  lemma AppendStatement(c: Context, d: Context, brk: Option<Node>, body: seq<Stmt>, items: seq<StmtLayout>, from: Point,
                        at: Point, s: Stmt, l: StmtLayout, base: nat)
    requires Grown(c, d) && LaidBody(c, brk, body, items, from, Some(at)) && TmpsFresh(base, items)
    requires LaidStmt(d, brk, s, l, at) && TmpFresh(base, l)
    ensures LaidBody(d, brk, body + [s], items + [l], from, l.to) && TmpsFresh(base, items + [l])
  {
    LaidBodyGrows(c, d, brk, body, items, from, Some(at));
    LaidAppend(d, brk, body, items, from, at, s, l);
    TmpsFreshAppend(base, items, l);
  }

  method ParseScope(opt: Optimizer, scope: Scope, ghost base: nat, ghost c: Context, ghost rest: set<Node>)
    returns (isBreak: bool, ghost l: ScopeLayout, ghost d: Context)
    requires Ready(opt, c, rest) && ProperBody(base, scope.body, opt.loopBreak != []) && base <= opt.nextLocal
    requires Allowed(c, opt.loopBreak, ScopeTraits(scope))
    modifies opt
    ensures Parsed(opt, c, d, rest, old(opt.currentBlock.value))
    ensures opt.loopBreak == old(opt.loopBreak) && opt.nextLocal >= old(opt.nextLocal)
    ensures LaidBody(d, Innermost(opt.loopBreak), scope.body, l.items, Here(c.p, old(opt.currentBlock)).value, l.exit)
    ensures l.exit == Here(d.p, opt.currentBlock) && TmpsFresh(base, l.items)
    ensures (EndsNormally(scope.body) <==> opt.currentBlock.Some?) && Breaking(d, opt.loopBreak, BodyBreaks(scope.body))
    ensures (isBreak <==> BreakStmt in scope.body) && scope.vars <= d.p.variables
    decreases scope, 0
  {
    isBreak := BreakStmt in scope.body;
    var body := scope.body;
    ghost var current, from := opt.currentBlock.value, Here(c.p, opt.currentBlock).value;
    ghost var items: seq<StmtLayout> := [];
    d := DeclareVars(opt, c, rest, scope.vars);
    LiveGrows(c, d, current);
    var k := 0;
    while k < |body|
      invariant k <= |body| && ParsedUpTo(opt, c, d, rest, current, body, k, items, from, base)
      invariant opt.loopBreak == old(opt.loopBreak) && opt.nextLocal >= old(opt.nextLocal)
      invariant scope.vars <= d.p.variables
    {
      items, d := ParseNext(opt, body, k, base, c, d, rest, current, items, from);
      k := k + 1;
    }
    assert body[..|body|] == body;
    l := ScopeLayout(items, Here(d.p, opt.currentBlock));
  }
}
