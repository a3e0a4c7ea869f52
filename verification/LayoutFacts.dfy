/** Layouts survive the growth of the graph and can be extended statement by statement. */
module LayoutFacts {
  import opened Options
  import opened Ir
  import opened Structured
  import opened Layout

  predicate SameCode(a: BasicBlock, b: BasicBlock) {
    a.ops == b.ops && a.flow == b.flow && a.phis == b.phis
  }

  /** What becomes of block `b`: finished blocks stay as they are, open ones only gain instructions. */
  ghost predicate GrownAt(c: Context, d: Context, b: Node) {
    b < |c.p.blocks| ==>
      && b < |d.p.blocks| && c.p.blocks[b].blockUse <= d.p.blocks[b].blockUse
      && if b in c.open then c.p.blocks[b].ops <= d.p.blocks[b].ops
         else b !in d.open && SameCode(c.p.blocks[b], d.p.blocks[b]) && Successors(d.p, b) == Successors(c.p, b)
  }

  ghost predicate Grown(c: Context, d: Context) {
    && |c.p.blocks| <= |d.p.blocks| && c.rets <= d.rets && c.p.variables <= d.p.variables
    && c.p.edges <= d.p.edges && d.p.root == c.p.root
    && d.clean == c.clean && d.quiet == c.quiet && d.flows == c.flows && d.declared == c.declared
    && (forall b: Node {:trigger LimitOf(d, b)} {:trigger LimitOf(c, b)} ::
       b < |c.p.blocks| ==> LimitOf(d, b) == LimitOf(c, b))
    && forall b: Node {:trigger GrownAt(c, d, b)} :: GrownAt(c, d, b)
  }

  lemma GrownTrans(c: Context, d: Context, e: Context)
    requires Grown(c, d) && Grown(d, e)
    ensures Grown(c, e)
  {
    forall b: Node
      ensures GrownAt(c, e, b)
    {
      assert GrownAt(c, d, b) && GrownAt(d, e, b);
    }
  }

  /** Control can get to the block: it starts the program or some edge leads to it. */
  ghost predicate Entered(p: Program, b: Node) {
    b == p.root || Predecessors(p, b) != {}
  }

  /** What holds of the blocks control goes on from, if all of the kernel can be reached. */
  ghost predicate Live(c: Context, b: Node) {
    c.flows ==> Entered(c.p, b)
  }

  lemma LiveGrows(c: Context, d: Context, b: Node)
    requires Grown(c, d) && Live(c, b)
    ensures Live(d, b)
  {
    if x :| x in Predecessors(c.p, b) {
      assert (x, b) in d.p.edges;
      assert x in Predecessors(d.p, b);
    }
  }

  lemma FallsToGrows(c: Context, d: Context, at: Point, t: Node)
    requires Grown(c, d) && FallsTo(c, at, t)
    ensures FallsTo(d, at, t)
  {
    assert GrownAt(c, d, at.0);
  }

  lemma EndsWithGrows(c: Context, d: Context, at: Point, flow: ControlFlow)
    requires Grown(c, d) && EndsWith(c, at, flow)
    ensures EndsWith(d, at, flow)
  {
    assert GrownAt(c, d, at.0);
  }

  lemma HasInstructionGrows(c: Context, d: Context, at: Point, inst: Instruction)
    requires Grown(c, d) && HasInstruction(c, at, inst)
    ensures HasInstruction(d, at, inst)
  {
    assert GrownAt(c, d, at.0);
  }

  lemma UseGrows(c: Context, d: Context, b: Node, use: BlockUse)
    requires Grown(c, d) && HasUse(c, b, use)
    ensures HasUse(d, b, use)
  {
    assert GrownAt(c, d, b);
  }

  lemma MergeGrows(c: Context, d: Context, merge: Option<Node>, next: Node, breaks: bool, stops: bool)
    requires Grown(c, d) && MergeIs(c, merge, next, breaks, stops)
    ensures MergeIs(d, merge, next, breaks, stops) && (MergeMarked(c, merge) ==> MergeMarked(d, merge))
  {
    if merge.Some? && HasUse(c, merge.value, Merge) {
      UseGrows(c, d, merge.value, Merge);
    }
  }

  lemma ExitsToGrows(c: Context, d: Context, exit: Option<Point>, t: Node)
    requires Grown(c, d) && ExitsTo(c, exit, t)
    ensures ExitsTo(d, exit, t)
  {
    if exit.Some? {
      FallsToGrows(c, d, exit.value, t);
    }
  }

  lemma {:induction false} LaidBodyGrows(c: Context, d: Context, brk: Option<Node>, body: seq<Stmt>,
                                         items: seq<StmtLayout>, from: Point, exit: Option<Point>)
    requires Grown(c, d) && LaidBody(c, brk, body, items, from, exit)
    ensures LaidBody(d, brk, body, items, from, exit)
    decreases body, 1
  {
    if body != [] {
      LaidStmtGrows(c, d, brk, body[0], items[0], from);
      if items[0].to.Some? {
        LaidBodyGrows(c, d, brk, body[1..], items[1..], items[0].to.value, exit);
      }
    }
  }

  lemma {:induction false} LaidScopeGrows(c: Context, d: Context, brk: Option<Node>, scope: Scope, l: ScopeLayout,
                                          start: Node, t: Node)
    requires Grown(c, d) && LaidScope(c, brk, scope, l, start) && ExitsTo(c, l.exit, t)
    ensures LaidScope(d, brk, scope, l, start) && ExitsTo(d, l.exit, t)
    decreases scope, 1
  {
    LaidBodyGrows(c, d, brk, scope.body, l.items, (start, 0), l.exit);
    ExitsToGrows(c, d, l.exit, t);
  }

  lemma {:induction false} LaidStmtGrows(c: Context, d: Context, brk: Option<Node>, s: Stmt, l: StmtLayout, from: Point)
    requires Grown(c, d) && LaidStmt(c, brk, s, l, from)
    ensures LaidStmt(d, brk, s, l, from)
    decreases s, 0
  {
    match s
    case Operation(inst) => HasInstructionGrows(c, d, from, inst);
    case Conditional(cond, scope) =>
      EndsWithGrows(c, d, from, IfElse(cond, l.then_, l.next));
      LaidScopeGrows(c, d, brk, scope, l.inner, l.then_, l.next);
      MergeGrows(c, d, l.merge, l.next, BreakStmt in scope.body, !EndsNormally(scope.body));
    case Alternative(cond, scopeIf, scopeElse) =>
      EndsWithGrows(c, d, from, IfElse(cond, l.then_, l.orElse));
      LaidScopeGrows(c, d, brk, scopeIf, l.innerIf, l.then_, l.next);
      LaidScopeGrows(c, d, brk, scopeElse, l.innerElse, l.orElse, l.next);
      MergeGrows(c, d, l.merge, l.next, BreakStmt in scopeIf.body || BreakStmt in scopeElse.body,
                 !EndsNormally(scopeIf.body) || !EndsNormally(scopeElse.body));
    case Selection(value, cases) =>
      EndsWithGrows(c, d, from, Switch(value, DefaultNode(l.cases), Branches(cases, l.cases)));
      LaidCasesGrows(c, d, brk, cases, l.cases, l.next);
      MergeGrows(c, d, l.merge, l.next, CasesHoldBreak(cases), CasesReturn(cases));
      if !CasesHoldBreak(cases) && !CasesReturn(cases) {
        UseGrows(c, d, l.next, Merge);
      }
    case Forever(scope) =>
      FallsToGrows(c, d, from, l.header);
      EndsWithGrows(c, d, (l.header, 0), Loop(l.body));
      LaidScopeGrows(c, d, Some(l.next), scope, l.inner, l.body, l.continueTarget);
      FallsToGrows(c, d, (l.continueTarget, 0), l.header);
      UseGrows(c, d, l.continueTarget, ContinueTarget);
      UseGrows(c, d, l.next, Merge);
    case RangeLoop(_, _, _, _, _, _) => LaidRangeGrows(c, d, brk, s, l, from);
    case ReturnStmt => FallsToGrows(c, d, from, l.target);
    case BreakStmt => FallsToGrows(c, d, from, l.target);
  }

  lemma {:induction false} LaidRangeGrows(c: Context, d: Context, brk: Option<Node>, s: Stmt, l: StmtLayout,
                                          from: Point)
    requires Grown(c, d) && s.RangeLoop? && LaidStmt(c, brk, s, l, from)
    ensures LaidStmt(d, brk, s, l, from)
    decreases s.scope, 2
  {
    var exit := l.inner.exit.value;
    HasInstructionGrows(c, d, from, Initialize(s.i, s.start));
    FallsToGrows(c, d, (from.0, from.1 + 1), l.header);
    HasInstructionGrows(c, d, (l.header, 0), Comparison(s.i, s.end, s.inclusive, LocalConst(l.tmp)));
    EndsWithGrows(c, d, (l.header, 1), LoopBreak(LocalConst(l.tmp), l.body, l.next));
    assert GrownAt(c, d, l.header);
    LaidBodyGrows(c, d, Some(l.next), s.scope.body, l.inner.items, (l.body, 0), l.inner.exit);
    HasInstructionGrows(c, d, exit, Advance(s.i, s.step));
    UseGrows(c, d, l.continueTarget, ContinueTarget);
    UseGrows(c, d, l.next, Merge);
    if l.continueTarget == exit.0 {
      FallsToGrows(c, d, (exit.0, exit.1 + 1), l.header);
    } else {
      FallsToGrows(c, d, (exit.0, exit.1 + 1), l.continueTarget);
      FallsToGrows(c, d, (l.continueTarget, 0), l.header);
    }
  }

  lemma {:induction false} LaidCasesGrows(c: Context, d: Context, brk: Option<Node>, cases: Cases, l: CasesLayout,
                                          next: Node)
    requires Grown(c, d) && LaidCases(c, brk, cases, l, next)
    ensures LaidCases(d, brk, cases, l, next)
    decreases cases, 0
  {
    match cases
    case Default(scope) => LaidScopeGrows(c, d, brk, scope, l.inner, l.node, next);
    case Case(_, scope, rest) =>
      LaidScopeGrows(c, d, brk, scope, l.inner, l.node, next);
      LaidCasesGrows(c, d, brk, rest, l.rest, next);
  }

  /** Whatever a laid-out body declares is tracked. */
  lemma {:induction false} BodyIsDeclared(c: Context, brk: Option<Node>, body: seq<Stmt>, items: seq<StmtLayout>,
                                          from: Point, exit: Option<Point>)
    requires LaidBody(c, brk, body, items, from, exit)
    ensures BodyVars(body) <= c.p.variables
    decreases body, 1
  {
    if body != [] {
      StmtIsDeclared(c, brk, body[0], items[0], from);
      if items[0].to.Some? {
        BodyIsDeclared(c, brk, body[1..], items[1..], items[0].to.value, exit);
      }
    }
  }

  lemma {:induction false} StmtIsDeclared(c: Context, brk: Option<Node>, s: Stmt, l: StmtLayout, from: Point)
    requires LaidStmt(c, brk, s, l, from)
    ensures StmtVars(s) <= c.p.variables
    decreases s, 0
  {
    match s
    case Conditional(_, scope) => BodyIsDeclared(c, brk, scope.body, l.inner.items, (l.then_, 0), l.inner.exit);
    case Alternative(_, scopeIf, scopeElse) =>
      BodyIsDeclared(c, brk, scopeIf.body, l.innerIf.items, (l.then_, 0), l.innerIf.exit);
      BodyIsDeclared(c, brk, scopeElse.body, l.innerElse.items, (l.orElse, 0), l.innerElse.exit);
    case Selection(_, cases) => CasesAreDeclared(c, brk, cases, l.cases, l.next);
    case Forever(scope) => BodyIsDeclared(c, Some(l.next), scope.body, l.inner.items, (l.body, 0), l.inner.exit);
    case RangeLoop(_, _, _, _, _, scope) =>
      BodyIsDeclared(c, Some(l.next), scope.body, l.inner.items, (l.body, 0), l.inner.exit);
    case _ =>
  }

  lemma {:induction false} CasesAreDeclared(c: Context, brk: Option<Node>, cases: Cases, l: CasesLayout, next: Node)
    requires LaidCases(c, brk, cases, l, next)
    ensures CasesVars(cases) <= c.p.variables
    decreases cases, 0
  {
    BodyIsDeclared(c, brk, cases.scope.body, l.inner.items, (l.node, 0), l.inner.exit);
    if cases.Case? {
      CasesAreDeclared(c, brk, cases.rest, l.rest, next);
    }
  }

  /** One more statement at the end of a body. */
  lemma {:induction false} LaidAppend(c: Context, brk: Option<Node>, body: seq<Stmt>, items: seq<StmtLayout>,
                                      from: Point, at: Point, s: Stmt, l: StmtLayout)
    requires LaidBody(c, brk, body, items, from, Some(at)) && LaidStmt(c, brk, s, l, at)
    ensures LaidBody(c, brk, body + [s], items + [l], from, l.to)
    decreases body
  {
    var body', items' := body + [s], items + [l];
    if body == [] {
      assert body' == [s] && items' == [l] && body'[1..] == [] && items'[1..] == [];
      if l.to.Some? {
        assert LaidBody(c, brk, [], [], l.to.value, l.to);
      }
    } else {
      LaidAppend(c, brk, body[1..], items[1..], items[0].to.value, at, s, l);
      assert body'[1..] == body[1..] + [s] && items'[1..] == items[1..] + [l];
    }
  }

  lemma {:induction false} TmpsFreshAppend(base: nat, items: seq<StmtLayout>, l: StmtLayout)
    requires TmpsFresh(base, items) && TmpFresh(base, l)
    ensures TmpsFresh(base, items + [l])
    decreases items
  {
    if items == [] {
      assert (items + [l])[1..] == [];
    } else {
      TmpsFreshAppend(base, items[1..], l);
      assert (items + [l])[1..] == items[1..] + [l];
    }
  }
}
