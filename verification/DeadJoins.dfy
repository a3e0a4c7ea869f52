/**
 When the graph of a kernel has a join that cannot be reached on every way into it, on which the
 transform stops: exactly if control cannot reach all of the kernel.
 */
module DeadJoins {
  import opened Options
  import opened Ir
  import opened Structured
  import opened Dominance
  import DomFrontiers
  import opened LoopRegions
  import opened Layout
  import opened LayoutFacts
  import opened ParseState
  import opened LoweringCorrect

  /** In a kernel all of which can be reached, every edge leaves a block that can be reached. */
  lemma FlowingHasNoDeadJoin(p: Program, body: seq<Stmt>, base: nat, c: Context, l: ScopeLayout)
    requires IsLowering(p, body, base, c, l) && BodyFlows(body)
    ensures !DomFrontiers.HasDeadJoin(p)
  {
    forall b: Node, pred: Node
      ensures !DomFrontiers.IsDeadJoin(p, b, pred)
    {
      assert SourceReached(c, (pred, b));
      if (pred, b) in p.edges {
        ReachableNext(p, pred, b);
      }
    }
  }

  // ---------------------------------------------------------------------------------------
  // Kernels whose loops can be left
  // ---------------------------------------------------------------------------------------

  /** The body holds a jump that is not inside a further loop. */
  predicate BodyJumps(body: seq<Stmt>)
    decreases body, 1
  {
    body != [] && (StmtJumps(body[0]) || BodyJumps(body[1..]))
  }

  predicate StmtJumps(s: Stmt)
    decreases s, 0
  {
    match s
    case Conditional(_, scope) => BodyJumps(scope.body)
    case Alternative(_, scopeIf, scopeElse) => BodyJumps(scopeIf.body) || BodyJumps(scopeElse.body)
    case Selection(_, cases) => CasesJump(cases)
    case _ => IsJump(s)
  }

  predicate CasesJump(cases: Cases)
    decreases cases, 0
  {
    BodyJumps(cases.scope.body) || (cases.Case? && CasesJump(cases.rest))
  }

  /** Every `loop` of the body holds a jump out of it. */
  predicate BodyLeaves(body: seq<Stmt>)
    decreases body, 1
  {
    body == [] || (StmtLeaves(body[0]) && BodyLeaves(body[1..]))
  }

  predicate StmtLeaves(s: Stmt)
    decreases s, 0
  {
    match s
    case Conditional(_, scope) => BodyLeaves(scope.body)
    case Alternative(_, scopeIf, scopeElse) => BodyLeaves(scopeIf.body) && BodyLeaves(scopeElse.body)
    case Selection(_, cases) => CasesLeave(cases)
    case RangeLoop(_, _, _, _, _, scope) => BodyLeaves(scope.body)
    case Forever(scope) => BodyJumps(scope.body) && BodyLeaves(scope.body)
    case _ => true
  }

  predicate CasesLeave(cases: Cases)
    decreases cases, 0
  {
    BodyLeaves(cases.scope.body) && (cases.Case? ==> CasesLeave(cases.rest))
  }

  // ---------------------------------------------------------------------------------------
  // In their graphs every block leads to a return
  // ---------------------------------------------------------------------------------------

  ghost predicate PathBetween(p: Program, path: seq<Node>, b: Node, t: Node) {
    IsPath(p, path) && path[0] == b && path[|path| - 1] == t
  }

  /** Some way leads from `b` to the block that returns. */
  ghost predicate Returns(c: Context, b: Node) {
    c.rets != [] && exists path :: PathBetween(c.p, path, b, c.rets[0])
  }

  ghost predicate AllReturn(c: Context, blocks: Option<Node>) {
    blocks.Some? ==> Returns(c, blocks.value)
  }

  lemma ReturnsBefore(c: Context, b: Node, t: Node)
    requires Returns(c, t) && t in Successors(c.p, b)
    ensures Returns(c, b)
  {
    var path :| PathBetween(c.p, path, t, c.rets[0]);
    var longer := [b] + path;
    assert forall i :: 1 <= i < |longer| ==> longer[i] == path[i - 1];
    assert PathBetween(c.p, longer, b, c.rets[0]);
  }

  lemma {:induction false} ReturnBlocksReturn(c: Context, i: nat)
    requires ReturnChain(c) && i < |c.rets|
    ensures Returns(c, c.rets[i])
  {
    assert ReturnLink(c, i);
    if i == 0 {
      assert PathBetween(c.p, [c.rets[0]], c.rets[0], c.rets[0]);
    } else {
      ReturnBlocksReturn(c, i - 1);
      assert c.rets[i - 1] in Successors(c.p, c.rets[i]);
      ReturnsBefore(c, c.rets[i], c.rets[i - 1]);
    }
  }

  lemma FallReturns(c: Context, at: Point, t: Node)
    requires FallsTo(c, at, t) && Returns(c, t)
    ensures Returns(c, at.0)
  {
    assert t in Successors(c.p, at.0);
    ReturnsBefore(c, at.0, t);
  }

  lemma BranchReturns(c: Context, at: Point, flow: ControlFlow, t: Node)
    requires EndsWith(c, at, flow) && t in Targets(flow) && Returns(c, t)
    ensures Returns(c, at.0)
  {
    ReturnsBefore(c, at.0, t);
  }

  ghost function NodeOf(at: Option<Point>): Option<Node> {
    if at.Some? then Some(at.value.0) else None
  }

  lemma ExitReturns(c: Context, exit: Option<Point>, t: Node)
    requires ExitsTo(c, exit, t) && Returns(c, t)
    ensures AllReturn(c, NodeOf(exit))
  {
    if exit.Some? {
      FallReturns(c, exit.value, t);
    }
  }

  /** If what follows a body returns, and what its breaks lead to, so does the body. */
  lemma {:induction false} BodyReturns(c: Context, brk: Option<Node>, body: seq<Stmt>, items: seq<StmtLayout>,
                                       from: Point, exit: Option<Point>)
    requires LaidBody(c, brk, body, items, from, exit) && ReturnChain(c) && BodyLeaves(body)
    requires AllReturn(c, brk) && AllReturn(c, NodeOf(exit))
    ensures Returns(c, from.0)
    decreases body, 1
  {
    if body != [] {
      if items[0].to.Some? {
        BodyReturns(c, brk, body[1..], items[1..], items[0].to.value, exit);
      }
      StmtReturns(c, brk, body[0], items[0], from);
    }
  }

  lemma {:induction false} StmtReturns(c: Context, brk: Option<Node>, s: Stmt, l: StmtLayout, from: Point)
    requires LaidStmt(c, brk, s, l, from) && ReturnChain(c) && StmtLeaves(s)
    requires AllReturn(c, brk) && AllReturn(c, NodeOf(l.to))
    ensures Returns(c, from.0)
    decreases s, 0
  {
    match s
    case Operation(_) =>
    case Conditional(cond, _) => BranchReturns(c, from, IfElse(cond, l.then_, l.next), l.next);
    case Alternative(cond, scopeIf, _) =>
      ExitReturns(c, l.innerIf.exit, l.next);
      BodyReturns(c, brk, scopeIf.body, l.innerIf.items, (l.then_, 0), l.innerIf.exit);
      BranchReturns(c, from, IfElse(cond, l.then_, l.orElse), l.then_);
    case Selection(value, cases) =>
      CasesReturn(c, brk, cases, l.cases, l.next);
      BranchReturns(c, from, Switch(value, DefaultNode(l.cases), Branches(cases, l.cases)), DefaultNode(l.cases));
    case Forever(_) => LoopReturns(c, brk, s, l, from);
    case RangeLoop(_, _, _, _, _, _) =>
      BranchReturns(c, (l.header, 1), LoopBreak(LocalConst(l.tmp), l.body, l.next), l.next);
      FallReturns(c, (from.0, from.1 + 1), l.header);
    case ReturnStmt => JumpReturns(c, from, l.target);
    case BreakStmt => FallReturns(c, from, l.target);
  }

  lemma JumpReturns(c: Context, from: Point, target: Node)
    requires ReturnChain(c) && target in c.rets && FallsTo(c, from, target)
    ensures Returns(c, from.0)
  {
    var i :| 0 <= i < |c.rets| && c.rets[i] == target;
    ReturnBlocksReturn(c, i);
    FallReturns(c, from, target);
  }

  /** A loop returns from its header, if it is left at all. */
  lemma {:induction false} LoopReturns(c: Context, brk: Option<Node>, s: Stmt, l: StmtLayout, from: Point)
    requires s.Forever? && LaidStmt(c, brk, s, l, from) && ReturnChain(c) && StmtLeaves(s) && Returns(c, l.next)
    ensures Returns(c, from.0) && Returns(c, l.header)
    decreases s.scope, 2
  {
    BodyJumpsReturn(c, Some(l.next), s.scope.body, l.inner.items, (l.body, 0), l.inner.exit);
    BranchReturns(c, (l.header, 0), Loop(l.body), l.body);
    FallReturns(c, from, l.header);
  }

  lemma {:induction false} CasesReturn(c: Context, brk: Option<Node>, cases: Cases, l: CasesLayout, next: Node)
    requires LaidCases(c, brk, cases, l, next) && ReturnChain(c) && CasesLeave(cases) && AllReturn(c, brk)
    requires Returns(c, next)
    ensures Returns(c, DefaultNode(l))
    decreases cases, 0
  {
    if cases.Default? {
      ExitReturns(c, l.inner.exit, next);
      BodyReturns(c, brk, cases.scope.body, l.inner.items, (l.node, 0), l.inner.exit);
    } else {
      CasesReturn(c, brk, cases.rest, l.rest, next);
    }
  }

  /** A body with a jump returns even if what follows it does not. */
  lemma {:induction false} BodyJumpsReturn(c: Context, brk: Option<Node>, body: seq<Stmt>, items: seq<StmtLayout>,
                                           from: Point, exit: Option<Point>)
    requires LaidBody(c, brk, body, items, from, exit) && ReturnChain(c) && BodyLeaves(body) && BodyJumps(body)
    requires AllReturn(c, brk)
    ensures Returns(c, from.0)
    decreases body, 1
  {
    if StmtJumps(body[0]) {
      StmtJumpsReturn(c, brk, body[0], items[0], from);
    } else {
      BodyJumpsReturn(c, brk, body[1..], items[1..], items[0].to.value, exit);
      StmtReturns(c, brk, body[0], items[0], from);
    }
  }

  lemma {:induction false} StmtJumpsReturn(c: Context, brk: Option<Node>, s: Stmt, l: StmtLayout, from: Point)
    requires LaidStmt(c, brk, s, l, from) && ReturnChain(c) && StmtLeaves(s) && StmtJumps(s) && AllReturn(c, brk)
    ensures Returns(c, from.0)
    decreases s, 0
  {
    match s
    case Conditional(cond, scope) =>
      BodyJumpsReturn(c, brk, scope.body, l.inner.items, (l.then_, 0), l.inner.exit);
      BranchReturns(c, from, IfElse(cond, l.then_, l.next), l.then_);
    case Alternative(cond, scopeIf, scopeElse) =>
      var t := if BodyJumps(scopeIf.body) then l.then_ else l.orElse;
      if BodyJumps(scopeIf.body) {
        BodyJumpsReturn(c, brk, scopeIf.body, l.innerIf.items, (l.then_, 0), l.innerIf.exit);
      } else {
        BodyJumpsReturn(c, brk, scopeElse.body, l.innerElse.items, (l.orElse, 0), l.innerElse.exit);
      }
      BranchReturns(c, from, IfElse(cond, l.then_, l.orElse), t);
    case Selection(value, cases) =>
      var t := CasesJumpReturn(c, brk, value, cases, l.cases, l.next);
      BranchReturns(c, from, Switch(value, DefaultNode(l.cases), Branches(cases, l.cases)), t);
    case ReturnStmt => JumpReturns(c, from, l.target);
    case BreakStmt => FallReturns(c, from, l.target);
  }

  lemma {:induction false} CasesJumpReturn(c: Context, brk: Option<Node>, v: Variable, cases: Cases, l: CasesLayout,
                                           next: Node) returns (t: Node)
    requires LaidCases(c, brk, cases, l, next) && ReturnChain(c) && CasesLeave(cases) && CasesJump(cases)
    requires AllReturn(c, brk)
    ensures Returns(c, t) && t in Targets(Switch(v, DefaultNode(l), Branches(cases, l)))
    decreases cases, 0
  {
    if BodyJumps(cases.scope.body) {
      BodyJumpsReturn(c, brk, cases.scope.body, l.inner.items, (l.node, 0), l.inner.exit);
      t := l.node;
      if cases.Case? {
        assert Branches(cases, l)[0].1 == t;
      }
    } else {
      t := CasesJumpReturn(c, brk, v, cases.rest, l.rest, next);
      var all, rest := Branches(cases, l), Branches(cases.rest, l.rest);
      if i :| 0 <= i < |rest| && rest[i].1 == t {
        assert all[i + 1].1 == t;
      }
    }
  }

  // ---------------------------------------------------------------------------------------
  // A block no edge leads to
  // ---------------------------------------------------------------------------------------

  lemma {:induction false} BodyHasDeadBlock(c: Context, brk: Option<Node>, body: seq<Stmt>, items: seq<StmtLayout>,
                                            from: Point, exit: Option<Point>)
    returns (b: Node)
    requires LaidBody(c, brk, body, items, from, exit) && ReturnChain(c) && BodyLeaves(body) && !BodyFlows(body)
    requires AllReturn(c, brk) && AllReturn(c, NodeOf(exit))
    ensures Barred(c, b) && Returns(c, b)
    decreases body, 1
  {
    if !StmtFlows(body[0]) {
      if items[0].to.Some? {
        BodyReturns(c, brk, body[1..], items[1..], items[0].to.value, exit);
      }
      b := StmtHasDeadBlock(c, brk, body[0], items[0], from);
    } else {
      b := BodyHasDeadBlock(c, brk, body[1..], items[1..], items[0].to.value, exit);
    }
  }

  lemma {:induction false} ScopeHasDeadBlock(c: Context, brk: Option<Node>, scope: Scope, l: ScopeLayout, start: Node,
                                             t: Node) returns (b: Node)
    requires LaidScope(c, brk, scope, l, start) && ExitsTo(c, l.exit, t) && ReturnChain(c) && BodyLeaves(scope.body)
    requires !BodyFlows(scope.body)
    requires AllReturn(c, brk) && Returns(c, t)
    ensures Barred(c, b) && Returns(c, b)
    decreases scope, 2
  {
    ExitReturns(c, l.exit, t);
    b := BodyHasDeadBlock(c, brk, scope.body, l.items, (start, 0), l.exit);
  }

  lemma {:induction false} StmtHasDeadBlock(c: Context, brk: Option<Node>, s: Stmt, l: StmtLayout, from: Point)
    returns (b: Node)
    requires LaidStmt(c, brk, s, l, from) && ReturnChain(c) && StmtLeaves(s) && !StmtFlows(s)
    requires AllReturn(c, brk) && AllReturn(c, NodeOf(l.to))
    ensures Barred(c, b) && Returns(c, b)
    decreases s, 0
  {
    match s
    case Conditional(_, scope) => b := ScopeHasDeadBlock(c, brk, scope, l.inner, l.then_, l.next);
    case Alternative(_, scopeIf, scopeElse) =>
      if !BodyFlows(scopeIf.body) {
        b := ScopeHasDeadBlock(c, brk, scopeIf, l.innerIf, l.then_, l.next);
      } else if !BodyFlows(scopeElse.body) {
        b := ScopeHasDeadBlock(c, brk, scopeElse, l.innerElse, l.orElse, l.next);
      } else {
        b := l.next;
      }
    case Selection(_, cases) =>
      if !CasesFlow(cases) {
        b := CasesHaveDeadBlock(c, brk, cases, l.cases, l.next);
      } else {
        b := l.next;
      }
    case RangeLoop(_, _, _, _, _, _) => b := RangeHasDeadBlock(c, brk, s, l, from);
    case Forever(scope) =>
      LoopReturns(c, brk, s, l, from);
      FallReturns(c, (l.continueTarget, 0), l.header);
      if !BodyFlows(scope.body) {
        b := ScopeHasDeadBlock(c, Some(l.next), scope, l.inner, l.body, l.continueTarget);
      } else {
        b := if EndsNormally(scope.body) then l.next else l.continueTarget;
      }
  }

  lemma {:induction false} RangeHasDeadBlock(c: Context, brk: Option<Node>, s: Stmt, l: StmtLayout, from: Point)
    returns (b: Node)
    requires s.RangeLoop? && LaidStmt(c, brk, s, l, from) && ReturnChain(c) && StmtLeaves(s) && !StmtFlows(s)
    requires Returns(c, l.next)
    ensures Barred(c, b) && Returns(c, b)
    decreases s.scope, 2
  {
    var exit := l.inner.exit.value;
    BranchReturns(c, (l.header, 1), LoopBreak(LocalConst(l.tmp), l.body, l.next), l.next);
    if l.continueTarget != exit.0 {
      FallReturns(c, (l.continueTarget, 0), l.header);
      FallReturns(c, (exit.0, exit.1 + 1), l.continueTarget);
    } else {
      FallReturns(c, (exit.0, exit.1 + 1), l.header);
    }
    b := BodyHasDeadBlock(c, Some(l.next), s.scope.body, l.inner.items, (l.body, 0), l.inner.exit);
  }

  lemma {:induction false} CasesHaveDeadBlock(c: Context, brk: Option<Node>, cases: Cases, l: CasesLayout, next: Node)
    returns (b: Node)
    requires LaidCases(c, brk, cases, l, next) && ReturnChain(c) && CasesLeave(cases) && !CasesFlow(cases)
    requires AllReturn(c, brk) && Returns(c, next)
    ensures Barred(c, b) && Returns(c, b)
    decreases cases, 0
  {
    if !BodyFlows(cases.scope.body) {
      b := ScopeHasDeadBlock(c, brk, cases.scope, l.inner, l.node, next);
    } else {
      b := CasesHaveDeadBlock(c, brk, cases.rest, l.rest, next);
    }
  }

  lemma ReachableIsEntered(p: Program, b: Node)
    requires Reachable(p, b) && b != p.root
    ensures Predecessors(p, b) != {}
  {
    var path :| PathTo(p, path, b);
    assert (path[|path| - 2], path[|path| - 2 + 1]) in p.edges;
    assert path[|path| - 2] in Predecessors(p, b);
  }

  lemma BarredIsUnreachable(c: Context, b: Node)
    requires Growing(c) && Barred(c, b)
    ensures !Reachable(c.p, b)
  {
    assert WithinLimit(c, b);
    if Reachable(c.p, b) {
      ReachableIsEntered(c.p, b);
    }
  }

  /** On a way from an unreachable block to a reachable one, a dead join is met. */
  lemma {:induction false} WayHasDeadJoin(p: Program, path: seq<Node>, t: Node)
    requires ValidGraph(p) && IsPath(p, path) && !Reachable(p, path[0]) && path[|path| - 1] == t && Reachable(p, t)
    ensures DomFrontiers.HasDeadJoin(p)
    decreases |path|
  {
    var x, y := path[0], path[1];
    assert (path[0], path[0 + 1]) in p.edges;
    if Reachable(p, y) {
      var way :| PathTo(p, way, y);
      var z := way[|way| - 2];
      assert (way[|way| - 2], way[|way| - 2 + 1]) in p.edges;
      PathPrefix(p, way, y, |way| - 1);
      TwoPredecessors(p, y, x, z);
      assert DomFrontiers.IsDeadJoin(p, y, x);
    } else {
      var rest := path[1..];
      assert forall i :: 0 <= i < |rest| - 1 ==> (rest[i], rest[i + 1]) == (path[i + 1], path[i + 1 + 1]);
      WayHasDeadJoin(p, rest, t);
    }
  }

  /** A kernel parts of which cannot be reached has a dead join, if its loops can be left. */
  lemma StuckHasDeadJoin(p: Program, body: seq<Stmt>, base: nat, c: Context, l: ScopeLayout)
    requires IsLowering(p, body, base, c, l) && BodyLeaves(body) && !BodyFlows(body)
    ensures DomFrontiers.HasDeadJoin(p)
  {
    if l.exit.Some? {
      var r :| r in c.rets && FallsTo(c, l.exit.value, r);
      JumpReturns(c, l.exit.value, r);
    }
    BodyReturns(c, None, body, l.items, (p.root, 0), l.exit);
    var way :| PathBetween(p, way, p.root, c.rets[0]);
    assert PathTo(p, way, c.rets[0]);
    var b := BodyHasDeadBlock(c, None, body, l.items, (p.root, 0), l.exit);
    BarredIsUnreachable(c, b);
    var path :| PathBetween(p, path, b, c.rets[0]);
    WayHasDeadJoin(p, path, c.rets[0]);
  }

  /** For every kernel whose loops can be left: its graph has a dead join exactly if parts of it cannot be reached. */
  lemma DeadJoinIffStuck(p: Program, body: seq<Stmt>, base: nat, c: Context, l: ScopeLayout)
    requires IsLowering(p, body, base, c, l) && BodyLeaves(body)
    ensures DomFrontiers.HasDeadJoin(p) <==> !BodyFlows(body)
  {
    if BodyFlows(body) {
      FlowingHasNoDeadJoin(p, body, base, c, l);
    } else {
      StuckHasDeadJoin(p, body, base, c, l);
    }
  }
}
