/**
 A `break` out of a range loop makes an edge critical that splitting does not handle; nothing else
 does. So splitting keeps a kernel's graph well formed exactly if no range loop is left by `break`.
 */
module RangeBreaks {
  import opened Options
  import opened Ir
  import opened Structured
  import opened Layout
  import opened OptimizerState
  import opened SplitEdges
  import opened ParseState
  import opened LoweringCorrect

  // ---------------------------------------------------------------------------------------
  // Breaks in graphs
  // ---------------------------------------------------------------------------------------

  ghost predicate JumpsTo(c: Context, t: Node) {
    exists at: Point :: FallsTo(c, at, t)
  }

  lemma {:induction false} BodyBreakJumps(c: Context, brk: Node, body: seq<Stmt>, items: seq<StmtLayout>, from: Point,
                                          exit: Option<Point>)
    requires LaidBody(c, Some(brk), body, items, from, exit) && BodyBreaks(body)
    ensures JumpsTo(c, brk)
    decreases body, 1
  {
    if StmtBreaks(body[0]) {
      StmtBreakJumps(c, brk, body[0], items[0], from);
    } else {
      BodyBreakJumps(c, brk, body[1..], items[1..], items[0].to.value, exit);
    }
  }

  lemma {:induction false} StmtBreakJumps(c: Context, brk: Node, s: Stmt, l: StmtLayout, from: Point)
    requires LaidStmt(c, Some(brk), s, l, from) && StmtBreaks(s)
    ensures JumpsTo(c, brk)
    decreases s, 0
  {
    match s
    case Conditional(_, scope) => BodyBreakJumps(c, brk, scope.body, l.inner.items, (l.then_, 0), l.inner.exit);
    case Alternative(_, scopeIf, scopeElse) =>
      if BodyBreaks(scopeIf.body) {
        BodyBreakJumps(c, brk, scopeIf.body, l.innerIf.items, (l.then_, 0), l.innerIf.exit);
      } else {
        BodyBreakJumps(c, brk, scopeElse.body, l.innerElse.items, (l.orElse, 0), l.innerElse.exit);
      }
    case Selection(_, cases) => CasesBreakJumps(c, brk, cases, l.cases, l.next);
    case BreakStmt => assert FallsTo(c, from, brk);
  }

  lemma {:induction false} CasesBreakJumps(c: Context, brk: Node, cases: Cases, l: CasesLayout, next: Node)
    requires LaidCases(c, Some(brk), cases, l, next) && CasesBreak(cases)
    ensures JumpsTo(c, brk)
    decreases cases, 0
  {
    if BodyBreaks(cases.scope.body) {
      BodyBreakJumps(c, brk, cases.scope.body, l.inner.items, (l.node, 0), l.inner.exit);
    } else {
      CasesBreakJumps(c, brk, cases.rest, l.rest, next);
    }
  }

  /** A block with terminator `LoopBreak` with a critical edge to its merge block. */
  ghost predicate BrokenHeader(p: Program, h: Node) {
    h < |p.blocks| && p.blocks[h].flow.LoopBreak? && Critical(p, (h, p.blocks[h].flow.merge))
  }

  ghost predicate HasBrokenHeader(p: Program) {
    exists h :: BrokenHeader(p, h)
  }

  lemma TwoElements(s: set<Node>, x: Node, y: Node)
    requires x in s && y in s && x != y
    ensures |s| > 1
  {
    assert |s - {x}| == |s| - 1 && y in s - {x};
  }

  lemma LoopIsBroken(c: Context, brk: Option<Node>, s: Stmt, l: StmtLayout, from: Point)
    requires s.RangeLoop? && LaidStmt(c, brk, s, l, from) && JumpsTo(c, l.next)
    ensures BrokenHeader(c.p, l.header)
  {
    var at: Point :| FallsTo(c, at, l.next);
    assert l.body in Successors(c.p, l.header) && l.next in Successors(c.p, l.header) &&
        l.next in Successors(c.p, at.0);
    TwoElements(Successors(c.p, l.header), l.body, l.next);
    TwoElements(Predecessors(c.p, l.next), l.header, at.0);
  }

  lemma {:induction false} BodyBreaksHeader(c: Context, brk: Option<Node>, body: seq<Stmt>, items: seq<StmtLayout>,
                                            from: Point, exit: Option<Point>)
    requires LaidBody(c, brk, body, items, from, exit) && BodyRangeBreaks(body)
    ensures HasBrokenHeader(c.p)
    decreases body, 1
  {
    if StmtRangeBreaks(body[0]) {
      StmtBreaksHeader(c, brk, body[0], items[0], from);
    } else {
      BodyBreaksHeader(c, brk, body[1..], items[1..], items[0].to.value, exit);
    }
  }

  lemma {:induction false} StmtBreaksHeader(c: Context, brk: Option<Node>, s: Stmt, l: StmtLayout, from: Point)
    requires LaidStmt(c, brk, s, l, from) && StmtRangeBreaks(s)
    ensures HasBrokenHeader(c.p)
    decreases s, 0
  {
    match s
    case Conditional(_, scope) => BodyBreaksHeader(c, brk, scope.body, l.inner.items, (l.then_, 0), l.inner.exit);
    case Alternative(_, scopeIf, scopeElse) =>
      if BodyRangeBreaks(scopeIf.body) {
        BodyBreaksHeader(c, brk, scopeIf.body, l.innerIf.items, (l.then_, 0), l.innerIf.exit);
      } else {
        BodyBreaksHeader(c, brk, scopeElse.body, l.innerElse.items, (l.orElse, 0), l.innerElse.exit);
      }
    case Selection(_, cases) => CasesBreakHeader(c, brk, cases, l.cases, l.next);
    case Forever(scope) => BodyBreaksHeader(c, Some(l.next), scope.body, l.inner.items, (l.body, 0), l.inner.exit);
    case RangeLoop(_, _, _, _, _, scope) =>
      if BodyBreaks(scope.body) {
        BodyBreakJumps(c, l.next, scope.body, l.inner.items, (l.body, 0), l.inner.exit);
        LoopIsBroken(c, brk, s, l, from);
      } else {
        BodyBreaksHeader(c, Some(l.next), scope.body, l.inner.items, (l.body, 0), l.inner.exit);
      }
  }

  lemma {:induction false} CasesBreakHeader(c: Context, brk: Option<Node>, cases: Cases, l: CasesLayout, next: Node)
    requires LaidCases(c, brk, cases, l, next) && CasesRangeBreak(cases)
    ensures HasBrokenHeader(c.p)
    decreases cases, 0
  {
    if BodyRangeBreaks(cases.scope.body) {
      BodyBreaksHeader(c, brk, cases.scope.body, l.inner.items, (l.node, 0), l.inner.exit);
    } else {
      CasesBreakHeader(c, brk, cases.rest, l.rest, next);
    }
  }

  /** Without such a `break`, the edges out of the header of a range loop are not critical. */
  lemma CleanHeadersAreWhole(p: Program, body: seq<Stmt>, base: nat, c: Context, l: ScopeLayout)
    requires IsLowering(p, body, base, c, l) && !BodyRangeBreaks(body)
    ensures HeadersAreWhole(p)
  {
    forall e: Edge | e in p.edges && e.0 < |p.blocks| && p.blocks[e.0].flow.LoopBreak?
      ensures !Critical(p, e)
    {
      assert AllowedAt(c, e.0) && MatchedAt(c, e.0) && WithinLimit(c, e.1);
      assert e.1 in Successors(p, e.0);
    }
  }

  /** A kernel that leaves a range loop by `break` has such an edge. */
  lemma RangeBreakIsCritical(p: Program, body: seq<Stmt>, base: nat, c: Context, l: ScopeLayout)
    requires IsLowering(p, body, base, c, l) && BodyRangeBreaks(body)
    ensures !HeadersAreWhole(p)
  {
    BodyBreaksHeader(c, None, body, l.items, (p.root, 0), l.exit);
    var h :| BrokenHeader(p, h);
  }

  /** For every kernel: splitting keeps the terminators in step with the edges iff no `break` leaves a range loop. */
  lemma SplittingIsSoundIffNoRangeBreak(p0: Program, p: Program, body: seq<Stmt>, base: nat, c: Context, l: ScopeLayout)
    requires IsLowering(p0, body, base, c, l) && IsSplit(p0, p)
    ensures WellFormed(p) <==> !BodyRangeBreaks(body)
    ensures HeadersAreWhole(p0) <==> !BodyRangeBreaks(body)
    ensures !BodyRangeBreaks(body) ==> KeepsRuns(p0, p) && SameHalting(p0, p)
  {
    LoweredIsWellFormed(p0, body, base, c, l);
    SplitIsWellFormedIff(p0, p);
    if BodyRangeBreaks(body) {
      RangeBreakIsCritical(p0, body, base, c, l);
    } else {
      CleanHeadersAreWhole(p0, body, base, c, l);
    }
  }

  // ---------------------------------------------------------------------------------------
  // What a `break` out of a range loop breaks
  // ---------------------------------------------------------------------------------------

  /**
   The header still goes to the block after the loop when the loop is over, but no edge says so: a
   phi placed there has no value for it, and control that arrives from the header skips the phi.
   */
  ghost predicate StarvesPhis(p: Program, h: Node) {
    && h < |p.blocks| && p.blocks[h].flow.LoopBreak? && p.blocks[h].flow.merge < |p.blocks|
    && var next := p.blocks[h].flow.merge;
       && h !in Predecessors(p, next)
       && (forall st: State ::
          Get(st.store, Canon(p.variables, p.blocks[h].flow.breakCond)) == 0 ==> NextNode(p, h, st) == Goto(next))
       && forall id: Id, phi: PhiInstruction :: IsFreshPhi(p, next, id, phi) ==> SkippedFrom(phi, h)
  }

  /** Entering from `h` assigns the phi nothing, whatever the store. */
  ghost predicate SkippedFrom(phi: PhiInstruction, h: Node) {
    PhiValue(phi.entries, h) == None && forall vars: set<Id>, s: Store :: ExecPhis(vars, [phi], h, s) == s
  }

  lemma FreshPhiIsSkipped(p: Program, next: Node, id: Id, phi: PhiInstruction, h: Node)
    requires IsFreshPhi(p, next, id, phi) && h !in Predecessors(p, next)
    ensures SkippedFrom(phi, h)
  {
    PhiValueIsEntry(phi.entries, h);
    forall vars: set<Id>, s: Store
      ensures ExecPhis(vars, [phi], h, s) == s
    {
      assert [phi][..0] == [];
    }
  }

  lemma BrokenHeaderStarves(p0: Program, p: Program, h: Node)
    requires WellFormed(p0) && IsSplit(p0, p) && BrokenHeader(p0, h)
    ensures StarvesPhis(p, h)
  {
    var next := p0.blocks[h].flow.merge;
    assert KeepsBlock(p0, p, h) && KeepsBlock(p0, p, next);
    assert !Critical(p, (h, next));
    assert (h, next) !in p.edges;
    forall id: Id, phi: PhiInstruction | IsFreshPhi(p, next, id, phi)
      ensures SkippedFrom(phi, h)
    {
      FreshPhiIsSkipped(p, next, id, phi, h);
    }
  }

  /** Every kernel that leaves a range loop by `break` has such a header after splitting. */
  lemma RangeBreakStarvesPhis(p0: Program, p: Program, body: seq<Stmt>, base: nat, c: Context, l: ScopeLayout)
    returns (h: Node)
    requires IsLowering(p0, body, base, c, l) && IsSplit(p0, p) && BodyRangeBreaks(body)
    ensures StarvesPhis(p, h)
  {
    LoweredIsWellFormed(p0, body, base, c, l);
    BodyBreaksHeader(c, None, body, l.items, (p0.root, 0), l.exit);
    h :| BrokenHeader(p0, h);
    BrokenHeaderStarves(p0, p, h);
  }
}
