/**
 A kernel the front half gets wrong: a flag is set on one of two ways to a branch on it. The reads
 of terminators do not count for the liveness that prunes phis, so nothing merges the flag there.
 */
module FlagKernel {
  import opened Options
  import opened Ir
  import opened Dominance
  import DomFrontiers
  import opened Liveness
  import opened PhiFrontiers
  import opened Naming
  import opened Version
  import opened Renaming
  import opened SsaForm
  import opened SsaCorrect
  import opened SsaTransform
  import opened PhiDemand
  import opened Structured
  import opened Layout
  import opened ParseState
  import opened LoopRegions
  import opened LoweringCorrect
  import opened SplitEdges
  import opened Pipeline

  const FLAG := LocalMut(0)
  const CONDITION := Global(0)
  const SET_FLAG := Instruction(Copy, [Constant(1)], Some(FLAG))
  const REPORT := Instruction(Generic(0), [], None)
  const SET_SCOPE := Scope({}, [Operation(SET_FLAG)])
  const REPORT_SCOPE := Scope({}, [Operation(REPORT)])
  const KERNEL := Scope({0}, [Conditional(CONDITION, SET_SCOPE), Conditional(FLAG, REPORT_SCOPE)])

  // ---------------------------------------------------------------------------------------
  // The graphs of the kernel
  // ---------------------------------------------------------------------------------------

  /** Where the kernel sits; the blocks `to...` may have been put on the edges to the others. */
  datatype Spots = Spots(toSet: Node, setter: Node, toJoin: Node, join: Node, toReport: Node, reporter: Node,
                         toEnd: Node, end: Node, rets: seq<Node>)

  ghost predicate Falls(p: Program, b: Node, ops: seq<Instruction>, t: Node) {
    b < |p.blocks| && p.blocks[b].ops == ops && p.blocks[b].flow == Fallthrough && Successors(p, b) == {t}
  }

  ghost predicate Branches(p: Program, b: Node, cond: Variable, t: Node, f: Node) {
    b < |p.blocks| && p.blocks[b].ops == [] && p.blocks[b].flow == IfElse(cond, t, f) && Successors(p, b) == {t, f}
  }

  ghost predicate Way(p: Program, a: Node, b: Node) {
    a == b || Falls(p, a, [], b)
  }

  ghost predicate ReturnAt(p: Program, rets: seq<Node>, i: nat) {
    i < |rets| ==>
      if i > 0 then Falls(p, rets[i], [], rets[i - 1])
      else rets[0] < |p.blocks| && p.blocks[rets[0]].ops == [] && p.blocks[rets[0]].flow == Return &&
           Successors(p, rets[0]) == {}
  }

  /** The code of the kernel, with one spelling of the flag where it is written and one where it is read. */
  ghost predicate FlagCode(p: Program, g: Spots, written: Variable, read: Variable) {
    && Branches(p, p.root, CONDITION, g.toSet, g.toJoin) && Way(p, g.toSet, g.setter) && Way(p, g.toJoin, g.join)
    && Falls(p, g.setter, [Instruction(Copy, [Constant(1)], Some(written))], g.join)
    && Branches(p, g.join, read, g.toReport, g.toEnd) && Way(p, g.toReport, g.reporter) && Way(p, g.toEnd, g.end)
    && Falls(p, g.reporter, [REPORT], g.end)
    && g.rets != [] && Falls(p, g.end, [], g.rets[|g.rets| - 1])
    && forall i: nat {:trigger ReturnAt(p, g.rets, i)} :: ReturnAt(p, g.rets, i)
  }

  ghost function Nodes(p: Program, g: Spots): set<Node> {
    {p.root, g.toSet, g.setter, g.toJoin, g.join, g.toReport, g.reporter, g.toEnd, g.end} +
    set i | 0 <= i < |g.rets| :: g.rets[i]
  }

  lemma ScopeIsLaid(c: Context, inst: Instruction, l: ScopeLayout, b: Node, next: Node)
    requires LaidScope(c, None, Scope({}, [Operation(inst)]), l, b) && ExitsTo(c, l.exit, next)
    ensures Falls(c.p, b, [inst], next)
  {
    var body := [Operation(inst)];
    assert body[0] == Operation(inst) && body[1..] == [];
    assert LaidStmt(c, None, body[0], l.items[0], (b, 0));
    assert LaidBody(c, None, body[1..], l.items[1..], (b, 1), l.exit);
    assert l.exit == Some((b, 1));
  }

  lemma ReturnsAreLaid(c: Context, i: nat)
    requires ReturnChain(c) && Growing(c)
    ensures ReturnAt(c.p, c.rets, i)
  {
    assert ReturnLink(c, i);
    if i == 0 && |c.rets| > 0 {
      assert MatchedAt(c, c.rets[0]);
    }
  }

  /** Every lowering of the kernel has this code. */
  lemma LoweredFlagCode(p: Program, base: nat, c: Context, l: ScopeLayout) returns (g: Spots)
    requires IsLowering(p, KERNEL.body, base, c, l)
    ensures FlagCode(p, g, FLAG, FLAG)
    ensures g.toSet == g.setter && g.toJoin == g.join && g.toReport == g.reporter && g.toEnd == g.end
  {
    var body := KERNEL.body;
    assert body[0] == Conditional(CONDITION, SET_SCOPE) && body[1..] == [Conditional(FLAG, REPORT_SCOPE)];
    var first := l.items[0];
    assert LaidStmt(c, None, body[0], first, (p.root, 0));
    ScopeIsLaid(c, SET_FLAG, first.inner, first.then_, first.next);
    assert LaidBody(c, None, body[1..], l.items[1..], (first.next, 0), l.exit);
    var second := l.items[1..][0];
    assert LaidStmt(c, None, body[1..][0], second, (first.next, 0));
    ScopeIsLaid(c, REPORT, second.inner, second.then_, second.next);
    assert body[1..][1..] == [];
    assert LaidBody(c, None, body[1..][1..], l.items[1..][1..], (second.next, 0), l.exit);
    assert l.exit == Some((second.next, 0));
    var r :| r in c.rets && FallsTo(c, l.exit.value, r);
    var ret :| 0 <= ret < |c.rets| && c.rets[ret] == r;
    g := Spots(first.then_, first.then_, first.next, first.next, second.then_, second.then_, second.next, second.next,
      c.rets[..ret + 1]);
    forall i: nat
      ensures ReturnAt(p, g.rets, i)
    {
      ReturnsAreLaid(c, i);
    }
  }

  lemma FallsKept(p0: Program, p: Program, b: Node, ops: seq<Instruction>, t: Node)
    requires ValidGraph(p0) && PartlySplit(p0, p) && Falls(p0, b, ops, t)
    ensures Falls(p, b, ops, t)
  {
    assert KeepsBlock(p0, p, b);
    assert t in Successors(p0, b) && |{t}| == 1;
    assert (b, t) in p.edges;
    SingleSuccessor(p, b, t);
  }

  lemma SingleSuccessor(p: Program, b: Node, t: Node)
    requires (b, t) in p.edges && |Successors(p, b)| == 1
    ensures Successors(p, b) == {t}
  {
    assert t in Successors(p, b);
    assert |Successors(p, b) - {t}| == 0;
  }

  lemma BranchSplit(p0: Program, p: Program, b: Node, cond: Variable, t: Node, f: Node) returns (t': Node, f': Node)
    requires PartlySplit(p0, p) && WellFormed(p) && Branches(p0, b, cond, t, f)
    ensures Branches(p, b, cond, t', f') && Way(p, t', t) && Way(p, f', f)
  {
    assert KeepsBlock(p0, p, b) && FlowMatchesEdges(p, b);
    t', f' := p.blocks[b].flow.then_, p.blocks[b].flow.orElse;
  }

  /** So does every program split from one. */
  lemma SplitFlagCode(p0: Program, p: Program, g0: Spots) returns (g: Spots)
    requires ValidGraph(p0) && PartlySplit(p0, p) && WellFormed(p) && FlagCode(p0, g0, FLAG, FLAG)
    requires g0.toSet == g0.setter && g0.toJoin == g0.join && g0.toReport == g0.reporter && g0.toEnd == g0.end
    ensures FlagCode(p, g, FLAG, FLAG)
  {
    var toSet, toJoin := BranchSplit(p0, p, p0.root, CONDITION, g0.setter, g0.join);
    var toReport, toEnd := BranchSplit(p0, p, g0.join, FLAG, g0.reporter, g0.end);
    FallsKept(p0, p, g0.setter, [SET_FLAG], g0.join);
    FallsKept(p0, p, g0.reporter, [REPORT], g0.end);
    FallsKept(p0, p, g0.end, [], g0.rets[|g0.rets| - 1]);
    g := g0.(toSet := toSet, toJoin := toJoin, toReport := toReport, toEnd := toEnd);
    forall i: nat
      ensures ReturnAt(p, g.rets, i)
    {
      assert ReturnAt(p0, g.rets, i);
      if 0 < i < |g.rets| {
        FallsKept(p0, p, g.rets[i], [], g.rets[i - 1]);
      } else if i < |g.rets| {
        assert KeepsBlock(p0, p, g.rets[i]);
      }
    }
  }

  // ---------------------------------------------------------------------------------------
  // No phi for the flag
  // ---------------------------------------------------------------------------------------

  lemma NodeCode(p: Program, g: Spots, b: Node)
    requires FlagCode(p, g, FLAG, FLAG) && b in Nodes(p, g)
    ensures b < |p.blocks|
    ensures p.blocks[b].ops == if b == g.setter then [SET_FLAG] else if b == g.reporter then [REPORT] else []
  {
    if i :| 0 <= i < |g.rets| && g.rets[i] == b {
      assert ReturnAt(p, g.rets, i);
    }
  }

  lemma NextNodeInside(p: Program, g: Spots, b: Node, t: Node)
    requires FlagCode(p, g, FLAG, FLAG) && b in Nodes(p, g) && (b, t) in p.edges
    ensures t in Nodes(p, g)
  {
    assert t in Successors(p, b);
    assert g.rets[|g.rets| - 1] in Nodes(p, g);
    if i :| 0 <= i < |g.rets| && g.rets[i] == b {
      assert ReturnAt(p, g.rets, i);
      if i > 0 {
        assert g.rets[i - 1] in Nodes(p, g);
      }
    }
  }

  lemma {:induction false} PathInside(p: Program, g: Spots, path: seq<Node>)
    requires FlagCode(p, g, FLAG, FLAG) && IsPath(p, path) && path[0] in Nodes(p, g)
    ensures path[|path| - 1] in Nodes(p, g)
  {
    if |path| > 1 {
      var before := path[..|path| - 1];
      assert forall i :: 0 <= i < |before| - 1 ==> (before[i], before[i + 1]) == (path[i], path[i + 1]);
      PathInside(p, g, before);
      assert (path[|path| - 2], path[|path| - 2 + 1]) in p.edges;
      NextNodeInside(p, g, path[|path| - 2], path[|path| - 1]);
    }
  }

  lemma NothingIsLive(p: Program, g: Spots, b: Node, v: Id)
    requires FlagCode(p, g, FLAG, FLAG) && b in Nodes(p, g)
    ensures !LiveIn(p, b, v)
  {
    forall path | ClearUntilEnd(p, path, v) && path[0] == b
      ensures !Exposed(p.blocks[path[|path| - 1]].ops, v)
    {
      PathInside(p, g, path);
      NodeCode(p, g, path[|path| - 1]);
    }
  }

  lemma {:induction false} ReturnIsReachable(p: Program, g: Spots, i: nat)
    requires FlagCode(p, g, FLAG, FLAG) && Reachable(p, g.end) && i < |g.rets|
    ensures Reachable(p, g.rets[i])
    decreases |g.rets| - i
  {
    var before := if i == |g.rets| - 1 then g.end else g.rets[i + 1];
    if i < |g.rets| - 1 {
      ReturnIsReachable(p, g, i + 1);
      assert ReturnAt(p, g.rets, i + 1);
    }
    assert g.rets[i] in Successors(p, before);
    ReachableNext(p, before, g.rets[i]);
  }

  lemma WayIsReachable(p: Program, b: Node, a: Node, t: Node)
    requires Reachable(p, b) && a in Successors(p, b) && Way(p, a, t)
    ensures Reachable(p, a) && Reachable(p, t)
  {
    ReachableNext(p, b, a);
    if a != t {
      assert t in Successors(p, a);
      ReachableNext(p, a, t);
    }
  }

  lemma NodesAreReachable(p: Program, g: Spots, b: Node)
    requires FlagCode(p, g, FLAG, FLAG) && b in Nodes(p, g)
    ensures Reachable(p, b)
  {
    assert PathTo(p, [p.root], p.root);
    WayIsReachable(p, p.root, g.toSet, g.setter);
    WayIsReachable(p, p.root, g.toJoin, g.join);
    WayIsReachable(p, g.join, g.toReport, g.reporter);
    WayIsReachable(p, g.join, g.toEnd, g.end);
    if i :| 0 <= i < |g.rets| && g.rets[i] == b {
      ReturnIsReachable(p, g, i);
    }
  }

  lemma TwoWaysApart(p: Program, g: Spots)
    requires FlagCode(p, g, FLAG, FLAG)
    ensures g.toReport != g.toEnd
  {
    assert ReturnAt(p, g.rets, |g.rets| - 1);
    assert g.reporter in Successors(p, g.toReport) || g.toReport == g.reporter;
  }

  lemma FrontierInside(p: Program, g: Spots, x: Node, y: Node)
    requires FlagCode(p, g, FLAG, FLAG) && ValidGraph(p) && InFrontier(p, x, y)
    ensures x in Nodes(p, g) && y in Nodes(p, g)
  {
    FrontierIsInside(p, x, y);
    var left, right :| PathTo(p, left, x) && PathTo(p, right, y);
    PathInside(p, g, left);
    PathInside(p, g, right);
  }

  /** Only the setter writes, and what it leads to is no loop: its block is entered from the root. */
  lemma NoRegion(p: Program, g: Spots, b: Node, v: Id, nodes: set<Node>, tail: Node, latch: Node)
    requires FlagCode(p, g, FLAG, FLAG) && tail in Nodes(p, g)
    ensures !LoopRegion(p, b, v, nodes, tail, latch)
  {
    NodeCode(p, g, tail);
    TwoWaysApart(p, g);
    assert g.toSet in Successors(p, p.root) && g.join in Successors(p, g.setter);
    assert g.toReport in Successors(p, g.join) && g.toEnd in Successors(p, g.join);
    assert g.toSet != g.setter ==> g.setter in Successors(p, g.toSet);
  }

  lemma NoPhiBefore(p: Program, g: Spots, b: Node, v: Id)
    requires FlagCode(p, g, FLAG, FLAG) && b in Nodes(p, g) && b < |p.blocks|
    requires TransformInput(p) && PhisAreIndices(p) && !DomFrontiers.HasDeadJoin(p)
    ensures !HasPhi(p.blocks[b], v)
  {
    if HasPhi(p.blocks[b], v) {
      var nodes: set<Node>, tail: Node, latch: Node :| LoopRegion(p, b, v, nodes, tail, latch);
      NodesAreReachable(p, g, b);
      HeaderIsInFrontier(p, b, v, nodes, tail, latch);
      FrontierInside(p, g, tail, b);
      NoRegion(p, g, b, v, nodes, tail, latch);
    }
  }

  lemma NoLiveFrontier(p: Program, a: Analyses, g: Spots, v: Id, x: Node, y: Node)
    requires FlagCode(p, g, FLAG, FLAG) && ValidGraph(p) && AnalysesExact(p, a)
    ensures !LiveFrontier(a, v, x, y)
  {
    if InFrontier(p, x, y) {
      FrontierInside(p, g, x, y);
      FrontierIsInside(p, x, y);
      NothingIsLive(p, g, y, v);
    }
  }

  lemma NoPhiPlaced(p: Program, a: Analyses, g: Spots, v: Id, sites: set<Node>)
    requires FlagCode(p, g, FLAG, FLAG) && ValidGraph(p) && AnalysesExact(p, a) && LeastPhiClosed(a, v, sites)
    ensures sites == {}
  {
    forall x: Node, y: Node
      ensures !LiveFrontier(a, v, x, y)
    {
      NoLiveFrontier(p, a, g, v, x, y);
    }
    assert PhiClosed(a, v, {});
  }

  lemma NothingPlaced(p: Program, q: Program, placed: map<Id, set<Node>>, b: Node)
    requires Placed(p, q, placed) && placed.Keys == p.variables && b < |p.blocks|
    requires forall v: Id :: v in placed ==> placed[v] == {}
    ensures q.blocks[b].phis == p.blocks[b].phis
  {
    PlacedBlock(p, q, placed, b);
    if |q.blocks[b].phis| > |p.blocks[b].phis| {
      PlacedPhi(p, q, placed, b, |p.blocks[b].phis|);
    }
  }

  lemma NoPhisBefore(p: Program, g: Spots, b: Node)
    requires FlagCode(p, g, FLAG, FLAG) && b in Nodes(p, g)
    requires TransformInput(p) && PhisAreIndices(p) && !DomFrontiers.HasDeadJoin(p)
    ensures b < |p.blocks| && p.blocks[b].phis == []
  {
    NodeCode(p, g, b);
    if p.blocks[b].phis != [] {
      var v := p.blocks[b].phis[0].out.id;
      assert HasPhi(p.blocks[b], v);
      NoPhiBefore(p, g, b, v);
    }
  }

  lemma NoPhiAfter(p: Program, q: Program, e: Evidence, g: Spots, b: Node)
    requires FlagCode(p, g, FLAG, FLAG) && b in Nodes(p, g) && TransformInput(p) && PhisAreIndices(p)
    requires Transformed(p, q, e)
    ensures b < |p.blocks| && e.placed.blocks[b].phis == []
  {
    NoPhisBefore(p, g, b);
    forall v: Id | v in e.sites
      ensures e.sites[v] == {}
    {
      NoPhiPlaced(p, e.a, g, v, e.sites[v]);
    }
    NothingPlaced(p, e.placed, e.sites, b);
  }

  // ---------------------------------------------------------------------------------------
  // The renamed program
  // ---------------------------------------------------------------------------------------

  ghost predicate PhiFree(p: Program, nodes: set<Node>) {
    forall b: Node :: b in nodes && b < |p.blocks| ==> p.blocks[b].phis == []
  }

  lemma SameFlagCode(p: Program, q: Program, g: Spots)
    requires FlagCode(p, g, FLAG, FLAG) && q.root == p.root && q.edges == p.edges && |q.blocks| == |p.blocks|
    requires forall b: Node ::
             b < |p.blocks| ==> q.blocks[b].ops == p.blocks[b].ops && q.blocks[b].flow == p.blocks[b].flow
    ensures FlagCode(q, g, FLAG, FLAG)
  {
    forall b: Node
      ensures Successors(q, b) == Successors(p, b)
    {
    }
    forall i: nat
      ensures ReturnAt(q, g.rets, i)
    {
      assert ReturnAt(p, g.rets, i);
    }
  }

  lemma PlacedFlagCode(p: Program, q: Program, e: Evidence, g: Spots)
    requires FlagCode(p, g, FLAG, FLAG) && TransformInput(p) && PhisAreIndices(p) && Transformed(p, q, e)
    ensures FlagCode(e.placed, g, FLAG, FLAG) && PhiFree(e.placed, Nodes(e.placed, g))
  {
    forall b: Node | b < |p.blocks|
      ensures e.placed.blocks[b].ops == p.blocks[b].ops && e.placed.blocks[b].flow == p.blocks[b].flow
    {
      PlacedBlock(p, e.placed, e.sites, b);
    }
    SameFlagCode(p, e.placed, g);
    forall b: Node | b in Nodes(p, g)
      ensures b < |p.blocks| && e.placed.blocks[b].phis == []
    {
      NoPhiAfter(p, q, e, g, b);
    }
  }

  lemma EmptyBlockRenamed(p: Program, now: Program, marks: map<Node, Mark>, b: Node)
    requires b in marks && MarkedBlock(p, now, marks, b) && p.blocks[b].phis == [] && p.blocks[b].ops == []
    ensures now.blocks[b] == p.blocks[b].(flow := RenameFlow(p.variables, marks[b].end.cur, p.blocks[b].flow))
  {
  }

  lemma SetterRenamed(p: Program, now: Program, marks: map<Node, Mark>, b: Node) returns (written: nat)
    requires b in marks && MarkedBlock(p, now, marks, b) && 0 in p.variables && p.blocks[b].phis == []
    requires p.blocks[b].ops == [SET_FLAG] && p.blocks[b].flow == Fallthrough && marks[b].end.max[0] < U16
    ensures written > 0 && now.blocks[b].phis == [] && now.blocks[b].flow == Fallthrough
    ensures now.blocks[b].ops == [Instruction(Copy, [Constant(1)], Some(Versioned(0, written)))]
  {
    var start, vars := marks[b].start, p.variables;
    assert AfterPhis(vars, [], start) == start;
    assert p.blocks[b].ops[..0] == [];
    assert OpRenamedAt(vars, p.blocks[b].ops, now.blocks[b].ops, start, 0);
    assert RenameInputs(vars, start.cur, [Constant(1)]) == [Constant(1)];
    AfterOpsSnoc(vars, p.blocks[b].ops, 0, start);
    assert p.blocks[b].ops[..1] == p.blocks[b].ops;
    written := Wrap(start.max[0] + 1);
  }

  lemma ReporterRenamed(p: Program, now: Program, marks: map<Node, Mark>, b: Node)
    requires b in marks && MarkedBlock(p, now, marks, b) && p.blocks[b].phis == []
    requires p.blocks[b].ops == [REPORT] && p.blocks[b].flow == Fallthrough
    ensures now.blocks[b].phis == [] && now.blocks[b].flow == Fallthrough && now.blocks[b].ops == [REPORT]
  {
    var start, vars := marks[b].start, p.variables;
    assert AfterPhis(vars, [], start) == start;
    assert p.blocks[b].ops[..0] == [];
    assert OpRenamedAt(vars, p.blocks[b].ops, now.blocks[b].ops, start, 0);
    assert RenameInputs(vars, start.cur, []) == [];
  }

  lemma NodeIsMarked(p: Program, now: Program, marks: map<Node, Mark>, max: Versions, g: Spots, b: Node)
    requires FlagCode(p, g, FLAG, FLAG) && IsSsaForm(p, now, marks, max) && b in Nodes(p, g)
    ensures b in marks && MarkedBlock(p, now, marks, b) && Successors(now, b) == Successors(p, b)
  {
    NodesAreReachable(p, g, b);
    ReachableIsMarked(p, now, marks, max, b);
  }

  lemma FallsRenamed(p: Program, now: Program, marks: map<Node, Mark>, max: Versions, g: Spots, b: Node, t: Node)
    requires FlagCode(p, g, FLAG, FLAG) && IsSsaForm(p, now, marks, max) && PhiFree(p, Nodes(p, g)) && b in Nodes(p, g)
    requires Falls(p, b, [], t)
    ensures Falls(now, b, [], t)
  {
    NodeIsMarked(p, now, marks, max, g, b);
    EmptyBlockRenamed(p, now, marks, b);
  }

  lemma BranchRenamed(p: Program, now: Program, marks: map<Node, Mark>, max: Versions, g: Spots, b: Node,
                      cond: Variable, t: Node, f: Node)
    returns (cond': Variable)
    requires FlagCode(p, g, FLAG, FLAG) && IsSsaForm(p, now, marks, max) && PhiFree(p, Nodes(p, g)) && b in Nodes(p, g)
    requires Branches(p, b, cond, t, f)
    ensures Branches(now, b, cond', t, f)
    ensures if Tracked(p.variables, cond) then exists n: nat :: cond' == Versioned(cond.id, n) else cond' == cond
  {
    NodeIsMarked(p, now, marks, max, g, b);
    EmptyBlockRenamed(p, now, marks, b);
    cond' := now.blocks[b].flow.cond;
  }

  lemma ReturnRenamed(p: Program, now: Program, marks: map<Node, Mark>, max: Versions, g: Spots, i: nat)
    requires FlagCode(p, g, FLAG, FLAG) && IsSsaForm(p, now, marks, max) && PhiFree(p, Nodes(p, g)) && i < |g.rets|
    ensures ReturnAt(now, g.rets, i)
  {
    assert ReturnAt(p, g.rets, i);
    assert g.rets[i] in Nodes(p, g);
    if i > 0 {
      FallsRenamed(p, now, marks, max, g, g.rets[i], g.rets[i - 1]);
    } else {
      NodeIsMarked(p, now, marks, max, g, g.rets[i]);
      EmptyBlockRenamed(p, now, marks, g.rets[i]);
    }
  }

  /** The flag is defined once, in the setter. */
  lemma NodeDefinitions(p: Program, g: Spots, b: Node)
    requires FlagCode(p, g, FLAG, FLAG) && PhiFree(p, Nodes(p, g)) && b in Nodes(p, g) && 0 in p.variables
    ensures b < |p.blocks| && DefinitionsOf(p.variables, p.blocks[b], 0) == if b == g.setter then 1 else 0
  {
    NodeCode(p, g, b);
    var ids := OpIds(p.variables, p.blocks[b].ops);
    if b == g.setter {
      assert ids == [Some(0)] && ids[..0] == [];
      assert Occurrences([], 0) == 0;
    } else if b == g.reporter {
      assert ids == [None] && ids[..0] == [];
      assert Occurrences([], 0) == 0;
    }
  }

  lemma {:induction false} SettersCounted(p: Program, g: Spots, renamed: seq<Node>)
    requires forall b: Node :: b in renamed ==>
               b < |p.blocks| && DefinitionsOf(p.variables, p.blocks[b], 0) == if b == g.setter then 1 else 0
    ensures DefinitionsIn(p, renamed, 0) == multiset(renamed)[g.setter]
  {
    if renamed != [] {
      var last := |renamed| - 1;
      assert renamed[last] in renamed && renamed == renamed[..last] + [renamed[last]];
      assert forall b: Node :: b in renamed[..last] ==> b in renamed;
      SettersCounted(p, g, renamed[..last]);
    }
  }

  /** The flag's counter gets no further than 1, as the setter is renamed once. */
  lemma FlagCounterIsSmall(p: Program, now: Program, marks: map<Node, Mark>, max: Versions, g: Spots)
    requires FlagCode(p, g, FLAG, FLAG) && IsSsaForm(p, now, marks, max) && PhiFree(p, Nodes(p, g)) && 0 in p.variables
    ensures max[0] <= 1
  {
    var renamed: seq<Node> :| Counted(p, max, marks, renamed);
    forall b: Node | b in renamed
      ensures b < |p.blocks| && DefinitionsOf(p.variables, p.blocks[b], 0) == if b == g.setter then 1 else 0
    {
      TreePathIsPath(p, marks, b);
      PathInside(p, g, TreePath(p, marks, b));
      NodeDefinitions(p, g, b);
    }
    SettersCounted(p, g, renamed);
    assert CountsTo(p, max, renamed, 0);
    assert g.join in Successors(p, g.setter);
  }

  lemma SetterWrites(p: Program, now: Program, marks: map<Node, Mark>, max: Versions, g: Spots) returns (written: nat)
    requires FlagCode(p, g, FLAG, FLAG) && IsSsaForm(p, now, marks, max) && PhiFree(p, Nodes(p, g))
    requires 0 in p.variables
    ensures written > 0 && Falls(now, g.setter, [Instruction(Copy, [Constant(1)], Some(Versioned(0, written)))], g.join)
  {
    NodeIsMarked(p, now, marks, max, g, g.setter);
    assert CounterBelow(p.variables, marks, max, g.setter);
    FlagCounterIsSmall(p, now, marks, max, g);
    written := SetterRenamed(p, now, marks, g.setter);
  }

  lemma NodeStaysPhiFree(p: Program, now: Program, marks: map<Node, Mark>, max: Versions, g: Spots, b: Node)
    requires FlagCode(p, g, FLAG, FLAG) && IsSsaForm(p, now, marks, max) && PhiFree(p, Nodes(p, g)) && b in Nodes(p, g)
    ensures b < |now.blocks| && now.blocks[b].phis == []
  {
    NodeIsMarked(p, now, marks, max, g, b);
  }

  lemma WaysRenamed(p: Program, now: Program, marks: map<Node, Mark>, max: Versions, g: Spots, a: Node, b: Node)
    requires FlagCode(p, g, FLAG, FLAG) && IsSsaForm(p, now, marks, max) && PhiFree(p, Nodes(p, g)) && a in Nodes(p, g)
    requires Way(p, a, b)
    ensures Way(now, a, b)
  {
    if a != b {
      FallsRenamed(p, now, marks, max, g, a, b);
    }
  }

  /** Renaming keeps the code, with one version of the flag written and one read. */
  lemma RenamedFlagCode(p: Program, now: Program, marks: map<Node, Mark>, max: Versions, g: Spots)
    returns (written: nat, read: nat)
    requires FlagCode(p, g, FLAG, FLAG) && IsSsaForm(p, now, marks, max) && PhiFree(p, Nodes(p, g))
    requires 0 in p.variables
    ensures written > 0 && FlagCode(now, g, Versioned(0, written), Versioned(0, read))
  {
    var cond := BranchRenamed(p, now, marks, max, g, p.root, CONDITION, g.toSet, g.toJoin);
    var flag := BranchRenamed(p, now, marks, max, g, g.join, FLAG, g.toReport, g.toEnd);
    read :| flag == Versioned(0, read);
    written := SetterWrites(p, now, marks, max, g);
    WaysRenamed(p, now, marks, max, g, g.toSet, g.setter);
    WaysRenamed(p, now, marks, max, g, g.toJoin, g.join);
    WaysRenamed(p, now, marks, max, g, g.toReport, g.reporter);
    WaysRenamed(p, now, marks, max, g, g.toEnd, g.end);
    NodeIsMarked(p, now, marks, max, g, g.reporter);
    ReporterRenamed(p, now, marks, g.reporter);
    FallsRenamed(p, now, marks, max, g, g.end, g.rets[|g.rets| - 1]);
    forall i: nat
      ensures ReturnAt(now, g.rets, i)
    {
      if i < |g.rets| {
        ReturnRenamed(p, now, marks, max, g, i);
      }
    }
  }

  lemma UntrackedFlagCode(p: Program, g: Spots, written: Variable, read: Variable)
    requires FlagCode(p, g, written, read)
    ensures FlagCode(Untracked(p), g, written, read)
  {
    var q := Untracked(p);
    forall b: Node
      ensures Successors(q, b) == Successors(p, b)
    {
    }
    forall i: nat
      ensures ReturnAt(q, g.rets, i)
    {
      assert ReturnAt(p, g.rets, i);
    }
  }

  // ---------------------------------------------------------------------------------------
  // Its runs
  // ---------------------------------------------------------------------------------------

  ghost predicate Reaches(p: Program, o: Oracle, c: Config, d: Config) {
    exists n: nat :: Leads(p, o, c, n, d)
  }

  lemma ReachesTrans(p: Program, o: Oracle, c: Config, d: Config, e: Config)
    requires Reaches(p, o, c, d) && Reaches(p, o, d, e)
    ensures Reaches(p, o, c, e)
  {
    var m: nat :| Leads(p, o, c, m, d);
    var n: nat :| Leads(p, o, d, n, e);
    LeadsTrans(p, o, c, m, d, n, e);
  }

  lemma ReachesStep(p: Program, o: Oracle, c: Config)
    ensures Reaches(p, o, c, c) && Reaches(p, o, c, Step(p, o, c))
  {
    LeadsStep(p, o, c);
  }

  /** The renamed code, in which every block is free of phis. */
  ghost predicate FlagRun(q: Program, g: Spots, written: nat, read: nat) {
    FlagCode(q, g, Versioned(0, written), Versioned(0, read)) && q.variables == {} && ValidGraph(q) &&
      PhiFree(q, Nodes(q, g))
  }

  lemma FallStep(q: Program, o: Oracle, b: Node, ops: seq<Instruction>, t: Node, st: State)
    requires Falls(q, b, ops, t) && t < |q.blocks| && q.blocks[t].phis == []
    ensures Step(q, o, At(b, |ops|, st)) == At(t, 0, st)
  {
    assert t in Successors(q, b);
  }

  lemma WayRuns(q: Program, o: Oracle, a: Node, b: Node, st: State)
    requires Way(q, a, b) && b < |q.blocks| && q.blocks[b].phis == []
    ensures Reaches(q, o, At(a, 0, st), At(b, 0, st))
  {
    ReachesStep(q, o, At(a, 0, st));
    if a != b {
      FallStep(q, o, a, [], b, st);
    }
  }

  lemma BranchRuns(q: Program, o: Oracle, b: Node, cond: Variable, t: Node, f: Node, st: State)
    requires Branches(q, b, cond, t, f) && q.variables == {} && t < |q.blocks| && f < |q.blocks|
    requires q.blocks[t].phis == [] && q.blocks[f].phis == []
    ensures Reaches(q, o, At(b, 0, st), At(if Get(st.store, cond) != 0 then t else f, 0, st))
  {
    ReachesStep(q, o, At(b, 0, st));
  }

  lemma NodesAreBlocks(q: Program, g: Spots, written: nat, read: nat, b: Node)
    requires FlagRun(q, g, written, read) && b in Nodes(q, g)
    ensures b < |q.blocks| && q.blocks[b].phis == []
  {
    if i :| 0 <= i < |g.rets| && g.rets[i] == b {
      assert ReturnAt(q, g.rets, i);
    }
  }

  lemma AllNodesAreBlocks(q: Program, g: Spots, written: nat, read: nat)
    requires FlagRun(q, g, written, read)
    ensures forall b: Node :: b in Nodes(q, g) ==> b < |q.blocks| && q.blocks[b].phis == []
  {
    forall b: Node | b in Nodes(q, g)
      ensures b < |q.blocks| && q.blocks[b].phis == []
    {
      NodesAreBlocks(q, g, written, read, b);
    }
  }

  /** The way on which the flag is set. */
  lemma SetRuns(q: Program, g: Spots, written: nat, read: nat, o: Oracle, st: State)
    requires FlagRun(q, g, written, read) && Get(st.store, CONDITION) != 0
    ensures Reaches(q, o, At(q.root, 0, st), At(g.join, 0, st.(store := Put(st.store, Versioned(0, written), 1))))
  {
    AllNodesAreBlocks(q, g, written, read);
    BranchRuns(q, o, q.root, CONDITION, g.toSet, g.toJoin, st);
    WayRuns(q, o, g.toSet, g.setter, st);
    ReachesTrans(q, o, At(q.root, 0, st), At(g.toSet, 0, st), At(g.setter, 0, st));
    var inst := Instruction(Copy, [Constant(1)], Some(Versioned(0, written)));
    assert Values({}, st.store, [Constant(1)]) == [1];
    var st1 := ExecInstruction({}, o, inst, st);
    ReachesStep(q, o, At(g.setter, 0, st));
    ReachesTrans(q, o, At(q.root, 0, st), At(g.setter, 0, st), At(g.setter, 1, st1));
    FallStep(q, o, g.setter, [inst], g.join, st1);
    ReachesStep(q, o, At(g.setter, 1, st1));
    ReachesTrans(q, o, At(q.root, 0, st), At(g.setter, 1, st1), At(g.join, 0, st1));
  }

  /** The way around it. */
  lemma SkipRuns(q: Program, g: Spots, written: nat, read: nat, o: Oracle, st: State)
    requires FlagRun(q, g, written, read) && Get(st.store, CONDITION) == 0
    ensures Reaches(q, o, At(q.root, 0, st), At(g.join, 0, st))
  {
    AllNodesAreBlocks(q, g, written, read);
    BranchRuns(q, o, q.root, CONDITION, g.toSet, g.toJoin, st);
    WayRuns(q, o, g.toJoin, g.join, st);
    ReachesTrans(q, o, At(q.root, 0, st), At(g.toJoin, 0, st), At(g.join, 0, st));
  }

  lemma ReportRuns(q: Program, g: Spots, written: nat, read: nat, o: Oracle, st: State)
    requires FlagRun(q, g, written, read) && Get(st.store, Versioned(0, read)) != 0
    ensures Reaches(q, o, At(g.join, 0, st), At(g.reporter, 1, st.(trace := st.trace + [Event(0, [])])))
  {
    AllNodesAreBlocks(q, g, written, read);
    BranchRuns(q, o, g.join, Versioned(0, read), g.toReport, g.toEnd, st);
    WayRuns(q, o, g.toReport, g.reporter, st);
    ReachesTrans(q, o, At(g.join, 0, st), At(g.toReport, 0, st), At(g.reporter, 0, st));
    assert Values({}, st.store, []) == [];
    ReachesStep(q, o, At(g.reporter, 0, st));
    ReachesTrans(q, o, At(g.join, 0, st), At(g.reporter, 0, st),
      At(g.reporter, 1, st.(trace := st.trace + [Event(0, [])])));
  }

  ghost predicate InTail(g: Spots, b: Node) {
    b == g.toEnd || b == g.end || b in g.rets
  }

  lemma TailStep(q: Program, g: Spots, written: nat, read: nat, o: Oracle, b: Node, st: State)
    requires FlagRun(q, g, written, read) && InTail(g, b)
    ensures var d := Step(q, o, At(b, 0, st));
            d == Halted(st) || (d.At? && d.pc == 0 && d.st == st && InTail(g, d.node))
  {
    AllNodesAreBlocks(q, g, written, read);
    if b in g.rets {
      var i :| 0 <= i < |g.rets| && g.rets[i] == b;
      assert ReturnAt(q, g.rets, i);
      if i > 0 {
        FallStep(q, o, b, [], g.rets[i - 1], st);
      }
    } else if b == g.end {
      FallStep(q, o, b, [], g.rets[|g.rets| - 1], st);
    } else {
      FallStep(q, o, b, [], g.end, st);
    }
  }

  /** After the branch that skips the report, nothing happens any more. */
  lemma {:induction false} TailRuns(q: Program, g: Spots, written: nat, read: nat, o: Oracle, b: Node, st: State,
                                    n: nat)
    requires FlagRun(q, g, written, read) && InTail(g, b)
    ensures var d := Run(q, o, At(b, 0, st), n);
            d == Halted(st) || (d.At? && d.pc == 0 && d.st == st && InTail(g, d.node))
  {
    if n > 0 {
      TailRuns(q, g, written, read, o, b, st, n - 1);
      var d := Run(q, o, At(b, 0, st), n - 1);
      if d.At? {
        TailStep(q, g, written, read, o, d.node, st);
      }
    }
  }

  /** Events are never taken back. */
  lemma {:induction false} TraceGrows(q: Program, o: Oracle, c: Config, n: nat)
    requires c.At? && Run(q, o, c, n) != Stuck
    ensures |Run(q, o, c, n).st.trace| >= |c.st.trace|
  {
    if n > 0 {
      TraceGrows(q, o, c, n - 1);
    }
  }

  lemma HaltsFrom(q: Program, o: Oracle, st: State, c: Config, final: State) returns (n: nat)
    requires Reaches(q, o, At(q.root, 0, st), c) && c.At? && Halts(q, o, st, final)
    ensures Run(q, o, c, n) == Halted(final)
  {
    var start := At(q.root, 0, st);
    var m: nat :| Leads(q, o, start, m, c);
    var k: nat :| Run(q, o, start, k) == Halted(final);
    LeadsMeansRun(q, o, start, m, c);
    if k <= m {
      HaltedStays(q, o, start, k, m, final);
      n := 0;
    } else {
      RunPlus(q, o, start, m, k - m);
      n := k - m;
    }
  }

  /** If block `join` reads another version than was written, the report is missed. */
  lemma ReportIsMissed(q: Program, g: Spots, written: nat, read: nat, o: Oracle, st: State, final: State)
    requires FlagRun(q, g, written, read) && read != written && Get(st.store, CONDITION) != 0
    requires Get(st.store, Versioned(0, read)) == 0 && Halts(q, o, st, final)
    ensures final.trace == st.trace
  {
    AllNodesAreBlocks(q, g, written, read);
    var st1 := st.(store := Put(st.store, Versioned(0, written), 1));
    SetRuns(q, g, written, read, o, st);
    BranchRuns(q, o, g.join, Versioned(0, read), g.toReport, g.toEnd, st1);
    ReachesTrans(q, o, At(q.root, 0, st), At(g.join, 0, st1), At(g.toEnd, 0, st1));
    var n := HaltsFrom(q, o, st, At(g.toEnd, 0, st1), final);
    TailRuns(q, g, written, read, o, g.toEnd, st1, n);
  }

  /** If it reads the version written, it reports what happens to be there when nothing was written. */
  lemma ReportIsImagined(q: Program, g: Spots, written: nat, o: Oracle, st: State, final: State)
    requires FlagRun(q, g, written, written) && Get(st.store, CONDITION) == 0
    requires Get(st.store, Versioned(0, written)) != 0 && Halts(q, o, st, final)
    ensures |final.trace| > |st.trace|
  {
    var c := At(g.reporter, 1, st.(trace := st.trace + [Event(0, [])]));
    SkipRuns(q, g, written, written, o, st);
    ReportRuns(q, g, written, written, o, st);
    ReachesTrans(q, o, At(q.root, 0, st), At(g.join, 0, st), c);
    var n := HaltsFrom(q, o, st, c, final);
    TraceGrows(q, o, c, n);
  }

  // ---------------------------------------------------------------------------------------
  // The kernel
  // ---------------------------------------------------------------------------------------

  lemma KernelIsProper(base: nat)
    ensures ProperBody(base, KERNEL.body, false)
  {
    assert SET_SCOPE.body[1..] == [] && REPORT_SCOPE.body[1..] == [] && KERNEL.body[1..][1..] == [];
    assert ProperStmt(base, SET_SCOPE.body[0], false) && ProperStmt(base, REPORT_SCOPE.body[0], false);
    assert ProperBody(base, SET_SCOPE.body, false) && ProperBody(base, REPORT_SCOPE.body, false);
    assert ProperStmt(base, KERNEL.body[0], false) && ProperStmt(base, KERNEL.body[1], false);
    assert ProperBody(base, KERNEL.body[1..], false);
  }

  lemma OneStatement(o: Oracle, inst: Instruction, st: State)
    ensures ExecBody(o, 0, [Operation(inst)], st) == Normal(ExecInstruction({}, o, inst, st))
  {
    assert [Operation(inst)][0] == Operation(inst) && [Operation(inst)][1..] == [];
  }

  lemma KernelRuns(o: Oracle, st: State)
    requires Get(st.store, CONDITION) != 0 || Get(st.store, FLAG) == 0
    ensures var set_ := State(Put(st.store, FLAG, 1), st.trace + [Event(0, [])]);
            KernelEnds(o, KERNEL.body, st, if Get(st.store, CONDITION) != 0 then set_ else st)
  {
    var body := KERNEL.body;
    OneStatement(o, SET_FLAG, st);
    assert Values({}, st.store, [Constant(1)]) == [1];
    var st1 := if Get(st.store, CONDITION) != 0 then st.(store := Put(st.store, FLAG, 1)) else st;
    assert ExecStmt(o, 0, body[0], st) == Normal(st1);
    OneStatement(o, REPORT, st1);
    assert Values({}, st1.store, []) == [];
    var st2 := if Get(st.store, CONDITION) != 0 then st1.(trace := st1.trace + [Event(0, [])]) else st1;
    assert ExecStmt(o, 0, body[1], st1) == Normal(st2);
    assert body[1..][0] == body[1] && body[1..][1..] == [];
    assert ExecBody(o, 0, body[1..], st1) == Normal(st2);
    assert ExecBody(o, 0, body, st) == Normal(st2);
    assert EndsWithin(o, 0, body, st, st2);
  }

  lemma KernelIsSplit(base: nat, q: Program, s: Stages) returns (g: Spots)
    requires Built(KERNEL, base, q, s) && s.ssa.Some?
    ensures FlagCode(s.split, g, FLAG, FLAG) && TransformInput(s.split) && PhisAreIndices(s.split)
    ensures 0 in s.split.variables
  {
    LoweredIsWellFormed(s.lowered, KERNEL.body, base, s.context, s.layout);
    SplitIsReady(s.lowered, s.split, KERNEL.body, base, s.context, s.layout);
    var g0 := LoweredFlagCode(s.lowered, base, s.context, s.layout);
    g := SplitFlagCode(s.lowered, s.split, g0);
  }

  lemma AllStayPhiFree(p: Program, now: Program, marks: map<Node, Mark>, max: Versions, g: Spots)
    requires FlagCode(p, g, FLAG, FLAG) && IsSsaForm(p, now, marks, max) && PhiFree(p, Nodes(p, g))
    ensures PhiFree(Untracked(now), Nodes(Untracked(now), g)) && (ValidGraph(p) ==> ValidGraph(Untracked(now)))
  {
    forall b: Node | b in Nodes(p, g)
      ensures b < |now.blocks| && now.blocks[b].phis == []
    {
      NodeStaysPhiFree(p, now, marks, max, g, b);
    }
  }

  lemma FlagCodeRuns(p: Program, now: Program, marks: map<Node, Mark>, max: Versions, g: Spots)
    returns (written: nat, read: nat)
    requires FlagCode(p, g, FLAG, FLAG) && IsSsaForm(p, now, marks, max) && PhiFree(p, Nodes(p, g)) && ValidGraph(p)
    requires 0 in p.variables
    ensures written > 0 && FlagRun(Untracked(now), g, written, read)
  {
    written, read := RenamedFlagCode(p, now, marks, max, g);
    UntrackedFlagCode(now, g, Versioned(0, written), Versioned(0, read));
    AllStayPhiFree(p, now, marks, max, g);
  }

  /** However the program is transformed, one version of the flag is written and one is read. */
  lemma KernelIsRenamed(p: Program, q: Program, e: Evidence, g: Spots) returns (written: nat, read: nat)
    requires FlagCode(p, g, FLAG, FLAG) && TransformInput(p) && PhisAreIndices(p) && Transformed(p, q, e)
    requires 0 in p.variables
    ensures written > 0 && FlagRun(q, g, written, read)
  {
    PlacedFlagCode(p, q, e, g);
    written, read := FlagCodeRuns(e.placed, e.now, e.marks, e.max, g);
  }

  /** On some input the kernel ends and `q` does not end having done the same. */
  ghost predicate GoesAstray(p: Program, base: nat, q: Program, o: Oracle) {
    exists st: State, st': State ::
      InitialStates(p, st, st') && !SsaFollowsKernel(KERNEL.body, base, p.variables, q, o, st, st')
  }

  lemma MissesReport(p: Program, base: nat, q: Program, g: Spots, written: nat, read: nat, o: Oracle)
    requires 0 in p.variables && FlagRun(q, g, written, read) && read != written
    ensures GoesAstray(p, base, q, o)
  {
    var st := State(map[CONDITION := 1], []);
    assert InitialStates(p, st, st);
    KernelRuns(o, st);
    forall final: State | Halts(q, o, st, final)
      ensures final.trace == []
    {
      ReportIsMissed(q, g, written, read, o, st, final);
    }
    assert !SsaFollowsKernel(KERNEL.body, base, p.variables, q, o, st, st);
  }

  lemma ImaginesReport(p: Program, base: nat, q: Program, g: Spots, written: nat, o: Oracle)
    requires 0 in p.variables && FlagRun(q, g, written, written) && written > 0
    ensures GoesAstray(p, base, q, o)
  {
    var st, st' := State(map[], []), State(map[Versioned(0, written) := 1], []);
    assert InitialStates(p, st, st');
    KernelRuns(o, st);
    forall final: State | Halts(q, o, st', final)
      ensures final.trace != []
    {
      ReportIsImagined(q, g, written, o, st', final);
    }
    assert !SsaFollowsKernel(KERNEL.body, base, p.variables, q, o, st, st');
  }

  lemma BuiltKernelGoesAstray(base: nat, q: Program, s: Stages, o: Oracle)
    requires Built(KERNEL, base, q, s) && s.ssa.Some?
    ensures GoesAstray(s.split, base, q, o)
  {
    var g := KernelIsSplit(base, q, s);
    var written, read := KernelIsRenamed(s.split, q, s.ssa.value, g);
    if read != written {
      MissesReport(s.split, base, q, g, written, read, o);
    } else {
      ImaginesReport(s.split, base, q, g, written, o);
    }
  }

  lemma KernelFlows()
    ensures BodyFlows(KERNEL.body)
  {
    assert SET_SCOPE.body[1..] == [] && REPORT_SCOPE.body[1..] == [] && KERNEL.body[1..][1..] == [];
    assert StmtFlows(SET_SCOPE.body[0]) && StmtFlows(REPORT_SCOPE.body[0]);
    assert BodyFlows(SET_SCOPE.body[1..]) && BodyFlows(REPORT_SCOPE.body[1..]) && BodyFlows(KERNEL.body[1..][1..]);
    assert BodyFlows(SET_SCOPE.body) && BodyFlows(REPORT_SCOPE.body);
    assert StmtFlows(KERNEL.body[0]) && StmtFlows(KERNEL.body[1]);
    assert BodyFlows(KERNEL.body[1..]);
  }

  /** The front half always reaches SSA form on this kernel, and whatever it makes of it goes astray. */
  lemma FlagKernelGoesAstray(base: nat, q: Program, s: Stages, o: Oracle)
    requires Completed(KERNEL, base, q, s)
    ensures s.ssa.Some? && GoesAstray(s.split, base, q, o)
  {
    KernelFlows();
    StopsIffStuck(KERNEL, base, q, s);
    BuiltKernelGoesAstray(base, q, s, o);
  }
}
