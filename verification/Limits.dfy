/** Inputs that mark the limits of what is proved about the front half. */
module Limits {
  import opened Options
  import opened Ir
  import opened Structured
  import opened Dominance
  import DomFrontiers
  import opened Liveness
  import opened PhiFrontiers
  import opened Naming
  import opened Version
  import opened Renaming
  import opened SsaForm
  import opened SsaCorrect
  import opened SsaTransform
  import opened PhiDemand
  import opened Layout
  import opened ParseState
  import opened LoweringCorrect
  import opened DeadJoins
  import opened FlagKernel

  // ---------------------------------------------------------------------------------------
  // A kernel both of whose branches return
  // ---------------------------------------------------------------------------------------

  const RETURNING := Scope({}, [ReturnStmt])
  const BOTH_RETURN: seq<Stmt> := [Alternative(CONDITION, RETURNING, RETURNING)]

  lemma BothReturnIsStuck()
    ensures BodyLeaves(BOTH_RETURN) && !BodyFlows(BOTH_RETURN)
  {
    assert RETURNING.body[1..] == [] && BOTH_RETURN[1..] == [];
    assert BodyLeaves(RETURNING.body) && StmtLeaves(BOTH_RETURN[0]);
    assert !EndsNormally(RETURNING.body) && !StmtFlows(BOTH_RETURN[0]);
  }

  /**
   Every graph the parser may build for it has a join with an unreachable predecessor, on which
   the transform stops.
   */
  lemma BothReturnMakesDeadJoin(p: Program, base: nat, c: Context, l: ScopeLayout)
    requires IsLowering(p, BOTH_RETURN, base, c, l)
    ensures DomFrontiers.HasDeadJoin(p)
  {
    BothReturnIsStuck();
    StuckHasDeadJoin(p, BOTH_RETURN, base, c, l);
  }

  // ---------------------------------------------------------------------------------------
  // A missing phi on a way no run takes
  // ---------------------------------------------------------------------------------------

  const UNTAKEN_EDGES: set<Edge> := {(0, 1), (0, 7), (1, 2), (1, 3), (2, 4), (3, 4), (4, 5), (4, 6), (5, 7), (6, 7)}

  /** A branch on a flag that is set on one of two ways to it, all of it behind a condition that never holds. */
  predicate NeverTaken(p: Program) {
    && |p.blocks| == 8 && p.root == 0 && p.variables == {0} && p.edges == UNTAKEN_EDGES
    && p.blocks[0] == BasicBlock({}, [], [], IfElse(Constant(0), 1, 7))
    && p.blocks[1] == BasicBlock({}, [], [], IfElse(CONDITION, 2, 3))
    && p.blocks[2] == BasicBlock({}, [], [SET_FLAG], Fallthrough)
    && p.blocks[3] == EMPTY_BLOCK
    && p.blocks[4] == BasicBlock({}, [], [], IfElse(FLAG, 5, 6))
    && p.blocks[5] == EMPTY_BLOCK && p.blocks[6] == EMPTY_BLOCK
    && p.blocks[7] == BasicBlock({}, [], [], Return)
  }

  ghost function NextBlocks(b: Node): set<Node> {
    if b == 0 then {1, 7} else if b == 1 then {2, 3} else if b == 2 || b == 3 then {4}
    else if b == 4 then {5, 6} else if b == 5 || b == 6 then {7} else {}
  }

  lemma UntakenSuccessors(p: Program, b: Node)
    requires p.edges == UNTAKEN_EDGES
    ensures Successors(p, b) == NextBlocks(b)
  {
    assert forall x: Node :: x in Successors(p, b) <==> (b, x) in p.edges;
  }

  lemma UntakenIsInput(p: Program)
    requires NeverTaken(p)
    ensures TransformInput(p)
  {
    forall b | 0 <= b < |p.blocks|
      ensures FlowMatchesEdges(p, b) && PlainBlock(p.variables, p.blocks[b]) && p.blocks[b].phis == []
    {
      UntakenSuccessors(p, b);
      assert (b == 2 || b == 3 ==> 4 in Successors(p, b)) && (b == 5 || b == 6 ==> 7 in Successors(p, b));
    }
  }

  lemma UntakenIsReachable(p: Program, b: Node)
    requires NeverTaken(p) && b < 8
    ensures Reachable(p, b)
  {
    var e := p.edges;
    assert (0, 1) in e && (0, 7) in e && (1, 2) in e && (1, 3) in e && (2, 4) in e && (4, 5) in e && (4, 6) in e;
    assert PathTo(p, [0], 0);
    ReachableNext(p, 0, 1);
    ReachableNext(p, 0, 7);
    ReachableNext(p, 1, 2);
    ReachableNext(p, 1, 3);
    ReachableNext(p, 2, 4);
    ReachableNext(p, 4, 5);
    ReachableNext(p, 4, 6);
  }

  lemma UntakenHasNoDeadJoin(p: Program)
    requires NeverTaken(p)
    ensures !DomFrontiers.HasDeadJoin(p)
  {
    forall b: Node, s: Node
      ensures !DomFrontiers.IsDeadJoin(p, b, s)
    {
      if (s, b) in p.edges {
        assert s < 8 && b < 8;
        UntakenIsReachable(p, s);
        UntakenIsReachable(p, b);
      }
    }
  }

  lemma UntakenIsNeverLive(p: Program, b: Node, v: Id)
    requires NeverTaken(p)
    ensures !LiveIn(p, b, v)
  {
    forall x: Node | x < |p.blocks|
      ensures !Exposed(p.blocks[x].ops, v)
    {
    }
  }

  lemma SetterReachesJoin(p: Program)
    requires NeverTaken(p)
    ensures InFrontier(p, 2, 4)
  {
    assert (2, 4) in p.edges && (0, 1) in p.edges && (1, 3) in p.edges && (3, 4) in p.edges;
    UntakenIsReachable(p, 2);
    assert PathTo(p, [0, 1, 3, 4], 4) && 2 !in [0, 1, 3, 4];
    assert forall path :: PathTo(p, path, 2) ==> path[|path| - 1] == 2;
    assert Dominates(p, 2, 2);
  }

  /** The phis the code places do not suffice for it. */
  lemma UntakenNeedsPhi(p: Program)
    requires NeverTaken(p)
    ensures !PhisSuffice(p)
  {
    forall b: Node, v: Id
      ensures !LiveIn(p, b, v)
    {
      UntakenIsNeverLive(p, b, v);
    }
    assert FoundLeast(p, 0, {});
    SetterReachesJoin(p);
    assert SET_FLAG == p.blocks[2].ops[0] && WritesLocal(p.blocks[2].ops[0], 0);
    assert ClearUntilEnd(p, [4], 0) && UsedAtEnd(p, [4], 0) && [4][0] == 4;
    assert TrulyLiveIn(p, 4, 0) && Killed(p.blocks[2].ops, 0);
    assert !Merges(p, 0, {}, 4);
    assert !Covers(p, 0, {});
  }

  /** Every run of it: from the first block to the last, where it stops. */
  ghost function Walk(n: nat, st: State): Config {
    if n == 0 then At(0, 0, st) else if n == 1 then At(7, 0, st) else Halted(st)
  }

  ghost predicate SkipsAll(p: Program) {
    && p.root == 0 && |p.blocks| == 8
    && p.blocks[0].ops == [] && p.blocks[0].flow == IfElse(Constant(0), 1, 7)
    && p.blocks[7].phis == [] && p.blocks[7].ops == [] && p.blocks[7].flow == Return
  }

  lemma {:induction false} WalksThrough(p: Program, o: Oracle, st: State, n: nat)
    requires SkipsAll(p)
    ensures Run(p, o, At(p.root, 0, st), n) == Walk(n, st)
  {
    if n > 0 {
      WalksThrough(p, o, st, n - 1);
    }
  }

  lemma UntakenPlacesNothing(p: Program, q: Program, e: Evidence, v: Id)
    requires NeverTaken(p) && Transformed(p, q, e) && v in e.sites
    ensures e.sites[v] == {}
  {
    forall x: Node, y: Node
      ensures !LiveFrontier(e.a, v, x, y)
    {
      UntakenIsNeverLive(p, y, v);
      if InFrontier(p, x, y) {
        UntakenIsInput(p);
        FrontierIsInside(p, x, y);
      }
    }
    assert PhiClosed(e.a, v, {});
  }

  lemma UntakenRenamed(p: Program, now: Program, marks: map<Node, Mark>, max: Versions)
    requires SkipsAll(p) && p.blocks[0].phis == [] && p.edges == UNTAKEN_EDGES && IsSsaForm(p, now, marks, max)
    ensures SkipsAll(now)
  {
    assert (0, 7) in p.edges;
    assert 0 in marks && 7 in marks;
    assert MarkedBlock(p, now, marks, 0) && MarkedBlock(p, now, marks, 7);
    EmptyBlockRenamed(p, now, marks, 0);
    EmptyBlockRenamed(p, now, marks, 7);
  }

  lemma UntakenPlaced(p: Program, q: Program, e: Evidence)
    requires NeverTaken(p) && Transformed(p, q, e)
    ensures SkipsAll(e.placed) && e.placed.blocks[0].phis == [] && e.placed.edges == UNTAKEN_EDGES
  {
    forall v: Id | v in e.sites
      ensures e.sites[v] == {}
    {
      UntakenPlacesNothing(p, q, e, v);
    }
    PlacedBlock(p, e.placed, e.sites, 0);
    PlacedBlock(p, e.placed, e.sites, 7);
    NothingPlaced(p, e.placed, e.sites, 0);
    NothingPlaced(p, e.placed, e.sites, 7);
  }

  /**
   Yet however it is transformed, every run stays as it was. A condition on the graph can thus not be
   exact for runs: it would have to tell which branches are ever taken.
   */
  lemma UntakenRunsAgree(p: Program, q: Program, e: Evidence, o: Oracle, st: State, st': State, n: nat)
    requires NeverTaken(p) && Transformed(p, q, e) && InitialStates(p, st, st')
    ensures TransformInput(p) && !DomFrontiers.HasDeadJoin(p) && !PhisSuffice(p)
    ensures Run(p, o, At(p.root, 0, st), n) == Walk(n, st) && Run(q, o, At(q.root, 0, st'), n) == Walk(n, st')
    ensures st.trace == st'.trace && SameUntracked(p.variables, st.store, st'.store)
  {
    UntakenIsInput(p);
    UntakenHasNoDeadJoin(p);
    UntakenNeedsPhi(p);
    WalksThrough(p, o, st, n);
    UntakenPlaced(p, q, e);
    UntakenRenamed(e.placed, e.now, e.marks, e.max);
    WalksThrough(q, o, st', n);
  }
}
