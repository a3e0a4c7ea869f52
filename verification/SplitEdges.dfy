/** Splitting of critical edges, and when it keeps the graph well formed and every run. */
module SplitEdges {
  import opened Options
  import opened Arithmetic
  import opened Ir
  import opened Version
  import opened SsaForm
  import opened OptimizerState
  import opened Dominance
  import DomFrontiers
  import opened LoopRegions
  import opened Liveness

  /** An edge from a block with several successors to one with several predecessors. */
  ghost predicate Critical(p: Program, e: Edge) {
    e in p.edges && |Successors(p, e.0)| > 1 && |Predecessors(p, e.1)| > 1
  }

  function Redirect(x: Node, from: Node, to: Node): Node {
    if x == from then to else x
  }

  function RedirectEntries(entries: seq<PhiEntry>, from: Node, to: Node): (r: seq<PhiEntry>)
    ensures |r| == |entries|
    ensures forall i :: 0 <= i < |r| ==> r[i] == entries[i].(block := Redirect(entries[i].block, from, to))
  {
    seq(|entries|, i requires 0 <= i < |entries| => entries[i].(block := Redirect(entries[i].block, from, to)))
  }

  function RedirectPhis(phis: seq<PhiInstruction>, from: Node, to: Node): (r: seq<PhiInstruction>)
    ensures |r| == |phis|
    ensures forall i :: 0 <= i < |r| ==> r[i] == phis[i].(entries := RedirectEntries(phis[i].entries, from, to))
  {
    seq(|phis|, i requires 0 <= i < |phis| => phis[i].(entries := RedirectEntries(phis[i].entries, from, to)))
  }

  function RedirectBranches(branches: seq<(int, Node)>, from: Node, to: Node): (r: seq<(int, Node)>)
    ensures |r| == |branches|
    ensures forall i :: 0 <= i < |r| ==> r[i] == (branches[i].0, Redirect(branches[i].1, from, to))
  {
    seq(|branches|, i requires 0 <= i < |branches| => (branches[i].0, Redirect(branches[i].1, from, to)))
  }

  /** Only if-else and switch are redirected. */
  function RedirectFlow(flow: ControlFlow, from: Node, to: Node): ControlFlow {
    match flow
    case IfElse(cond, then_, orElse) => IfElse(cond, Redirect(then_, from, to), Redirect(orElse, from, to))
    case Switch(value, default, branches) => Switch(value, Redirect(default, from, to),
        RedirectBranches(branches, from, to))
    case _ => flow
  }

  /** The program with a new empty block on the edge from `b` to `t`. */
  function SplitEdge(p: Program, b: Node, t: Node): Program
    requires b < |p.blocks| && t < |p.blocks| && b != t
  {
    var n := |p.blocks|;
    var phis, flow := RedirectPhis(p.blocks[t].phis, b, n), RedirectFlow(p.blocks[b].flow, t, n);
    p.(blocks := p.blocks[t := p.blocks[t].(phis := phis)][b := p.blocks[b].(flow := flow)] + [EMPTY_BLOCK],
       edges := p.edges - {(b, t)} + {(b, n), (n, t)})
  }

  // ---------------------------------------------------------------------------------------
  // The graph
  // ---------------------------------------------------------------------------------------

  lemma SplitNeighbours(p: Program, b: Node, t: Node)
    requires ValidGraph(p) && (b, t) in p.edges
    ensures var q, n := SplitEdge(p, b, t), |p.blocks|;
            && ValidGraph(q) && |q.blocks| == n + 1
            && Successors(q, b) == Successors(p, b) - {t} + {n} && Successors(q, n) == {t}
            && Predecessors(q, t) == Predecessors(p, t) - {b} + {n} && Predecessors(q, n) == {b}
    ensures forall x: Node :: x != b && x != |p.blocks| ==> Successors(SplitEdge(p, b, t), x) == Successors(p, x)
    ensures forall x: Node :: x != t && x != |p.blocks| ==> Predecessors(SplitEdge(p, b, t), x) == Predecessors(p, x)
  {
    var q, n := SplitEdge(p, b, t), |p.blocks|;
    assert (b, n) in q.edges && (n, t) in q.edges;
    forall x: Node
      ensures x in Successors(q, b) <==> x in Successors(p, b) - {t} + {n}
      ensures x in Predecessors(q, t) <==> x in Predecessors(p, t) - {b} + {n}
    {
      assert x in Successors(p, b) <==> (b, x) in p.edges;
      assert x in Predecessors(p, t) <==> (x, t) in p.edges;
      assert x in Successors(q, b) <==> (b, x) in q.edges;
      assert x in Predecessors(q, t) <==> (x, t) in q.edges;
    }
    forall x: Node | x != b && x != n
      ensures Successors(q, x) == Successors(p, x)
    {
      assert forall y: Node :: (x, y) in q.edges <==> (x, y) in p.edges;
    }
    forall x: Node | x != t && x != n
      ensures Predecessors(q, x) == Predecessors(p, x)
    {
      assert forall y: Node :: (y, x) in q.edges <==> (y, x) in p.edges;
    }
  }

  lemma SwapKeepsSize(s: set<Node>, x: Node, y: Node)
    requires x in s && y !in s
    ensures |s - {x} + {y}| == |s|
  {
    assert |s - {x}| == |s| - 1;
  }

  lemma FreshNode(p: Program, x: Node)
    requires ValidGraph(p)
    ensures |p.blocks| !in Successors(p, x) && |p.blocks| !in Predecessors(p, x)
  {
  }

  /** Splitting keeps every old block's in- and out-degree; the new block has one of each. */
  lemma SplitKeepsDegrees(p: Program, b: Node, t: Node)
    requires ValidGraph(p) && (b, t) in p.edges
    ensures var q := SplitEdge(p, b, t);
            && (forall x: Node :: x < |p.blocks| ==> |Successors(q, x)| == |Successors(p, x)|)
            && (forall x: Node :: x < |p.blocks| ==> |Predecessors(q, x)| == |Predecessors(p, x)|)
            && |Successors(q, |p.blocks|)| == 1 && |Predecessors(q, |p.blocks|)| == 1
  {
    SplitNeighbours(p, b, t);
    FreshNode(p, b);
    FreshNode(p, t);
    assert t in Successors(p, b) && b in Predecessors(p, t);
    SwapKeepsSize(Successors(p, b), t, |p.blocks|);
    SwapKeepsSize(Predecessors(p, t), b, |p.blocks|);
  }

  /** The edges that stay critical are the old ones but for the one split. */
  lemma SplitCriticality(p: Program, b: Node, t: Node, e: Edge)
    requires ValidGraph(p) && (b, t) in p.edges
    ensures Critical(SplitEdge(p, b, t), e) <==> Critical(p, e) && e != (b, t)
  {
    SplitKeepsDegrees(p, b, t);
    SplitNeighbours(p, b, t);
  }

  // ---------------------------------------------------------------------------------------
  // Well-formedness
  // ---------------------------------------------------------------------------------------

  lemma RedirectTargets(flow: ControlFlow, from: Node, to: Node)
    requires flow.IfElse? || flow.Switch?
    ensures Targets(RedirectFlow(flow, from, to)) ==
            if from in Targets(flow) then Targets(flow) - {from} + {to} else Targets(flow)
  {
    if flow.Switch? {
      var r := RedirectBranches(flow.branches, from, to);
      forall x: Node
        ensures x in Targets(RedirectFlow(flow, from, to))
                <==> x in if from in Targets(flow) then Targets(flow) - {from} + {to} else Targets(flow)
      {
        if i :| 0 <= i < |r| && r[i].1 == x {
          assert flow.branches[i].1 == from || flow.branches[i].1 == x;
        }
        if i :| 0 <= i < |r| && flow.branches[i].1 == x {
          assert r[i].1 == Redirect(x, from, to);
        }
        if i :| 0 <= i < |r| && flow.branches[i].1 == from {
          assert r[i].1 == to;
        }
      }
    }
  }

  lemma SingletonHasSizeOne(s: set<Node>)
    requires IsSingleton(s)
    ensures |s| == 1
  {
  }

  /** A block with several successors ends in a branch. */
  lemma SeveralSuccessors(p: Program, b: Node)
    requires b < |p.blocks| && FlowMatchesEdges(p, b) && |Successors(p, b)| > 1
    ensures p.blocks[b].flow.IfElse? || p.blocks[b].flow.Switch? || p.blocks[b].flow.LoopBreak?
  {
    if p.blocks[b].flow.Fallthrough? {
      SingletonHasSizeOne(Successors(p, b));
    }
  }

  lemma SplitStaysWellFormed(p: Program, b: Node, t: Node)
    requires WellFormed(p) && (b, t) in p.edges && (p.blocks[b].flow.IfElse? || p.blocks[b].flow.Switch?)
    ensures WellFormed(SplitEdge(p, b, t))
  {
    var q, n := SplitEdge(p, b, t), |p.blocks|;
    SplitNeighbours(p, b, t);
    assert t in Successors(p, b);
    RedirectTargets(p.blocks[b].flow, t, n);
    forall x: Node | x < |q.blocks|
      ensures FlowMatchesEdges(q, x)
    {
      if x == n {
        assert t in Successors(q, n);
      } else {
        assert FlowMatchesEdges(p, x);
      }
    }
  }

  // ---------------------------------------------------------------------------------------
  // Code
  // ---------------------------------------------------------------------------------------

  /** Everything later phases need besides the shape of the graph. */
  ghost predicate SoundCode(p: Program) {
    TrivialPhis(p) && PhisComplete(p) && PlainNames(p) && p.root < |p.blocks| && p.blocks[p.root].phis == []
  }

  /** Every phi is one the parser made for the index of a range loop. */
  ghost predicate PhisAreIndices(p: Program) {
    forall b: Node, v: Id :: b < |p.blocks| && HasPhi(p.blocks[b], v) ==> IsLoopIndex(p, b, v)
  }

  lemma {:induction false} RedirectedValue(entries: seq<PhiEntry>, from: Node, to: Node, q: Node)
    requires forall i :: 0 <= i < |entries| ==> entries[i].block != to
    ensures PhiValue(RedirectEntries(entries, from, to), to) == PhiValue(entries, from)
    ensures q != from && q != to ==> PhiValue(RedirectEntries(entries, from, to), q) == PhiValue(entries, q)
  {
    if entries != [] {
      RedirectedValue(entries[1..], from, to, q);
      assert RedirectEntries(entries, from, to)[1..] == RedirectEntries(entries[1..], from, to);
    }
  }

  /** Phi entries name blocks of the program. */
  ghost predicate EntriesInRange(p: Program) {
    forall b, i, j :: 0 <= b < |p.blocks| && 0 <= i < |p.blocks[b].phis| && 0 <= j < |p.blocks[b].phis[i].entries|
                      ==> p.blocks[b].phis[i].entries[j].block < |p.blocks|
  }

  lemma SplitPhis(p: Program, b: Node, t: Node, x: Node)
    requires ValidGraph(p) && (b, t) in p.edges && x < |p.blocks|
    ensures SplitEdge(p, b, t).blocks[x].phis ==
            if x == t then RedirectPhis(p.blocks[x].phis, b, |p.blocks|) else p.blocks[x].phis
    ensures SplitEdge(p, b, t).blocks[x].ops == p.blocks[x].ops
    ensures SplitEdge(p, b, t).blocks[x].flow ==
            if x == b then RedirectFlow(p.blocks[x].flow, t, |p.blocks|) else p.blocks[x].flow
  {
  }

  lemma SplitKeepsTrivialPhis(p: Program, b: Node, t: Node)
    requires ValidGraph(p) && (b, t) in p.edges && TrivialPhis(p)
    ensures TrivialPhis(SplitEdge(p, b, t))
  {
    var q := SplitEdge(p, b, t);
    forall x, i | 0 <= x < |q.blocks| && 0 <= i < |q.blocks[x].phis|
      ensures TrivialPhi(q.variables, q.blocks[x].phis[i])
    {
      if x < |p.blocks| {
        SplitPhis(p, b, t, x);
        assert TrivialPhi(p.variables, p.blocks[x].phis[i]);
      }
    }
  }

  lemma SplitKeepsEntriesInRange(p: Program, b: Node, t: Node)
    requires ValidGraph(p) && (b, t) in p.edges && EntriesInRange(p)
    ensures EntriesInRange(SplitEdge(p, b, t))
  {
    var q := SplitEdge(p, b, t);
    forall x, i, j | 0 <= x < |q.blocks| && 0 <= i < |q.blocks[x].phis| && 0 <= j < |q.blocks[x].phis[i].entries|
      ensures q.blocks[x].phis[i].entries[j].block < |q.blocks|
    {
      if x < |p.blocks| {
        SplitPhis(p, b, t, x);
        assert p.blocks[x].phis[i].entries[j].block < |p.blocks|;
      }
    }
  }

  lemma SplitKeepsCompletePhis(p: Program, b: Node, t: Node)
    requires ValidGraph(p) && (b, t) in p.edges && PhisComplete(p) && EntriesInRange(p)
    ensures PhisComplete(SplitEdge(p, b, t))
  {
    var q, n := SplitEdge(p, b, t), |p.blocks|;
    SplitNeighbours(p, b, t);
    forall x, s, i | 0 <= x < |q.blocks| && s in Predecessors(q, x) && 0 <= i < |q.blocks[x].phis|
      ensures PhiValue(q.blocks[x].phis[i].entries, s).Some?
    {
      assert x < |p.blocks|;
      SplitPhis(p, b, t, x);
      if x == t {
        RedirectedValue(p.blocks[t].phis[i].entries, b, n, s);
        assert b in Predecessors(p, t);
        assert PhiValue(p.blocks[t].phis[i].entries, if s == n then b else s).Some?;
      }
    }
  }

  lemma SplitKeepsCode(p: Program, b: Node, t: Node)
    requires ValidGraph(p) && (b, t) in p.edges && SoundCode(p) && EntriesInRange(p)
    ensures SoundCode(SplitEdge(p, b, t)) && EntriesInRange(SplitEdge(p, b, t))
  {
    var q := SplitEdge(p, b, t);
    SplitKeepsTrivialPhis(p, b, t);
    SplitKeepsCompletePhis(p, b, t);
    SplitKeepsEntriesInRange(p, b, t);
    forall x: Node | x < |q.blocks|
      ensures PlainBlock(q.variables, q.blocks[x])
    {
      if x < |p.blocks| {
        SplitPhis(p, b, t, x);
        assert PlainBlock(p.variables, p.blocks[x]);
      }
    }
    SplitPhis(p, b, t, p.root);
  }

  /** A new block on an edge inside a loop becomes part of the loop. */
  ghost function GrowRegion(p: Program, b: Node, t: Node, nodes: set<Node>): set<Node> {
    if b in nodes && t in nodes then nodes + {|p.blocks|} else nodes
  }

  lemma SplitKeepsRegion(p: Program, b: Node, t: Node, header: Node, id: Id, nodes: set<Node>, tail: Node, latch: Node)
    requires ValidGraph(p) && (b, t) in p.edges && |Successors(p, b)| > 1
    requires LoopRegion(p, header, id, nodes, tail, latch)
    ensures LoopRegion(SplitEdge(p, b, t), header, id, GrowRegion(p, b, t, nodes), tail, latch)
  {
    var q, nodes' := SplitEdge(p, b, t), GrowRegion(p, b, t, nodes);
    SplitNeighbours(p, b, t);
    SplitPhis(p, b, t, tail);
    assert b != latch && (latch != tail ==> b != tail);
    assert (b, t) in p.edges && t == latch && latch != tail ==> b in Predecessors(p, latch);
    assert nodes' <= NodeIds(q);
    forall e: Edge | e in q.edges && e.1 in nodes' && e.0 !in nodes'
      ensures e.1 == header
    {
      if e == (|p.blocks|, t) {
        assert (b, t) in p.edges;
      }
    }
  }

  lemma SplitKeepsIndices(p: Program, b: Node, t: Node)
    requires ValidGraph(p) && Critical(p, (b, t)) && PhisAreIndices(p)
    ensures PhisAreIndices(SplitEdge(p, b, t))
  {
    var q := SplitEdge(p, b, t);
    forall x: Node, v: Id | x < |q.blocks| && HasPhi(q.blocks[x], v)
      ensures IsLoopIndex(q, x, v)
    {
      if x < |p.blocks| {
        SplitPhis(p, b, t, x);
        assert HasPhi(p.blocks[x], v);
        var nodes: set<Node>, tail: Node, latch: Node :| LoopRegion(p, x, v, nodes, tail, latch);
        SplitKeepsRegion(p, b, t, x, v, nodes, tail, latch);
      }
    }
  }

  // ---------------------------------------------------------------------------------------
  // Runs
  // ---------------------------------------------------------------------------------------

  lemma {:induction false} SelectRedirected(v: int, branches: seq<(int, Node)>, default: Node, from: Node, to: Node)
    ensures SelectBranch(v, RedirectBranches(branches, from, to), Redirect(default, from, to))
            == Redirect(SelectBranch(v, branches, default), from, to)
  {
    if branches != [] {
      SelectRedirected(v, branches[1..], default, from, to);
      assert RedirectBranches(branches, from, to)[1..] == RedirectBranches(branches[1..], from, to);
    }
  }

  /** Only the jump along the split edge changes: it goes to the new block. */
  lemma SplitJump(p: Program, b: Node, t: Node, x: Node, st: State)
    requires WellFormed(p) && (b, t) in p.edges && (p.blocks[b].flow.IfElse? || p.blocks[b].flow.Switch?)
    requires x < |p.blocks|
    ensures NextNode(SplitEdge(p, b, t), x, st)
            == if x == b && NextNode(p, b, st) == Goto(t) then Goto(|p.blocks|) else NextNode(p, x, st)
  {
    SplitNeighbours(p, b, t);
    SplitPhis(p, b, t, x);
    if x == b && p.blocks[b].flow.Switch? {
      var flow := p.blocks[b].flow;
      SelectRedirected(ToU32(Get(st.store, Canon(p.variables, flow.value))), flow.branches, flow.default, t,
        |p.blocks|);
    }
  }

  /** One step of the original is one or two steps of the split program. */
  lemma SplitStep(p: Program, b: Node, t: Node, o: Oracle, c: Config) returns (n: nat)
    requires WellFormed(p) && TrivialPhis(p) && (b, t) in p.edges
    requires (p.blocks[b].flow.IfElse? || p.blocks[b].flow.Switch?)
    requires c.At? ==> c.node < |p.blocks|
    ensures n >= 1 && Leads(SplitEdge(p, b, t), o, c, n, Step(p, o, c))
    ensures Step(p, o, c).At? ==> Step(p, o, c).node < |p.blocks|
  {
    var q := SplitEdge(p, b, t);
    n := 1;
    LeadsStep(q, o, c);
    if c.At? {
      SplitPhis(p, b, t, c.node);
      if c.pc >= |p.blocks[c.node].ops| {
        SplitJump(p, b, t, c.node, c.st);
        JumpFollowsEdge(p, c.node, c.st);
        if NextNode(p, c.node, c.st).Goto? {
          var target := NextNode(p, c.node, c.st).target;
          SplitKeepsTrivialPhis(p, b, t);
          TrivialPhisAreNoOps(p.variables, p.blocks[target].phis, c.node, c.st.store);
          TrivialPhisAreNoOps(q.variables, q.blocks[target].phis, c.node, c.st.store);
          if c.node == b && target == t {
            n := SplitDetour(p, b, t, o, c);
          }
        }
      }
    }
  }

  lemma SplitDetour(p: Program, b: Node, t: Node, o: Oracle, c: Config) returns (n: nat)
    requires WellFormed(p) && TrivialPhis(p) && (b, t) in p.edges
    requires (p.blocks[b].flow.IfElse? || p.blocks[b].flow.Switch?)
    requires c.At? && c.node == b && c.pc >= |p.blocks[b].ops| && NextNode(p, b, c.st) == Goto(t)
    ensures n == 2 && Leads(SplitEdge(p, b, t), o, c, n, At(t, 0, c.st))
  {
    var q, m := SplitEdge(p, b, t), |p.blocks|;
    SplitNeighbours(p, b, t);
    SplitPhis(p, b, t, b);
    SplitJump(p, b, t, b, c.st);
    SplitKeepsTrivialPhis(p, b, t);
    TrivialPhisAreNoOps(q.variables, q.blocks[m].phis, b, c.st.store);
    TrivialPhisAreNoOps(q.variables, q.blocks[t].phis, m, c.st.store);
    LeadsStep(q, o, c);
    LeadsStep(q, o, At(m, 0, c.st));
    assert t in Successors(q, m);
    LeadsTrans(q, o, c, 1, At(m, 0, c.st), 1, At(t, 0, c.st));
    n := 2;
  }

  /** Every run of the original is a run of the split program, up to the inserted blocks. */
  lemma {:induction false} SplitRuns(p: Program, b: Node, t: Node, o: Oracle, c: Config, n: nat) returns (m: nat)
    requires WellFormed(p) && TrivialPhis(p) && (b, t) in p.edges
    requires (p.blocks[b].flow.IfElse? || p.blocks[b].flow.Switch?)
    requires c.At? ==> c.node < |p.blocks|
    ensures m >= n && Leads(SplitEdge(p, b, t), o, c, m, Run(p, o, c, n))
    ensures Run(p, o, c, n).At? ==> Run(p, o, c, n).node < |p.blocks|
    decreases n
  {
    if n == 0 {
      m := 0;
      LeadsStep(SplitEdge(p, b, t), o, c);
    } else {
      var k := SplitRuns(p, b, t, o, c, n - 1);
      var mid := Run(p, o, c, n - 1);
      var j := SplitStep(p, b, t, o, mid);
      LeadsTrans(SplitEdge(p, b, t), o, c, k, mid, j, Step(p, o, mid));
      m := k + j;
    }
  }

  /** Every run of `p` from its root is a run of `q`, up to steps through inserted blocks. */
  ghost predicate KeepsRuns(p: Program, q: Program) {
    forall o: Oracle, st: State, n: nat {:trigger RunKept(p, q, o, st, n)} :: RunKept(p, q, o, st, n)
  }

  ghost predicate RunKept(p: Program, q: Program, o: Oracle, st: State, n: nat) {
    exists m: nat :: m >= n && Leads(q, o, At(q.root, 0, st), m, Run(p, o, At(p.root, 0, st), n))
  }

  lemma SplitKeepsRuns(p: Program, b: Node, t: Node)
    requires WellFormed(p) && TrivialPhis(p) && (b, t) in p.edges
    requires (p.blocks[b].flow.IfElse? || p.blocks[b].flow.Switch?)
    ensures KeepsRuns(p, SplitEdge(p, b, t))
  {
    forall o: Oracle, st: State, n: nat
      ensures RunKept(p, SplitEdge(p, b, t), o, st, n)
    {
      var m := SplitRuns(p, b, t, o, At(p.root, 0, st), n);
    }
  }

  lemma KeepsRunsReflexive(p: Program)
    ensures KeepsRuns(p, p)
  {
    forall o: Oracle, st: State, n: nat
      ensures RunKept(p, p, o, st, n)
    {
      LeadsMeansRun(p, o, At(p.root, 0, st), n, Run(p, o, At(p.root, 0, st), n));
    }
  }

  lemma KeepsRunsTransitive(p: Program, q: Program, r: Program)
    requires KeepsRuns(p, q) && KeepsRuns(q, r)
    ensures KeepsRuns(p, r)
  {
    forall o: Oracle, st: State, n: nat
      ensures RunKept(p, r, o, st, n)
    {
      assert RunKept(p, q, o, st, n);
      var m: nat :| m >= n && Leads(q, o, At(q.root, 0, st), m, Run(p, o, At(p.root, 0, st), n));
      LeadsMeansRun(q, o, At(q.root, 0, st), m, Run(p, o, At(p.root, 0, st), n));
      assert RunKept(q, r, o, st, m);
    }
  }

  ghost predicate SameHalting(p: Program, q: Program) {
    forall o: Oracle, st: State, final: State :: Halts(p, o, st, final) <==> Halts(q, o, st, final)
  }

  /** Programs that keep each other's runs halt alike. */
  lemma KeptRunsHaltAlike(p: Program, q: Program)
    requires KeepsRuns(p, q)
    ensures SameHalting(p, q)
  {
    forall o: Oracle, st: State, final: State
      ensures Halts(p, o, st, final) <==> Halts(q, o, st, final)
    {
      var start, start' := At(p.root, 0, st), At(q.root, 0, st);
      if Halts(p, o, st, final) {
        var n: nat :| Run(p, o, start, n) == Halted(final);
        assert RunKept(p, q, o, st, n);
        var m: nat :| m >= n && Leads(q, o, start', m, Run(p, o, start, n));
        LeadsMeansRun(q, o, start', m, Halted(final));
      }
      if Halts(q, o, st, final) {
        var n: nat :| Run(q, o, start', n) == Halted(final);
        assert RunKept(p, q, o, st, n);
        var m: nat :| m >= n && Leads(q, o, start', m, Run(p, o, start, n));
        LeadsMeansRun(q, o, start', m, Run(p, o, start, n));
        RunPlus(q, o, start', n, m - n);
        RunStaysHalted(q, o, Halted(final), m - n);
      }
    }
  }

  // ---------------------------------------------------------------------------------------
  // The pass
  // ---------------------------------------------------------------------------------------

  method UpdatePhi(opt: Optimizer, block: Node, from: Node, to: Node)
    requires block < |opt.program.blocks|
    modifies opt`program
    ensures var p := old(opt.program);
            opt.program == p.(blocks :=
              p.blocks[block := p.blocks[block].(phis := RedirectPhis(p.blocks[block].phis, from, to))])
  {
    var b := opt.program.blocks[block];
    var phis: seq<PhiInstruction> := [];
    for i := 0 to |b.phis|
      invariant |phis| == i
      invariant forall k ::
                0 <= k < i ==> phis[k] == b.phis[k].(entries := RedirectEntries(b.phis[k].entries, from, to))
    {
      var entries := b.phis[i].entries;
      for j := 0 to |entries|
        invariant |entries| == |b.phis[i].entries|
        invariant forall k :: 0 <= k < j ==> entries[k] == RedirectEntries(b.phis[i].entries, from, to)[k]
        invariant forall k :: j <= k < |entries| ==> entries[k] == b.phis[i].entries[k]
      {
        if entries[j].block == from {
          entries := entries[j := entries[j].(block := to)];
        }
      }
      assert entries == RedirectEntries(b.phis[i].entries, from, to);
      phis := phis + [b.phis[i].(entries := entries)];
    }
    assert phis == RedirectPhis(b.phis, from, to);
    opt.program := opt.program.(blocks := opt.program.blocks[block := b.(phis := phis)]);
  }

  method UpdateControlFlow(opt: Optimizer, block: Node, from: Node, to: Node)
    requires block < |opt.program.blocks|
    modifies opt`program
    ensures var p := old(opt.program);
            opt.program == p.(blocks :=
              p.blocks[block := p.blocks[block].(flow := RedirectFlow(p.blocks[block].flow, from, to))])
  {
    var b := opt.program.blocks[block];
    var flow := b.flow;
    match b.flow {
      case IfElse(cond, then_, orElse) =>
        flow := IfElse(cond, if then_ == from then to else then_, if orElse == from then to else orElse);
      case Switch(value, default, branches) =>
        var updated := branches;
        for i := 0 to |branches|
          invariant |updated| == |branches|
          invariant forall k :: 0 <= k < i ==> updated[k] == RedirectBranches(branches, from, to)[k]
          invariant forall k :: i <= k < |branches| ==> updated[k] == branches[k]
        {
          if updated[i].1 == from {
            updated := updated[i := (updated[i].0, to)];
          }
        }
        assert updated == RedirectBranches(branches, from, to);
        flow := Switch(value, if default == from then to else default, updated);
      case _ =>
    }
    opt.program := opt.program.(blocks := opt.program.blocks[block := b.(flow := flow)]);
  }

  method SplitOne(opt: Optimizer, block: Node, successor: Node)
    requires ValidGraph(opt.program) && (block, successor) in opt.program.edges
    modifies opt`program
    ensures opt.program == SplitEdge(old(opt.program), block, successor)
  {
    var p := opt.program;
    var newBlock := |p.blocks|;
    opt.program := p.(blocks := p.blocks + [EMPTY_BLOCK],
      edges := p.edges - {(block, successor)} + {(block, newBlock), (newBlock, successor)});
    UpdatePhi(opt, successor, block, newBlock);
    UpdateControlFlow(opt, block, successor, newBlock);
    var q := SplitEdge(p, block, successor);
    assert opt.program.blocks == q.blocks;
  }

  /** What an old block keeps: degrees, operations, the number of phis and the arity of each. */
  ghost predicate KeepsBlock(p0: Program, p: Program, x: Node) {
    && x < |p0.blocks| && x < |p.blocks|
    && |Successors(p, x)| == |Successors(p0, x)| && |Predecessors(p, x)| == |Predecessors(p0, x)|
    && p.blocks[x].ops == p0.blocks[x].ops
    && |p.blocks[x].phis| == |p0.blocks[x].phis|
    && (forall i :: 0 <= i < |p0.blocks[x].phis| ==> |p.blocks[x].phis[i].entries| == |p0.blocks[x].phis[i].entries|)
    && TerminatorRead(p.blocks[x].flow) == TerminatorRead(p0.blocks[x].flow)
    && (p0.blocks[x].flow.IfElse? <==> p.blocks[x].flow.IfElse?)
    && (p0.blocks[x].flow.Switch? <==> p.blocks[x].flow.Switch?)
    && (!p0.blocks[x].flow.IfElse? && !p0.blocks[x].flow.Switch? ==> p.blocks[x].flow == p0.blocks[x].flow)
    && (p0.blocks[x].flow.IfElse? ==> BranchKept(p, x, p0.blocks[x].flow, p.blocks[x].flow))
  }

  /** Control that went from `x` to `t` still does, directly or through a block put in between. */
  ghost predicate Diverted(p: Program, x: Node, t: Node, t': Node) {
    t' == t || Inserted(p, t', (x, t))
  }

  ghost predicate BranchKept(p: Program, x: Node, was: ControlFlow, flow: ControlFlow) {
    && was.IfElse? && flow.IfElse? && flow.cond == was.cond
    && Diverted(p, x, was.then_, flow.then_) && Diverted(p, x, was.orElse, flow.orElse)
  }

  /** A block put on the critical edge `e` of the first program. */
  ghost predicate Inserted(p: Program, n: Node, e: Edge) {
    n < |p.blocks| && p.blocks[n] == EMPTY_BLOCK && Predecessors(p, n) == {e.0} && Successors(p, n) == {e.1}
  }

  ghost predicate OnCriticalEdge(p0: Program, p: Program, n: Node) {
    exists e: Edge :: Critical(p0, e) && Inserted(p, n, e)
  }

  /** No critical edge leaves the header of a range loop. */
  ghost predicate HeadersAreWhole(p: Program) {
    forall e: Edge :: Critical(p, e) && e.0 < |p.blocks| ==> !p.blocks[e.0].flow.LoopBreak?
  }

  /** `p` is `p0` with the critical edges that do not satisfy `Critical(p, _)` any more split. */
  ghost predicate PartlySplit(p0: Program, p: Program) {
    && ValidGraph(p) && p.root == p0.root && p.variables == p0.variables && |p.blocks| >= |p0.blocks|
    && (forall x: Node {:trigger KeepsBlock(p0, p, x)} :: x < |p0.blocks| ==> KeepsBlock(p0, p, x))
    && (forall n: Node {:trigger OnCriticalEdge(p0, p, n)} ::
       |p0.blocks| <= n < |p.blocks| ==> OnCriticalEdge(p0, p, n))
    && (forall e: Edge :: e in p0.edges && !Critical(p0, e) ==> e in p.edges)
    && (forall e: Edge :: Critical(p, e) ==> Critical(p0, e))
    && (forall e: Edge :: e in p.edges && e.0 < |p0.blocks| && e.1 < |p0.blocks| ==> e in p0.edges)
    && (SoundCode(p0) && EntriesInRange(p0) ==> SoundCode(p) && EntriesInRange(p))
    && (PhisAreIndices(p0) ==> PhisAreIndices(p)) && (DomFrontiers.HasDeadJoin(p) <==> DomFrontiers.HasDeadJoin(p0))
    && (WellFormed(p0) && TrivialPhis(p0) && HeadersAreWhole(p0) ==>
       WellFormed(p) && TrivialPhis(p) && KeepsRuns(p0, p))
  }

  lemma PartlySplitStart(p: Program)
    requires ValidGraph(p)
    ensures PartlySplit(p, p)
  {
    KeepsRunsReflexive(p);
  }

  lemma SplitDiverts(p: Program, b: Node, t: Node, x: Node, was: Node, now: Node)
    requires ValidGraph(p) && Critical(p, (b, t)) && x < |p.blocks| && Diverted(p, x, was, now)
    ensures Diverted(SplitEdge(p, b, t), x, was, if x == b then Redirect(now, t, |p.blocks|) else now)
  {
    assert |{x}| == 1 && |{was}| == 1;
    SplitNeighbours(p, b, t);
  }

  lemma SplitKeepsBlocks(p0: Program, p: Program, b: Node, t: Node, x: Node)
    requires ValidGraph(p) && Critical(p, (b, t)) && KeepsBlock(p0, p, x)
    ensures KeepsBlock(p0, SplitEdge(p, b, t), x)
  {
    SplitKeepsDegrees(p, b, t);
    SplitPhis(p, b, t, x);
    var was, flow := p0.blocks[x].flow, p.blocks[x].flow;
    if was.IfElse? {
      SplitDiverts(p, b, t, x, was.then_, flow.then_);
      SplitDiverts(p, b, t, x, was.orElse, flow.orElse);
    }
  }

  /** Splitting makes no old block reachable or unreachable. */
  lemma {:induction false} SplitKeepsReachable(p: Program, b: Node, t: Node, path: seq<Node>, x: Node)
    requires ValidGraph(p) && (b, t) in p.edges && PathTo(p, path, x)
    ensures Reachable(SplitEdge(p, b, t), x)
    decreases |path|
  {
    var q := SplitEdge(p, b, t);
    if |path| == 1 {
      assert PathTo(q, path, x);
    } else {
      var y := path[|path| - 2];
      PathPrefix(p, path, x, |path| - 1);
      SplitKeepsReachable(p, b, t, path[..|path| - 1], y);
      assert (path[|path| - 2], path[|path| - 2 + 1]) in p.edges;
      if (y, x) == (b, t) {
        ReachableNext(q, b, |p.blocks|);
        ReachableNext(q, |p.blocks|, x);
      } else {
        ReachableNext(q, y, x);
      }
    }
  }

  /** A block of the split program is reachable only if it was, the new one only if its predecessor was. */
  lemma {:induction false} SplitReachesNothingNew(p: Program, b: Node, t: Node, path: seq<Node>, x: Node)
    requires ValidGraph(p) && (b, t) in p.edges && PathTo(SplitEdge(p, b, t), path, x)
    ensures Reachable(p, if x == |p.blocks| then b else x)
    decreases |path|
  {
    var q := SplitEdge(p, b, t);
    if |path| == 1 {
      assert PathTo(p, path, x);
    } else {
      var y := path[|path| - 2];
      PathPrefix(q, path, x, |path| - 1);
      SplitReachesNothingNew(p, b, t, path[..|path| - 1], y);
      assert (path[|path| - 2], path[|path| - 2 + 1]) in q.edges;
      if y == |p.blocks| {
        assert x == t;
        ReachableNext(p, b, t);
      } else if x != |p.blocks| {
        ReachableNext(p, y, x);
      }
    }
  }

  lemma SplitReachability(p: Program, b: Node, t: Node, x: Node)
    requires ValidGraph(p) && (b, t) in p.edges && x <= |p.blocks|
    ensures Reachable(SplitEdge(p, b, t), x) <==> Reachable(p, if x == |p.blocks| then b else x)
  {
    var q, was := SplitEdge(p, b, t), if x == |p.blocks| then b else x;
    if path :| PathTo(p, path, was) {
      SplitKeepsReachable(p, b, t, path, was);
      if x == |p.blocks| {
        ReachableNext(q, b, x);
      }
    }
    if path :| PathTo(q, path, x) {
      SplitReachesNothingNew(p, b, t, path, x);
    }
  }

  lemma DeadJoinStays(p: Program, b: Node, t: Node, x: Node, s: Node)
    requires ValidGraph(p) && (b, t) in p.edges && DomFrontiers.IsDeadJoin(p, x, s)
    ensures DomFrontiers.HasDeadJoin(SplitEdge(p, b, t))
  {
    var q, n := SplitEdge(p, b, t), |p.blocks|;
    SplitNeighbours(p, b, t);
    SplitKeepsDegrees(p, b, t);
    var s' := if x == t && s == b then n else s;
    assert (s, x) in p.edges;
    SplitReachability(p, b, t, x);
    SplitReachability(p, b, t, s');
    assert DomFrontiers.IsDeadJoin(q, x, s');
  }

  lemma DeadJoinIsOld(p: Program, b: Node, t: Node, x: Node, s': Node)
    requires ValidGraph(p) && (b, t) in p.edges && DomFrontiers.IsDeadJoin(SplitEdge(p, b, t), x, s')
    ensures DomFrontiers.HasDeadJoin(p)
  {
    var q, n := SplitEdge(p, b, t), |p.blocks|;
    SplitNeighbours(p, b, t);
    assert |{b}| == 1;
    SplitKeepsDegrees(p, b, t);
    var s := if x == t && s' == n then b else s';
    assert (s', x) in q.edges;
    SplitReachability(p, b, t, x);
    SplitReachability(p, b, t, s');
    assert DomFrontiers.IsDeadJoin(p, x, s);
  }

  lemma SplitKeepsDeadJoins(p: Program, b: Node, t: Node)
    requires ValidGraph(p) && (b, t) in p.edges
    ensures DomFrontiers.HasDeadJoin(SplitEdge(p, b, t)) <==> DomFrontiers.HasDeadJoin(p)
  {
    if x: Node, s: Node :| DomFrontiers.IsDeadJoin(p, x, s) {
      DeadJoinStays(p, b, t, x, s);
    }
    if x: Node, s: Node :| DomFrontiers.IsDeadJoin(SplitEdge(p, b, t), x, s) {
      DeadJoinIsOld(p, b, t, x, s);
    }
  }

  lemma SplitKeepsInserted(p0: Program, p: Program, b: Node, t: Node, n: Node)
    requires ValidGraph(p) && Critical(p, (b, t)) && OnCriticalEdge(p0, p, n)
    ensures OnCriticalEdge(p0, SplitEdge(p, b, t), n)
  {
    var e: Edge :| Critical(p0, e) && Inserted(p, n, e);
    assert |{e.0}| == 1 && |{e.1}| == 1;
    SplitNeighbours(p, b, t);
    assert Inserted(SplitEdge(p, b, t), n, e);
  }

  /** What one more split keeps of runs. */
  lemma SplitKeepsMeaning(p0: Program, p: Program, b: Node, t: Node)
    requires WellFormed(p0) && TrivialPhis(p0) && HeadersAreWhole(p0) && WellFormed(p) && TrivialPhis(p)
    requires KeepsRuns(p0, p)
    requires Critical(p, (b, t)) && Critical(p0, (b, t)) && KeepsBlock(p0, p, b)
    ensures var q := SplitEdge(p, b, t); WellFormed(q) && TrivialPhis(q) && KeepsRuns(p0, q)
  {
    assert FlowMatchesEdges(p, b);
    SeveralSuccessors(p, b);
    SplitStaysWellFormed(p, b, t);
    SplitKeepsTrivialPhis(p, b, t);
    SplitKeepsRuns(p, b, t);
    KeepsRunsTransitive(p0, p, SplitEdge(p, b, t));
  }

  lemma PartlySplitBlocks(p0: Program, p: Program, b: Node, t: Node)
    requires ValidGraph(p0) && PartlySplit(p0, p) && Critical(p, (b, t)) && Critical(p0, (b, t))
    ensures KeepsBlock(p0, p, b)
    ensures var q := SplitEdge(p, b, t);
            && (forall x: Node {:trigger KeepsBlock(p0, q, x)} :: x < |p0.blocks| ==> KeepsBlock(p0, q, x))
            && (forall n: Node {:trigger OnCriticalEdge(p0, q, n)} ::
               |p0.blocks| <= n < |q.blocks| ==> OnCriticalEdge(p0, q, n))
  {
    var q := SplitEdge(p, b, t);
    SplitNeighbours(p, b, t);
    assert KeepsBlock(p0, p, b);
    forall x: Node | x < |p0.blocks|
      ensures KeepsBlock(p0, q, x)
    {
      assert KeepsBlock(p0, p, x);
      SplitKeepsBlocks(p0, p, b, t, x);
    }
    forall n: Node | |p0.blocks| <= n < |q.blocks|
      ensures OnCriticalEdge(p0, q, n)
    {
      if n < |p.blocks| {
        assert OnCriticalEdge(p0, p, n);
        SplitKeepsInserted(p0, p, b, t, n);
      } else {
        assert Inserted(q, n, (b, t));
      }
    }
  }

  lemma PartlySplitStep(p0: Program, p: Program, b: Node, t: Node)
    requires ValidGraph(p0) && PartlySplit(p0, p) && Critical(p, (b, t))
    ensures PartlySplit(p0, SplitEdge(p, b, t))
  {
    var q := SplitEdge(p, b, t);
    SplitNeighbours(p, b, t);
    assert Critical(p0, (b, t));
    PartlySplitBlocks(p0, p, b, t);
    forall e: Edge
      ensures Critical(q, e) ==> Critical(p0, e)
    {
      SplitCriticality(p, b, t, e);
    }
    if SoundCode(p0) && EntriesInRange(p0) {
      SplitKeepsCode(p, b, t);
    }
    if PhisAreIndices(p0) {
      SplitKeepsIndices(p, b, t);
    }
    SplitKeepsDeadJoins(p, b, t);
    if WellFormed(p0) && TrivialPhis(p0) && HeadersAreWhole(p0) {
      SplitKeepsMeaning(p0, p, b, t);
    }
  }

  /** What the pass promises of its result `p` on a program `p0`. */
  ghost predicate IsSplit(p0: Program, p: Program) {
    PartlySplit(p0, p) && forall e: Edge :: !Critical(p, e)
  }

  /** Critical edges that leave block `b` while its listed successors are split one by one. */
  ghost predicate StillToSplit(p: Program, b: Node, rest: seq<Node>) {
    && (forall i, j :: 0 <= i < j < |rest| ==> rest[i] != rest[j])
    && (forall t: Node :: t in rest <==> Critical(p, (b, t)))
  }

  lemma StillToSplitTail(p: Program, b: Node, rest: seq<Node>)
    requires ValidGraph(p) && rest != [] && StillToSplit(p, b, rest) && Critical(p, (b, rest[0]))
    ensures StillToSplit(SplitEdge(p, b, rest[0]), b, rest[1..])
  {
    assert rest[0] in rest;
    var q := SplitEdge(p, b, rest[0]);
    forall t: Node
      ensures t in rest[1..] <==> Critical(q, (b, t))
    {
      SplitCriticality(p, b, rest[0], (b, t));
      assert t in rest <==> t == rest[0] || t in rest[1..];
    }
  }

  method SplitBlock(opt: Optimizer, ghost p0: Program, block: Node)
    requires ValidGraph(p0) && PartlySplit(p0, opt.program) && block < |p0.blocks|
    modifies opt`program
    ensures PartlySplit(p0, opt.program)
    ensures forall e: Edge :: Critical(opt.program, e) <==> Critical(old(opt.program), e) && e.0 != block
  {
    var successors := ListOf(Successors(opt.program, block));
    if |successors| > 1 {
      var crit := CriticalOf(opt.program, block, successors);
      for i := 0 to |crit|
        invariant PartlySplit(p0, opt.program)
        invariant StillToSplit(opt.program, block, crit[i..])
        invariant forall e: Edge :: e.0 != block ==> (Critical(opt.program, e) <==> Critical(old(opt.program), e))
      {
        ghost var p := opt.program;
        assert crit[i..][0] == crit[i];
        assert crit[i] in crit[i..];
        PartlySplitStep(p0, p, block, crit[i]);
        StillToSplitTail(p, block, crit[i..]);
        assert crit[i..][1..] == crit[i + 1..];
        SplitOne(opt, block, crit[i]);
        forall e: Edge | e.0 != block
          ensures Critical(opt.program, e) <==> Critical(old(opt.program), e)
        {
          SplitCriticality(p, block, crit[i], e);
        }
      }
    }
  }

  /** The successors of a block with several that have several predecessors themselves. */
  method CriticalOf(p: Program, block: Node, successors: seq<Node>) returns (crit: seq<Node>)
    requires |Successors(p, block)| > 1
    requires forall x: Node :: x in successors <==> x in Successors(p, block)
    requires forall i, j :: 0 <= i < j < |successors| ==> successors[i] != successors[j]
    ensures StillToSplit(p, block, crit)
  {
    crit := [];
    for i := 0 to |successors|
      invariant forall t: Node :: t in crit <==> t in successors[..i] && |Predecessors(p, t)| > 1
      invariant forall j, k :: 0 <= j < k < |crit| ==> crit[j] != crit[k]
    {
      if |Predecessors(p, successors[i])| > 1 {
        crit := crit + [successors[i]];
      }
      assert successors[..i + 1] == successors[..i] + [successors[i]];
    }
    assert successors[..|successors|] == successors;
    assert forall t: Node :: t in Successors(p, block) <==> (block, t) in p.edges;
  }

  method SplitCriticalEdges(opt: Optimizer)
    requires ValidGraph(opt.program)
    modifies opt`program
    ensures IsSplit(old(opt.program), opt.program)
  {
    ghost var p0 := opt.program;
    PartlySplitStart(p0);
    var count := |opt.program.blocks|;
    for block := 0 to count
      invariant PartlySplit(p0, opt.program)
      invariant forall e: Edge :: Critical(opt.program, e) ==> Critical(p0, e) && block <= e.0
    {
      SplitBlock(opt, p0, block);
    }
  }

  /** A range-loop header that lost an edge still names its old target. */
  lemma HeaderLosesTarget(p0: Program, p: Program, e: Edge)
    requires KeepsBlock(p0, p, e.0) && KeepsBlock(p0, p, e.1) && FlowMatchesEdges(p0, e.0)
    requires Critical(p0, e) && !Critical(p, e) && p0.blocks[e.0].flow.LoopBreak?
    ensures !FlowMatchesEdges(p, e.0)
  {
    assert e.1 in Successors(p0, e.0);
    assert e !in p.edges;
    assert e.1 !in Successors(p, e.0);
  }

  /**
   Splitting keeps the graph well formed exactly when no critical edge leaves the header of a range
   loop, which is what a `break` out of such a loop would create: those terminators are not redirected.
   */
  lemma SplitIsWellFormedIff(p0: Program, p: Program)
    requires WellFormed(p0) && TrivialPhis(p0) && IsSplit(p0, p)
    ensures WellFormed(p) <==> HeadersAreWhole(p0)
    ensures HeadersAreWhole(p0) ==> KeepsRuns(p0, p) && SameHalting(p0, p)
  {
    if HeadersAreWhole(p0) {
      KeptRunsHaltAlike(p0, p);
    }
    if WellFormed(p) && !HeadersAreWhole(p0) {
      var e: Edge :| Critical(p0, e) && e.0 < |p0.blocks| && p0.blocks[e.0].flow.LoopBreak?;
      assert KeepsBlock(p0, p, e.0) && KeepsBlock(p0, p, e.1);
      HeaderLosesTarget(p0, p, e);
    }
  }
}
