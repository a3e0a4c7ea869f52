/** The graph while it is being built: what holds at every moment, and what each single change keeps. */
module ParseState {
  import opened Options
  import opened Ir
  import opened Dominance
  import opened Liveness
  import opened Version
  import opened SsaForm
  import opened OptimizerState
  import opened Layout
  import opened LayoutFacts
  import opened LoopRegions

  ghost predicate MatchedAt(c: Context, b: Node) {
    Finished(c, b) ==> FlowMatchesEdges(c.p, b)
  }

  /** Names are plain whatever the set of tracked variables. */
  ghost predicate PlainOperand(x: Variable) {
    !x.Versioned?
  }

  ghost predicate PlainInstruction(inst: Instruction) {
    (forall x :: x in inst.inputs ==> PlainOperand(x)) && (inst.out.Some? ==> PlainOperand(inst.out.value))
  }

  ghost predicate PlainCode(b: BasicBlock) {
    && (forall i :: 0 <= i < |b.ops| ==> PlainInstruction(b.ops[i]))
    && (TerminatorRead(b.flow).Some? ==> PlainOperand(TerminatorRead(b.flow).value))
  }

  /** A phi for one tracked variable with an entry for every predecessor. */
  ghost predicate SoundPhi(p: Program, b: Node, phi: PhiInstruction) {
    && TrivialPhi(p.variables, phi) && (forall q :: q in Predecessors(p, b) ==> PhiValue(phi.entries, q).Some?)
    && forall i :: 0 <= i < |phi.entries| ==> phi.entries[i].block < |p.blocks|
  }

  /** A loop region that no later edge can enter: only its header may still be open. */
  ghost predicate Sealed(c: Context, header: Node, id: Id, nodes: set<Node>, tail: Node, latch: Node) {
    && LoopRegion(c.p, header, id, nodes, tail, latch)
    && nodes * c.open <= {header} && forall i :: 0 <= i < |c.rets| ==> c.rets[i] !in nodes
  }

  ghost predicate Due(c: Context, header: Node, id: Id) {
    exists nodes: set<Node>, tail: Node, latch: Node :: Sealed(c, header, id, nodes, tail, latch)
  }

  /** The parser's own phis stand at headers of range loops, for the loop's index. */
  ghost predicate PhisDue(c: Context, b: Node) {
    b < |c.p.blocks| ==> forall id: Id :: HasPhi(c.p.blocks[b], id) ==> Due(c, b, id)
  }

  ghost predicate SoundBlock(p: Program, b: Node) {
    b < |p.blocks| ==>
      && PlainCode(p.blocks[b])
      && forall i :: 0 <= i < |p.blocks[b].phis| ==> SoundPhi(p, b, p.blocks[b].phis[i])
  }

  ghost predicate NoPhis(p: Program, b: Node) {
    b < |p.blocks| && p.blocks[b].phis == []
  }

  /** A block is entered along no more edges than it may be. */
  ghost predicate WithinLimit(c: Context, b: Node) {
    b in c.limit ==> b < |c.p.blocks| && |Predecessors(c.p, b)| <= c.limit[b]
  }

  /**
   Unless a `break` leaves a range loop, the edges out of its header are the only ones into their
   targets; unless the kernel says so, no terminator reads a mutable variable.
   */
  ghost predicate FlowAllowed(c: Context, flow: ControlFlow) {
    && (c.clean && flow.LoopBreak? ==> forall t :: t in Targets(flow) ==> LimitOf(c, t) == Some(1))
    && (c.quiet && TerminatorRead(flow).Some? ==> !TerminatorRead(flow).value.LocalMut?)
  }

  ghost predicate AllowedAt(c: Context, b: Node) {
    Finished(c, b) ==> FlowAllowed(c, c.p.blocks[b].flow)
  }

  /** If all of the kernel can be reached, so can every block that leads on. */
  ghost predicate SourceReached(c: Context, e: Edge) {
    c.flows && e in c.p.edges ==> Reachable(c.p, e.0)
  }

  ghost predicate Growing(c: Context) {
    && ValidGraph(c.p) && NoPhis(c.p, c.p.root) && c.open <= NodeIds(c.p) && c.p.variables <= c.declared
    && ReturnChain(c) && c.rets != []
    && (forall i :: 0 <= i < |c.rets| ==> NoPhis(c.p, c.rets[i]) && c.rets[i] != c.p.root && Free(c, c.rets[i]))
    && (forall b: Node {:trigger MatchedAt(c, b)} :: MatchedAt(c, b))
    && (forall b: Node {:trigger SoundBlock(c.p, b)} :: SoundBlock(c.p, b))
    && (forall b: Node {:trigger PhisDue(c, b)} :: PhisDue(c, b))
    && (forall b: Node {:trigger WithinLimit(c, b)} :: WithinLimit(c, b))
    && (forall b: Node {:trigger AllowedAt(c, b)} :: AllowedAt(c, b))
    && (forall e: Edge {:trigger SourceReached(c, e)} :: SourceReached(c, e))
  }

  // Kept folded behind a trigger while single changes are put together.

  ghost predicate Fold(c: Context) {
    true
  }

  ghost predicate SoundState(c: Context) {
    && c.open <= NodeIds(c.p) && c.rets != [] && c.p.root < |c.p.blocks|
    && forall d: Context {:trigger Fold(d)} :: d == c ==> Growing(d)
  }

  lemma SoundStateGrows(c: Context)
    ensures SoundState(c) <==> Growing(c)
  {
    assert Fold(c);
  }

  lemma SoundIsValid(c: Context)
    requires SoundState(c)
    ensures ValidGraph(c.p)
  {
    SoundStateGrows(c);
  }

  /** New edges enter open blocks, return blocks and new blocks only. */
  ghost predicate NewEdge(c: Context, e: Edge) {
    e in c.p.edges || e.1 in c.open || e.1 in c.rets || e.1 >= |c.p.blocks|
  }

  lemma {:induction false} ReachableGrows(p: Program, q: Program, b: Node)
    requires p.edges <= q.edges && p.root == q.root && Reachable(p, b)
    ensures Reachable(q, b)
  {
    var path :| PathTo(p, path, b);
    assert PathTo(q, path, b);
  }

  lemma EnteredIsReached(c: Context, b: Node)
    requires Growing(c) && c.flows && Entered(c.p, b)
    ensures Reachable(c.p, b)
  {
    if b == c.p.root {
      assert PathTo(c.p, [b], b);
    } else {
      var x :| x in Predecessors(c.p, b);
      assert SourceReached(c, (x, b));
      ReachableNext(c.p, x, b);
    }
  }

  /** New edges leave blocks that can be reached. */
  lemma SourcesStayReached(c: Context, d: Context)
    requires forall e: Edge {:trigger SourceReached(c, e)} :: SourceReached(c, e)
    requires d.flows == c.flows && c.p.edges <= d.p.edges && d.p.root == c.p.root
    requires forall e: Edge :: c.flows && e in d.p.edges && e !in c.p.edges ==> Reachable(c.p, e.0)
    ensures forall e: Edge {:trigger SourceReached(d, e)} :: SourceReached(d, e)
  {
    forall e: Edge
      ensures SourceReached(d, e)
    {
      assert SourceReached(c, e);
      if c.flows && e in d.p.edges {
        ReachableGrows(c.p, d.p, e.0);
      }
    }
  }

  ghost predicate KeepsRegions(c: Context, d: Context) {
    && Grown(c, d)
    && (forall e: Edge :: e in d.p.edges ==> NewEdge(c, e))
    && (forall b: Node :: b in d.open ==> b in c.open || b >= |c.p.blocks|)
    && (forall i :: 0 <= i < |d.rets| ==> d.rets[i] in c.rets || d.rets[i] >= |c.p.blocks|)
  }

  lemma RegionStays(c: Context, d: Context, header: Node, id: Id, nodes: set<Node>, tail: Node, latch: Node)
    requires KeepsRegions(c, d) && Sealed(c, header, id, nodes, tail, latch)
    ensures Sealed(d, header, id, nodes, tail, latch)
  {
    assert GrownAt(c, d, tail) && GrownAt(c, d, latch);
    assert tail !in nodes * c.open && latch !in nodes * c.open;
    assert nodes <= NodeIds(d.p);
    forall e: Edge | e in d.p.edges && e.1 in nodes && e.1 != header
      ensures e in c.p.edges
    {
      assert NewEdge(c, e);
      assert e.1 in NodeIds(c.p) && (e.1 in c.open ==> e.1 in nodes * c.open);
    }
    assert Predecessors(d.p, latch) == Predecessors(c.p, latch);
  }

  lemma DueStays(c: Context, d: Context, b: Node)
    requires KeepsRegions(c, d) && PhisDue(c, b) && b < |c.p.blocks| && b < |d.p.blocks|
    requires d.p.blocks[b].phis == c.p.blocks[b].phis
    ensures PhisDue(d, b)
  {
    forall id: Id | HasPhi(d.p.blocks[b], id)
      ensures Due(d, b, id)
    {
      assert HasPhi(c.p.blocks[b], id);
      var nodes: set<Node>, tail: Node, latch: Node :| Sealed(c, b, id, nodes, tail, latch);
      RegionStays(c, d, b, id, nodes, tail, latch);
    }
  }

  /** Changes that keep the phis of every block. */
  lemma AllDueStay(c: Context, d: Context)
    requires KeepsRegions(c, d) && forall b: Node {:trigger PhisDue(c, b)} :: PhisDue(c, b)
    requires forall b: Node :: b < |c.p.blocks| ==> d.p.blocks[b].phis == c.p.blocks[b].phis
    requires forall b: Node :: |c.p.blocks| <= b < |d.p.blocks| ==> d.p.blocks[b].phis == []
    ensures forall b: Node {:trigger PhisDue(d, b)} :: PhisDue(d, b)
  {
    forall b: Node
      ensures PhisDue(d, b)
    {
      assert PhisDue(c, b);
      if b < |c.p.blocks| {
        DueStays(c, d, b);
      }
    }
  }

  // ---------------------------------------------------------------------------------------
  // Single changes
  // ---------------------------------------------------------------------------------------

  function WithNode(p: Program): Program {
    p.(blocks := p.blocks + [EMPTY_BLOCK])
  }

  function WithEdge(p: Program, a: Node, b: Node): Program {
    p.(edges := p.edges + {(a, b)})
  }

  function WithOp(p: Program, b: Node, inst: Instruction): Program
    requires b < |p.blocks|
  {
    SetBlock(p, b, p.blocks[b].(ops := p.blocks[b].ops + [inst]))
  }

  function WithFlow(p: Program, b: Node, flow: ControlFlow): Program
    requires b < |p.blocks|
  {
    SetBlock(p, b, p.blocks[b].(flow := flow))
  }

  function WithUse(p: Program, b: Node, use: BlockUse): Program
    requires b < |p.blocks|
  {
    SetBlock(p, b, p.blocks[b].(blockUse := p.blocks[b].blockUse + {use}))
  }

  function WithVars(p: Program, ids: set<Id>): Program {
    p.(variables := p.variables + ids)
  }

  lemma EdgeChangesOneBlock(p: Program, a: Node, b: Node)
    ensures Successors(WithEdge(p, a, b), a) == Successors(p, a) + {b}
    ensures forall x :: x != a ==> Successors(WithEdge(p, a, b), x) == Successors(p, x)
    ensures forall x :: x != b ==> Predecessors(WithEdge(p, a, b), x) == Predecessors(p, x)
    ensures Predecessors(WithEdge(p, a, b), b) == Predecessors(p, b) + {a}
  {
    var q := WithEdge(p, a, b);
    assert (a, b) in q.edges;
    assert Successors(q, a) == Successors(p, a) + {b};
    assert Predecessors(q, b) == Predecessors(p, b) + {a};
  }

  /** Changes that leave edges and finished blocks alone. */
  ghost predicate LocalChange(c: Context, d: Context) {
    && d == c.(p := d.p, open := d.open, limit := d.limit)
    && d.p.edges == c.p.edges && d.p.root == c.p.root && c.p.variables <= d.p.variables <= d.declared
    && |c.p.blocks| <= |d.p.blocks| && d.open <= NodeIds(d.p) && c.open <= d.open
    && (forall b: Node :: b in d.open && b !in c.open ==> b >= |c.p.blocks|)
    && (forall b: Node :: |c.p.blocks| <= b < |d.p.blocks| ==> b in d.open && d.p.blocks[b] == EMPTY_BLOCK)
    && (forall b: Node :: b < |c.p.blocks| ==>
          && (b !in c.open ==> SameCode(d.p.blocks[b], c.p.blocks[b]))
          && c.p.blocks[b].ops <= d.p.blocks[b].ops && d.p.blocks[b].phis == c.p.blocks[b].phis
          && c.p.blocks[b].blockUse <= d.p.blocks[b].blockUse)
    && (forall b: Node :: b in c.limit ==> b in d.limit && d.limit[b] == c.limit[b])
    && (forall b: Node :: b in d.limit && Free(c, b) ==> |c.p.blocks| <= b < |d.p.blocks|)
  }

  lemma LocalChangeAt(c: Context, d: Context, b: Node)
    requires Growing(c) && LocalChange(c, d) && (b < |c.p.blocks| ==> PlainCode(d.p.blocks[b]))
    ensures GrownAt(c, d, b) && MatchedAt(d, b) && SoundBlock(d.p, b) && WithinLimit(d, b) && AllowedAt(d, b)
    ensures b < |c.p.blocks| ==> LimitOf(d, b) == LimitOf(c, b)
    ensures Successors(d.p, b) == Successors(c.p, b)
  {
    assert MatchedAt(c, b) && SoundBlock(c.p, b) && WithinLimit(c, b) && AllowedAt(c, b);
    assert Successors(d.p, b) == Successors(c.p, b) && Predecessors(d.p, b) == Predecessors(c.p, b);
    assert b >= |c.p.blocks| ==> Predecessors(d.p, b) == {};
  }

  lemma GrowLocally(c: Context, d: Context)
    requires Growing(c) && LocalChange(c, d) && forall b: Node :: b < |c.p.blocks| ==> PlainCode(d.p.blocks[b])
    ensures Growing(d) && Grown(c, d)
  {
    forall b: Node
      ensures GrownAt(c, d, b) && MatchedAt(d, b) && SoundBlock(d.p, b) && WithinLimit(d, b) && AllowedAt(d, b)
      ensures b < |c.p.blocks| ==> LimitOf(d, b) == LimitOf(c, b)
      ensures Successors(d.p, b) == Successors(c.p, b)
    {
      LocalChangeAt(c, d, b);
    }
    SourcesStayReached(c, d);
    forall i: nat
      ensures ReturnLink(d, i)
    {
      assert ReturnLink(c, i);
    }
    AllDueStay(c, d);
  }

  ghost function NodeAdded(c: Context, limit: Option<nat>): Context {
    var n := |c.p.blocks|;
    c.(p := WithNode(c.p), open := c.open + {n}, limit := if limit.Some? then c.limit[n := limit.value] else c.limit)
  }

  lemma GrowNode(c: Context, limit: Option<nat>)
    requires Growing(c)
    ensures var d := NodeAdded(c, limit); Growing(d) && Grown(c, d)
  {
    forall b: Node | b < |c.p.blocks|
      ensures PlainCode(WithNode(c.p).blocks[b])
    {
      assert SoundBlock(c.p, b);
    }
    assert WithinLimit(c, |c.p.blocks|);
    GrowLocally(c, NodeAdded(c, limit));
  }

  lemma GrowOp(c: Context, b: Node, inst: Instruction)
    requires Growing(c) && b in c.open && PlainInstruction(inst)
    ensures var d := c.(p := WithOp(c.p, b, inst)); Growing(d) && Grown(c, d)
  {
    forall x: Node | x < |c.p.blocks|
      ensures PlainCode(WithOp(c.p, b, inst).blocks[x])
    {
      assert SoundBlock(c.p, x);
    }
    GrowLocally(c, c.(p := WithOp(c.p, b, inst)));
  }

  lemma GrowFlow(c: Context, b: Node, flow: ControlFlow)
    requires Growing(c) && b in c.open
    requires TerminatorRead(flow).Some? ==> PlainOperand(TerminatorRead(flow).value)
    ensures var d := c.(p := WithFlow(c.p, b, flow)); Growing(d) && Grown(c, d)
  {
    forall x: Node | x < |c.p.blocks|
      ensures PlainCode(WithFlow(c.p, b, flow).blocks[x])
    {
      assert SoundBlock(c.p, x);
    }
    GrowLocally(c, c.(p := WithFlow(c.p, b, flow)));
  }

  lemma GrowUse(c: Context, b: Node, use: BlockUse)
    requires Growing(c) && b < |c.p.blocks|
    ensures var d := c.(p := WithUse(c.p, b, use)); Growing(d) && Grown(c, d)
  {
    forall x: Node | x < |c.p.blocks|
      ensures PlainCode(WithUse(c.p, b, use).blocks[x])
    {
      assert SoundBlock(c.p, x);
    }
    GrowLocally(c, c.(p := WithUse(c.p, b, use)));
  }

  lemma GrowVars(c: Context, ids: set<Id>)
    requires Growing(c) && ids <= c.declared
    ensures var d := c.(p := WithVars(c.p, ids)); Growing(d) && Grown(c, d)
  {
    forall x: Node | x < |c.p.blocks|
      ensures PlainCode(WithVars(c.p, ids).blocks[x])
    {
      assert SoundBlock(c.p, x);
    }
    GrowLocally(c, c.(p := WithVars(c.p, ids)));
  }

  /** One more edge may lead to the block. */
  ghost predicate MayEnter(c: Context, b: Node) {
    b in c.limit ==> |Predecessors(c.p, b)| < c.limit[b]
  }

  lemma EdgeKeepsBlock(c: Context, a: Node, b: Node, x: Node)
    requires Growing(c) && a in c.open && NoPhis(c.p, b) && MayEnter(c, b) && (a, b) !in c.p.edges
    ensures var d := c.(p := WithEdge(c.p, a, b));
            GrownAt(c, d, x) && MatchedAt(d, x) && SoundBlock(d.p, x) && WithinLimit(d, x) && AllowedAt(d, x)
  {
    EdgeChangesOneBlock(c.p, a, b);
    assert MatchedAt(c, x) && SoundBlock(c.p, x) && WithinLimit(c, x) && AllowedAt(c, x);
  }

  /** A new edge leaves an open block and enters a block without phis. */
  lemma GrowEdge(c: Context, a: Node, b: Node)
    requires Growing(c) && a in c.open && a != b && b != c.p.root && NoPhis(c.p, b) && (b in c.open || b in c.rets)
    requires MayEnter(c, b) && Live(c, a) && (a, b) !in c.p.edges
    ensures var d := c.(p := WithEdge(c.p, a, b)); Growing(d) && Grown(c, d)
  {
    var d := c.(p := WithEdge(c.p, a, b));
    forall x: Node
      ensures GrownAt(c, d, x) && MatchedAt(d, x) && SoundBlock(d.p, x) && WithinLimit(d, x) && AllowedAt(d, x)
    {
      EdgeKeepsBlock(c, a, b, x);
    }
    if c.flows {
      EnteredIsReached(c, a);
    }
    SourcesStayReached(c, d);
    forall i: nat
      ensures ReturnLink(d, i)
    {
      assert ReturnLink(c, i);
    }
    AllDueStay(c, d);
  }

  /** A block is finished once its terminator matches its edges. */
  lemma GrowClose(c: Context, b: Node)
    requires Growing(c) && b in c.open && FlowMatchesEdges(c.p, b)
    requires FlowAllowed(c, c.p.blocks[b].flow)
    ensures var d := c.(open := c.open - {b}); Growing(d) && Grown(c, d)
  {
    var d := c.(open := c.open - {b});
    forall x: Node
      ensures GrownAt(c, d, x) && MatchedAt(d, x) && WithinLimit(d, x) && AllowedAt(d, x)
    {
      assert MatchedAt(c, x) && WithinLimit(c, x) && AllowedAt(c, x);
    }
    SourcesStayReached(c, d);
    forall i: nat
      ensures ReturnLink(d, i)
    {
      assert ReturnLink(c, i);
    }
    AllDueStay(c, d);
  }

  /** A finished empty block that leads to the last return block becomes the new one. */
  lemma GrowReturn(c: Context, b: Node)
    requires Growing(c) && FallsTo(c, (b, 0), c.rets[|c.rets| - 1]) && NoPhis(c.p, b) && b != c.p.root && Free(c, b)
    requires forall x: Node {:trigger PhisDue(c.(rets := c.rets + [b]), x)} :: PhisDue(c.(rets := c.rets + [b]), x)
    ensures var d := c.(rets := c.rets + [b]); Growing(d) && Grown(c, d)
  {
    var d := c.(rets := c.rets + [b]);
    forall x: Node
      ensures GrownAt(c, d, x) && MatchedAt(d, x) && WithinLimit(d, x) && AllowedAt(d, x)
    {
      assert MatchedAt(c, x) && WithinLimit(c, x) && AllowedAt(c, x);
    }
    SourcesStayReached(c, d);
    forall i: nat
      ensures ReturnLink(d, i)
    {
      assert ReturnLink(c, i);
    }
  }

  lemma FreshPhiIsSound(c: Context, b: Node, id: Id, phi: PhiInstruction)
    requires ValidGraph(c.p) && b < |c.p.blocks| && id in c.p.variables && IsFreshPhi(c.p, b, id, phi)
    ensures SoundPhi(c.p, b, phi)
  {
    forall q | q in Predecessors(c.p, b)
      ensures PhiValue(phi.entries, q).Some?
    {
      PhiValueIsEntry(phi.entries, q);
    }
    forall i | 0 <= i < |phi.entries|
      ensures phi.entries[i].block < |c.p.blocks|
    {
      assert phi.entries[i].block in Predecessors(c.p, b);
    }
  }

  lemma PhiKeepsBlock(c: Context, b: Node, phi: PhiInstruction, x: Node)
    requires Growing(c) && b in c.open && SoundPhi(c.p, b, phi)
    ensures var d := c.(p := AddPhi(c.p, b, phi));
            GrownAt(c, d, x) && MatchedAt(d, x) && SoundBlock(d.p, x) && WithinLimit(d, x) && AllowedAt(d, x)
  {
    var d := c.(p := AddPhi(c.p, b, phi));
    assert MatchedAt(c, x) && SoundBlock(c.p, x) && WithinLimit(c, x) && AllowedAt(c, x);
    assert Successors(d.p, x) == Successors(c.p, x) && Predecessors(d.p, x) == Predecessors(c.p, x);
  }

  /** A fresh phi at an open block for a tracked variable. */
  lemma GrowPhi(c: Context, b: Node, id: Id, phi: PhiInstruction)
    requires Growing(c) && b in c.open && b != c.p.root && b !in c.rets && id in c.p.variables
    requires IsFreshPhi(c.p, b, id, phi)
    requires Due(c, b, id)
    ensures var d := c.(p := AddPhi(c.p, b, phi)); Growing(d) && Grown(c, d)
  {
    var d := c.(p := AddPhi(c.p, b, phi));
    FreshPhiIsSound(c, b, id, phi);
    forall x: Node
      ensures GrownAt(c, d, x) && MatchedAt(d, x) && SoundBlock(d.p, x) && WithinLimit(d, x) && AllowedAt(d, x)
    {
      PhiKeepsBlock(c, b, phi, x);
    }
    SourcesStayReached(c, d);
    forall i: nat
      ensures ReturnLink(d, i)
    {
      assert ReturnLink(c, i);
    }
    forall x: Node
      ensures PhisDue(d, x)
    {
      assert PhisDue(c, x);
      PhiStaysDue(c, b, id, phi, x);
    }
  }

  lemma PhiStaysDue(c: Context, b: Node, id: Id, phi: PhiInstruction, x: Node)
    requires PhisDue(c, x) && Due(c, b, id) && b < |c.p.blocks| && phi.out == Versioned(id, 0)
    requires var d := c.(p := AddPhi(c.p, b, phi)); KeepsRegions(c, d)
    ensures PhisDue(c.(p := AddPhi(c.p, b, phi)), x)
  {
    var d := c.(p := AddPhi(c.p, b, phi));
    if x < |d.p.blocks| {
      forall v: Id | HasPhi(d.p.blocks[x], v)
        ensures Due(d, x, v)
      {
        assert HasPhi(c.p.blocks[x], v) || (x == b && v == id);
        var nodes: set<Node>, tail: Node, latch: Node :| Sealed(c, x, v, nodes, tail, latch);
        RegionStays(c, d, x, v, nodes, tail, latch);
      }
    }
  }
}
