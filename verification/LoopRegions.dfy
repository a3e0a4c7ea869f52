/**
 The blocks of a range loop: they are entered only at the header, and the block that advances the
 index leads back to it. Hence the phi the parser puts at the header stands where placement wants one.
 */
module LoopRegions {
  import opened Ir
  import opened Dominance
  import DomFrontiers
  import opened Liveness

  /** Control leaves `tail` for `header`, directly or through the empty block `latch`. */
  ghost predicate LeadsBack(p: Program, tail: Node, latch: Node, header: Node) {
    && Successors(p, latch) == {header}
    && (latch != tail ==> Successors(p, tail) == {latch} && Predecessors(p, latch) == {tail})
  }

  ghost predicate EnteredOnlyAt(p: Program, nodes: set<Node>, header: Node) {
    forall e: Edge :: e in p.edges && e.1 in nodes && e.0 !in nodes ==> e.1 == header
  }

  /** A region with the given header in which `tail` writes the index `id` and leads back. */
  ghost predicate LoopRegion(p: Program, header: Node, id: Id, nodes: set<Node>, tail: Node, latch: Node) {
    && {header, tail, latch} <= nodes && nodes <= NodeIds(p) && p.root !in nodes && tail != header && latch != header
    && EnteredOnlyAt(p, nodes, header) && LeadsBack(p, tail, latch, header)
    && tail < |p.blocks| && Killed(p.blocks[tail].ops, id)
  }

  ghost predicate IsLoopIndex(p: Program, header: Node, id: Id) {
    exists nodes: set<Node>, tail: Node, latch: Node :: LoopRegion(p, header, id, nodes, tail, latch)
  }

  /** A path to a block of the region passes through the header and meets no other block of it before. */
  lemma FirstEntry(p: Program, path: seq<Node>, b: Node, nodes: set<Node>, header: Node) returns (i: nat)
    requires PathTo(p, path, b) && b in nodes && p.root !in nodes && EnteredOnlyAt(p, nodes, header)
    ensures 0 < i < |path| && path[i] == header && forall k :: 0 <= k < i ==> path[k] !in nodes
  {
    i := 0;
    while path[i] !in nodes
      invariant i < |path| && forall k :: 0 <= k < i ==> path[k] !in nodes
      decreases |path| - i
    {
      i := i + 1;
    }
    assert (path[i - 1], path[i]) in p.edges;
  }

  lemma TailDominatesLatch(p: Program, tail: Node, latch: Node, header: Node)
    requires LeadsBack(p, tail, latch, header) && latch != p.root
    ensures Dominates(p, tail, latch)
  {
    forall path | PathTo(p, path, latch)
      ensures tail in path
    {
      if latch == tail {
        assert path[|path| - 1] == latch;
      } else {
        assert (path[|path| - 2], path[|path| - 1]) in p.edges;
        assert path[|path| - 2] in Predecessors(p, latch);
      }
    }
  }

  lemma TwoPredecessors(p: Program, b: Node, x: Node, y: Node)
    requires (x, b) in p.edges && (y, b) in p.edges && x != y
    ensures |Predecessors(p, b)| >= 2 && x in Predecessors(p, b)
  {
    assert {x, y} <= Predecessors(p, b);
    var rest := Predecessors(p, b) - {x, y};
    assert Predecessors(p, b) == rest + {x, y};
  }

  /** A reachable header lies on the dominance frontier of the block that advances the index. */
  lemma HeaderIsInFrontier(p: Program, header: Node, id: Id, nodes: set<Node>, tail: Node, latch: Node)
    requires LoopRegion(p, header, id, nodes, tail, latch) && Reachable(p, header) && !DomFrontiers.HasDeadJoin(p)
    ensures InFrontier(p, tail, header)
  {
    var path :| PathTo(p, path, header);
    var i := FirstEntry(p, path, header, nodes, header);
    PathPrefix(p, path, header, i + 1);
    assert path[..i + 1][i] == header;
    assert tail !in path[..i + 1];
    assert header in Successors(p, latch);
    assert (path[i - 1], path[i]) in p.edges;
    TwoPredecessors(p, header, latch, path[i - 1]);
    assert !DomFrontiers.IsDeadJoin(p, header, latch);
    TailDominatesLatch(p, tail, latch, header);
  }
}
