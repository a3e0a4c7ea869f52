/** The renaming walk over the whole program, and what it leaves behind. */
module Renaming {
  import opened Options
  import opened Ir
  import opened Naming
  import opened OptimizerState
  import opened Version

  /** All edges out of `b` are named and lead to renamed blocks. */
  ghost predicate Finished(orig: Program, marks: map<Node, Mark>, edges: set<Edge>, b: Node) {
    forall e :: e in orig.edges && e.0 == b ==> e in edges && e.1 in marks
  }

  /**
   The SSA form of `orig`: every marked block is renamed from the names in its mark, marks are
   handed down along edges, every edge out of a marked block is named, and the marks contain
   the root and are closed under edges.
   */
  ghost predicate IsSsaForm(orig: Program, now: Program, marks: map<Node, Mark>, max: Versions) {
    && SameShape(orig, now) && MarkedBlocks(orig, now, marks) && MarkedTree(orig, marks)
    && orig.root in marks && DisjointCounters(orig.variables, marks, max)
    && (forall e ::
       e in orig.edges && e.0 in marks ==> e.1 in marks && EdgeNamed(orig, now, e.0, e.1, marks[e.0].end.cur))
    && exists renamed: seq<Node> :: Counted(orig, max, marks, renamed)
  }

  // ---------------------------------------------------------------------------------------
  // How far the counters get
  // ---------------------------------------------------------------------------------------

  /** How often `v` is written. */
  function Occurrences(ids: seq<Option<Id>>, v: Id): nat {
    if ids == [] then 0 else Occurrences(ids[..|ids| - 1], v) + if ids[|ids| - 1] == Some(v) then 1 else 0
  }

  function DefinitionsOf(vars: set<Id>, b: BasicBlock, v: Id): nat {
    Occurrences(PhiIds(vars, b.phis), v) + Occurrences(OpIds(vars, b.ops), v)
  }

  lemma {:induction false} WritesCount(vars: set<Id>, ids: seq<Option<Id>>, n: Names, v: Id)
    requires NamesFor(vars, n) && v in vars && forall i :: 0 <= i < |ids| && ids[i].Some? ==> ids[i].value in vars
    ensures AfterWrites(vars, ids, n).max[v] == n.max[v] + Occurrences(ids, v)
  {
    if ids != [] {
      WritesCount(vars, ids[..|ids| - 1], n, v);
    }
  }

  lemma BlockCounts(vars: set<Id>, b: BasicBlock, n: Names, v: Id)
    requires NamesFor(vars, n) && v in vars
    ensures AfterBlock(vars, b, n).max[v] == n.max[v] + DefinitionsOf(vars, b, v)
  {
    WritesCount(vars, PhiIds(vars, b.phis), n, v);
    WritesCount(vars, OpIds(vars, b.ops), AfterPhis(vars, b.phis, n), v);
  }

  /** The definitions of `v` in a list of blocks, as often as they occur. */
  ghost function DefinitionsIn(p: Program, blocks: seq<Node>, v: Id): nat {
    if blocks == [] then 0
    else
      var b := blocks[|blocks| - 1];
      DefinitionsIn(p, blocks[..|blocks| - 1], v) +
        if b < |p.blocks| then DefinitionsOf(p.variables, p.blocks[b], v) else 0
  }

  ghost predicate CountsTo(p: Program, max: Versions, renamed: seq<Node>, v: Id) {
    v in max ==> max[v] == DefinitionsIn(p, renamed, v)
  }

  /**
   The counters have counted the definitions of the blocks as they were renamed; one with
   successors is renamed once.
   */
  ghost predicate Counted(p: Program, max: Versions, marks: map<Node, Mark>, renamed: seq<Node>) {
    && (forall v: Id {:trigger CountsTo(p, max, renamed, v)} :: CountsTo(p, max, renamed, v))
    && (forall b: Node :: b in renamed ==> b in marks)
    && forall b: Node :: Successors(p, b) != {} ==> multiset(renamed)[b] <= 1
  }

  lemma CountOneMore(p: Program, max: Versions, marks: map<Node, Mark>, renamed: seq<Node>, block: Node, m: Mark)
    requires Counted(p, max, marks, renamed) && block < |p.blocks| && (Successors(p, block) != {} ==> block !in marks)
    requires NamesFor(p.variables, m.start) && m.start.max == max
    requires m.end == AfterBlock(p.variables, p.blocks[block], m.start)
    ensures Counted(p, m.end.max, marks[block := m], renamed + [block])
  {
    var more := renamed + [block];
    assert more[..|more| - 1] == renamed;
    forall v: Id
      ensures CountsTo(p, m.end.max, more, v)
    {
      assert CountsTo(p, max, renamed, v);
      if v in p.variables {
        BlockCounts(p.variables, p.blocks[block], m.start, v);
      }
    }
    forall b: Node | Successors(p, b) != {}
      ensures multiset(more)[b] <= 1
    {
      assert multiset(more) == multiset(renamed) + multiset{block};
      assert block !in marks ==> block !in renamed;
    }
  }

  /** A block with successors that is not visited has not been renamed. */
  lemma UnvisitedIsNew(orig: Program, marks: map<Node, Mark>, blocks: set<Node>, block: Node)
    requires VisitedBlocks(orig, marks, blocks, {}) && block !in blocks && Successors(orig, block) != {}
    ensures block !in marks
  {
    var t :| t in Successors(orig, block);
    assert VisitedEdge(marks, blocks, {}, (block, t));
  }

  lemma VisitCloses(orig: Program, marks: map<Node, Mark>, blocks: set<Node>, block: Node)
    requires VisitedBlocks(orig, marks, blocks, {block}) && block in marks
    ensures VisitedBlocks(orig, marks, blocks + {block}, {})
  {
    forall e: Edge | e in orig.edges
      ensures VisitedEdge(marks, blocks + {block}, {}, e)
    {
      assert VisitedEdge(marks, blocks, {block}, e);
    }
  }

  lemma FinishBlock(orig: Program, marks: map<Node, Mark>, blocks: set<Node>, edges: set<Edge>, block: Node)
    requires forall t :: t in Successors(orig, block) ==> t in marks && (block, t) in edges
    requires VisitedBlocks(orig, marks, blocks, {block}) && (block in blocks || Successors(orig, block) == {})
    ensures Finished(orig, marks, edges, block) && VisitedBlocks(orig, marks, blocks, {})
  {
    forall e: Edge | e in orig.edges
      ensures VisitedEdge(marks, blocks, {}, e)
    {
      assert e.0 == block ==> e.1 in Successors(orig, block);
      assert VisitedEdge(marks, blocks, {block}, e);
    }
    forall e | e in orig.edges && e.0 == block
      ensures e in edges && e.1 in marks
    {
      assert e == (block, e.1) && e.1 in Successors(orig, block);
    }
  }

  method VersionEdge(opt: Optimizer, s: SsaState, ghost orig: Program, block: Node, target: Node, versions: Versions)
    returns (blockVisited: bool)
    requires WalkInvariant(orig, opt.program, s.visitedBlocks, s.visitedEdges, s.maxVersions, s.marks, {block})
    requires (block, target) in orig.edges && block in s.marks && versions == s.marks[block].end.cur
    modifies opt`program, s`visitedBlocks, s`visitedEdges
    ensures WalkInvariant(orig, opt.program, s.visitedBlocks, s.visitedEdges, s.maxVersions, s.marks, {})
    ensures s.visitedBlocks == old(s.visitedBlocks) + {block}
    ensures s.visitedEdges == old(s.visitedEdges) + {(block, target)}
    ensures blockVisited <==> target in old(s.visitedBlocks)
  {
    var edgeVisited := (block, target) in s.visitedEdges;
    blockVisited := target in s.visitedBlocks;
    s.visitedEdges := s.visitedEdges + {(block, target)};
    VisitCloses(orig, s.marks, s.visitedBlocks, block);
    s.visitedBlocks := s.visitedBlocks + {block};
    if !edgeVisited {
      assert MarkedBlock(orig, opt.program, s.marks, block);
      ghost var before := opt.program;
      var b := VersionPhi(opt, orig, target, block, versions);
      NameKeepsInvariant(orig, before, s.visitedBlocks, old(s.visitedEdges), s.maxVersions, s.marks, {}, block, target,
        b);
    } else {
      assert s.visitedEdges == old(s.visitedEdges);
    }
  }

  lemma ReopenBlock(orig: Program, marks: map<Node, Mark>, blocks: set<Node>, block: Node)
    requires VisitedBlocks(orig, marks, blocks, {})
    ensures VisitedBlocks(orig, marks, blocks, {block})
  {
    forall e: Edge | e in orig.edges
      ensures VisitedEdge(marks, blocks, {block}, e)
    {
      assert VisitedEdge(marks, blocks, {}, e);
    }
  }

  /** What a piece of the walk leaves of what was done before it; `open` may still have work to do. */
  ghost predicate Progress(orig: Program, blocks0: set<Node>, edges0: set<Edge>, marks0: map<Node, Mark>,
                           blocks: set<Node>, edges: set<Edge>, marks: map<Node, Mark>, open: set<Node>) {
    && blocks0 <= blocks && edges0 <= edges && marks0.Keys <= marks.Keys
    && (forall b :: b in blocks0 ==> b in marks0 && b in marks && marks[b] == marks0[b])
    && (forall b {:trigger Finished(orig, marks, edges, b)} ::
          b in blocks && b !in blocks0 && b !in open ==> Finished(orig, marks, edges, b))
  }

  lemma ProgressTrans(orig: Program, blocks0: set<Node>, edges0: set<Edge>, marks0: map<Node, Mark>,
                      blocks1: set<Node>, edges1: set<Edge>, marks1: map<Node, Mark>,
                      blocks2: set<Node>, edges2: set<Edge>, marks2: map<Node, Mark>, open: set<Node>)
    requires Progress(orig, blocks0, edges0, marks0, blocks1, edges1, marks1, open)
    requires Progress(orig, blocks1, edges1, marks1, blocks2, edges2, marks2, open)
    ensures Progress(orig, blocks0, edges0, marks0, blocks2, edges2, marks2, open)
  {
    forall b | b in blocks2 && b !in blocks0 && b !in open
      ensures Finished(orig, marks2, edges2, b)
    {
      if b in blocks1 {
        assert Finished(orig, marks1, edges1, b);
      }
    }
  }

  method VersionSuccessor(opt: Optimizer, s: SsaState, ghost orig: Program, block: Node, target: Node,
                          versions: Versions)
    requires WalkInvariant(orig, opt.program, s.visitedBlocks, s.visitedEdges, s.maxVersions, s.marks, {block})
    requires (block, target) in orig.edges && block in s.marks && versions == s.marks[block].end.cur
    requires Counted(orig, s.maxVersions, s.marks, s.renamed)
    modifies opt`program, s
    ensures Counted(orig, s.maxVersions, s.marks, s.renamed)
    ensures WalkInvariant(orig, opt.program, s.visitedBlocks, s.visitedEdges, s.maxVersions, s.marks, {})
    ensures block in s.visitedBlocks && s.marks[block] == old(s.marks)[block]
    ensures target in s.marks && (block, target) in s.visitedEdges
    ensures Progress(orig, old(s.visitedBlocks), old(s.visitedEdges), old(s.marks), s.visitedBlocks, s.visitedEdges,
            s.marks, {block})
    decreases NodeIds(orig) - (s.visitedBlocks + {block}), 1
  {
    var blockVisited := VersionEdge(opt, s, orig, block, target, versions);
    assert target != block;
    if !blockVisited {
      assert MarkedBlock(orig, opt.program, s.marks, block);
      VersionBlock(opt, s, orig, target, versions, block, s.marks[block].depth + 1);
    }
  }

  /** Renames one unvisited block and marks it. */
  method RenameBlock(opt: Optimizer, s: SsaState, ghost orig: Program, block: Node, versions: Versions,
                     ghost parent: Node, ghost depth: nat)
    returns (after: Versions, ghost m: Mark)
    requires WalkInvariant(orig, opt.program, s.visitedBlocks, s.visitedEdges, s.maxVersions, s.marks, {})
    requires block < |orig.blocks| && block !in s.visitedBlocks && versions.Keys == orig.variables
    requires GoodMark(orig, s.marks, block,
             Mark(Names(versions, s.maxVersions), Names(versions, s.maxVersions), parent, depth))
    requires Counted(orig, s.maxVersions, s.marks, s.renamed)
    modifies opt`program, s`maxVersions, s`marks, s`renamed
    ensures WalkInvariant(orig, opt.program, s.visitedBlocks, s.visitedEdges, s.maxVersions, s.marks, {block})
    ensures s.marks == old(s.marks)[block := m] && m.end.cur == after
    ensures Counted(orig, s.maxVersions, s.marks, s.renamed)
  {
    ghost var before, start := opt.program, Names(versions, s.maxVersions);
    var b;
    after, b := VersionBlockOps(opt, s, orig, block, versions);
    m := Mark(start, Names(after, s.maxVersions), parent, depth);
    MarkKeepsInvariant(orig, before, s.visitedBlocks, s.visitedEdges, start.max, s.marks, block, b, m);
    if Successors(orig, block) != {} {
      UnvisitedIsNew(orig, s.marks, s.visitedBlocks, block);
    }
    CountOneMore(orig, start.max, s.marks, s.renamed, block, m);
    s.marks, s.renamed := s.marks[block := m], s.renamed + [block];
  }

  method VersionBlock(opt: Optimizer, s: SsaState, ghost orig: Program, block: Node, versions: Versions,
                      ghost parent: Node, ghost depth: nat)
    requires WalkInvariant(orig, opt.program, s.visitedBlocks, s.visitedEdges, s.maxVersions, s.marks, {})
    requires block < |orig.blocks| && block !in s.visitedBlocks
    requires versions.Keys == orig.variables
    requires GoodMark(orig, s.marks, block,
             Mark(Names(versions, s.maxVersions), Names(versions, s.maxVersions), parent, depth))
    requires Counted(orig, s.maxVersions, s.marks, s.renamed)
    modifies opt`program, s
    ensures Counted(orig, s.maxVersions, s.marks, s.renamed)
    ensures WalkInvariant(orig, opt.program, s.visitedBlocks, s.visitedEdges, s.maxVersions, s.marks, {})
    ensures block in s.marks
    ensures Progress(orig, old(s.visitedBlocks), old(s.visitedEdges), old(s.marks), s.visitedBlocks, s.visitedEdges,
            s.marks, {})
    decreases NodeIds(orig) - s.visitedBlocks, 0
  {
    ghost var m;
    var after;
    after, m := RenameBlock(opt, s, orig, block, versions, parent, depth);
    var todo := Successors(opt.program, block);
    while todo != {}
      invariant todo <= Successors(orig, block)
      invariant WalkInvariant(orig, opt.program, s.visitedBlocks, s.visitedEdges, s.maxVersions, s.marks, {block})
      invariant block in s.marks && s.marks[block] == m && Counted(orig, s.maxVersions, s.marks, s.renamed)
      invariant block in s.visitedBlocks || todo == Successors(orig, block)
      invariant Progress(orig, old(s.visitedBlocks), old(s.visitedEdges), old(s.marks), s.visitedBlocks, s.visitedEdges,
                s.marks, {block})
      invariant forall t :: t in Successors(orig, block) - todo ==> t in s.marks && (block, t) in s.visitedEdges
      decreases todo
    {
      var target :| target in todo;
      ghost var blocks1, edges1, marks1 := s.visitedBlocks, s.visitedEdges, s.marks;
      SmallerMeasure(orig, block, old(s.visitedBlocks), s.visitedBlocks);
      VersionSuccessor(opt, s, orig, block, target, after);
      ProgressTrans(orig, old(s.visitedBlocks), old(s.visitedEdges), old(s.marks), blocks1, edges1, marks1,
                    s.visitedBlocks, s.visitedEdges, s.marks, {block});
      ReopenBlock(orig, s.marks, s.visitedBlocks, block);
      todo := todo - {target};
    }
    assert Successors(orig, block) - todo == Successors(orig, block);
    FinishBlock(orig, s.marks, s.visitedBlocks, s.visitedEdges, block);
  }

  lemma SmallerMeasure(orig: Program, block: Node, before: set<Node>, now: set<Node>)
    requires block < |orig.blocks| && block !in before && before <= now
    ensures NodeIds(orig) - (now + {block}) < NodeIds(orig) - before
  {
    assert block in NodeIds(orig) - before;
  }

  method VersionProgram(opt: Optimizer) returns (ghost marks: map<Node, Mark>, max: Versions)
    requires ValidGraph(opt.program) && PhisComplete(opt.program)
    modifies opt`program
    ensures IsSsaForm(old(opt.program), opt.program, marks, max)
  {
    ghost var orig := opt.program;
    var versions: Versions := map v | v in opt.program.variables :: 0;
    var s := new SsaState(opt.program.variables);
    SameShapeReflexive(orig);
    assert Counted(orig, s.maxVersions, s.marks, s.renamed) by {
      forall v: Id
        ensures CountsTo(orig, s.maxVersions, s.renamed, v)
      {
      }
    }
    VersionBlock(opt, s, orig, opt.program.root, versions, 0, 0);
    marks, max := s.marks, s.maxVersions;
    forall e | e in orig.edges && e.0 in marks
      ensures e.1 in marks && EdgeNamed(orig, opt.program, e.0, e.1, marks[e.0].end.cur)
    {
      assert VisitedEdge(marks, s.visitedBlocks, {}, e) && NamedEdge(orig, opt.program, marks, s.visitedEdges, e);
      assert Finished(orig, s.marks, s.visitedEdges, e.0);
    }
  }

  lemma SameShapeReflexive(p: Program)
    ensures SameShape(p, p)
  {
  }
}
