/**
 The renaming walk of the SSA transform. Blocks are renamed in depth-first order; the names at
 the end of a block are handed to the phis of its successors and to the blocks first reached
 through it. A block without successors is renamed once for every edge into it.
 */
module Version {
  import opened Options
  import opened Ir
  import opened Naming
  import opened OptimizerState

  /** How a block was last renamed: the names at its start and end, and the block it was reached from. */
  datatype Mark = Mark(start: Names, end: Names, parent: Node, depth: nat)

  class SsaState {
    var visitedBlocks: set<Node>
    var visitedEdges: set<Edge>
    var maxVersions: Versions
    ghost var marks: map<Node, Mark>
    ghost var renamed: seq<Node>

    constructor (variables: set<Id>)
      ensures visitedBlocks == {} && visitedEdges == {} && marks == map[] && renamed == []
      ensures maxVersions == map v | v in variables :: 0
    {
      visitedBlocks, visitedEdges, marks, renamed := {}, {}, map[], [];
      maxVersions := map v | v in variables :: 0;
    }
  }

  /** Every phi has an entry for every predecessor of its block. */
  ghost predicate PhisComplete(p: Program) {
    forall b, q, i :: 0 <= b < |p.blocks| && q in Predecessors(p, b) && 0 <= i < |p.blocks[b].phis|
                      ==> PhiValue(p.blocks[b].phis[i].entries, q).Some?
  }

  // ---------------------------------------------------------------------------------------
  // What the walk keeps
  // ---------------------------------------------------------------------------------------

  // Each part of the invariant speaks of one block, edge or pair at a time; the triggers keep
  // those statements folded until a proof names them.

  ghost predicate ShapeAt(orig: Program, now: Program, b: Node) {
    b < |orig.blocks| ==> b < |now.blocks| && SameBlock(orig.variables, orig.blocks[b], now.blocks[b])
  }

  ghost predicate SameShape(orig: Program, now: Program) {
    && now == orig.(blocks := now.blocks) && |now.blocks| == |orig.blocks|
    && forall b: Node {:trigger ShapeAt(orig, now, b)} :: ShapeAt(orig, now, b)
  }

  /** A marked block is the original renamed from the names in its mark. */
  ghost predicate MarkedBlock(orig: Program, now: Program, marks: map<Node, Mark>, b: Node) {
    b in marks ==>
      && b < |orig.blocks| && b < |now.blocks|
      && NamesFor(orig.variables, marks[b].start)
      && BlockRenamed(orig.variables, orig.blocks[b], now.blocks[b], marks[b].start)
      && marks[b].end == AfterBlock(orig.variables, orig.blocks[b], marks[b].start)
  }

  ghost predicate MarkedBlocks(orig: Program, now: Program, marks: map<Node, Mark>) {
    forall b: Node {:trigger MarkedBlock(orig, now, marks, b)} :: MarkedBlock(orig, now, marks, b)
  }

  /** The names at the start of a block are those at the end of the block it was reached from. */
  ghost predicate GoodMark(orig: Program, marks: map<Node, Mark>, block: Node, m: Mark) {
    if block == orig.root then forall v :: v in m.start.cur ==> m.start.cur[v] == 0
    else
      && m.parent in marks && m.parent != block && (m.parent, block) in orig.edges
      && m.depth == marks[m.parent].depth + 1 && m.start.cur == marks[m.parent].end.cur
  }

  ghost predicate MarkedChild(orig: Program, marks: map<Node, Mark>, b: Node) {
    b in marks ==> GoodMark(orig, marks, b, marks[b])
  }

  ghost predicate MarkedTree(orig: Program, marks: map<Node, Mark>) {
    forall b: Node {:trigger MarkedChild(orig, marks, b)} :: MarkedChild(orig, marks, b)
  }

  /** Only entries in versioned spelling are renamed. */
  ghost predicate PhiEntryNamed(vars: set<Id>, orig: seq<PhiEntry>, now: seq<PhiEntry>, s: Node, cur: Versions) {
    var was, is_ := PhiValue(orig, s), PhiValue(now, s);
    && was.Some? && is_.Some?
    && is_.value == if was.value.Versioned? then ReadName(vars, cur, was.value) else was.value
  }

  /** The entries of the phis of `t` for the edge from `s` carry the names `cur`. */
  ghost predicate EdgeNamed(orig: Program, now: Program, s: Node, t: Node, cur: Versions) {
    && t < |orig.blocks| && t < |now.blocks| && |now.blocks[t].phis| == |orig.blocks[t].phis|
    && forall i :: 0 <= i < |now.blocks[t].phis| ==>
         PhiEntryNamed(orig.variables, orig.blocks[t].phis[i].entries, now.blocks[t].phis[i].entries, s, cur)
  }

  ghost predicate NamedEdge(orig: Program, now: Program, marks: map<Node, Mark>, visited: set<Edge>, e: Edge) {
    e in visited ==> e in orig.edges && e.0 in marks && EdgeNamed(orig, now, e.0, e.1, marks[e.0].end.cur)
  }

  ghost predicate NamedEdges(orig: Program, now: Program, marks: map<Node, Mark>, visited: set<Edge>) {
    forall e: Edge {:trigger NamedEdge(orig, now, marks, visited, e)} :: NamedEdge(orig, now, marks, visited, e)
  }

  ghost predicate AtMost(vars: set<Id>, low: Versions, high: Versions) {
    forall v :: v in vars ==> v in low && v in high && low[v] <= high[v]
  }

  /** No version of a variable is defined in both blocks. */
  ghost predicate Apart(vars: set<Id>, m: Mark, n: Mark) {
    forall v :: v in vars && v in m.start.max && v in m.end.max && v in n.start.max && v in n.end.max ==>
      m.end.max[v] <= n.start.max[v] || n.end.max[v] <= m.start.max[v]
  }

  ghost predicate PairApart(vars: set<Id>, marks: map<Node, Mark>, b: Node, c: Node) {
    b in marks && c in marks && b != c ==> Apart(vars, marks[b], marks[c])
  }

  ghost predicate CounterBelow(vars: set<Id>, marks: map<Node, Mark>, max: Versions, b: Node) {
    b in marks ==> AtMost(vars, marks[b].end.max, max)
  }

  /** The version counters of different blocks do not overlap. */
  ghost predicate DisjointCounters(vars: set<Id>, marks: map<Node, Mark>, max: Versions) {
    && max.Keys == vars
    && (forall b: Node {:trigger CounterBelow(vars, marks, max, b)} :: CounterBelow(vars, marks, max, b))
    && (forall b: Node, c: Node {:trigger PairApart(vars, marks, b, c)} :: PairApart(vars, marks, b, c))
  }

  ghost predicate VisitedEdge(marks: map<Node, Mark>, visited: set<Node>, open: set<Node>, e: Edge) {
    e.0 in marks ==> e.0 in visited || e.0 in open
  }

  /** Visited blocks are marked; a marked block with successors is visited unless it is still `open`. */
  ghost predicate VisitedBlocks(orig: Program, marks: map<Node, Mark>, visited: set<Node>, open: set<Node>) {
    && visited <= marks.Keys
    && forall e: Edge {:trigger VisitedEdge(marks, visited, open, e)} ::
       e in orig.edges ==> VisitedEdge(marks, visited, open, e)
  }

  ghost predicate WalkInvariant(orig: Program, now: Program, blocks: set<Node>, edges: set<Edge>, max: Versions,
                                marks: map<Node, Mark>, open: set<Node>) {
    && ValidGraph(orig) && PhisComplete(orig)
    && SameShape(orig, now) && MarkedBlocks(orig, now, marks) && MarkedTree(orig, marks)
    && NamedEdges(orig, now, marks, edges) && DisjointCounters(orig.variables, marks, max)
    && VisitedBlocks(orig, marks, blocks, open)
  }

  // ---------------------------------------------------------------------------------------
  // One block
  // ---------------------------------------------------------------------------------------

  method RenamePhiOut(vars: set<Id>, ghost orig: PhiInstruction, phi: PhiInstruction, start: Names)
    returns (r: PhiInstruction, n: Names)
    requires NamesFor(vars, start) && SamePhi(vars, orig, phi)
    ensures r.out == WriteName(start, PhiId(vars, orig), orig.out)
    ensures n == AfterWrite(start, PhiId(vars, orig))
    ensures r.entries == phi.entries && SamePhi(vars, orig, r)
  {
    r, n := phi, start;
    if phi.out.Versioned? && phi.out.id in vars {
      n := Define(n, phi.out.id);
      r := phi.(out := Versioned(phi.out.id, n.cur[phi.out.id]));
    }
  }

  /** `names[k]` are the names before the `k`-th of the written ids. */
  ghost predicate NamesAlong(vars: set<Id>, ids: seq<Option<Id>>, start: Names, names: seq<Names>) {
    && |names| == |ids| + 1 && names[0] == start
    && (forall k :: 0 <= k < |names| ==> NamesFor(vars, names[k]))
    && forall k ::
       0 <= k < |ids| ==> (ids[k].Some? ==> ids[k].value in vars) && names[k + 1] == AfterWrite(names[k], ids[k])
  }

  lemma NamesAlongSnoc(vars: set<Id>, ids: seq<Option<Id>>, start: Names, names: seq<Names>, id: Option<Id>)
    requires NamesAlong(vars, ids, start, names) && (id.Some? ==> id.value in vars)
    ensures NamesAlong(vars, ids + [id], start, names + [AfterWrite(names[|ids|], id)])
  {
  }

  lemma {:induction false} NamesAlongAre(vars: set<Id>, ids: seq<Option<Id>>, start: Names, names: seq<Names>, k: nat)
    requires NamesFor(vars, start) && NamesAlong(vars, ids, start, names) && k <= |ids|
    ensures names[k] == AfterWrites(vars, ids[..k], start)
  {
    if k > 0 {
      NamesAlongAre(vars, ids, start, names, k - 1);
      assert ids[..k][..k - 1] == ids[..k - 1] && ids[..k][k - 1] == ids[k - 1];
    }
  }

  ghost predicate PhiDone(vars: set<Id>, orig: PhiInstruction, n: Names, phi: PhiInstruction, r: PhiInstruction)
    requires NamesFor(vars, n)
  {
    r.out == WriteName(n, PhiId(vars, orig), orig.out) && r.entries == phi.entries && SamePhi(vars, orig, r)
  }

  lemma AllPhisDone(vars: set<Id>, orig: seq<PhiInstruction>, start: Names, names: seq<Names>,
                    phis: seq<PhiInstruction>, r: seq<PhiInstruction>)
    requires NamesFor(vars, start) && |r| == |orig| == |phis| && NamesAlong(vars, PhiIds(vars, orig), start, names)
    requires forall k :: 0 <= k < |r| ==> PhiDone(vars, orig[k], names[k], phis[k], r[k])
    ensures PhisRenamed(vars, orig, r, start) && names[|orig|] == AfterPhis(vars, orig, start)
    ensures forall i :: 0 <= i < |r| ==> r[i].entries == phis[i].entries && SamePhi(vars, orig[i], r[i])
  {
    var ids := PhiIds(vars, orig);
    forall k: nat
      ensures PhiRenamedAt(vars, orig, r, start, k)
    {
      if k < |r| {
        assert PhiDone(vars, orig[k], names[k], phis[k], r[k]);
        NamesAlongAre(vars, ids, start, names, k);
        assert ids[..k] == PhiIds(vars, orig[..k]);
      }
    }
    NamesAlongAre(vars, ids, start, names, |ids|);
    assert ids[..|ids|] == ids;
  }

  method RenamePhiOuts(vars: set<Id>, ghost orig: seq<PhiInstruction>, phis: seq<PhiInstruction>, start: Names)
    returns (r: seq<PhiInstruction>, n: Names)
    requires NamesFor(vars, start)
    requires |orig| == |phis| && forall i :: 0 <= i < |phis| ==> SamePhi(vars, orig[i], phis[i])
    ensures n == AfterPhis(vars, orig, start) && PhisRenamed(vars, orig, r, start)
    ensures |r| == |phis|
    ensures forall i :: 0 <= i < |r| ==> r[i].entries == phis[i].entries && SamePhi(vars, orig[i], r[i])
  {
    r, n := [], start;
    ghost var names, ids := [start], PhiIds(vars, orig);
    var i := 0;
    while i < |phis|
      invariant i <= |phis| && |r| == i && NamesAlong(vars, ids[..i], start, names) && n == names[i]
      invariant forall k :: 0 <= k < i ==> PhiDone(vars, orig[k], names[k], phis[k], r[k])
    {
      NamesAlongSnoc(vars, ids[..i], start, names, ids[i]);
      assert ids[..i + 1] == ids[..i] + [ids[i]];
      var phi;
      phi, n := RenamePhiOut(vars, orig[i], phis[i], n);
      r, names := r + [phi], names + [n];
      i := i + 1;
    }
    assert ids[..|ids|] == ids;
    AllPhisDone(vars, orig, start, names, phis, r);
  }

  method RenameOp(vars: set<Id>, ghost orig: Instruction, op: Instruction, start: Names)
    returns (r: Instruction, n: Names)
    requires NamesFor(vars, start) && SameInstruction(vars, orig, op)
    ensures r == RenameInstruction(vars, orig, start)
    ensures n == AfterWrite(start, WrittenId(vars, orig.out))
    ensures SameInstruction(vars, orig, r)
  {
    RenameIgnoresSpelling(vars, orig, op, start);
    n := start;
    r := op.(inputs := RenameInputs(vars, start.cur, op.inputs));
    if op.out.Some? && (op.out.value.LocalMut? || op.out.value.Versioned?) && op.out.value.id in start.cur {
      var id := op.out.value.id;
      n := Define(n, id);
      r := r.(out := Some(Versioned(id, n.cur[id])));
    }
  }

  ghost predicate OpDone(vars: set<Id>, orig: Instruction, n: Names, r: Instruction)
    requires NamesFor(vars, n)
  {
    r == RenameInstruction(vars, orig, n) && SameInstruction(vars, orig, r)
  }

  lemma AllOpsDone(vars: set<Id>, orig: seq<Instruction>, start: Names, names: seq<Names>, r: seq<Instruction>)
    requires NamesFor(vars, start) && |r| == |orig| && NamesAlong(vars, OpIds(vars, orig), start, names)
    requires forall k :: 0 <= k < |r| ==> OpDone(vars, orig[k], names[k], r[k])
    ensures OpsRenamed(vars, orig, r, start) && names[|orig|] == AfterOps(vars, orig, start)
    ensures forall i :: 0 <= i < |r| ==> SameInstruction(vars, orig[i], r[i])
  {
    var ids := OpIds(vars, orig);
    forall k: nat
      ensures OpRenamedAt(vars, orig, r, start, k)
    {
      if k < |r| {
        assert OpDone(vars, orig[k], names[k], r[k]);
        NamesAlongAre(vars, ids, start, names, k);
        assert ids[..k] == OpIds(vars, orig[..k]);
      }
    }
    NamesAlongAre(vars, ids, start, names, |ids|);
    assert ids[..|ids|] == ids;
  }

  method RenameOps(vars: set<Id>, ghost orig: seq<Instruction>, ops: seq<Instruction>, start: Names)
    returns (r: seq<Instruction>, n: Names)
    requires NamesFor(vars, start)
    requires |orig| == |ops| && forall i :: 0 <= i < |ops| ==> SameInstruction(vars, orig[i], ops[i])
    ensures n == AfterOps(vars, orig, start) && OpsRenamed(vars, orig, r, start)
    ensures forall i :: 0 <= i < |r| ==> SameInstruction(vars, orig[i], r[i])
  {
    r, n := [], start;
    ghost var names, ids := [start], OpIds(vars, orig);
    var i := 0;
    while i < |ops|
      invariant i <= |ops| && |r| == i && NamesAlong(vars, ids[..i], start, names) && n == names[i]
      invariant forall k :: 0 <= k < i ==> OpDone(vars, orig[k], names[k], r[k])
    {
      NamesAlongSnoc(vars, ids[..i], start, names, ids[i]);
      assert ids[..i + 1] == ids[..i] + [ids[i]];
      var op;
      op, n := RenameOp(vars, orig[i], ops[i], n);
      r, names := r + [op], names + [n];
      i := i + 1;
    }
    assert ids[..|ids|] == ids;
    AllOpsDone(vars, orig, start, names, r);
  }

  function SetBlock(p: Program, b: Node, block: BasicBlock): Program
    requires b < |p.blocks|
  {
    p.(blocks := p.blocks[b := block])
  }

  ghost predicate SameEntries(a: BasicBlock, b: BasicBlock) {
    |a.phis| == |b.phis| && forall i :: 0 <= i < |a.phis| ==> a.phis[i].entries == b.phis[i].entries
  }

  lemma RenamedFlowIsSame(vars: set<Id>, a: ControlFlow, b: ControlFlow, cur: Versions)
    requires SameFlow(vars, a, b) && cur.Keys == vars
    ensures RenameFlow(vars, cur, b) == RenameFlow(vars, cur, a)
    ensures SameFlow(vars, a, RenameFlow(vars, cur, b))
  {
  }

  method VersionBlockOps(opt: Optimizer, s: SsaState, ghost orig: Program, block: Node, versions: Versions)
    returns (after: Versions, b: BasicBlock)
    requires SameShape(orig, opt.program) && block < |orig.blocks|
    requires NamesFor(orig.variables, Names(versions, s.maxVersions))
    modifies opt`program, s`maxVersions
    ensures opt.program == SetBlock(old(opt.program), block, b)
    ensures BlockRenamed(orig.variables, orig.blocks[block], b, Names(versions, old(s.maxVersions)))
    ensures Names(after, s.maxVersions) ==
            AfterBlock(orig.variables, orig.blocks[block], Names(versions, old(s.maxVersions)))
    ensures SameBlock(orig.variables, orig.blocks[block], b) && SameEntries(old(opt.program.blocks[block]), b)
  {
    b := opt.program.blocks[block];
    var vars := opt.program.variables;
    assert ShapeAt(orig, opt.program, block);
    var phis, n := RenamePhiOuts(vars, orig.blocks[block].phis, b.phis, Names(versions, s.maxVersions));
    var ops, m := RenameOps(vars, orig.blocks[block].ops, b.ops, n);
    RenamedFlowIsSame(vars, orig.blocks[block].flow, b.flow, m.cur);
    b := BasicBlock(b.blockUse, phis, ops, RenameFlow(vars, m.cur, b.flow));
    opt.program := SetBlock(opt.program, block, b);
    s.maxVersions := m.max;
    after := m.cur;
  }

  // Renaming an unvisited block keeps the invariant, with that block open.

  lemma SetBlockKeepsShape(orig: Program, now: Program, block: Node, b: BasicBlock)
    requires SameShape(orig, now) && block < |orig.blocks| && SameBlock(orig.variables, orig.blocks[block], b)
    ensures SameShape(orig, SetBlock(now, block, b))
  {
    forall c: Node
      ensures ShapeAt(orig, SetBlock(now, block, b), c)
    {
      assert ShapeAt(orig, now, c);
    }
  }

  lemma MarkKeepsBlocks(orig: Program, now: Program, marks: map<Node, Mark>, block: Node, b: BasicBlock, m: Mark)
    requires MarkedBlocks(orig, now, marks) && |now.blocks| == |orig.blocks| && block < |orig.blocks|
    requires NamesFor(orig.variables, m.start) && BlockRenamed(orig.variables, orig.blocks[block], b, m.start)
    requires m.end == AfterBlock(orig.variables, orig.blocks[block], m.start)
    ensures MarkedBlocks(orig, SetBlock(now, block, b), marks[block := m])
  {
    var marked := marks[block := m];
    forall c: Node
      ensures MarkedBlock(orig, SetBlock(now, block, b), marked, c)
    {
      assert MarkedBlock(orig, now, marks, c);
    }
  }

  lemma MarkKeepsEdges(orig: Program, now: Program, marks: map<Node, Mark>, edges: set<Edge>, block: Node,
                       b: BasicBlock, m: Mark)
    requires NamedEdges(orig, now, marks, edges) && block < |now.blocks| && SameEntries(now.blocks[block], b)
    requires forall e :: e in edges ==> e.0 != block
    ensures NamedEdges(orig, SetBlock(now, block, b), marks[block := m], edges)
  {
    var marked := marks[block := m];
    forall e: Edge
      ensures NamedEdge(orig, SetBlock(now, block, b), marked, edges, e)
    {
      assert NamedEdge(orig, now, marks, edges, e);
    }
  }

  lemma MarkKeepsCounters(vars: set<Id>, marks: map<Node, Mark>, max: Versions, block: Node, m: Mark)
    requires DisjointCounters(vars, marks, max) && m.start.max == max && NamesFor(vars, m.start)
    requires NamesFor(vars, m.end)
    requires AtMost(vars, m.start.max, m.end.max)
    ensures DisjointCounters(vars, marks[block := m], m.end.max)
  {
    var marked := marks[block := m];
    forall c: Node
      ensures CounterBelow(vars, marked, m.end.max, c)
    {
      assert CounterBelow(vars, marks, max, c);
    }
    forall c: Node, d: Node
      ensures PairApart(vars, marked, c, d)
    {
      assert PairApart(vars, marks, c, d) && CounterBelow(vars, marks, max, c) && CounterBelow(vars, marks, max, d);
    }
  }

  lemma MarkKeepsTree(orig: Program, marks: map<Node, Mark>, block: Node, m: Mark)
    requires MarkedTree(orig, marks) && GoodMark(orig, marks, block, m)
    requires forall b :: b in marks && b != orig.root ==> marks[b].parent != block
    ensures MarkedTree(orig, marks[block := m])
  {
    var marked := marks[block := m];
    forall c: Node
      ensures MarkedChild(orig, marked, c)
    {
      assert MarkedChild(orig, marks, c);
    }
  }

  lemma UnvisitedIsUnused(orig: Program, now: Program, blocks: set<Node>, edges: set<Edge>, marks: map<Node, Mark>,
                          block: Node)
    requires VisitedBlocks(orig, marks, blocks, {}) && MarkedTree(orig, marks) && NamedEdges(orig, now, marks, edges)
    requires block !in blocks
    ensures forall e :: e in edges ==> e.0 != block
    ensures forall c :: c in marks && c != orig.root ==> marks[c].parent != block
  {
    forall e | e in edges
      ensures e.0 != block
    {
      assert NamedEdge(orig, now, marks, edges, e) && VisitedEdge(marks, blocks, {}, e);
    }
    forall c | c in marks && c != orig.root
      ensures marks[c].parent != block
    {
      assert MarkedChild(orig, marks, c) && VisitedEdge(marks, blocks, {}, (marks[c].parent, c));
    }
  }

  lemma MarkKeepsVisited(orig: Program, blocks: set<Node>, marks: map<Node, Mark>, block: Node, m: Mark)
    requires VisitedBlocks(orig, marks, blocks, {})
    ensures VisitedBlocks(orig, marks[block := m], blocks, {block})
  {
    var marked := marks[block := m];
    forall e: Edge | e in orig.edges
      ensures VisitedEdge(marked, blocks, {block}, e)
    {
      assert VisitedEdge(marks, blocks, {}, e);
    }
  }

  lemma MarkKeepsInvariant(orig: Program, now: Program, blocks: set<Node>, edges: set<Edge>, max: Versions,
                           marks: map<Node, Mark>, block: Node, b: BasicBlock, m: Mark)
    requires WalkInvariant(orig, now, blocks, edges, max, marks, {})
    requires block < |orig.blocks| && block !in blocks
    requires NamesFor(orig.variables, m.start) && m.start.max == max
    requires BlockRenamed(orig.variables, orig.blocks[block], b, m.start)
    requires m.end == AfterBlock(orig.variables, orig.blocks[block], m.start)
    requires SameBlock(orig.variables, orig.blocks[block], b) && SameEntries(now.blocks[block], b)
    requires GoodMark(orig, marks, block, m)
    ensures WalkInvariant(orig, SetBlock(now, block, b), blocks, edges, m.end.max, marks[block := m], {block})
  {
    UnvisitedIsUnused(orig, now, blocks, edges, marks, block);
    SetBlockKeepsShape(orig, now, block, b);
    MarkKeepsTree(orig, marks, block, m);
    MarkKeepsBlocks(orig, now, marks, block, b, m);
    MarkKeepsEdges(orig, now, marks, edges, block, b, m);
    MarkKeepsCounters(orig.variables, marks, max, block, m);
    MarkKeepsVisited(orig, blocks, marks, block, m);
  }

  // ---------------------------------------------------------------------------------------
  // One edge
  // ---------------------------------------------------------------------------------------

  /** Replaces the value of the first entry for `source`. */
  function SetEntry(vars: set<Id>, entries: seq<PhiEntry>, source: Node, cur: Versions): seq<PhiEntry> {
    if entries == [] then []
    else if entries[0].block == source then
      var x := entries[0].value;
      [PhiEntry(source, if x.Versioned? then ReadName(vars, cur, x) else x)] + entries[1..]
    else [entries[0]] + SetEntry(vars, entries[1..], source, cur)
  }

  predicate SameEntryList(vars: set<Id>, a: seq<PhiEntry>, b: seq<PhiEntry>) {
    SamePhi(vars, PhiInstruction(Global(0), a), PhiInstruction(Global(0), b))
  }

  lemma {:induction false} SetEntryNames(vars: set<Id>, orig: seq<PhiEntry>, now: seq<PhiEntry>, source: Node,
                                         cur: Versions)
    requires SameEntryList(vars, orig, now) && cur.Keys == vars && PhiValue(orig, source).Some?
    ensures SameEntryList(vars, orig, SetEntry(vars, now, source, cur))
    ensures PhiEntryNamed(vars, orig, SetEntry(vars, now, source, cur), source, cur)
    ensures forall q :: q != source ==> PhiValue(SetEntry(vars, now, source, cur), q) == PhiValue(now, q)
  {
    var r := SetEntry(vars, now, source, cur);
    assert orig[0].block == now[0].block;
    if orig[0].block != source {
      SetEntryNames(vars, orig[1..], now[1..], source, cur);
      assert r[1..] == SetEntry(vars, now[1..], source, cur);
      assert forall i :: 0 < i < |orig| ==> orig[i] == orig[1..][i - 1];
      assert forall i :: 0 < i < |r| ==> r[i] == r[1..][i - 1];
    } else {
      assert r[1..] == now[1..];
    }
  }

  /** The phis of `now` are those of `was` with the entries for `source` renamed. */
  ghost predicate OnlyEntriesChanged(was: BasicBlock, now: BasicBlock, source: Node) {
    && now == was.(phis := now.phis) && |now.phis| == |was.phis|
    && (forall i :: 0 <= i < |now.phis| ==> now.phis[i].out == was.phis[i].out)
    && (forall i, q ::
       0 <= i < |now.phis| && q != source ==> PhiValue(now.phis[i].entries, q) == PhiValue(was.phis[i].entries, q))
  }

  method RenameEntries(vars: set<Id>, ghost orig: BasicBlock, b: BasicBlock, source: Node, versions: Versions)
    returns (r: BasicBlock)
    requires SameBlock(vars, orig, b) && versions.Keys == vars
    requires forall i :: 0 <= i < |orig.phis| ==> PhiValue(orig.phis[i].entries, source).Some?
    ensures OnlyEntriesChanged(b, r, source) && SameBlock(vars, orig, r)
    ensures forall i ::
            0 <= i < |r.phis| ==> PhiEntryNamed(vars, orig.phis[i].entries, r.phis[i].entries, source, versions)
  {
    var phis: seq<PhiInstruction> := [];
    var i := 0;
    while i < |b.phis|
      invariant i <= |b.phis| && |phis| == i
      invariant forall k :: 0 <= k < i ==> phis[k].out == b.phis[k].out && SamePhi(vars, orig.phis[k], phis[k])
      invariant forall k :: 0 <= k < i ==> PhiEntryNamed(vars, orig.phis[k].entries, phis[k].entries, source, versions)
      invariant forall k, q ::
                0 <= k < i && q != source ==> PhiValue(phis[k].entries, q) == PhiValue(b.phis[k].entries, q)
    {
      assert SamePhi(vars, orig.phis[i], b.phis[i]);
      SetEntryNames(vars, orig.phis[i].entries, b.phis[i].entries, source, versions);
      phis := phis + [b.phis[i].(entries := SetEntry(vars, b.phis[i].entries, source, versions))];
      i := i + 1;
    }
    r := b.(phis := phis);
  }

  method VersionPhi(opt: Optimizer, ghost orig: Program, target: Node, source: Node, versions: Versions)
    returns (b: BasicBlock)
    requires SameShape(orig, opt.program) && PhisComplete(orig) && (source, target) in orig.edges
    requires target < |orig.blocks|
    requires versions.Keys == orig.variables
    modifies opt`program
    ensures opt.program == SetBlock(old(opt.program), target, b)
    ensures OnlyEntriesChanged(old(opt.program.blocks[target]), b, source)
    ensures SameBlock(orig.variables, orig.blocks[target], b)
    ensures EdgeNamed(orig, opt.program, source, target, versions)
  {
    assert source in Predecessors(orig, target);
    assert ShapeAt(orig, opt.program, target);
    b := RenameEntries(opt.program.variables, orig.blocks[target], opt.program.blocks[target], source, versions);
    opt.program := SetBlock(opt.program, target, b);
  }

  // Naming an edge out of a marked block keeps the invariant.

  lemma EntriesDoNotMatter(vars: set<Id>, orig: seq<PhiInstruction>, now: seq<PhiInstruction>,
                           next: seq<PhiInstruction>, n: Names)
    requires NamesFor(vars, n) && PhisRenamed(vars, orig, now, n)
    requires |next| == |now| && forall i :: 0 <= i < |now| ==> next[i].out == now[i].out
    ensures PhisRenamed(vars, orig, next, n)
  {
    forall i: nat
      ensures PhiRenamedAt(vars, orig, next, n, i)
    {
      assert PhiRenamedAt(vars, orig, now, n, i);
    }
  }

  lemma NameKeepsBlocks(orig: Program, now: Program, marks: map<Node, Mark>, s: Node, t: Node, b: BasicBlock)
    requires MarkedBlocks(orig, now, marks) && t < |now.blocks| && OnlyEntriesChanged(now.blocks[t], b, s)
    ensures MarkedBlocks(orig, SetBlock(now, t, b), marks)
  {
    forall c: Node
      ensures MarkedBlock(orig, SetBlock(now, t, b), marks, c)
    {
      assert MarkedBlock(orig, now, marks, c);
      if c == t && c in marks {
        EntriesDoNotMatter(orig.variables, orig.blocks[t].phis, now.blocks[t].phis, b.phis, marks[t].start);
      }
    }
  }

  lemma NameKeepsEdges(orig: Program, now: Program, marks: map<Node, Mark>, edges: set<Edge>, s: Node, t: Node,
                       b: BasicBlock)
    requires NamedEdges(orig, now, marks, edges) && t < |now.blocks| && OnlyEntriesChanged(now.blocks[t], b, s)
    requires (s, t) in orig.edges && s in marks && EdgeNamed(orig, SetBlock(now, t, b), s, t, marks[s].end.cur)
    ensures NamedEdges(orig, SetBlock(now, t, b), marks, edges + {(s, t)})
  {
    forall e: Edge
      ensures NamedEdge(orig, SetBlock(now, t, b), marks, edges + {(s, t)}, e)
    {
      assert NamedEdge(orig, now, marks, edges, e);
    }
  }

  lemma NameKeepsInvariant(orig: Program, now: Program, blocks: set<Node>, edges: set<Edge>, max: Versions,
                           marks: map<Node, Mark>, open: set<Node>, s: Node, t: Node, b: BasicBlock)
    requires WalkInvariant(orig, now, blocks, edges, max, marks, open)
    requires (s, t) in orig.edges && s in marks && t < |orig.blocks|
    requires OnlyEntriesChanged(now.blocks[t], b, s) && SameBlock(orig.variables, orig.blocks[t], b)
    requires EdgeNamed(orig, SetBlock(now, t, b), s, t, marks[s].end.cur)
    ensures WalkInvariant(orig, SetBlock(now, t, b), blocks, edges + {(s, t)}, max, marks, open)
  {
    SetBlockKeepsShape(orig, now, t, b);
    NameKeepsBlocks(orig, now, marks, s, t, b);
    NameKeepsEdges(orig, now, marks, edges, s, t, b);
  }
}
