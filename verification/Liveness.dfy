/**
 The block-level liveness analysis. The worklist reaches the textbook solution for the reads of
 instructions; reads by terminators are not looked at, so the result is true liveness exactly
 when every terminator read is covered by its own block.
 */
module Liveness {
  import opened Options
  import opened Ir
  import opened Dominance
  import opened OptimizerState

  predicate ReadsLocal(op: Instruction, v: Id) {
    LocalMut(v) in op.inputs
  }

  predicate WritesLocal(op: Instruction, v: Id) {
    op.out == Some(LocalMut(v))
  }

  /** The block reads `v` before any instruction of the block has written it. */
  ghost predicate Exposed(ops: seq<Instruction>, v: Id) {
    exists i :: 0 <= i < |ops| && ReadsLocal(ops[i], v) && forall j :: 0 <= j < i ==> !WritesLocal(ops[j], v)
  }

  ghost predicate Killed(ops: seq<Instruction>, v: Id) {
    exists i :: 0 <= i < |ops| && WritesLocal(ops[i], v)
  }

  /** The variable a terminator reads. */
  function TerminatorRead(flow: ControlFlow): Option<Variable> {
    match flow
    case IfElse(cond, _, _) => Some(cond)
    case Switch(value, _, _) => Some(value)
    case LoopBreak(breakCond, _, _) => Some(breakCond)
    case Loop(_) => None
    case Return => None
    case Fallthrough => None
  }

  ghost predicate ReadByTerminator(p: Program, b: Node, v: Id)
    requires b < |p.blocks|
  {
    TerminatorRead(p.blocks[b].flow) == Some(LocalMut(v))
  }

  /** Along `path`, nothing before its last block writes `v`. */
  ghost predicate ClearUntilEnd(p: Program, path: seq<Node>, v: Id) {
    && IsPath(p, path)
    && (forall i :: 0 <= i < |path| ==> path[i] < |p.blocks|)
    && forall i :: 0 <= i < |path| - 1 ==> !Killed(p.blocks[path[i]].ops, v)
  }

  /** The textbook definition, counting the reads of instructions only. */
  ghost predicate LiveIn(p: Program, b: Node, v: Id) {
    exists path :: ClearUntilEnd(p, path, v) && path[0] == b && Exposed(p.blocks[path[|path| - 1]].ops, v)
  }

  /** The textbook definition, counting the reads of terminators as well. */
  ghost predicate TrulyLiveIn(p: Program, b: Node, v: Id) {
    exists path :: ClearUntilEnd(p, path, v) && path[0] == b && UsedAtEnd(p, path, v)
  }

  ghost predicate UsedAtEnd(p: Program, path: seq<Node>, v: Id)
    requires path != [] && path[|path| - 1] < |p.blocks|
  {
    var last := path[|path| - 1];
    Exposed(p.blocks[last].ops, v) || (ReadByTerminator(p, last, v) && !Killed(p.blocks[last].ops, v))
  }

  type LiveVars = map<Node, set<Id>>

  /** Every terminator reads a variable that is live on entry to its block or written in it. */
  ghost predicate TerminatorsCovered(p: Program, live: LiveVars) {
    forall b: Node, v: Id :: b < |p.blocks| && b in live && Reachable(p, b) && ReadByTerminator(p, b, v)
                             ==> v in live[b] || Killed(p.blocks[b].ops, v)
  }

  // ---------------------------------------------------------------------------------------
  // One block
  // ---------------------------------------------------------------------------------------

  method CalculateBlockSets(ops: seq<Instruction>) returns (generated: set<Id>, kill: set<Id>)
    ensures forall v: Id :: v in generated <==> Exposed(ops, v)
    ensures forall v: Id :: v in kill <==> Killed(ops, v)
  {
    generated, kill := {}, {};
    var n := |ops|;
    while n > 0
      invariant 0 <= n <= |ops|
      invariant forall v: Id :: v in generated <==> Exposed(ops[n..], v)
      invariant forall v: Id :: v in kill <==> Killed(ops[n..], v)
    {
      n := n - 1;
      var op := ops[n];
      assert ops[n..] == [op] + ops[n + 1..];
      forall v: Id
        ensures Killed(ops[n..], v) <==> WritesLocal(op, v) || Killed(ops[n + 1..], v)
        ensures Exposed(ops[n..], v) <==> ReadsLocal(op, v) || (!WritesLocal(op, v) && Exposed(ops[n + 1..], v))
      {
        PrependOp(op, ops[n + 1..], v);
      }
      if op.out.Some? && op.out.value.LocalMut? {
        kill := kill + {op.out.value.id};
        generated := generated - {op.out.value.id};
      }
      generated := generated + (set x | x in op.inputs && x.LocalMut? :: x.id);
    }
    assert ops[0..] == ops;
  }

  lemma PrependOp(op: Instruction, rest: seq<Instruction>, v: Id)
    ensures Killed([op] + rest, v) <==> WritesLocal(op, v) || Killed(rest, v)
    ensures Exposed([op] + rest, v) <==> ReadsLocal(op, v) || (!WritesLocal(op, v) && Exposed(rest, v))
  {
    var ops := [op] + rest;
    if Killed(rest, v) {
      var i :| 0 <= i < |rest| && WritesLocal(rest[i], v);
      assert ops[i + 1] == rest[i];
    }
    if WritesLocal(op, v) {
      assert ops[0] == op;
    }
    if ReadsLocal(op, v) {
      assert ReadsLocal(ops[0], v);
    } else if Exposed(ops, v) {
      ExposedInTail(op, rest, v);
    }
    if Exposed(rest, v) && !WritesLocal(op, v) {
      ExposedInWhole(op, rest, v);
    }
  }

  lemma ExposedInTail(op: Instruction, rest: seq<Instruction>, v: Id)
    requires Exposed([op] + rest, v) && !ReadsLocal(op, v)
    ensures !WritesLocal(op, v) && Exposed(rest, v)
  {
    var ops := [op] + rest;
    var i :| 0 <= i < |ops| && ReadsLocal(ops[i], v) && forall j :: 0 <= j < i ==> !WritesLocal(ops[j], v);
    assert ops[0] == op && rest[i - 1] == ops[i];
    forall j | 0 <= j < i - 1
      ensures !WritesLocal(rest[j], v)
    {
      assert rest[j] == ops[j + 1];
    }
  }

  lemma ExposedInWhole(op: Instruction, rest: seq<Instruction>, v: Id)
    requires Exposed(rest, v) && !WritesLocal(op, v)
    ensures Exposed([op] + rest, v)
  {
    var ops := [op] + rest;
    var i :| 0 <= i < |rest| && ReadsLocal(rest[i], v) && forall j :: 0 <= j < i ==> !WritesLocal(rest[j], v);
    assert ReadsLocal(ops[i + 1], v);
    forall j | 0 <= j < i + 1
      ensures !WritesLocal(ops[j], v)
    {
      assert ops[j] == if j == 0 then op else rest[j - 1];
    }
  }

  // ---------------------------------------------------------------------------------------
  // The fixpoint
  // ---------------------------------------------------------------------------------------

  /** `v` is used by `b` itself, or live on entry to a successor and not written by `b`. */
  ghost predicate Transfer(p: Program, live: LiveVars, b: Node, v: Id)
    requires b < |p.blocks|
  {
    || Exposed(p.blocks[b].ops, v)
    || (!Killed(p.blocks[b].ops, v) && exists t :: (b, t) in p.edges && LiveOn(live, t, v))
  }

  predicate LiveOn(live: LiveVars, b: Node, v: Id) {
    b in live && v in live[b]
  }

  ghost predicate Sound(p: Program, live: LiveVars) {
    && live.Keys == NodeIds(p)
    && forall b: Node, v: Id :: LiveOn(live, b, v) ==> LiveIn(p, b, v)
  }

  ghost predicate BelowTransfer(p: Program, live: LiveVars) {
    forall b: Node, v: Id :: LiveOn(live, b, v) ==> b < |p.blocks| && Transfer(p, live, b, v)
  }

  ghost predicate Solved(p: Program, live: LiveVars, b: Node)
    requires b < |p.blocks|
  {
    forall v: Id :: LiveOn(live, b, v) <==> Transfer(p, live, b, v)
  }

  /** A clear path can be started one block earlier. */
  lemma ClearLonger(p: Program, b: Node, path: seq<Node>, v: Id)
    requires b < |p.blocks| && ClearUntilEnd(p, path, v) && (b, path[0]) in p.edges && !Killed(p.blocks[b].ops, v)
    ensures ClearUntilEnd(p, [b] + path, v)
  {
    var longer := [b] + path;
    assert forall i :: 0 < i < |longer| ==> longer[i] == path[i - 1];
    forall i | 0 <= i < |longer| - 1
      ensures (longer[i], longer[i + 1]) in p.edges && !Killed(p.blocks[longer[i]].ops, v)
    {
      if i > 0 {
        assert (path[i - 1], path[i - 1 + 1]) in p.edges;
      }
    }
  }

  lemma LiveInStep(p: Program, b: Node, t: Node, v: Id)
    requires ValidGraph(p) && (b, t) in p.edges && LiveIn(p, t, v) && !Killed(p.blocks[b].ops, v)
    ensures LiveIn(p, b, v)
  {
    var path :| ClearUntilEnd(p, path, v) && path[0] == t && Exposed(p.blocks[path[|path| - 1]].ops, v);
    ClearLonger(p, b, path, v);
    assert ([b] + path)[0] == b;
  }

  lemma TrulyLiveInStep(p: Program, b: Node, t: Node, v: Id)
    requires ValidGraph(p) && (b, t) in p.edges && TrulyLiveIn(p, t, v) && !Killed(p.blocks[b].ops, v)
    ensures TrulyLiveIn(p, b, v)
  {
    var path :| ClearUntilEnd(p, path, v) && path[0] == t && UsedAtEnd(p, path, v);
    ClearLonger(p, b, path, v);
    var longer := [b] + path;
    assert longer[0] == b && longer[|longer| - 1] == path[|path| - 1] && UsedAtEnd(p, longer, v);
  }

  /** What is live for the reads of instructions is truly live. */
  lemma LiveIsTrulyLive(p: Program, b: Node, v: Id)
    requires LiveIn(p, b, v)
    ensures TrulyLiveIn(p, b, v)
  {
    var path :| ClearUntilEnd(p, path, v) && path[0] == b && Exposed(p.blocks[path[|path| - 1]].ops, v);
    assert UsedAtEnd(p, path, v);
  }

  lemma ExposedIsLive(p: Program, b: Node, v: Id)
    requires b < |p.blocks| && Exposed(p.blocks[b].ops, v)
    ensures LiveIn(p, b, v)
  {
    assert ClearUntilEnd(p, [b], v) && [b][0] == b;
  }

  lemma TransferIsLive(p: Program, live: LiveVars, b: Node, v: Id)
    requires ValidGraph(p) && Sound(p, live) && b < |p.blocks| && Transfer(p, live, b, v)
    ensures LiveIn(p, b, v)
  {
    if Exposed(p.blocks[b].ops, v) {
      ExposedIsLive(p, b, v);
    } else {
      var t :| (b, t) in p.edges && LiveOn(live, t, v);
      LiveInStep(p, b, t, v);
    }
  }

  /** A solution on all reachable blocks contains every live variable. */
  lemma {:induction false} SolutionIsComplete(p: Program, live: LiveVars, path: seq<Node>, v: Id)
    requires ValidGraph(p) && live.Keys == NodeIds(p)
    requires forall b: Node :: b < |p.blocks| && Reachable(p, b) ==> Solved(p, live, b)
    requires ClearUntilEnd(p, path, v) && Reachable(p, path[0]) && Exposed(p.blocks[path[|path| - 1]].ops, v)
    ensures v in live[path[0]]
    decreases |path|
  {
    if |path| > 1 {
      assert (path[0], path[0 + 1]) in p.edges;
      var toHead :| PathTo(p, toHead, path[0]);
      PathExtend(p, toHead, path[0], path[1]);
      var tail := path[1..];
      assert forall i :: 0 <= i < |tail| ==> tail[i] == path[i + 1];
      assert IsPath(p, tail) by {
        forall i | 0 <= i < |tail| - 1
          ensures (tail[i], tail[i + 1]) in p.edges
        {
          assert (path[i + 1], path[i + 1 + 1]) in p.edges;
        }
      }
      SolutionIsComplete(p, live, tail, v);
      assert LiveOn(live, path[1], v) && Transfer(p, live, path[0], v);
    }
    assert LiveOn(live, path[0], v);
  }

  /** The live sets are right on every reachable block. */
  ghost predicate Exact(p: Program, live: LiveVars) {
    && live.Keys == NodeIds(p)
    && forall b: Node, v: Id :: b in live && Reachable(p, b) ==> (v in live[b] <==> LiveIn(p, b, v))
  }

  ghost function Missing(p: Program, universe: set<Id>, live: LiveVars): set<(Node, Id)>
    requires live.Keys == NodeIds(p)
  {
    set b: Node, v: Id | b in NodeIds(p) && v in universe && v !in live[b] :: (b, v)
  }

  ghost predicate WorklistInvariant(p: Program, universe: set<Id>, live: LiveVars, worklist: seq<Node>) {
    && ValidGraph(p) && Sound(p, live) && BelowTransfer(p, live)
    && (forall b :: b in worklist ==> b < |p.blocks|)
    && (forall b: Node :: b < |p.blocks| && Reachable(p, b) && b !in worklist ==> Solved(p, live, b))
    && (forall b: Node, v: Id :: b < |p.blocks| && Exposed(p.blocks[b].ops, v) ==> v in universe)
    && (forall b: Node :: b in live ==> live[b] <= universe)
  }

  lemma KeepBlock(p: Program, universe: set<Id>, live: LiveVars, block: Node, rest: seq<Node>)
    requires WorklistInvariant(p, universe, live, [block] + rest)
    requires block < |p.blocks| && Solved(p, live, block)
    ensures WorklistInvariant(p, universe, live, rest)
  {
    assert forall b :: b in [block] + rest <==> b == block || b in rest;
  }

  /** Raising one block to its transfer keeps every invariant once its predecessors are queued again. */
  lemma RaiseBlock(p: Program, universe: set<Id>, live: LiveVars, block: Node, rest: seq<Node>, raised: set<Id>,
                   queued: seq<Node>)
    requires WorklistInvariant(p, universe, live, [block] + rest)
    requires block < |p.blocks|
    requires forall v: Id :: v in raised <==> Transfer(p, live, block, v)
    requires forall q :: q in queued <==> (q, block) in p.edges
    ensures WorklistInvariant(p, universe, live[block := raised], rest + queued)
  {
    var live' := live[block := raised];
    assert forall b :: b in [block] + rest <==> b == block || b in rest;
    assert forall b :: b in rest + queued <==> b in rest || b in queued;
    forall v | v in raised
      ensures LiveIn(p, block, v) && v in universe
    {
      TransferIsLive(p, live, block, v);
      if !Exposed(p.blocks[block].ops, v) {
        var t :| (block, t) in p.edges && LiveOn(live, t, v);
        assert live[t] <= universe;
      }
    }
    assert live[block] <= raised by {
      assert forall v | v in live[block] :: LiveOn(live, block, v);
    }
    TransferGrows(p, live, live');
    forall b: Node | b < |p.blocks| && Reachable(p, b) && b !in rest + queued
      ensures Solved(p, live', b)
    {
      TransferLocal(p, live, block, raised, b);
    }
    assert BelowTransfer(p, live') by {
      forall b: Node, v: Id | LiveOn(live', b, v)
        ensures b < |p.blocks| && Transfer(p, live', b, v)
      {
        assert b != block ==> LiveOn(live, b, v);
      }
    }
    assert Sound(p, live') by {
      forall b: Node, v: Id | LiveOn(live', b, v)
        ensures LiveIn(p, b, v)
      {
        assert b != block ==> LiveOn(live, b, v);
      }
    }
  }

  lemma RaiseShrinksMissing(p: Program, universe: set<Id>, live: LiveVars, block: Node, raised: set<Id>)
    requires live.Keys == NodeIds(p) && block in live
    requires live[block] < raised <= universe
    ensures Missing(p, universe, live[block := raised]) < Missing(p, universe, live)
  {
    var v :| v in raised && v !in live[block];
    assert (block, v) in Missing(p, universe, live);
  }

  lemma TransferGrows(p: Program, live: LiveVars, live': LiveVars)
    requires live.Keys == live'.Keys && forall b: Node :: b in live ==> live[b] <= live'[b]
    ensures forall b: Node, v: Id :: b < |p.blocks| && Transfer(p, live, b, v) ==> Transfer(p, live', b, v)
  {
    forall b: Node, v: Id | b < |p.blocks| && Transfer(p, live, b, v)
      ensures Transfer(p, live', b, v)
    {
      if !Exposed(p.blocks[b].ops, v) {
        var t :| (b, t) in p.edges && LiveOn(live, t, v);
        assert LiveOn(live', t, v);
      }
    }
  }

  lemma TransferLocal(p: Program, live: LiveVars, block: Node, raised: set<Id>, b: Node)
    requires block < |p.blocks| && b < |p.blocks| && (b, block) !in p.edges
    requires b == block ==> forall v: Id :: v in raised <==> Transfer(p, live, block, v)
    requires b != block ==> Solved(p, live, b)
    ensures Solved(p, live[block := raised], b)
  {
    var live' := live[block := raised];
    forall v: Id
      ensures Transfer(p, live, b, v) <==> Transfer(p, live', b, v)
    {
      assert forall t :: (b, t) in p.edges ==> (LiveOn(live, t, v) <==> LiveOn(live', t, v));
    }
    assert forall v: Id :: LiveOn(live', b, v) <==> if b == block then v in raised else LiveOn(live, b, v);
  }


  ghost predicate LiveOnSome(live: LiveVars, ts: set<Node>, v: Id) {
    exists t :: t in ts && LiveOn(live, t, v)
  }

  method AnalyzeBlock(p: Program, live: LiveVars, block: Node) returns (liveVars: set<Id>)
    requires ValidGraph(p) && live.Keys == NodeIds(p) && block < |p.blocks|
    ensures forall v: Id :: v in liveVars <==> Transfer(p, live, block, v)
  {
    var generated, kill := CalculateBlockSets(p.blocks[block].ops);
    liveVars := generated;
    var todo := Successors(p, block);
    while todo != {}
      invariant todo <= Successors(p, block)
      invariant forall v: Id :: v in liveVars <==>
                                  (Exposed(p.blocks[block].ops, v)
                                   || (!Killed(p.blocks[block].ops, v) &&
                                      LiveOnSome(live, Successors(p, block) - todo, v)))
      decreases todo
    {
      var successor :| successor in todo;
      ghost var done := Successors(p, block) - todo;
      liveVars := liveVars + (live[successor] - kill);
      todo := todo - {successor};
      assert Successors(p, block) - todo == done + {successor};
      assert forall v: Id ::
          LiveOnSome(live, done + {successor}, v) <==> LiveOnSome(live, done, v) || v in live[successor];
    }
    assert Successors(p, block) - todo == Successors(p, block);
    forall v: Id
      ensures v in liveVars <==> Transfer(p, live, block, v)
    {
      if Transfer(p, live, block, v) && !Exposed(p.blocks[block].ops, v) {
        var t :| (block, t) in p.edges && LiveOn(live, t, v);
        assert t in Successors(p, block);
      }
    }
  }

  ghost function Universe(p: Program, n: nat): (r: set<Id>)
    requires n <= |p.blocks|
    ensures forall b: Node, v: Id :: b < n && Exposed(p.blocks[b].ops, v) ==> v in r
  {
    if n == 0 then {}
    else
      var ops := p.blocks[n - 1].ops;
      Universe(p, n - 1) + (set i, x | 0 <= i < |ops| && x in ops[i].inputs && x.LocalMut? :: x.id)
  }

  /** The analysis, started from any order of the reachable blocks. */
  method AnalyzeLiveness(p: Program, order: seq<Node>) returns (live: LiveVars)
    requires ValidGraph(p)
    requires forall b: Node :: b in order <==> b < |p.blocks| && Reachable(p, b)
    ensures Exact(p, live)
  {
    live := map b: Node | b in NodeIds(p) :: {};
    var worklist := order;
    ghost var universe := Universe(p, |p.blocks|);
    while worklist != []
      invariant WorklistInvariant(p, universe, live, worklist)
      decreases Missing(p, universe, live), |worklist|
    {
      var block := worklist[0];
      assert worklist == [block] + worklist[1..] && block in worklist;
      worklist := worklist[1..];
      var liveVars := AnalyzeBlock(p, live, block);
      var preds := ListOf(Predecessors(p, block));
      assert forall v | v in live[block] :: LiveOn(live, block, v);
      if liveVars != live[block] {
        RaiseBlock(p, universe, live, block, worklist, liveVars, preds);
        RaiseShrinksMissing(p, universe, live, block, liveVars);
        worklist := worklist + preds;
        live := live[block := liveVars];
      } else {
        KeepBlock(p, universe, live, block, worklist);
      }
    }
    forall b: Node, v: Id | b in live && Reachable(p, b) && LiveIn(p, b, v)
      ensures v in live[b]
    {
      var path :| ClearUntilEnd(p, path, v) && path[0] == b && Exposed(p.blocks[path[|path| - 1]].ops, v);
      SolutionIsComplete(p, live, path, v);
    }
  }

  // ---------------------------------------------------------------------------------------
  // Terminators
  // ---------------------------------------------------------------------------------------

  lemma {:induction false} TrulyLiveIsFound(p: Program, live: LiveVars, path: seq<Node>, v: Id)
    requires ValidGraph(p) && Exact(p, live) && TerminatorsCovered(p, live)
    requires ClearUntilEnd(p, path, v) && Reachable(p, path[0]) && UsedAtEnd(p, path, v)
    ensures v in live[path[0]]
    decreases |path|
  {
    if |path| == 1 {
      if Exposed(p.blocks[path[0]].ops, v) {
        ExposedIsLive(p, path[0], v);
      }
    } else {
      assert (path[0], path[0 + 1]) in p.edges;
      var toHead :| PathTo(p, toHead, path[0]);
      PathExtend(p, toHead, path[0], path[1]);
      var tail := path[1..];
      assert forall i :: 0 <= i < |tail| ==> tail[i] == path[i + 1];
      assert IsPath(p, tail) by {
        forall i | 0 <= i < |tail| - 1
          ensures (tail[i], tail[i + 1]) in p.edges
        {
          assert (path[i + 1], path[i + 1 + 1]) in p.edges;
        }
      }
      TrulyLiveIsFound(p, live, tail, v);
      LiveInStep(p, path[0], path[1], v);
    }
  }

  /** What the analysis finds is true liveness if and only if it covers the terminators. */
  lemma LivenessIsTrueIffTerminatorsCovered(p: Program, live: LiveVars)
    requires ValidGraph(p) && Exact(p, live)
    ensures TerminatorsCovered(p, live)
            <==> forall b: Node, v: Id :: b in live && Reachable(p, b) ==> (v in live[b] <==> TrulyLiveIn(p, b, v))
  {
    forall b: Node, v: Id | b in live && Reachable(p, b) && v in live[b]
      ensures TrulyLiveIn(p, b, v)
    {
      LiveIsTrulyLive(p, b, v);
    }
    if TerminatorsCovered(p, live) {
      forall b: Node, v: Id | b in live && Reachable(p, b) && TrulyLiveIn(p, b, v)
        ensures v in live[b]
      {
        var path :| ClearUntilEnd(p, path, v) && path[0] == b && UsedAtEnd(p, path, v);
        TrulyLiveIsFound(p, live, path, v);
      }
    } else {
      var b: Node, v: Id :| b < |p.blocks| && b in live && Reachable(p, b) && ReadByTerminator(p, b, v)
                            && v !in live[b] && !Killed(p.blocks[b].ops, v);
      assert ClearUntilEnd(p, [b], v) && UsedAtEnd(p, [b], v) && [b][0] == b;
    }
  }
}
