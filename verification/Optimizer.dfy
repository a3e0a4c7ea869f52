/** The mutable state that all phases of the optimizer share. */
module OptimizerState {
  import opened Options
  import opened Ir

  /** Any list of the elements of a set, each listed once. */
  method ListOf(s: set<Node>) returns (r: seq<Node>)
    ensures forall x :: x in r <==> x in s
    ensures |r| == |s|
    ensures forall i, j :: 0 <= i < j < |r| ==> r[i] != r[j]
  {
    r := [];
    var todo := s;
    while todo != {}
      invariant todo <= s && |r| + |todo| == |s|
      invariant forall x :: x in r <==> x in s - todo
      invariant forall i, j :: 0 <= i < j < |r| ==> r[i] != r[j]
      decreases todo
    {
      var x :| x in todo;
      r := r + [x];
      todo := todo - {x};
    }
  }

  class Optimizer {
    var program: Program
    /** The block that instructions are appended to while parsing. */
    var currentBlock: Option<Node>
    /** The break targets of the enclosing loops, innermost last. */
    var loopBreak: seq<Node>
    /** The block that returns branch to. */
    var ret: Node
    /** The next free id of the allocator. */
    var nextLocal: nat

    constructor (nextLocal: nat)
      ensures program == Program([], {}, 0, {}) && currentBlock == None && loopBreak == [] && ret == 0
      ensures this.nextLocal == nextLocal
    {
      program := Program([], {}, 0, {});
      currentBlock, loopBreak, ret := None, [], 0;
      this.nextLocal := nextLocal;
    }
  }

  // ---------------------------------------------------------------------------------------
  // Phi nodes for one variable at one block
  // ---------------------------------------------------------------------------------------

  /** A phi as it is first inserted: one entry for every predecessor, all of version 0. */
  ghost predicate IsFreshPhi(p: Program, b: Node, id: Id, phi: PhiInstruction) {
    && phi.out == Versioned(id, 0)
    && |phi.entries| == |Predecessors(p, b)|
    && (forall i :: 0 <= i < |phi.entries| ==> phi.entries[i].value == Versioned(id, 0))
    && (forall q :: q in Predecessors(p, b) <==> exists i :: 0 <= i < |phi.entries| && phi.entries[i].block == q)
  }

  function AddPhi(p: Program, b: Node, phi: PhiInstruction): Program
    requires b < |p.blocks|
  {
    p.(blocks := p.blocks[b := p.blocks[b].(phis := p.blocks[b].phis + [phi])])
  }

  method InsertPhi(opt: Optimizer, block: Node, id: Id)
    requires block < |opt.program.blocks|
    modifies opt`program
    ensures exists phi ::
            IsFreshPhi(old(opt.program), block, id, phi) && opt.program == AddPhi(old(opt.program), block, phi)
  {
    var value := Versioned(id, 0);
    var preds := ListOf(Predecessors(opt.program, block));
    var entries := seq(|preds|, i requires 0 <= i < |preds| => PhiEntry(preds[i], value));
    var phi := PhiInstruction(value, entries);
    assert forall i :: 0 <= i < |preds| ==> entries[i].block == preds[i];
    assert IsFreshPhi(opt.program, block, id, phi);
    opt.program := AddPhi(opt.program, block, phi);
  }
}
