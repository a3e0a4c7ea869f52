/**
 The names the SSA transform gives to variables: how the current version of every variable
 evolves along a block, and what a block looks like once it is renamed from a given start.
 */
module Naming {
  import opened Options
  import opened Ir

  const U16 := 0x1_0000

  /** Versions are 16-bit; the counter behind them is kept unwrapped. */
  function Wrap(n: nat): (r: nat)
    ensures r < U16
    ensures n < U16 ==> r == n
  {
    n % U16
  }

  /** Exactly the 16-bit numbers are versions. */
  lemma VersionsAreSixteenBits(x: bv16)
    ensures Wrap(x as nat) == x as nat && U16 == (0xFFFF as bv16) as nat + 1
  {
  }

  type Versions = map<Id, nat>

  /** The current version of each variable, and how many versions of it exist. */
  datatype Names = Names(cur: Versions, max: Versions)

  predicate NamesFor(vars: set<Id>, n: Names) {
    n.cur.Keys == n.max.Keys == vars
  }

  function Define(n: Names, id: Id): Names
    requires id in n.max
  {
    Names(n.cur[id := Wrap(n.max[id] + 1)], n.max[id := n.max[id] + 1])
  }

  function ReadName(vars: set<Id>, cur: Versions, x: Variable): Variable {
    if Tracked(vars, x) && x.id in cur then Versioned(x.id, cur[x.id]) else x
  }

  // ---------------------------------------------------------------------------------------
  // Writes
  // ---------------------------------------------------------------------------------------

  /** The tracked variable an operand written to stands for. */
  function WrittenId(vars: set<Id>, out: Option<Variable>): Option<Id> {
    if out.Some? && Tracked(vars, out.value) then Some(out.value.id) else None
  }

  function AfterWrite(n: Names, id: Option<Id>): Names
    requires id.Some? ==> id.value in n.max
  {
    if id.Some? then Define(n, id.value) else n
  }

  function WriteName(n: Names, id: Option<Id>, x: Variable): Variable
    requires id.Some? ==> id.value in n.max
  {
    if id.Some? then Versioned(id.value, Wrap(n.max[id.value] + 1)) else x
  }

  /** The names after writing a list of tracked variables in order. */
  function AfterWrites(vars: set<Id>, ids: seq<Option<Id>>, n: Names): (r: Names)
    requires NamesFor(vars, n)
    requires forall i :: 0 <= i < |ids| && ids[i].Some? ==> ids[i].value in vars
    ensures NamesFor(vars, r)
    ensures forall v :: v in vars ==> n.max[v] <= r.max[v]
  {
    if ids == [] then n
    else AfterWrite(AfterWrites(vars, ids[..|ids| - 1], n), ids[|ids| - 1])
  }

  /** Phis are written first and only under their versioned spelling. */
  function PhiId(vars: set<Id>, phi: PhiInstruction): Option<Id> {
    if phi.out.Versioned? then WrittenId(vars, Some(phi.out)) else None
  }

  function PhiIds(vars: set<Id>, phis: seq<PhiInstruction>): (r: seq<Option<Id>>)
    ensures |r| == |phis|
    ensures forall i :: 0 <= i < |r| ==> r[i] == PhiId(vars, phis[i])
    ensures forall i :: 0 <= i < |r| && r[i].Some? ==> r[i].value in vars
  {
    seq(|phis|, i requires 0 <= i < |phis| => PhiId(vars, phis[i]))
  }

  function OpIds(vars: set<Id>, ops: seq<Instruction>): (r: seq<Option<Id>>)
    ensures |r| == |ops|
    ensures forall i :: 0 <= i < |r| ==> r[i] == WrittenId(vars, ops[i].out)
    ensures forall i :: 0 <= i < |r| && r[i].Some? ==> r[i].value in vars
  {
    seq(|ops|, i requires 0 <= i < |ops| => WrittenId(vars, ops[i].out))
  }

  function AfterPhis(vars: set<Id>, phis: seq<PhiInstruction>, n: Names): (r: Names)
    requires NamesFor(vars, n)
    ensures NamesFor(vars, r)
    ensures forall v :: v in vars ==> n.max[v] <= r.max[v]
  {
    AfterWrites(vars, PhiIds(vars, phis), n)
  }

  function AfterOps(vars: set<Id>, ops: seq<Instruction>, n: Names): (r: Names)
    requires NamesFor(vars, n)
    ensures NamesFor(vars, r)
    ensures forall v :: v in vars ==> n.max[v] <= r.max[v]
  {
    AfterWrites(vars, OpIds(vars, ops), n)
  }

  lemma AfterPhisSnoc(vars: set<Id>, phis: seq<PhiInstruction>, i: nat, n: Names)
    requires NamesFor(vars, n) && i < |phis|
    ensures AfterPhis(vars, phis[..i + 1], n) == AfterWrite(AfterPhis(vars, phis[..i], n), PhiId(vars, phis[i]))
  {
    assert PhiIds(vars, phis[..i + 1])[..i] == PhiIds(vars, phis[..i]);
  }

  lemma AfterOpsSnoc(vars: set<Id>, ops: seq<Instruction>, i: nat, n: Names)
    requires NamesFor(vars, n) && i < |ops|
    ensures AfterOps(vars, ops[..i + 1], n) == AfterWrite(AfterOps(vars, ops[..i], n), WrittenId(vars, ops[i].out))
  {
    assert OpIds(vars, ops[..i + 1])[..i] == OpIds(vars, ops[..i]);
  }

  /** The names at the end of a block entered with `n`. */
  function AfterBlock(vars: set<Id>, b: BasicBlock, n: Names): (r: Names)
    requires NamesFor(vars, n)
    ensures NamesFor(vars, r)
    ensures forall v :: v in vars ==> n.max[v] <= r.max[v]
  {
    AfterOps(vars, b.ops, AfterPhis(vars, b.phis, n))
  }

  // ---------------------------------------------------------------------------------------
  // Renamed pieces
  // ---------------------------------------------------------------------------------------

  function RenameInputs(vars: set<Id>, cur: Versions, inputs: seq<Variable>): (r: seq<Variable>)
    ensures |r| == |inputs|
    ensures forall i :: 0 <= i < |r| ==> r[i] == ReadName(vars, cur, inputs[i])
  {
    seq(|inputs|, i requires 0 <= i < |inputs| => ReadName(vars, cur, inputs[i]))
  }

  function RenameInstruction(vars: set<Id>, op: Instruction, n: Names): Instruction
    requires NamesFor(vars, n)
  {
    Instruction(op.opcode, RenameInputs(vars, n.cur, op.inputs),
      if op.out.None? then None else Some(WriteName(n, WrittenId(vars, op.out), op.out.value)))
  }

  function RenameFlow(vars: set<Id>, cur: Versions, flow: ControlFlow): ControlFlow {
    match flow
    case IfElse(cond, _, _) => flow.(cond := ReadName(vars, cur, cond))
    case Switch(value, _, _) => flow.(value := ReadName(vars, cur, value))
    case LoopBreak(breakCond, _, _) => flow.(breakCond := ReadName(vars, cur, breakCond))
    case _ => flow
  }

  ghost predicate PhiRenamedAt(vars: set<Id>, orig: seq<PhiInstruction>, now: seq<PhiInstruction>, n: Names, i: nat)
    requires NamesFor(vars, n)
  {
    i < |orig| && i < |now| ==>
      now[i].out == WriteName(AfterPhis(vars, orig[..i], n), PhiId(vars, orig[i]), orig[i].out)
  }

  ghost predicate PhisRenamed(vars: set<Id>, orig: seq<PhiInstruction>, now: seq<PhiInstruction>, n: Names)
    requires NamesFor(vars, n)
  {
    && |now| == |orig|
    && forall i: nat {:trigger PhiRenamedAt(vars, orig, now, n, i)} :: PhiRenamedAt(vars, orig, now, n, i)
  }

  ghost predicate OpRenamedAt(vars: set<Id>, orig: seq<Instruction>, now: seq<Instruction>, n: Names, i: nat)
    requires NamesFor(vars, n)
  {
    i < |orig| && i < |now| ==> now[i] == RenameInstruction(vars, orig[i], AfterOps(vars, orig[..i], n))
  }

  ghost predicate OpsRenamed(vars: set<Id>, orig: seq<Instruction>, now: seq<Instruction>, n: Names)
    requires NamesFor(vars, n)
  {
    && |now| == |orig|
    && forall i: nat {:trigger OpRenamedAt(vars, orig, now, n, i)} :: OpRenamedAt(vars, orig, now, n, i)
  }

  /** `now` is `orig` renamed from the names `n`; phi entries belong to the edges and are left open. */
  ghost predicate BlockRenamed(vars: set<Id>, orig: BasicBlock, now: BasicBlock, n: Names)
    requires NamesFor(vars, n)
  {
    && now.blockUse == orig.blockUse
    && PhisRenamed(vars, orig.phis, now.phis, n)
    && OpsRenamed(vars, orig.ops, now.ops, AfterPhis(vars, orig.phis, n))
    && now.flow == RenameFlow(vars, AfterBlock(vars, orig, n).cur, orig.flow)
  }

  // ---------------------------------------------------------------------------------------
  // Renaming never changes which variable an operand stands for
  // ---------------------------------------------------------------------------------------

  predicate SameInstruction(vars: set<Id>, a: Instruction, b: Instruction) {
    && a.opcode == b.opcode && |a.inputs| == |b.inputs|
    && (forall i :: 0 <= i < |a.inputs| ==> Canon(vars, a.inputs[i]) == Canon(vars, b.inputs[i]))
    && a.out.Some? == b.out.Some?
    && (a.out.Some? ==> Canon(vars, a.out.value) == Canon(vars, b.out.value))
  }

  predicate SamePhi(vars: set<Id>, a: PhiInstruction, b: PhiInstruction) {
    && Canon(vars, a.out) == Canon(vars, b.out) && (a.out.Versioned? <==> b.out.Versioned?)
    && |a.entries| == |b.entries|
    && forall i :: 0 <= i < |a.entries| ==>
         && a.entries[i].block == b.entries[i].block
         && Canon(vars, a.entries[i].value) == Canon(vars, b.entries[i].value)
         && (a.entries[i].value.Versioned? <==> b.entries[i].value.Versioned?)
  }

  predicate SameFlow(vars: set<Id>, a: ControlFlow, b: ControlFlow) {
    match (a, b)
    case (IfElse(c, _, _), IfElse(d, _, _)) => Canon(vars, c) == Canon(vars, d) && b == a.(cond := d)
    case (Switch(c, _, _), Switch(d, _, _)) => Canon(vars, c) == Canon(vars, d) && b == a.(value := d)
    case (LoopBreak(c, _, _), LoopBreak(d, _, _)) => Canon(vars, c) == Canon(vars, d) && b == a.(breakCond := d)
    case _ => a == b
  }

  predicate SameBlock(vars: set<Id>, a: BasicBlock, b: BasicBlock) {
    && a.blockUse == b.blockUse
    && |a.phis| == |b.phis| && (forall i :: 0 <= i < |a.phis| ==> SamePhi(vars, a.phis[i], b.phis[i]))
    && |a.ops| == |b.ops| && (forall i :: 0 <= i < |a.ops| ==> SameInstruction(vars, a.ops[i], b.ops[i]))
    && SameFlow(vars, a.flow, b.flow)
  }

  /** Renaming an already renamed instruction is renaming the original. */
  lemma RenameIgnoresSpelling(vars: set<Id>, a: Instruction, b: Instruction, n: Names)
    requires NamesFor(vars, n) && SameInstruction(vars, a, b)
    ensures RenameInstruction(vars, a, n) == RenameInstruction(vars, b, n)
    ensures WrittenId(vars, a.out) == WrittenId(vars, b.out)
    ensures SameInstruction(vars, a, RenameInstruction(vars, b, n))
  {
    assert RenameInputs(vars, n.cur, a.inputs) == RenameInputs(vars, n.cur, b.inputs);
  }
}
