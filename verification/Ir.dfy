/**
 The intermediate representation of the optimizer: basic blocks, their control flow graph, and
 a small-step machine that gives programs their meaning before and after the transform to
 static single-assignment form.
 */
module Ir {
  import opened Options
  import opened Arithmetic

  type Id = nat
  type Node = nat
  type Edge = (Node, Node)

  /** `Global` stands for every other operand: inputs, outputs, builtins. */
  datatype Variable =
    | LocalMut(id: Id)
    | Versioned(id: Id, version: nat)
    | LocalConst(id: Id)
    | Constant(value: int)
    | Global(index: nat)

  /** The opcodes the lowering emits itself, and one opcode for everything a kernel may do. */
  datatype Opcode = Copy | Add | Lower | LowerEqual | Generic(code: nat)

  datatype Instruction = Instruction(opcode: Opcode, inputs: seq<Variable>, out: Option<Variable>)

  datatype PhiEntry = PhiEntry(block: Node, value: Variable)
  datatype PhiInstruction = PhiInstruction(out: Variable, entries: seq<PhiEntry>)

  datatype ControlFlow =
    | IfElse(cond: Variable, then_: Node, orElse: Node)
    | Switch(value: Variable, default: Node, branches: seq<(int, Node)>)
    | Loop(body: Node)
    | LoopBreak(breakCond: Variable, body: Node, merge: Node)
    | Return
    | Fallthrough

  datatype BlockUse = ContinueTarget | Merge

  datatype BasicBlock = BasicBlock(
    blockUse: set<BlockUse>,
    phis: seq<PhiInstruction>,
    ops: seq<Instruction>,
    flow: ControlFlow)

  /** `variables` holds the ids that take part in the SSA transform. */
  datatype Program = Program(blocks: seq<BasicBlock>, edges: set<Edge>, root: Node, variables: set<Id>)

  const EMPTY_BLOCK := BasicBlock({}, [], [], Fallthrough)

  function NodesBelow(n: nat): (r: set<Node>)
    ensures forall b: Node :: b in r <==> b < n
  {
    if n == 0 then {} else NodesBelow(n - 1) + {n - 1}
  }

  function NodeIds(p: Program): set<Node> {
    NodesBelow(|p.blocks|)
  }

  function Successors(p: Program, b: Node): set<Node> {
    set e | e in p.edges && e.0 == b :: e.1
  }

  function Predecessors(p: Program, b: Node): set<Node> {
    set e | e in p.edges && e.1 == b :: e.0
  }

  // ---------------------------------------------------------------------------------------
  // The machine
  // ---------------------------------------------------------------------------------------

  type Store = map<Variable, int>

  datatype Event = Event(code: nat, args: seq<int>)

  /** The trace records every generic operation with its argument values, in order. */
  datatype State = State(store: Store, trace: seq<Event>)

  /** The result of a generic operation may depend on its arguments and on all that was done before. */
  type Oracle = (nat, seq<int>, seq<Event>) -> int

  function Get(s: Store, x: Variable): int {
    if x.Constant? then x.value else if x in s then s[x] else 0
  }

  /** Assigning a variable the value it already has leaves the store as it is. */
  function Put(s: Store, x: Variable, v: int): (r: Store)
    ensures forall y :: Get(r, y) == if y == x && !x.Constant? then v else Get(s, y)
  {
    if x.Constant? || Get(s, x) == v then s else s[x := v]
  }

  predicate Tracked(vars: set<Id>, x: Variable) {
    (x.LocalMut? || x.Versioned?) && x.id in vars
  }

  /** Until a tracked variable is renamed, all its spellings name one location. */
  function Canon(vars: set<Id>, x: Variable): Variable {
    if Tracked(vars, x) then LocalMut(x.id) else x
  }

  function Values(vars: set<Id>, s: Store, inputs: seq<Variable>): (r: seq<int>)
    ensures |r| == |inputs|
    ensures forall i :: 0 <= i < |inputs| ==> r[i] == Get(s, Canon(vars, inputs[i]))
  {
    seq(|inputs|, i requires 0 <= i < |inputs| => Get(s, Canon(vars, inputs[i])))
  }

  function Evaluate(o: Oracle, opcode: Opcode, args: seq<int>, trace: seq<Event>): int {
    match opcode
    case Copy => if |args| == 1 then args[0] else 0
    case Add => if |args| == 2 then ToU32(args[0] + args[1]) else 0
    case Lower => if |args| == 2 && ToU32(args[0]) < ToU32(args[1]) then 1 else 0
    case LowerEqual => if |args| == 2 && ToU32(args[0]) <= ToU32(args[1]) then 1 else 0
    case Generic(code) => o(code, args, trace)
  }

  function ExecInstruction(vars: set<Id>, o: Oracle, op: Instruction, st: State): State {
    var args := Values(vars, st.store, op.inputs);
    var store := match op.out
      case None => st.store
      case Some(x) => Put(st.store, Canon(vars, x), Evaluate(o, op.opcode, args, st.trace));
    State(store, if op.opcode.Generic? then st.trace + [Event(op.opcode.code, args)] else st.trace)
  }

  /** The value a phi yields when control arrives from `source`: that of the first matching entry. */
  function PhiValue(entries: seq<PhiEntry>, source: Node): Option<Variable> {
    if entries == [] then None
    else if entries[0].block == source then Some(entries[0].value)
    else PhiValue(entries[1..], source)
  }

  /** All phis of a block read the store `before` and are assigned at once. */
  function ExecPhis(vars: set<Id>, phis: seq<PhiInstruction>, source: Node, before: Store): Store {
    if phis == [] then before
    else
      var phi := phis[|phis| - 1];
      var rest := ExecPhis(vars, phis[..|phis| - 1], source, before);
      match PhiValue(phi.entries, source)
      case None => rest
      case Some(x) => Put(rest, Canon(vars, phi.out), Get(before, Canon(vars, x)))
  }

  datatype Jump = Goto(target: Node) | Halt | Crash

  function SelectBranch(v: int, branches: seq<(int, Node)>, default: Node): Node {
    if branches == [] then default
    else if branches[0].0 == v then branches[0].1
    else SelectBranch(v, branches[1..], default)
  }

  ghost predicate IsSingleton(s: set<Node>) {
    exists x :: x in s && s == {x}
  }

  ghost function TheOnly(s: set<Node>): Jump {
    if IsSingleton(s) then (var x :| x in s && s == {x}; Goto(x)) else Crash
  }

  ghost function NextNode(p: Program, b: Node, st: State): Jump
    requires b < |p.blocks|
  {
    match p.blocks[b].flow
    case IfElse(cond, then_, orElse) =>
      Goto(if Get(st.store, Canon(p.variables, cond)) != 0 then then_ else orElse)
    case Switch(value, default, branches) =>
      Goto(SelectBranch(ToU32(Get(st.store, Canon(p.variables, value))), branches, default))
    case Loop(body) => Goto(body)
    case LoopBreak(breakCond, body, merge) =>
      Goto(if Get(st.store, Canon(p.variables, breakCond)) != 0 then body else merge)
    case Return => Halt
    case Fallthrough => TheOnly(Successors(p, b))
  }

  datatype Config =
    | At(node: Node, pc: nat, st: State)
    | Halted(st: State)
    | Stuck

  function Enter(p: Program, source: Node, target: Node, st: State): Config {
    if target < |p.blocks| then
      At(target, 0, st.(store := ExecPhis(p.variables, p.blocks[target].phis, source, st.store)))
    else Stuck
  }

  ghost function Step(p: Program, o: Oracle, c: Config): Config {
    match c
    case At(b, pc, st) =>
      if b >= |p.blocks| then Stuck
      else if pc < |p.blocks[b].ops| then
        At(b, pc + 1, ExecInstruction(p.variables, o, p.blocks[b].ops[pc], st))
      else (
        match NextNode(p, b, st)
        case Goto(t) => Enter(p, b, t, st)
        case Halt => Halted(st)
        case Crash => Stuck
      )
    case Halted(_) => c
    case Stuck => c
  }

  ghost function Run(p: Program, o: Oracle, c: Config, n: nat): Config {
    if n == 0 then c else Step(p, o, Run(p, o, c, n - 1))
  }

  /** The program started on `st` stops in `final`. */
  ghost predicate Halts(p: Program, o: Oracle, st: State, final: State) {
    exists n: nat :: Run(p, o, At(p.root, 0, st), n) == Halted(final)
  }

  lemma {:induction false} RunPlus(p: Program, o: Oracle, c: Config, m: nat, n: nat)
    ensures Run(p, o, c, m + n) == Run(p, o, Run(p, o, c, m), n)
  {
    if n > 0 {
      RunPlus(p, o, c, m, n - 1);
      assert m + n - 1 == m + (n - 1);
    }
  }

  // `Leads` says the same as an equation about `Run`; behind its trigger it stays folded, so that
  // long runs can be composed without unfolding single steps.

  ghost predicate Unfold(n: nat) {
    true
  }

  ghost predicate Leads(p: Program, o: Oracle, c: Config, n: nat, d: Config) {
    forall k: nat {:trigger Unfold(k)} :: k == n ==> Run(p, o, c, k) == d
  }

  lemma LeadsMeansRun(p: Program, o: Oracle, c: Config, n: nat, d: Config)
    ensures Leads(p, o, c, n, d) <==> Run(p, o, c, n) == d
  {
    assert Unfold(n);
  }

  lemma LeadsStep(p: Program, o: Oracle, c: Config)
    ensures Leads(p, o, c, 0, c) && Leads(p, o, c, 1, Step(p, o, c))
  {
    LeadsMeansRun(p, o, c, 0, c);
    LeadsMeansRun(p, o, c, 1, Step(p, o, c));
    assert Run(p, o, c, 1) == Step(p, o, Run(p, o, c, 0));
  }

  lemma LeadsTrans(p: Program, o: Oracle, c: Config, m: nat, d: Config, n: nat, e: Config)
    requires Leads(p, o, c, m, d) && Leads(p, o, d, n, e)
    ensures Leads(p, o, c, m + n, e)
  {
    LeadsMeansRun(p, o, c, m, d);
    LeadsMeansRun(p, o, d, n, e);
    RunPlus(p, o, c, m, n);
  }

  lemma {:induction false} RunStaysHalted(p: Program, o: Oracle, c: Config, n: nat)
    requires !c.At?
    ensures Run(p, o, c, n) == c
  {
    if n > 0 {
      RunStaysHalted(p, o, c, n - 1);
    }
  }

  // ---------------------------------------------------------------------------------------
  // Well-formed control flow graphs
  // ---------------------------------------------------------------------------------------

  function Targets(flow: ControlFlow): set<Node> {
    match flow
    case IfElse(_, then_, orElse) => {then_, orElse}
    case Switch(_, default, branches) => {default} + set i | 0 <= i < |branches| :: branches[i].1
    case Loop(body) => {body}
    case LoopBreak(_, body, merge) => {body, merge}
    case Return => {}
    case Fallthrough => {}
  }

  /** The terminator of a block names exactly the targets of its edges. */
  ghost predicate FlowMatchesEdges(p: Program, b: Node)
    requires b < |p.blocks|
  {
    if p.blocks[b].flow.Fallthrough? then IsSingleton(Successors(p, b))
    else Successors(p, b) == Targets(p.blocks[b].flow)
  }

  predicate ValidGraph(p: Program) {
    && p.root < |p.blocks|
    && (forall e :: e in p.edges ==> e.0 < |p.blocks| && e.1 < |p.blocks|)
    && (forall e :: e in p.edges ==> e.0 != e.1 && e.1 != p.root)
  }

  ghost predicate WellFormed(p: Program) {
    && ValidGraph(p)
    && forall b :: 0 <= b < |p.blocks| ==> FlowMatchesEdges(p, b)
  }

  /** Every phi stands for one tracked variable; before renaming it copies that variable to itself. */
  predicate TrivialPhi(vars: set<Id>, phi: PhiInstruction) {
    && phi.out.Versioned? && phi.out.id in vars
    && forall i :: 0 <= i < |phi.entries| ==> phi.entries[i].value.Versioned? && phi.entries[i].value.id == phi.out.id
  }

  predicate TrivialPhis(p: Program) {
    forall b, i :: 0 <= b < |p.blocks| && 0 <= i < |p.blocks[b].phis| ==> TrivialPhi(p.variables, p.blocks[b].phis[i])
  }

  lemma {:induction false} PhiValueIsEntry(entries: seq<PhiEntry>, source: Node)
    ensures PhiValue(entries, source).Some? ==>
              exists i :: 0 <= i < |entries| && entries[i] == PhiEntry(source, PhiValue(entries, source).value)
    ensures PhiValue(entries, source).None? ==> forall i :: 0 <= i < |entries| ==> entries[i].block != source
  {
    if entries != [] && entries[0].block != source {
      PhiValueIsEntry(entries[1..], source);
      if PhiValue(entries, source).Some? {
        var i :| 0 <= i < |entries[1..]| && entries[1..][i] == PhiEntry(source, PhiValue(entries[1..], source).value);
        assert entries[i + 1] == PhiEntry(source, PhiValue(entries, source).value);
      } else {
        assert forall i :: 1 <= i < |entries| ==> entries[i] == entries[1..][i - 1];
      }
    } else if entries != [] {
      assert entries[0] == PhiEntry(source, PhiValue(entries, source).value);
    }
  }

  /** Before renaming, phis change nothing. */
  lemma {:induction false} TrivialPhisAreNoOps(vars: set<Id>, phis: seq<PhiInstruction>, source: Node, before: Store)
    requires forall i :: 0 <= i < |phis| ==> TrivialPhi(vars, phis[i])
    ensures ExecPhis(vars, phis, source, before) == before
  {
    if phis != [] {
      TrivialPhisAreNoOps(vars, phis[..|phis| - 1], source, before);
      PhiValueIsEntry(phis[|phis| - 1].entries, source);
    }
  }

  /** In a well-formed graph every jump follows an edge. */
  lemma JumpFollowsEdge(p: Program, b: Node, st: State)
    requires b < |p.blocks| && FlowMatchesEdges(p, b)
    ensures !NextNode(p, b, st).Crash?
    ensures NextNode(p, b, st).Goto? ==> (b, NextNode(p, b, st).target) in p.edges
  {
    match p.blocks[b].flow
    case Switch(value, default, branches) =>
      SelectBranchIsTarget(ToU32(Get(st.store, Canon(p.variables, value))), branches, default);
      assert NextNode(p, b, st).target in Successors(p, b);
    case Return =>
    case Fallthrough =>
      assert NextNode(p, b, st) == TheOnly(Successors(p, b));
    case _ =>
      assert NextNode(p, b, st).target in Successors(p, b);
  }

  lemma {:induction false} SelectBranchIsTarget(v: int, branches: seq<(int, Node)>, default: Node)
    ensures SelectBranch(v, branches, default) == default
            || exists i :: 0 <= i < |branches| && branches[i].1 == SelectBranch(v, branches, default)
  {
    if branches != [] && branches[0].0 != v {
      SelectBranchIsTarget(v, branches[1..], default);
      if SelectBranch(v, branches, default) != default {
        var i :| 0 <= i < |branches[1..]| && branches[1..][i].1 == SelectBranch(v, branches[1..], default);
        assert branches[i + 1].1 == SelectBranch(v, branches, default);
      }
    }
  }
}
