/**
 The structured form in which kernels reach the optimizer, and its meaning: a big-step semantics
 that spends one unit of fuel on each round of a loop.
 */
module Structured {
  import opened Options
  import opened Arithmetic
  import opened Ir

  datatype Stmt =
    | Operation(inst: Instruction)
    | Conditional(cond: Variable, scope: Scope)
    | Alternative(cond: Variable, scopeIf: Scope, scopeElse: Scope)
    | Selection(value: Variable, cases: Cases)
    | RangeLoop(i: Id, start: Variable, end: Variable, step: Option<Variable>, inclusive: bool, scope: Scope)
    | Forever(scope: Scope)
    | ReturnStmt
    | BreakStmt

  /** `vars` are the mutable variables a scope declares. */
  datatype Scope = Scope(vars: set<Id>, body: seq<Stmt>)

  /** The cases of a switch in order, the default last. */
  datatype Cases = Default(scope: Scope) | Case(constant: int, scope: Scope, rest: Cases)

  datatype Outcome =
    | Normal(st: State)
    | Broke(st: State)
    | Returned(st: State)
    | OutOfFuel

  function Assign(inputs: seq<Variable>, opcode: Opcode, i: Id): Instruction {
    Instruction(opcode, inputs, Some(LocalMut(i)))
  }

  function StepOf(step: Option<Variable>): Variable {
    if step.Some? then step.value else Constant(1)
  }

  /** The instructions a range loop stands for. */
  function Initialize(i: Id, start: Variable): Instruction {
    Assign([start], Copy, i)
  }

  function Advance(i: Id, step: Option<Variable>): Instruction {
    Assign([LocalMut(i), StepOf(step)], Add, i)
  }

  function Comparison(i: Id, end: Variable, inclusive: bool, out: Variable): Instruction {
    Instruction(if inclusive then LowerEqual else Lower, [LocalMut(i), end], Some(out))
  }

  function InRange(st: State, i: Id, end: Variable, inclusive: bool): bool {
    var x, y := ToU32(Get(st.store, LocalMut(i))), ToU32(Get(st.store, end));
    if inclusive then x <= y else x < y
  }

  ghost function ExecBody(o: Oracle, fuel: nat, body: seq<Stmt>, st: State): Outcome
    decreases fuel, body, 0
  {
    if body == [] then Normal(st)
    else
      match ExecStmt(o, fuel, body[0], st)
      case Normal(st1) => ExecBody(o, fuel, body[1..], st1)
      case other => other
  }

  ghost function ExecStmt(o: Oracle, fuel: nat, s: Stmt, st: State): Outcome
    decreases fuel, s, 0
  {
    match s
    case Operation(inst) => Normal(ExecInstruction({}, o, inst, st))
    case Conditional(cond, scope) =>
      if Get(st.store, cond) != 0 then ExecBody(o, fuel, scope.body, st) else Normal(st)
    case Alternative(cond, scopeIf, scopeElse) =>
      if Get(st.store, cond) != 0 then ExecBody(o, fuel, scopeIf.body, st) else ExecBody(o, fuel, scopeElse.body, st)
    case Selection(value, cases) => ExecCases(o, fuel, ToU32(Get(st.store, value)), cases, st)
    case RangeLoop(i, start, end, step, inclusive, scope) =>
      ExecRange(o, fuel, i, end, step, inclusive, scope.body, ExecInstruction({}, o, Initialize(i, start), st))
    case Forever(scope) => ExecForever(o, fuel, scope.body, st)
    case ReturnStmt => Returned(st)
    case BreakStmt => Broke(st)
  }

  /** The first case whose constant matches, else the default. */
  ghost function ExecCases(o: Oracle, fuel: nat, v: int, cases: Cases, st: State): Outcome
    decreases fuel, cases, 0
  {
    match cases
    case Default(scope) => ExecBody(o, fuel, scope.body, st)
    case Case(constant, scope, rest) =>
      if ToU32(constant) == v then ExecBody(o, fuel, scope.body, st) else ExecCases(o, fuel, v, rest, st)
  }

  ghost function ExecForever(o: Oracle, fuel: nat, body: seq<Stmt>, st: State): Outcome
    decreases fuel, body, 1
  {
    if fuel == 0 then OutOfFuel
    else
      match ExecBody(o, fuel - 1, body, st)
      case Normal(st1) => ExecForever(o, fuel - 1, body, st1)
      case Broke(st1) => Normal(st1)
      case other => other
  }

  ghost function ExecRange(o: Oracle, fuel: nat, i: Id, end: Variable, step: Option<Variable>, inclusive: bool,
                           body: seq<Stmt>, st: State): Outcome
    decreases fuel, body, 1
  {
    if fuel == 0 then OutOfFuel
    else if !InRange(st, i, end, inclusive) then Normal(st)
    else
      match ExecBody(o, fuel - 1, body, st)
      case Normal(st1) => ExecRange(o, fuel - 1, i, end, step, inclusive, body,
          ExecInstruction({}, o, Advance(i, step), st1))
      case Broke(st1) => Normal(st1)
      case other => other
  }

  // ---------------------------------------------------------------------------------------
  // Jumps in kernels
  // ---------------------------------------------------------------------------------------

  predicate IsJump(s: Stmt) {
    s.ReturnStmt? || s.BreakStmt?
  }

  predicate EndsNormally(body: seq<Stmt>) {
    body == [] || !IsJump(body[|body| - 1])
  }

  /** Some case can end normally. */
  predicate CasesEnd(cases: Cases) {
    EndsNormally(cases.scope.body) || (cases.Case? && CasesEnd(cases.rest))
  }

  /** Some case holds a `break` among its instructions. */
  predicate CasesHoldBreak(cases: Cases) {
    BreakStmt in cases.scope.body || (cases.Case? && CasesHoldBreak(cases.rest))
  }

  /** Some case ends with a return. */
  predicate CasesReturn(cases: Cases) {
    || (!EndsNormally(cases.scope.body) && BreakStmt !in cases.scope.body)
    || (cases.Case? && CasesReturn(cases.rest))
  }

  /** The body holds a `break` that leaves the loop around it. */
  predicate BodyBreaks(body: seq<Stmt>)
    decreases body, 1
  {
    body != [] && (StmtBreaks(body[0]) || BodyBreaks(body[1..]))
  }

  predicate StmtBreaks(s: Stmt)
    decreases s, 0
  {
    match s
    case Conditional(_, scope) => BodyBreaks(scope.body)
    case Alternative(_, scopeIf, scopeElse) => BodyBreaks(scopeIf.body) || BodyBreaks(scopeElse.body)
    case Selection(_, cases) => CasesBreak(cases)
    case BreakStmt => true
    case _ => false
  }

  predicate CasesBreak(cases: Cases)
    decreases cases, 0
  {
    match cases
    case Default(scope) => BodyBreaks(scope.body)
    case Case(_, scope, rest) => BodyBreaks(scope.body) || CasesBreak(rest)
  }

  /** Some range loop in the body is left by a `break`. */
  predicate BodyRangeBreaks(body: seq<Stmt>)
    decreases body, 1
  {
    body != [] && (StmtRangeBreaks(body[0]) || BodyRangeBreaks(body[1..]))
  }

  predicate StmtRangeBreaks(s: Stmt)
    decreases s, 0
  {
    match s
    case Conditional(_, scope) => BodyRangeBreaks(scope.body)
    case Alternative(_, scopeIf, scopeElse) => BodyRangeBreaks(scopeIf.body) || BodyRangeBreaks(scopeElse.body)
    case Selection(_, cases) => CasesRangeBreak(cases)
    case RangeLoop(_, _, _, _, _, scope) => BodyBreaks(scope.body) || BodyRangeBreaks(scope.body)
    case Forever(scope) => BodyRangeBreaks(scope.body)
    case _ => false
  }

  predicate CasesRangeBreak(cases: Cases)
    decreases cases, 0
  {
    match cases
    case Default(scope) => BodyRangeBreaks(scope.body)
    case Case(_, scope, rest) => BodyRangeBreaks(scope.body) || CasesRangeBreak(rest)
  }

  /** Some branch in the body is decided by a mutable variable. */
  predicate BodyMutableBranch(body: seq<Stmt>)
    decreases body, 1
  {
    body != [] && (StmtMutableBranch(body[0]) || BodyMutableBranch(body[1..]))
  }

  predicate StmtMutableBranch(s: Stmt)
    decreases s, 0
  {
    match s
    case Conditional(cond, scope) => cond.LocalMut? || BodyMutableBranch(scope.body)
    case Alternative(cond, scopeIf, scopeElse) => cond.LocalMut? || BodyMutableBranch(scopeIf.body) ||
        BodyMutableBranch(scopeElse.body)
    case Selection(value, cases) => value.LocalMut? || CasesMutableBranch(cases)
    case RangeLoop(_, _, _, _, _, scope) => BodyMutableBranch(scope.body)
    case Forever(scope) => BodyMutableBranch(scope.body)
    case _ => false
  }

  predicate CasesMutableBranch(cases: Cases)
    decreases cases, 0
  {
    match cases
    case Default(scope) => BodyMutableBranch(scope.body)
    case Case(_, scope, rest) => BodyMutableBranch(scope.body) || CasesMutableBranch(rest)
  }

  /** Control can reach all of the body: after every branch some way goes on, and loops are both repeated and left. */
  predicate BodyFlows(body: seq<Stmt>)
    decreases body, 1
  {
    body == [] || (StmtFlows(body[0]) && BodyFlows(body[1..]))
  }

  predicate StmtFlows(s: Stmt)
    decreases s, 0
  {
    match s
    case Conditional(_, scope) => BodyFlows(scope.body)
    case Alternative(_, scopeIf, scopeElse) =>
      && BodyFlows(scopeIf.body) && BodyFlows(scopeElse.body)
      && (EndsNormally(scopeIf.body) || EndsNormally(scopeElse.body))
    case Selection(_, cases) => CasesFlow(cases) && CasesEnd(cases)
    case RangeLoop(_, _, _, _, _, scope) => BodyFlows(scope.body)
    case Forever(scope) => BodyFlows(scope.body) && EndsNormally(scope.body) && BodyBreaks(scope.body)
    case _ => true
  }

  predicate CasesFlow(cases: Cases)
    decreases cases, 0
  {
    match cases
    case Default(scope) => BodyFlows(scope.body)
    case Case(_, scope, rest) => BodyFlows(scope.body) && CasesFlow(rest)
  }

  /** The mutable variables that the scopes in a body declare, the indices of its range loops included. */
  function BodyVars(body: seq<Stmt>): set<Id>
    decreases body, 1
  {
    if body == [] then {} else StmtVars(body[0]) + BodyVars(body[1..])
  }

  function StmtVars(s: Stmt): set<Id>
    decreases s, 0
  {
    match s
    case Conditional(_, scope) => scope.vars + BodyVars(scope.body)
    case Alternative(_, scopeIf, scopeElse) =>
      scopeIf.vars + BodyVars(scopeIf.body) + (scopeElse.vars + BodyVars(scopeElse.body))
    case Selection(_, cases) => CasesVars(cases)
    case RangeLoop(i, _, _, _, _, scope) => {i} + (scope.vars + BodyVars(scope.body))
    case Forever(scope) => scope.vars + BodyVars(scope.body)
    case _ => {}
  }

  function CasesVars(cases: Cases): set<Id>
    decreases cases, 0
  {
    match cases
    case Default(scope) => scope.vars + BodyVars(scope.body)
    case Case(_, scope, rest) => scope.vars + BodyVars(scope.body) + CasesVars(rest)
  }

  /** All mutable variables of a kernel. */
  function ScopeVars(scope: Scope): set<Id> {
    scope.vars + BodyVars(scope.body)
  }

  /** What a part of a kernel does, as far as the shape of the graph depends on it, and the variables it declares. */
  datatype Traits = Traits(breaks: bool, rangeBreaks: bool, mutableBranch: bool, flows: bool, vars: set<Id>)

  function BodyTraits(body: seq<Stmt>): Traits {
    Traits(BodyBreaks(body), BodyRangeBreaks(body), BodyMutableBranch(body), BodyFlows(body), BodyVars(body))
  }

  function ScopeTraits(scope: Scope): Traits {
    BodyTraits(scope.body).(vars := ScopeVars(scope))
  }

  function StmtTraits(s: Stmt): Traits {
    Traits(StmtBreaks(s), StmtRangeBreaks(s), StmtMutableBranch(s), StmtFlows(s), StmtVars(s))
  }

  function CasesTraits(cases: Cases): Traits {
    Traits(CasesBreak(cases), CasesRangeBreak(cases), CasesMutableBranch(cases), CasesFlow(cases), CasesVars(cases))
  }
}
