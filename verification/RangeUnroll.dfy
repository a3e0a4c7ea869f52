/**
 Unrolling a range loop: one copy of the body for every index, with the index replaced by its
 value. The unrolled statements and the loop do the same, for every body that leaves the index,
 the end and the step alone and has no `break` of its own.
 */
module RangeUnroll {
  import opened Options
  import opened Arithmetic
  import opened Ir
  import opened Structured

  // ---------------------------------------------------------------------------------------
  // Unrolling
  // ---------------------------------------------------------------------------------------

  function Replace(i: Id, k: int, x: Variable): Variable {
    if x == LocalMut(i) then Constant(k) else x
  }

  function ReplaceAll(i: Id, k: int, xs: seq<Variable>): (r: seq<Variable>)
    ensures |r| == |xs|
    ensures forall j :: 0 <= j < |xs| ==> r[j] == Replace(i, k, xs[j])
  {
    seq(|xs|, j requires 0 <= j < |xs| => Replace(i, k, xs[j]))
  }

  function ReplaceStep(i: Id, k: int, step: Option<Variable>): Option<Variable> {
    if step.Some? then Some(Replace(i, k, step.value)) else None
  }

  /** The body of the loop for the index value `k`. */
  function BodyFor(i: Id, k: int, body: seq<Stmt>): seq<Stmt>
    decreases body, 1
  {
    if body == [] then [] else [StmtFor(i, k, body[0])] + BodyFor(i, k, body[1..])
  }

  function StmtFor(i: Id, k: int, s: Stmt): Stmt
    decreases s, 0
  {
    match s
    case Operation(inst) => Operation(inst.(inputs := ReplaceAll(i, k, inst.inputs)))
    case Conditional(cond, scope) => Conditional(Replace(i, k, cond), Scope(scope.vars, BodyFor(i, k, scope.body)))
    case Alternative(cond, scopeIf, scopeElse) => Alternative(Replace(i, k, cond),
        Scope(scopeIf.vars, BodyFor(i, k, scopeIf.body)), Scope(scopeElse.vars, BodyFor(i, k, scopeElse.body)))
    case Selection(value, cases) => Selection(Replace(i, k, value), CasesFor(i, k, cases))
    case RangeLoop(j, start, end, step, inclusive, scope) =>
      RangeLoop(j, Replace(i, k, start), Replace(i, k, end), ReplaceStep(i, k, step), inclusive,
        Scope(scope.vars, BodyFor(i, k, scope.body)))
    case Forever(scope) => Forever(Scope(scope.vars, BodyFor(i, k, scope.body)))
    case ReturnStmt => s
    case BreakStmt => s
  }

  function CasesFor(i: Id, k: int, cases: Cases): Cases
    decreases cases, 0
  {
    match cases
    case Default(scope) => Default(Scope(scope.vars, BodyFor(i, k, scope.body)))
    case Case(constant, scope, rest) => Case(constant, Scope(scope.vars, BodyFor(i, k, scope.body)),
        CasesFor(i, k, rest))
  }

  function Within(k: nat, end: nat, inclusive: bool): bool {
    if inclusive then k <= end else k < end
  }

  /** The index values from `k` on. */
  function Indices(k: nat, end: nat, step: nat, inclusive: bool): seq<nat>
    requires step > 0
    decreases end + 1 - k
  {
    if !Within(k, end, inclusive) then [] else [k] + Indices(k + step, end, step, inclusive)
  }

  /** They are the arithmetic progression from `k`, as far as it stays within the range. */
  lemma {:induction false} IndicesAre(k: nat, end: nat, step: nat, inclusive: bool, j: nat)
    requires step > 0
    ensures var r := Indices(k, end, step, inclusive);
            && (j < |r| ==> r[j] == k + j * step && if inclusive then r[j] <= end else r[j] < end)
            && if inclusive then k + |r| * step > end else k + |r| * step >= end
    decreases end + 1 - k
  {
    if Within(k, end, inclusive) {
      var rest := Indices(k + step, end, step, inclusive);
      IndicesAre(k + step, end, step, inclusive, if j > 0 then j - 1 else 0);
      assert Indices(k, end, step, inclusive) == [k] + rest;
      assert (|rest| + 1) * step == |rest| * step + step;
      if j > 0 {
        assert j * step == (j - 1) * step + step;
      }
    }
  }

  function Unrolled(i: Id, indices: seq<nat>, body: seq<Stmt>): seq<Stmt> {
    if indices == [] then [] else BodyFor(i, indices[0], body) + Unrolled(i, indices[1..], body)
  }

  lemma {:induction false} UnrolledSnoc(i: Id, indices: seq<nat>, k: nat, body: seq<Stmt>)
    ensures Unrolled(i, indices + [k], body) == Unrolled(i, indices, body) + BodyFor(i, k, body)
  {
    if indices == [] {
      assert indices + [k] == [k] && [k][1..] == [];
      assert Unrolled(i, [k], body) == BodyFor(i, k, body) + Unrolled(i, [], body);
    } else {
      UnrolledSnoc(i, indices[1..], k, body);
      var all := indices + [k];
      assert all[0] == indices[0] && all[1..] == indices[1..] + [k];
      var first, middle, last := BodyFor(i, indices[0], body), Unrolled(i, indices[1..], body), BodyFor(i, k, body);
      assert first + (middle + last) == (first + middle) + last;
    }
  }

  lemma NextIndex(k: nat, end: nat, step: nat, inclusive: bool, done: seq<nat>)
    requires step > 0 && Within(k, end, inclusive)
    ensures done + Indices(k, end, step, inclusive) == (done + [k]) + Indices(k + step, end, step, inclusive)
  {
  }

  /** Registers the copies of the body one by one; a step of zero panics. */
  method RegisterUnrolled(i: Id, start: nat, end: nat, step: Option<nat>, inclusive: bool, body: seq<Stmt>)
    returns (r: Option<seq<Stmt>>)
    ensures r.None? <==> step == Some(0)
    ensures r.Some? ==>
            r.value == Unrolled(i, Indices(start, end, if step.Some? then step.value else 1, inclusive), body)
  {
    if step == Some(0) {
      return None;
    }
    var stride := if step.Some? then step.value else 1;
    var scope: seq<Stmt> := [];
    var k := start;
    ghost var done: seq<nat> := [];
    while Within(k, end, inclusive)
      invariant scope == Unrolled(i, done, body)
      invariant Indices(start, end, stride, inclusive) == done + Indices(k, end, stride, inclusive)
      decreases end + 1 - k
    {
      UnrolledSnoc(i, done, k, body);
      NextIndex(k, end, stride, inclusive, done);
      scope := scope + BodyFor(i, k, body);
      done := done + [k];
      k := k + stride;
    }
    assert Indices(k, end, stride, inclusive) == [] && done + [] == done;
    r := Some(scope);
  }

  // ---------------------------------------------------------------------------------------
  // Bodies that leave a variable alone
  // ---------------------------------------------------------------------------------------

  /** No instruction of the body assigns `x`. */
  predicate LeavesAlone(x: Variable, body: seq<Stmt>)
    decreases body, 1
  {
    body == [] || (StmtLeavesAlone(x, body[0]) && LeavesAlone(x, body[1..]))
  }

  predicate StmtLeavesAlone(x: Variable, s: Stmt)
    decreases s, 0
  {
    match s
    case Operation(inst) => inst.out != Some(x)
    case Conditional(_, scope) => LeavesAlone(x, scope.body)
    case Alternative(_, scopeIf, scopeElse) => LeavesAlone(x, scopeIf.body) && LeavesAlone(x, scopeElse.body)
    case Selection(_, cases) => CasesLeaveAlone(x, cases)
    case RangeLoop(j, _, _, _, _, scope) => LocalMut(j) != x && LeavesAlone(x, scope.body)
    case Forever(scope) => LeavesAlone(x, scope.body)
    case ReturnStmt => true
    case BreakStmt => true
  }

  predicate CasesLeaveAlone(x: Variable, cases: Cases)
    decreases cases, 0
  {
    match cases
    case Default(scope) => LeavesAlone(x, scope.body)
    case Case(_, scope, rest) => LeavesAlone(x, scope.body) && CasesLeaveAlone(x, rest)
  }

  /** The states agree but for the index, which has the value `k` in the first. */
  ghost predicate Beside(i: Id, k: int, st: State, st': State) {
    && st.trace == st'.trace && Get(st.store, LocalMut(i)) == k
    && forall x: Variable :: x != LocalMut(i) ==> Get(st.store, x) == Get(st'.store, x)
  }

  ghost predicate OutcomesBeside(i: Id, k: int, r: Outcome, r': Outcome) {
    match (r, r')
    case (Normal(st), Normal(st')) => Beside(i, k, st, st')
    case (Broke(st), Broke(st')) => Beside(i, k, st, st')
    case (Returned(st), Returned(st')) => Beside(i, k, st, st')
    case (OutOfFuel, OutOfFuel) => true
    case _ => false
  }

  lemma ReadBeside(i: Id, k: int, st: State, st': State, x: Variable)
    requires Beside(i, k, st, st')
    ensures Get(st.store, x) == Get(st'.store, Replace(i, k, x))
  {
  }

  lemma InstructionBeside(o: Oracle, i: Id, k: int, inst: Instruction, st: State, st': State)
    requires Beside(i, k, st, st') && inst.out != Some(LocalMut(i))
    ensures Beside(i, k, ExecInstruction({}, o, inst, st),
            ExecInstruction({}, o, inst.(inputs := ReplaceAll(i, k, inst.inputs)), st'))
  {
    assert Values({}, st.store, inst.inputs) == Values({}, st'.store, ReplaceAll(i, k, inst.inputs)) by {
      forall j | 0 <= j < |inst.inputs|
        ensures Get(st.store, inst.inputs[j]) == Get(st'.store, Replace(i, k, inst.inputs[j]))
      {
        ReadBeside(i, k, st, st', inst.inputs[j]);
      }
    }
  }

  lemma {:induction false} BodyBeside(o: Oracle, fuel: nat, i: Id, k: int, body: seq<Stmt>, st: State, st': State)
    requires Beside(i, k, st, st') && LeavesAlone(LocalMut(i), body)
    ensures OutcomesBeside(i, k, ExecBody(o, fuel, body, st), ExecBody(o, fuel, BodyFor(i, k, body), st'))
    decreases fuel, body, 2
  {
    if body != [] {
      StmtBeside(o, fuel, i, k, body[0], st, st');
      var r, r' := ExecStmt(o, fuel, body[0], st), ExecStmt(o, fuel, StmtFor(i, k, body[0]), st');
      assert BodyFor(i, k, body)[1..] == BodyFor(i, k, body[1..]);
      if r.Normal? {
        BodyBeside(o, fuel, i, k, body[1..], r.st, r'.st);
      }
    }
  }

  lemma {:induction false} StmtBeside(o: Oracle, fuel: nat, i: Id, k: int, s: Stmt, st: State, st': State)
    requires Beside(i, k, st, st') && StmtLeavesAlone(LocalMut(i), s)
    ensures OutcomesBeside(i, k, ExecStmt(o, fuel, s, st), ExecStmt(o, fuel, StmtFor(i, k, s), st'))
    decreases fuel, s, 1
  {
    match s
    case Operation(inst) => InstructionBeside(o, i, k, inst, st, st');
    case Conditional(cond, scope) =>
      ReadBeside(i, k, st, st', cond);
      BodyBeside(o, fuel, i, k, scope.body, st, st');
    case Alternative(cond, scopeIf, scopeElse) =>
      ReadBeside(i, k, st, st', cond);
      BodyBeside(o, fuel, i, k, scopeIf.body, st, st');
      BodyBeside(o, fuel, i, k, scopeElse.body, st, st');
    case Selection(value, cases) =>
      ReadBeside(i, k, st, st', value);
      CasesBeside(o, fuel, i, k, ToU32(Get(st.store, value)), cases, st, st');
    case Forever(scope) => ForeverBeside(o, fuel, i, k, scope.body, st, st');
    case RangeLoop(j, start, end, step, inclusive, scope) =>
      InstructionBeside(o, i, k, Initialize(j, start), st, st');
      assert ReplaceAll(i, k, [start]) == [Replace(i, k, start)];
      var st1, st1' := ExecInstruction({}, o, Initialize(j, start), st), ExecInstruction({}, o,
          Initialize(j, Replace(i, k, start)), st');
      RangeBeside(o, fuel, i, k, j, end, step, inclusive, scope.body, st1, st1');
    case ReturnStmt =>
    case BreakStmt =>
  }

  lemma {:induction false} CasesBeside(o: Oracle, fuel: nat, i: Id, k: int, v: int, cases: Cases, st: State, st': State)
    requires Beside(i, k, st, st') && CasesLeaveAlone(LocalMut(i), cases)
    ensures OutcomesBeside(i, k, ExecCases(o, fuel, v, cases, st), ExecCases(o, fuel, v, CasesFor(i, k, cases), st'))
    decreases fuel, cases, 1
  {
    match cases
    case Default(scope) =>
      BodyBeside(o, fuel, i, k, scope.body, st, st');
    case Case(constant, scope, rest) =>
      BodyBeside(o, fuel, i, k, scope.body, st, st');
      CasesBeside(o, fuel, i, k, v, rest, st, st');
  }

  lemma {:induction false} ForeverBeside(o: Oracle, fuel: nat, i: Id, k: int, body: seq<Stmt>, st: State, st': State)
    requires Beside(i, k, st, st') && LeavesAlone(LocalMut(i), body)
    ensures OutcomesBeside(i, k, ExecForever(o, fuel, body, st), ExecForever(o, fuel, BodyFor(i, k, body), st'))
    decreases fuel, body, 3
  {
    if fuel > 0 {
      BodyBeside(o, fuel - 1, i, k, body, st, st');
      var r, r' := ExecBody(o, fuel - 1, body, st), ExecBody(o, fuel - 1, BodyFor(i, k, body), st');
      if r.Normal? {
        ForeverBeside(o, fuel - 1, i, k, body, r.st, r'.st);
      }
    }
  }

  lemma AdvanceBeside(o: Oracle, i: Id, k: int, j: Id, step: Option<Variable>, st: State, st': State)
    requires Beside(i, k, st, st') && j != i
    ensures Beside(i, k, ExecInstruction({}, o, Advance(j, step), st),
            ExecInstruction({}, o, Advance(j, ReplaceStep(i, k, step)), st'))
  {
    InstructionBeside(o, i, k, Advance(j, step), st, st');
    assert ReplaceAll(i, k, Advance(j, step).inputs) == Advance(j, ReplaceStep(i, k, step)).inputs;
  }

  lemma InRangeBeside(i: Id, k: int, j: Id, end: Variable, inclusive: bool, st: State, st': State)
    requires Beside(i, k, st, st') && j != i
    ensures InRange(st, j, end, inclusive) == InRange(st', j, Replace(i, k, end), inclusive)
  {
    ReadBeside(i, k, st, st', end);
  }

  lemma {:induction false} RangeBeside(o: Oracle, fuel: nat, i: Id, k: int, j: Id, end: Variable,
                                       step: Option<Variable>, inclusive: bool, body: seq<Stmt>, st: State, st': State)
    requires Beside(i, k, st, st') && LeavesAlone(LocalMut(i), body) && j != i
    ensures OutcomesBeside(i, k, ExecRange(o, fuel, j, end, step, inclusive, body, st),
                           ExecRange(o, fuel, j, Replace(i, k, end), ReplaceStep(i, k, step), inclusive,
                             BodyFor(i, k, body), st'))
    decreases fuel, body, 3
  {
    if fuel > 0 {
      InRangeBeside(i, k, j, end, inclusive, st, st');
      BodyBeside(o, fuel - 1, i, k, body, st, st');
      var r, r' := ExecBody(o, fuel - 1, body, st), ExecBody(o, fuel - 1, BodyFor(i, k, body), st');
      if r.Normal? {
        AdvanceBeside(o, i, k, j, step, r.st, r'.st);
        var next, next' := ExecInstruction({}, o, Advance(j, step), r.st), ExecInstruction({}, o,
            Advance(j, ReplaceStep(i, k, step)), r'.st);
        RangeBeside(o, fuel - 1, i, k, j, end, step, inclusive, body, next, next');
      }
    }
  }

  // ---------------------------------------------------------------------------------------
  // Fuel, sequences and breaks
  // ---------------------------------------------------------------------------------------

  lemma {:induction false} MoreFuel(o: Oracle, fuel: nat, more: nat, body: seq<Stmt>, st: State)
    requires fuel <= more && !ExecBody(o, fuel, body, st).OutOfFuel?
    ensures ExecBody(o, more, body, st) == ExecBody(o, fuel, body, st)
    decreases fuel, body, 2
  {
    if body != [] {
      MoreFuelStmt(o, fuel, more, body[0], st);
      var r := ExecStmt(o, fuel, body[0], st);
      if r.Normal? {
        MoreFuel(o, fuel, more, body[1..], r.st);
      }
    }
  }

  lemma {:induction false} MoreFuelStmt(o: Oracle, fuel: nat, more: nat, s: Stmt, st: State)
    requires fuel <= more && !ExecStmt(o, fuel, s, st).OutOfFuel?
    ensures ExecStmt(o, more, s, st) == ExecStmt(o, fuel, s, st)
    decreases fuel, s, 1
  {
    match s
    case Conditional(cond, scope) =>
      if Get(st.store, cond) != 0 {
        MoreFuel(o, fuel, more, scope.body, st);
      }
    case Alternative(cond, scopeIf, scopeElse) =>
      if Get(st.store, cond) != 0 {
        MoreFuel(o, fuel, more, scopeIf.body, st);
      } else {
        MoreFuel(o, fuel, more, scopeElse.body, st);
      }
    case Selection(value, cases) => MoreFuelCases(o, fuel, more, ToU32(Get(st.store, value)), cases, st);
    case Forever(scope) => MoreFuelForever(o, fuel, more, scope.body, st);
    case RangeLoop(j, start, end, step, inclusive, scope) =>
      MoreFuelRange(o, fuel, more, j, end, step, inclusive, scope.body,
        ExecInstruction({}, o, Initialize(j, start), st));
    case _ =>
  }

  lemma {:induction false} MoreFuelCases(o: Oracle, fuel: nat, more: nat, v: int, cases: Cases, st: State)
    requires fuel <= more && !ExecCases(o, fuel, v, cases, st).OutOfFuel?
    ensures ExecCases(o, more, v, cases, st) == ExecCases(o, fuel, v, cases, st)
    decreases fuel, cases, 1
  {
    match cases
    case Default(scope) => MoreFuel(o, fuel, more, scope.body, st);
    case Case(constant, scope, rest) =>
      if ToU32(constant) == v {
        MoreFuel(o, fuel, more, scope.body, st);
      } else {
        MoreFuelCases(o, fuel, more, v, rest, st);
      }
  }

  lemma {:induction false} MoreFuelForever(o: Oracle, fuel: nat, more: nat, body: seq<Stmt>, st: State)
    requires fuel <= more && !ExecForever(o, fuel, body, st).OutOfFuel?
    ensures ExecForever(o, more, body, st) == ExecForever(o, fuel, body, st)
    decreases fuel, body, 3
  {
    MoreFuel(o, fuel - 1, more - 1, body, st);
    var r := ExecBody(o, fuel - 1, body, st);
    if r.Normal? {
      MoreFuelForever(o, fuel - 1, more - 1, body, r.st);
    }
  }

  lemma {:induction false} MoreFuelRange(o: Oracle, fuel: nat, more: nat, j: Id, end: Variable, step: Option<Variable>,
                                         inclusive: bool, body: seq<Stmt>, st: State)
    requires fuel <= more && !ExecRange(o, fuel, j, end, step, inclusive, body, st).OutOfFuel?
    ensures ExecRange(o, more, j, end, step, inclusive, body, st) ==
            ExecRange(o, fuel, j, end, step, inclusive, body, st)
    decreases fuel, body, 3
  {
    if InRange(st, j, end, inclusive) {
      MoreFuel(o, fuel - 1, more - 1, body, st);
      var r := ExecBody(o, fuel - 1, body, st);
      if r.Normal? {
        MoreFuelRange(o, fuel - 1, more - 1, j, end, step, inclusive, body,
          ExecInstruction({}, o, Advance(j, step), r.st));
      }
    }
  }

  lemma {:induction false} ExecConcat(o: Oracle, fuel: nat, a: seq<Stmt>, b: seq<Stmt>, st: State)
    ensures ExecBody(o, fuel, a + b, st) ==
            var r := ExecBody(o, fuel, a, st); if r.Normal? then ExecBody(o, fuel, b, r.st) else r
    decreases a
  {
    if a == [] {
      assert a + b == b;
    } else {
      assert (a + b)[0] == a[0] && (a + b)[1..] == a[1..] + b;
      var r := ExecStmt(o, fuel, a[0], st);
      if r.Normal? {
        ExecConcat(o, fuel, a[1..], b, r.st);
      }
    }
  }

  lemma {:induction false} NoBreak(o: Oracle, fuel: nat, body: seq<Stmt>, st: State)
    requires !BodyBreaks(body)
    ensures !ExecBody(o, fuel, body, st).Broke?
    decreases body, 1
  {
    if body != [] {
      NoBreakStmt(o, fuel, body[0], st);
      var r := ExecStmt(o, fuel, body[0], st);
      if r.Normal? {
        NoBreak(o, fuel, body[1..], r.st);
      }
    }
  }

  lemma {:induction false} NoBreakStmt(o: Oracle, fuel: nat, s: Stmt, st: State)
    requires !StmtBreaks(s)
    ensures !ExecStmt(o, fuel, s, st).Broke?
    decreases s, 0
  {
    match s
    case Conditional(_, scope) => NoBreak(o, fuel, scope.body, st);
    case Alternative(_, scopeIf, scopeElse) =>
      NoBreak(o, fuel, scopeIf.body, st);
      NoBreak(o, fuel, scopeElse.body, st);
    case Selection(value, cases) => NoBreakCases(o, fuel, ToU32(Get(st.store, value)), cases, st);
    case Forever(scope) => NoBreakForever(o, fuel, scope.body, st);
    case RangeLoop(j, start, end, step, inclusive, scope) =>
      NoBreakRange(o, fuel, j, end, step, inclusive, scope.body, ExecInstruction({}, o, Initialize(j, start), st));
    case _ =>
  }

  lemma {:induction false} NoBreakCases(o: Oracle, fuel: nat, v: int, cases: Cases, st: State)
    requires !CasesBreak(cases)
    ensures !ExecCases(o, fuel, v, cases, st).Broke?
    decreases cases, 0
  {
    NoBreak(o, fuel, cases.scope.body, st);
    if cases.Case? {
      NoBreakCases(o, fuel, v, cases.rest, st);
    }
  }

  lemma {:induction false} NoBreakForever(o: Oracle, fuel: nat, body: seq<Stmt>, st: State)
    ensures !ExecForever(o, fuel, body, st).Broke?
    decreases fuel
  {
    if fuel > 0 {
      var r := ExecBody(o, fuel - 1, body, st);
      if r.Normal? {
        NoBreakForever(o, fuel - 1, body, r.st);
      }
    }
  }

  lemma {:induction false} NoBreakRange(o: Oracle, fuel: nat, j: Id, end: Variable, step: Option<Variable>,
                                        inclusive: bool, body: seq<Stmt>, st: State)
    ensures !ExecRange(o, fuel, j, end, step, inclusive, body, st).Broke?
    decreases fuel
  {
    if fuel > 0 {
      var r := ExecBody(o, fuel - 1, body, st);
      if r.Normal? {
        NoBreakRange(o, fuel - 1, j, end, step, inclusive, body, ExecInstruction({}, o, Advance(j, step), r.st));
      }
    }
  }

  // ---------------------------------------------------------------------------------------
  // What is left alone keeps its value
  // ---------------------------------------------------------------------------------------

  ghost predicate OutcomeKeeps(x: Variable, v: int, r: Outcome) {
    r.OutOfFuel? || Get(r.st.store, x) == v
  }

  lemma {:induction false} BodyKeeps(o: Oracle, fuel: nat, x: Variable, body: seq<Stmt>, st: State)
    requires LeavesAlone(x, body)
    ensures OutcomeKeeps(x, Get(st.store, x), ExecBody(o, fuel, body, st))
    decreases fuel, body, 2
  {
    if body != [] {
      StmtKeeps(o, fuel, x, body[0], st);
      var r := ExecStmt(o, fuel, body[0], st);
      if r.Normal? {
        BodyKeeps(o, fuel, x, body[1..], r.st);
      }
    }
  }

  lemma {:induction false} StmtKeeps(o: Oracle, fuel: nat, x: Variable, s: Stmt, st: State)
    requires StmtLeavesAlone(x, s)
    ensures OutcomeKeeps(x, Get(st.store, x), ExecStmt(o, fuel, s, st))
    decreases fuel, s, 1
  {
    match s
    case Conditional(_, scope) => BodyKeeps(o, fuel, x, scope.body, st);
    case Alternative(_, scopeIf, scopeElse) =>
      BodyKeeps(o, fuel, x, scopeIf.body, st);
      BodyKeeps(o, fuel, x, scopeElse.body, st);
    case Selection(value, cases) => CasesKeep(o, fuel, x, ToU32(Get(st.store, value)), cases, st);
    case Forever(scope) => ForeverKeeps(o, fuel, x, scope.body, st);
    case RangeLoop(j, start, end, step, inclusive, scope) =>
      RangeKeeps(o, fuel, x, j, end, step, inclusive, scope.body, ExecInstruction({}, o, Initialize(j, start), st));
    case _ =>
  }

  lemma {:induction false} CasesKeep(o: Oracle, fuel: nat, x: Variable, v: int, cases: Cases, st: State)
    requires CasesLeaveAlone(x, cases)
    ensures OutcomeKeeps(x, Get(st.store, x), ExecCases(o, fuel, v, cases, st))
    decreases fuel, cases, 1
  {
    BodyKeeps(o, fuel, x, cases.scope.body, st);
    if cases.Case? {
      CasesKeep(o, fuel, x, v, cases.rest, st);
    }
  }

  lemma {:induction false} ForeverKeeps(o: Oracle, fuel: nat, x: Variable, body: seq<Stmt>, st: State)
    requires LeavesAlone(x, body)
    ensures OutcomeKeeps(x, Get(st.store, x), ExecForever(o, fuel, body, st))
    decreases fuel, body, 3
  {
    if fuel > 0 {
      BodyKeeps(o, fuel - 1, x, body, st);
      var r := ExecBody(o, fuel - 1, body, st);
      if r.Normal? {
        ForeverKeeps(o, fuel - 1, x, body, r.st);
      }
    }
  }

  lemma {:induction false} RangeKeeps(o: Oracle, fuel: nat, x: Variable, j: Id, end: Variable, step: Option<Variable>,
                                      inclusive: bool, body: seq<Stmt>, st: State)
    requires LeavesAlone(x, body) && LocalMut(j) != x
    ensures OutcomeKeeps(x, Get(st.store, x), ExecRange(o, fuel, j, end, step, inclusive, body, st))
    decreases fuel, body, 3
  {
    if fuel > 0 {
      BodyKeeps(o, fuel - 1, x, body, st);
      var r := ExecBody(o, fuel - 1, body, st);
      if r.Normal? {
        RangeKeeps(o, fuel - 1, x, j, end, step, inclusive, body, ExecInstruction({}, o, Advance(j, step), r.st));
      }
    }
  }

  // ---------------------------------------------------------------------------------------
  // The loop and its unrolled form
  // ---------------------------------------------------------------------------------------

  /** A range loop: its index, its operands, which may be any variables, and its body. */
  datatype Loop = Loop(i: Id, start: Variable, end: Variable, step: Option<Variable>, inclusive: bool, scope: Scope) {
    function Body(): seq<Stmt> {
      scope.body
    }

    function Statement(): Stmt {
      RangeLoop(i, start, end, step, inclusive, scope)
    }

    /** The body leaves the index and the operands the loop reads again alone, and has no `break` of its own. */
    predicate Proper() {
      && LeavesAlone(LocalMut(i), Body()) && !BodyBreaks(Body())
      && StaysPut(end) && (step.Some? ==> StaysPut(step.value))
    }

    predicate StaysPut(x: Variable) {
      x != LocalMut(i) && LeavesAlone(x, Body())
    }

    function From(w: Bounds, k: nat): seq<nat>
      requires w.stride > 0
    {
      Indices(k, w.end, w.stride, inclusive)
    }

    /** The value after the last index still fits a 32-bit word. */
    predicate Fits(w: Bounds, k: nat)
      requires w.stride > 0
    {
      k + |From(w, k)| * w.stride < WORD
    }

    ghost function Exec(o: Oracle, fuel: nat, st: State): Outcome {
      ExecRange(o, fuel, i, end, step, inclusive, Body(), st)
    }

    ghost function Next(o: Oracle, st: State): State {
      ExecInstruction({}, o, Advance(i, step), st)
    }

    /** The loop after a round of its body. */
    ghost function AfterBody(o: Oracle, fuel: nat, r: Outcome): Outcome {
      match r
      case Normal(st) => Exec(o, fuel, Next(o, st))
      case Broke(st) => Normal(st)
      case other => other
    }

    function UnrolledFrom(w: Bounds, k: nat): seq<Stmt>
      requires w.stride > 0
    {
      Unrolled(i, From(w, k), Body())
    }

    ghost function ExecUnrolled(o: Oracle, fuel: nat, w: Bounds, k: nat, st: State): Outcome
      requires w.stride > 0
    {
      ExecBody(o, fuel, UnrolledFrom(w, k), st)
    }
  }

  /** The values of the end and the step. */
  datatype Bounds = Bounds(end: nat, stride: nat)

  /** The operands have these values in `st`. */
  ghost predicate HasBounds(l: Loop, w: Bounds, st: State) {
    && w.stride > 0 && ToU32(Get(st.store, l.end)) == w.end
    && w.stride == if l.step.Some? then ToU32(Get(st.store, l.step.value)) else 1
  }

  /** The loop stands before the index value `k`, and its unrolled form before the copy for it. */
  ghost predicate Before(l: Loop, w: Bounds, k: nat, st: State, st': State) {
    l.Proper() && HasBounds(l, w, st) && l.Fits(w, k) && k < WORD && Beside(l.i, k, st, st')
  }

  ghost predicate SameEnd(i: Id, r: Outcome, r': Outcome) {
    exists k: int :: OutcomesBeside(i, k, r, r')
  }

  lemma FitsNext(l: Loop, w: Bounds, k: nat)
    requires w.stride > 0 && l.Fits(w, k) && Within(k, w.end, l.inclusive)
    ensures l.From(w, k) == [k] + l.From(w, k + w.stride) && l.Fits(w, k + w.stride) && k + w.stride < WORD
  {
    var rest := l.From(w, k + w.stride);
    assert (|rest| + 1) * w.stride == |rest| * w.stride + w.stride;
    assert |rest| * w.stride >= 0;
  }

  lemma UnrolledHead(l: Loop, o: Oracle, fuel: nat, w: Bounds, k: nat, st: State)
    requires w.stride > 0 && l.Fits(w, k) && Within(k, w.end, l.inclusive)
    ensures l.ExecUnrolled(o, fuel, w, k, st) ==
            var r := ExecBody(o, fuel, BodyFor(l.i, k, l.Body()), st);
            if r.Normal? then l.ExecUnrolled(o, fuel, w, k + w.stride, r.st) else r
  {
    FitsNext(l, w, k);
    assert l.From(w, k)[1..] == l.From(w, k + w.stride);
    ExecConcat(o, fuel, BodyFor(l.i, k, l.Body()), l.UnrolledFrom(w, k + w.stride), st);
  }

  /** One round of the loop. */
  lemma LoopHead(l: Loop, o: Oracle, fuel: nat, w: Bounds, k: nat, st: State)
    requires HasBounds(l, w, st) && k < WORD && Get(st.store, LocalMut(l.i)) == k
    ensures l.Exec(o, fuel + 1, st) ==
            if Within(k, w.end, l.inclusive) then l.AfterBody(o, fuel, ExecBody(o, fuel, l.Body(), st)) else Normal(st)
  {
    assert InRange(st, l.i, l.end, l.inclusive) == Within(k, w.end, l.inclusive);
  }

  lemma AddWord(k: nat, x: int)
    requires k + ToU32(x) < WORD
    ensures ToU32(k + x) == k + ToU32(x)
  {
  }

  /** After a round that ended normally, the advance leads to the next index, with the same bounds. */
  lemma AdvanceIndex(l: Loop, o: Oracle, fuel: nat, w: Bounds, k: nat, before: State, st: State, st': State)
    requires l.Proper() && HasBounds(l, w, before) && l.Fits(w, k) && Within(k, w.end, l.inclusive)
    requires ExecBody(o, fuel, l.Body(), before) == Normal(st) && Beside(l.i, k, st, st')
    ensures Before(l, w, k + w.stride, l.Next(o, st), st')
  {
    FitsNext(l, w, k);
    BodyKeeps(o, fuel, l.end, l.Body(), before);
    if l.step.Some? {
      BodyKeeps(o, fuel, l.step.value, l.Body(), before);
    }
    var advance := Advance(l.i, l.step);
    assert Values({}, st.store, advance.inputs) == [k, Get(st.store, StepOf(l.step))];
    AddWord(k, Get(st.store, StepOf(l.step)));
    assert l.StaysPut(l.end) && (l.step.Some? ==> l.StaysPut(l.step.value));
  }

  /** A round of the loop with `fuel` and of the unrolled form with no less. */
  lemma RoundsMatch(l: Loop, o: Oracle, fuel: nat, more: nat, w: Bounds, k: nat, st: State, st': State)
    requires Before(l, w, k, st, st') && Within(k, w.end, l.inclusive)
    requires fuel <= more && !ExecBody(o, fuel, l.Body(), st).OutOfFuel?
    ensures var r, r' := ExecBody(o, fuel, l.Body(), st), ExecBody(o, more, BodyFor(l.i, k, l.Body()), st');
            && OutcomesBeside(l.i, k, r, r') && !r.Broke?
            && l.ExecUnrolled(o, more, w, k, st') ==
               if r'.Normal? then l.ExecUnrolled(o, more, w, k + w.stride, r'.st) else r'
  {
    BodyBeside(o, fuel, l.i, k, l.Body(), st, st');
    NoBreak(o, fuel, l.Body(), st);
    MoreFuel(o, fuel, more, BodyFor(l.i, k, l.Body()), st');
    UnrolledHead(l, o, more, w, k, st');
  }

  /** Once the loop has ended, its unrolled form has ended as well, in the same way. */
  lemma {:induction false} LoopThenUnrolled(l: Loop, o: Oracle, fuel: nat, w: Bounds, k: nat, st: State, st': State)
    requires Before(l, w, k, st, st') && !l.Exec(o, fuel, st).OutOfFuel?
    ensures SameEnd(l.i, l.Exec(o, fuel, st), l.ExecUnrolled(o, fuel, w, k, st'))
    decreases fuel
  {
    LoopHead(l, o, fuel - 1, w, k, st);
    if !Within(k, w.end, l.inclusive) {
      assert OutcomesBeside(l.i, k, l.Exec(o, fuel, st), l.ExecUnrolled(o, fuel, w, k, st'));
    } else {
      var r, r' := ExecBody(o, fuel - 1, l.Body(), st), ExecBody(o, fuel, BodyFor(l.i, k, l.Body()), st');
      RoundsMatch(l, o, fuel - 1, fuel, w, k, st, st');
      if r.Normal? {
        AdvanceIndex(l, o, fuel - 1, w, k, st, r.st, r'.st);
        LoopThenUnrolled(l, o, fuel - 1, w, k + w.stride, l.Next(o, r.st), r'.st);
        MoreFuel(o, fuel - 1, fuel, l.UnrolledFrom(w, k + w.stride), r'.st);
      } else {
        assert OutcomesBeside(l.i, k, r, r');
      }
    }
  }

  /** A round of the unrolled form with `fuel` and of the loop with no less. */
  lemma RoundsMatchBack(l: Loop, o: Oracle, fuel: nat, more: nat, w: Bounds, k: nat, st: State, st': State)
    requires Before(l, w, k, st, st') && Within(k, w.end, l.inclusive)
    requires fuel <= more && !l.ExecUnrolled(o, fuel, w, k, st').OutOfFuel?
    ensures var r, r' := ExecBody(o, more, l.Body(), st), ExecBody(o, fuel, BodyFor(l.i, k, l.Body()), st');
            && OutcomesBeside(l.i, k, r, r') && !r.Broke?
            && l.ExecUnrolled(o, fuel, w, k, st') ==
               if r'.Normal? then l.ExecUnrolled(o, fuel, w, k + w.stride, r'.st) else r'
  {
    UnrolledHead(l, o, fuel, w, k, st');
    MoreFuel(o, fuel, more, BodyFor(l.i, k, l.Body()), st');
    BodyBeside(o, more, l.i, k, l.Body(), st, st');
    NoBreak(o, more, l.Body(), st);
  }

  /** And the other way around, with one more unit of fuel for each round and one for the last test. */
  lemma {:induction false} UnrolledThenLoop(l: Loop, o: Oracle, fuel: nat, w: Bounds, k: nat, st: State, st': State)
    requires Before(l, w, k, st, st') && !l.ExecUnrolled(o, fuel, w, k, st').OutOfFuel?
    ensures SameEnd(l.i, l.Exec(o, fuel + |l.From(w, k)| + 1, st), l.ExecUnrolled(o, fuel, w, k, st'))
    decreases |l.From(w, k)|
  {
    var all := fuel + |l.From(w, k)|;
    LoopHead(l, o, all, w, k, st);
    if !Within(k, w.end, l.inclusive) {
      assert OutcomesBeside(l.i, k, l.Exec(o, all + 1, st), l.ExecUnrolled(o, fuel, w, k, st'));
    } else {
      var r, r' := ExecBody(o, all, l.Body(), st), ExecBody(o, fuel, BodyFor(l.i, k, l.Body()), st');
      RoundsMatchBack(l, o, fuel, all, w, k, st, st');
      if r.Normal? {
        FitsNext(l, w, k);
        AdvanceIndex(l, o, all, w, k, st, r.st, r'.st);
        UnrolledThenLoop(l, o, fuel, w, k + w.stride, l.Next(o, r.st), r'.st);
      } else {
        assert OutcomesBeside(l.i, k, r, r');
      }
    }
  }

  /** On entry the operands have the values `s`, `w.end` and `w.stride`, and the indices fit 32-bit words. */
  ghost predicate Enters(l: Loop, s: nat, w: Bounds, st: State) {
    l.Proper() && Get(st.store, l.start) == s < WORD && HasBounds(l, w, st) && l.Fits(w, s)
  }

  /** The range loop statement and its unrolled form end together and alike, but for the index variable. */
  lemma UnrollingPreservesMeaning(l: Loop, s: nat, w: Bounds, o: Oracle, fuel: nat, st: State)
    requires Enters(l, s, w, st)
    ensures !ExecStmt(o, fuel, l.Statement(), st).OutOfFuel? ==>
              SameEnd(l.i, ExecStmt(o, fuel, l.Statement(), st), l.ExecUnrolled(o, fuel, w, s, st))
    ensures !l.ExecUnrolled(o, fuel, w, s, st).OutOfFuel? ==>
              SameEnd(l.i, ExecStmt(o, fuel + |l.From(w, s)| + 1, l.Statement(), st), l.ExecUnrolled(o, fuel, w, s, st))
  {
    var st1 := ExecInstruction({}, o, Initialize(l.i, l.start), st);
    assert Values({}, st.store, [l.start]) == [s];
    assert Beside(l.i, s, st1, st) && l.StaysPut(l.end) && (l.step.Some? ==> l.StaysPut(l.step.value));
    assert Before(l, w, s, st1, st);
    if !l.Exec(o, fuel, st1).OutOfFuel? {
      LoopThenUnrolled(l, o, fuel, w, s, st1, st);
    }
    if !l.ExecUnrolled(o, fuel, w, s, st).OutOfFuel? {
      UnrolledThenLoop(l, o, fuel, w, s, st1, st);
    }
  }
}
