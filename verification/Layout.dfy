/**
 Where the pieces of a structured program sit in a control flow graph, and the proof that a graph
 in which a program is laid out runs like the program.
 */
module Layout {
  import opened Options
  import opened Arithmetic
  import opened Ir
  import opened Structured

  /** A place in the graph: a block and how many of its instructions have been executed. */
  type Point = (Node, nat)

  /** Where one statement sits; `to` is where control goes on after it. */
  datatype StmtLayout =
    | InlineAt(to: Option<Point>)
    | JumpAt(to: Option<Point>, target: Node)
    | IfAt(to: Option<Point>, then_: Node, next: Node, inner: ScopeLayout, merge: Option<Node>)
    | IfElseAt(to: Option<Point>, then_: Node, orElse: Node, next: Node, innerIf: ScopeLayout, innerElse: ScopeLayout,
               merge: Option<Node>)
    | SwitchAt(to: Option<Point>, next: Node, cases: CasesLayout, merge: Option<Node>)
    | LoopAt(to: Option<Point>, header: Node, body: Node, next: Node, continueTarget: Node, inner: ScopeLayout)
    | RangeAt(to: Option<Point>, header: Node, body: Node, next: Node, continueTarget: Node, tmp: Id,
      inner: ScopeLayout)

  datatype ScopeLayout = ScopeLayout(items: seq<StmtLayout>, exit: Option<Point>)

  datatype CasesLayout = DefaultAt(node: Node,
                                   inner: ScopeLayout) | CaseAt(node: Node, inner: ScopeLayout, rest: CasesLayout)

  /**
   The program so far, the blocks that may still change, the chain of return blocks, and along how
   many edges some blocks may be entered; `clean` says that no `break` leaves a range loop, `quiet`
   that no branch is decided by a mutable variable, `flows` that control can reach all of the kernel;
   `declared` are the mutable variables of the kernel.
   */
  datatype Context = Context(p: Program, open: set<Node>, rets: seq<Node>, limit: map<Node, nat>,
                             clean: bool, quiet: bool, flows: bool, declared: set<Id>)

  ghost function LimitOf(c: Context, b: Node): Option<nat> {
    if b in c.limit then Some(c.limit[b]) else None
  }

  /** Any number of edges may lead to the block. */
  ghost predicate Free(c: Context, b: Node) {
    LimitOf(c, b) == None
  }

  /** Nothing may ever lead to the block. */
  ghost predicate Barred(c: Context, b: Node) {
    b < |c.p.blocks| && b != c.p.root && LimitOf(c, b) == Some(0)
  }

  ghost predicate Finished(c: Context, b: Node) {
    b < |c.p.blocks| && b !in c.open
  }

  /** The finished block of `at` ends there and goes on to `t`. */
  ghost predicate FallsTo(c: Context, at: Point, t: Node) {
    && Finished(c, at.0) && |c.p.blocks[at.0].ops| == at.1 && c.p.blocks[at.0].flow == Fallthrough
    && Successors(c.p, at.0) == {t}
  }

  /** The finished block of `at` ends there with the terminator `flow`. */
  ghost predicate EndsWith(c: Context, at: Point, flow: ControlFlow) {
    && Finished(c, at.0) && |c.p.blocks[at.0].ops| == at.1 && c.p.blocks[at.0].flow == flow
    && Successors(c.p, at.0) == Targets(flow)
  }

  ghost predicate HasInstruction(c: Context, at: Point, inst: Instruction) {
    at.0 < |c.p.blocks| && at.1 < |c.p.blocks[at.0].ops| && c.p.blocks[at.0].ops[at.1] == inst
  }

  /** Return blocks are empty; the first returns and each other one leads to the one before it. */
  ghost predicate ReturnLink(c: Context, i: nat) {
    i < |c.rets| ==>
      && Finished(c, c.rets[i]) && c.p.blocks[c.rets[i]].ops == []
      && if i == 0 then c.p.blocks[c.rets[i]].flow == Return else FallsTo(c, (c.rets[i], 0), c.rets[i - 1])
  }

  ghost predicate ReturnChain(c: Context) {
    forall i: nat {:trigger ReturnLink(c, i)} :: ReturnLink(c, i)
  }

  function Branches(cases: Cases, l: CasesLayout): seq<(int, Node)> {
    if cases.Case? && l.CaseAt? then [(ToU32(cases.constant), l.node)] + Branches(cases.rest, l.rest) else []
  }

  function DefaultNode(l: CasesLayout): Node {
    match l
    case DefaultAt(node, _) => node
    case CaseAt(_, _, rest) => DefaultNode(rest)
  }

  // ---------------------------------------------------------------------------------------
  // Layouts
  // ---------------------------------------------------------------------------------------

  ghost predicate LaidBody(c: Context, brk: Option<Node>, body: seq<Stmt>, items: seq<StmtLayout>, from: Point,
                           exit: Option<Point>)
    decreases body, 1
  {
    if body == [] then items == [] && exit == Some(from)
    else
      && items != [] && LaidStmt(c, brk, body[0], items[0], from)
      && match items[0].to
         case Some(at) => LaidBody(c, brk, body[1..], items[1..], at, exit)
         case None => body[1..] == [] && items[1..] == [] && exit == None
  }

  ghost predicate LaidScope(c: Context, brk: Option<Node>, scope: Scope, l: ScopeLayout, start: Node)
    decreases scope, 1
  {
    scope.vars <= c.p.variables && LaidBody(c, brk, scope.body, l.items, (start, 0), l.exit)
  }

  /** The block has a phi for the variable, as the parser inserts it. */
  ghost predicate HasIndexPhi(c: Context, b: Node, i: Id) {
    b < |c.p.blocks| && exists k :: 0 <= k < |c.p.blocks[b].phis| && c.p.blocks[b].phis[k].out == Versioned(i, 0)
  }

  ghost predicate ExitsTo(c: Context, exit: Option<Point>, t: Node) {
    exit.Some? ==> FallsTo(c, exit.value, t)
  }

  ghost predicate HasUse(c: Context, b: Node, use: BlockUse) {
    b < |c.p.blocks| && use in c.p.blocks[b].blockUse
  }

  /** Where the ways of a branch meet again: nowhere after a `break`, in a return block after a return. */
  ghost predicate MergeIs(c: Context, merge: Option<Node>, next: Node, breaks: bool, stops: bool) {
    if breaks then merge == None
    else if stops then merge.Some? && merge.value in c.rets
    else merge == Some(next)
  }

  ghost predicate MergeMarked(c: Context, merge: Option<Node>) {
    merge.Some? ==> HasUse(c, merge.value, Merge)
  }

  ghost predicate LaidStmt(c: Context, brk: Option<Node>, s: Stmt, l: StmtLayout, from: Point)
    decreases s, 0
  {
    match s
    case Operation(inst) => l.InlineAt? && HasInstruction(c, from, inst) && l.to == Some((from.0, from.1 + 1))
    case Conditional(cond, scope) =>
      && l.IfAt? && l.to == Some((l.next, 0))
      && EndsWith(c, from, IfElse(cond, l.then_, l.next))
      && LaidScope(c, brk, scope, l.inner, l.then_) && ExitsTo(c, l.inner.exit, l.next)
      && MergeIs(c, l.merge, l.next, BreakStmt in scope.body, !EndsNormally(scope.body)) && MergeMarked(c, l.merge)
    case Alternative(cond, scopeIf, scopeElse) =>
      && l.IfElseAt? && l.to == Some((l.next, 0))
      && EndsWith(c, from, IfElse(cond, l.then_, l.orElse))
      && LaidScope(c, brk, scopeIf, l.innerIf, l.then_) && ExitsTo(c, l.innerIf.exit, l.next)
      && LaidScope(c, brk, scopeElse, l.innerElse, l.orElse) && ExitsTo(c, l.innerElse.exit, l.next)
      && (!EndsNormally(scopeIf.body) && !EndsNormally(scopeElse.body) ==> Barred(c, l.next))
      && MergeIs(c, l.merge, l.next, BreakStmt in scopeIf.body || BreakStmt in scopeElse.body,
                 !EndsNormally(scopeIf.body) || !EndsNormally(scopeElse.body))
      && MergeMarked(c, l.merge)
    case Selection(value, cases) =>
      && l.SwitchAt? && l.to == Some((l.next, 0))
      && EndsWith(c, from, Switch(value, DefaultNode(l.cases), Branches(cases, l.cases)))
      && LaidCases(c, brk, cases, l.cases, l.next) && (!CasesEnd(cases) ==> Barred(c, l.next))
      && MergeIs(c, l.merge, l.next, CasesHoldBreak(cases), CasesReturn(cases))
      && (!CasesHoldBreak(cases) && !CasesReturn(cases) ==> HasUse(c, l.next, Merge))
    case Forever(scope) =>
      && l.LoopAt? && l.to == Some((l.next, 0))
      && FallsTo(c, from, l.header) && EndsWith(c, (l.header, 0), Loop(l.body))
      && LaidScope(c, Some(l.next), scope, l.inner, l.body)
      && ExitsTo(c, l.inner.exit, l.continueTarget) && FallsTo(c, (l.continueTarget, 0), l.header)
      && (!EndsNormally(scope.body) ==> Barred(c, l.continueTarget)) && (!BodyBreaks(scope.body) ==> Barred(c, l.next))
      && HasUse(c, l.continueTarget, ContinueTarget) && HasUse(c, l.next, Merge)
    case RangeLoop(i, start, end, step, inclusive, scope) =>
      && l.RangeAt? && l.to == Some((l.next, 0)) && i in c.p.variables && HasIndexPhi(c, l.header, i)
      && HasInstruction(c, from, Initialize(i, start)) && FallsTo(c, (from.0, from.1 + 1), l.header)
      && HasInstruction(c, (l.header, 0), Comparison(i, end, inclusive, LocalConst(l.tmp)))
      && EndsWith(c, (l.header, 1), LoopBreak(LocalConst(l.tmp), l.body, l.next)) && l.body != l.next
      && LaidScope(c, Some(l.next), scope, l.inner, l.body)
      && l.inner.exit.Some? && HasInstruction(c, l.inner.exit.value, Advance(i, step))
      && LoopsBack(c, (l.inner.exit.value.0, l.inner.exit.value.1 + 1), l.continueTarget, l.header)
      && HasUse(c, l.continueTarget, ContinueTarget) && HasUse(c, l.next, Merge)
    case ReturnStmt => l.JumpAt? && l.to == None && l.target in c.rets && FallsTo(c, from, l.target)
    case BreakStmt => l.JumpAt? && l.to == None && brk == Some(l.target) && FallsTo(c, from, l.target)
  }

  /** The end of a loop body leads back to the header, directly or through an empty block. */
  ghost predicate LoopsBack(c: Context, at: Point, continueTarget: Node, header: Node) {
    if continueTarget == at.0 then FallsTo(c, at, header)
    else FallsTo(c, at, continueTarget) && FallsTo(c, (continueTarget, 0), header)
  }

  ghost predicate LaidCases(c: Context, brk: Option<Node>, cases: Cases, l: CasesLayout, next: Node)
    decreases cases, 0
  {
    match cases
    case Default(scope) => l.DefaultAt? && LaidScope(c, brk, scope, l.inner, l.node) && ExitsTo(c, l.inner.exit, next)
    case Case(_, scope, rest) =>
      && l.CaseAt? && LaidScope(c, brk, scope, l.inner, l.node) && ExitsTo(c, l.inner.exit, next)
      && LaidCases(c, brk, rest, l.rest, next)
  }

  // ---------------------------------------------------------------------------------------
  // Programs the parser accepts
  // ---------------------------------------------------------------------------------------

  /** An operand a kernel may mention: ids from `base` on are left to the parser. */
  predicate ProperVar(base: nat, x: Variable) {
    !x.Versioned? && (x.LocalConst? ==> x.id < base)
  }

  predicate ProperInstruction(base: nat, inst: Instruction) {
    (forall x :: x in inst.inputs ==> ProperVar(base, x)) && (inst.out.Some? ==> ProperVar(base, inst.out.value))
  }

  /** Nothing follows a jump in its scope, breaks stand in loops, and a range loop's body can end normally. */
  predicate ProperBody(base: nat, body: seq<Stmt>, inLoop: bool)
    decreases body, 1
  {
    body == [] || (ProperStmt(base, body[0], inLoop) && (IsJump(body[0]) ==> body[1..] == []) &&
      ProperBody(base, body[1..], inLoop))
  }

  predicate ProperStmt(base: nat, s: Stmt, inLoop: bool)
    decreases s, 0
  {
    match s
    case Operation(inst) => ProperInstruction(base, inst)
    case Conditional(cond, scope) => ProperVar(base, cond) && ProperBody(base, scope.body, inLoop)
    case Alternative(cond, scopeIf, scopeElse) =>
      ProperVar(base, cond) && ProperBody(base, scopeIf.body, inLoop) && ProperBody(base, scopeElse.body, inLoop)
    case Selection(value, cases) => ProperVar(base, value) && ProperCases(base, cases, inLoop)
    case RangeLoop(i, start, end, step, _, scope) =>
      && ProperVar(base, start) && ProperVar(base, end) && ProperVar(base, StepOf(step))
      && ProperBody(base, scope.body, true) && EndsNormally(scope.body)
    case Forever(scope) => ProperBody(base, scope.body, true)
    case ReturnStmt => true
    case BreakStmt => inLoop
  }

  predicate ProperCases(base: nat, cases: Cases, inLoop: bool)
    decreases cases, 0
  {
    match cases
    case Default(scope) => ProperBody(base, scope.body, inLoop)
    case Case(_, scope, rest) => ProperBody(base, scope.body, inLoop) && ProperCases(base, rest, inLoop)
  }

  // ---------------------------------------------------------------------------------------
  // Running a layout
  // ---------------------------------------------------------------------------------------

  ghost predicate SameValue(base: nat, st: State, st': State, x: Variable) {
    !(x.LocalConst? && x.id >= base) ==> Get(st.store, x) == Get(st'.store, x)
  }

  /** Equal but for the temporaries of the parser. */
  ghost predicate Similar(base: nat, st: State, st': State) {
    st.trace == st'.trace && forall x: Variable {:trigger SameValue(base, st, st', x)} :: SameValue(base, st, st', x)
  }

  lemma SimilarRead(vars: set<Id>, base: nat, st: State, st': State, x: Variable)
    requires Similar(base, st, st') && ProperVar(base, x)
    ensures Get(st.store, x) == Get(st'.store, x) && Canon(vars, x) == x
  {
    assert SameValue(base, st, st', x);
  }

  lemma SimilarInstruction(vars: set<Id>, base: nat, o: Oracle, inst: Instruction, st: State, st': State)
    requires ProperInstruction(base, inst) && Similar(base, st, st')
    ensures Similar(base, ExecInstruction({}, o, inst, st), ExecInstruction(vars, o, inst, st'))
  {
    assert Values({}, st.store, inst.inputs) == Values(vars, st'.store, inst.inputs) by {
      forall i | 0 <= i < |inst.inputs|
        ensures Get(st.store, Canon({}, inst.inputs[i])) == Get(st'.store, Canon(vars, inst.inputs[i]))
      {
        assert inst.inputs[i] in inst.inputs;
        SimilarRead(vars, base, st, st', inst.inputs[i]);
      }
    }
    var r, r' := ExecInstruction({}, o, inst, st), ExecInstruction(vars, o, inst, st');
    forall x: Variable
      ensures SameValue(base, r, r', x)
    {
      assert SameValue(base, st, st', x);
    }
  }

  /** Having taken at least `steps` steps, the machine is where `out` says it should be. */
  ghost predicate Arrives(base: nat, brk: Option<Node>, end: Config, out: Outcome, to: Option<Point>, steps: nat,
                          fuel: nat) {
    match out
    case Normal(st) => to.Some? && end.At? && end.node == to.value.0 && end.pc == to.value.1 &&
        Similar(base, st, end.st)
    case Broke(st) => brk.Some? && end.At? && end.node == brk.value && end.pc == 0 && Similar(base, st, end.st)
    case Returned(st) => end.Halted? && Similar(base, st, end.st)
    case OutOfFuel => end.At? && steps >= fuel
  }

  ghost function StateAt(at: Point, st: State): Config {
    At(at.0, at.1, st)
  }

  /** A context in which layouts can be run. */
  ghost predicate Runnable(c: Context) {
    TrivialPhis(c.p) && ValidGraph(c.p) && ReturnChain(c)
  }

  lemma EnterUnchanged(c: Context, s: Node, t: Node, st: State)
    requires TrivialPhis(c.p) && t < |c.p.blocks|
    ensures Enter(c.p, s, t, st) == At(t, 0, st)
  {
    TrivialPhisAreNoOps(c.p.variables, c.p.blocks[t].phis, s, st.store);
  }

  lemma StepFall(c: Context, o: Oracle, at: Point, t: Node, st: State)
    requires Runnable(c) && FallsTo(c, at, t)
    ensures Leads(c.p, o, StateAt(at, st), 1, At(t, 0, st))
  {
    assert t in Successors(c.p, at.0);
    EnterUnchanged(c, at.0, t, st);
    LeadsStep(c.p, o, StateAt(at, st));
  }

  lemma StepBranch(c: Context, o: Oracle, at: Point, flow: ControlFlow, st: State, t: Node)
    requires Runnable(c) && EndsWith(c, at, flow) && t in Targets(flow)
    requires NextNode(c.p, at.0, st) == Goto(t)
    ensures Leads(c.p, o, StateAt(at, st), 1, At(t, 0, st))
  {
    assert t in Successors(c.p, at.0);
    EnterUnchanged(c, at.0, t, st);
    LeadsStep(c.p, o, StateAt(at, st));
  }

  lemma StepInline(c: Context, o: Oracle, at: Point, inst: Instruction, st: State)
    requires HasInstruction(c, at, inst)
    ensures Leads(c.p, o, StateAt(at, st), 1, At(at.0, at.1 + 1, ExecInstruction(c.p.variables, o, inst, st)))
  {
    LeadsStep(c.p, o, StateAt(at, st));
  }

  /** From any block of the return chain the machine halts without changing the state. */
  lemma {:induction false} ReturnHalts(c: Context, o: Oracle, i: nat, st: State)
    requires Runnable(c) && i < |c.rets|
    ensures Leads(c.p, o, At(c.rets[i], 0, st), i + 1, Halted(st))
  {
    assert ReturnLink(c, i);
    if i > 0 {
      StepFall(c, o, (c.rets[i], 0), c.rets[i - 1], st);
      ReturnHalts(c, o, i - 1, st);
      LeadsTrans(c.p, o, At(c.rets[i], 0, st), 1, At(c.rets[i - 1], 0, st), i, Halted(st));
    } else {
      LeadsStep(c.p, o, At(c.rets[i], 0, st));
    }
  }

  /** A scope that ends normally goes on to `t`; every other outcome stays as it is. */
  lemma LeaveScope(c: Context, o: Oracle, base: nat, brk: Option<Node>, start: Config, n: nat, mid: Config,
                   out: Outcome, exit: Option<Point>, t: Node, fuel: nat)
    returns (m: nat, end: Config)
    requires Runnable(c) && ExitsTo(c, exit, t) && Leads(c.p, o, start, n, mid)
    requires Arrives(base, brk, mid, out, exit, n, fuel)
    ensures Leads(c.p, o, start, m, end) && Arrives(base, brk, end, out, Some((t, 0)), m, fuel) && m >= n
  {
    m, end := n, mid;
    if out.Normal? {
      StepFall(c, o, exit.value, t, mid.st);
      m, end := n + 1, At(t, 0, mid.st);
      LeadsTrans(c.p, o, start, n, mid, 1, end);
    }
  }

  lemma RunsBody(c: Context, o: Oracle, base: nat, brk: Option<Node>, fuel: nat, body: seq<Stmt>,
                 items: seq<StmtLayout>, from: Point,
                 exit: Option<Point>, inLoop: bool, st: State, st': State) returns (n: nat, end: Config)
    requires Runnable(c) && LaidBody(c, brk, body, items, from, exit) && ProperBody(base, body, inLoop)
    requires (inLoop ==> brk.Some?)
    requires Similar(base, st, st') && TmpsFresh(base, items)
    ensures Leads(c.p, o, StateAt(from, st'), n, end)
    ensures Arrives(base, brk, end, ExecBody(o, fuel, body, st), exit, n, fuel)
    decreases fuel, body, 0
  {
    if body == [] {
      n, end := 0, StateAt(from, st');
      LeadsStep(c.p, o, end);
    } else {
      var l := items[0];
      n, end := RunsStmt(c, o, base, brk, fuel, body[0], l, from, inLoop, st, st');
      var out := ExecStmt(o, fuel, body[0], st);
      if out.Normal? {
        var mid := end;
        var m;
        m, end := RunsBody(c, o, base, brk, fuel, body[1..], items[1..], l.to.value, exit, inLoop, out.st, mid.st);
        LeadsTrans(c.p, o, StateAt(from, st'), n, mid, m, end);
        n := n + m;
      }
    }
  }

  ghost predicate TmpsFresh(base: nat, items: seq<StmtLayout>)
    decreases items, 1
  {
    items == [] || (TmpFresh(base, items[0]) && TmpsFresh(base, items[1..]))
  }

  ghost predicate TmpFresh(base: nat, l: StmtLayout)
    decreases l, 0
  {
    match l
    case InlineAt(_) => true
    case JumpAt(_, _) => true
    case IfAt(_, _, _, inner, _) => TmpsFresh(base, inner.items)
    case IfElseAt(_, _, _, _, innerIf, innerElse, _) => TmpsFresh(base, innerIf.items) &&
        TmpsFresh(base, innerElse.items)
    case SwitchAt(_, _, cases, _) => TmpsFreshCases(base, cases)
    case LoopAt(_, _, _, _, _, inner) => TmpsFresh(base, inner.items)
    case RangeAt(_, _, _, _, _, tmp, inner) => tmp >= base && TmpsFresh(base, inner.items)
  }

  ghost predicate TmpsFreshCases(base: nat, l: CasesLayout)
    decreases l, 0
  {
    TmpsFresh(base, l.inner.items) && (l.CaseAt? ==> TmpsFreshCases(base, l.rest))
  }

  lemma RunsScope(c: Context, o: Oracle, base: nat, brk: Option<Node>, fuel: nat, scope: Scope, l: ScopeLayout,
                  start: Node, t: Node,
                  inLoop: bool, st: State, st': State) returns (n: nat, end: Config)
    requires Runnable(c) && LaidScope(c, brk, scope, l, start) && ExitsTo(c, l.exit, t)
    requires ProperBody(base, scope.body, inLoop) && (inLoop ==> brk.Some?)
    requires Similar(base, st, st') && TmpsFresh(base, l.items)
    ensures Leads(c.p, o, At(start, 0, st'), n, end)
    ensures Arrives(base, brk, end, ExecBody(o, fuel, scope.body, st), Some((t, 0)), n, fuel)
    decreases fuel, scope.body, 1
  {
    n, end := RunsBody(c, o, base, brk, fuel, scope.body, l.items, (start, 0), l.exit, inLoop, st, st');
    n, end := LeaveScope(c, o, base, brk, At(start, 0, st'), n, end, ExecBody(o, fuel, scope.body, st), l.exit, t,
      fuel);
  }

  /** Going to a block in one step and running a scope there. */
  lemma BranchThenScope(c: Context, o: Oracle, base: nat, brk: Option<Node>, fuel: nat, from: Point, flow: ControlFlow,
                        scope: Scope, l: ScopeLayout,
                        start: Node, t: Node, inLoop: bool, st: State, st': State) returns (n: nat, end: Config)
    requires Runnable(c) && EndsWith(c, from, flow) && start in Targets(flow)
    requires NextNode(c.p, from.0, st') == Goto(start)
    requires LaidScope(c, brk, scope, l, start) && ExitsTo(c, l.exit, t) && ProperBody(base, scope.body, inLoop)
    requires (inLoop ==> brk.Some?)
    requires Similar(base, st, st') && TmpsFresh(base, l.items)
    ensures Leads(c.p, o, StateAt(from, st'), n, end) && n >= 1
    ensures Arrives(base, brk, end, ExecBody(o, fuel, scope.body, st), Some((t, 0)), n, fuel + 1)
    decreases fuel, scope.body, 2
  {
    StepBranch(c, o, from, flow, st', start);
    n, end := RunsScope(c, o, base, brk, fuel, scope, l, start, t, inLoop, st, st');
    LeadsTrans(c.p, o, StateAt(from, st'), 1, At(start, 0, st'), n, end);
    n := 1 + n;
  }

  lemma RunsStmt(c: Context, o: Oracle, base: nat, brk: Option<Node>, fuel: nat, s: Stmt, l: StmtLayout, from: Point,
                 inLoop: bool, st: State, st': State)
    returns (n: nat, end: Config)
    requires Runnable(c) && LaidStmt(c, brk, s, l, from) && ProperStmt(base, s, inLoop) && (inLoop ==> brk.Some?)
    requires Similar(base, st, st') && TmpFresh(base, l)
    ensures Leads(c.p, o, StateAt(from, st'), n, end)
    ensures Arrives(base, brk, end, ExecStmt(o, fuel, s, st), l.to, n, fuel)
    decreases fuel, s, 0
  {
    match s
    case Operation(inst) =>
      StepInline(c, o, from, inst, st');
      SimilarInstruction(c.p.variables, base, o, inst, st, st');
      n, end := 1, At(from.0, from.1 + 1, ExecInstruction(c.p.variables, o, inst, st'));
    case Conditional(cond, scope) =>
      SimilarRead(c.p.variables, base, st, st', cond);
      if Get(st.store, cond) != 0 {
        n, end := BranchThenScope(c, o, base, brk, fuel, from, IfElse(cond, l.then_, l.next), scope, l.inner, l.then_,
          l.next, inLoop, st, st');
      } else {
        StepBranch(c, o, from, IfElse(cond, l.then_, l.next), st', l.next);
        n, end := 1, At(l.next, 0, st');
      }
    case Alternative(cond, scopeIf, scopeElse) =>
      SimilarRead(c.p.variables, base, st, st', cond);
      var flow := IfElse(cond, l.then_, l.orElse);
      if Get(st.store, cond) != 0 {
        n, end := BranchThenScope(c, o, base, brk, fuel, from, flow, scopeIf, l.innerIf, l.then_, l.next, inLoop, st,
          st');
      } else {
        n, end := BranchThenScope(c, o, base, brk, fuel, from, flow, scopeElse, l.innerElse, l.orElse, l.next, inLoop,
          st, st');
      }
    case Selection(_, _) =>
      n, end := RunsSelection(c, o, base, brk, fuel, s, l, from, inLoop, st, st');
    case Forever(scope) =>
      StepFall(c, o, from, l.header, st');
      n, end := RunsForever(c, o, base, brk, fuel, scope, l, st, st');
      LeadsTrans(c.p, o, StateAt(from, st'), 1, At(l.header, 0, st'), n, end);
      n := 1 + n;
    case RangeLoop(_, _, _, _, _, _) =>
      n, end := RunsRangeLoop(c, o, base, brk, fuel, s, l, from, inLoop, st, st');
    case ReturnStmt =>
      n := RunsReturn(c, o, from, l.target, st');
      end := Halted(st');
    case BreakStmt =>
      StepFall(c, o, from, l.target, st');
      n, end := 1, At(l.target, 0, st');
  }

  lemma RunsReturn(c: Context, o: Oracle, from: Point, target: Node, st: State) returns (n: nat)
    requires Runnable(c) && target in c.rets && FallsTo(c, from, target)
    ensures Leads(c.p, o, StateAt(from, st), n, Halted(st))
  {
    StepFall(c, o, from, target, st);
    var i :| 0 <= i < |c.rets| && c.rets[i] == target;
    ReturnHalts(c, o, i, st);
    n := 1 + (i + 1);
    LeadsTrans(c.p, o, StateAt(from, st), 1, At(target, 0, st), i + 1, Halted(st));
  }

  lemma RunsSelection(c: Context, o: Oracle, base: nat, brk: Option<Node>, fuel: nat, s: Stmt, l: StmtLayout,
                      from: Point, inLoop: bool, st: State, st': State)
    returns (n: nat, end: Config)
    requires Runnable(c) && s.Selection? && LaidStmt(c, brk, s, l, from) && ProperStmt(base, s, inLoop)
    requires (inLoop ==> brk.Some?)
    requires Similar(base, st, st') && TmpFresh(base, l)
    ensures Leads(c.p, o, StateAt(from, st'), n, end)
    ensures Arrives(base, brk, end, ExecStmt(o, fuel, s, st), l.to, n, fuel)
    decreases fuel, s.cases, 3
  {
    var v := ToU32(Get(st.store, s.value));
    var t := SelectBranch(v, Branches(s.cases, l.cases), DefaultNode(l.cases));
    SelectBranchIsTarget(v, Branches(s.cases, l.cases), DefaultNode(l.cases));
    SimilarRead(c.p.variables, base, st, st', s.value);
    StepBranch(c, o, from, Switch(s.value, DefaultNode(l.cases), Branches(s.cases, l.cases)), st', t);
    n, end := RunsCases(c, o, base, brk, fuel, v, s.cases, l.cases, l.next, inLoop, st, st');
    LeadsTrans(c.p, o, StateAt(from, st'), 1, At(t, 0, st'), n, end);
    n := 1 + n;
  }

  /** The branch a switch selects runs the case that matches. */
  lemma RunsCases(c: Context, o: Oracle, base: nat, brk: Option<Node>, fuel: nat, v: int, cases: Cases, l: CasesLayout,
                  next: Node, inLoop: bool, st: State, st': State)
    returns (n: nat, end: Config)
    requires Runnable(c) && LaidCases(c, brk, cases, l, next) && ProperCases(base, cases, inLoop)
    requires (inLoop ==> brk.Some?)
    requires Similar(base, st, st') && TmpsFreshCases(base, l)
    ensures Leads(c.p, o, At(SelectBranch(v, Branches(cases, l), DefaultNode(l)), 0, st'), n, end)
    ensures Arrives(base, brk, end, ExecCases(o, fuel, v, cases, st), Some((next, 0)), n, fuel)
    decreases fuel, cases, 2
  {
    match cases
    case Default(scope) =>
      n, end := RunsScope(c, o, base, brk, fuel, scope, l.inner, l.node, next, inLoop, st, st');
    case Case(constant, scope, rest) =>
      assert Branches(cases, l)[1..] == Branches(rest, l.rest);
      if ToU32(constant) == v {
        n, end := RunsScope(c, o, base, brk, fuel, scope, l.inner, l.node, next, inLoop, st, st');
      } else {
        n, end := RunsCases(c, o, base, brk, fuel, v, rest, l.rest, next, inLoop, st, st');
      }
  }

  lemma RunsForever(c: Context, o: Oracle, base: nat, brk: Option<Node>, fuel: nat, scope: Scope, l: StmtLayout,
                    st: State, st': State)
    returns (n: nat, end: Config)
    requires Runnable(c) && l.LoopAt? && EndsWith(c, (l.header, 0), Loop(l.body))
    requires LaidScope(c, Some(l.next), scope, l.inner, l.body) && ProperBody(base, scope.body, true)
    requires ExitsTo(c, l.inner.exit, l.continueTarget) && FallsTo(c, (l.continueTarget, 0), l.header)
    requires Similar(base, st, st') && TmpFresh(base, l)
    ensures Leads(c.p, o, At(l.header, 0, st'), n, end)
    ensures Arrives(base, brk, end, ExecForever(o, fuel, scope.body, st), Some((l.next, 0)), n, fuel)
    decreases fuel, scope, 2
  {
    var start := At(l.header, 0, st');
    if fuel == 0 {
      n, end := 0, start;
      LeadsStep(c.p, o, start);
    } else {
      var m, mid := BranchThenScope(c, o, base, Some(l.next), fuel - 1, (l.header, 0), Loop(l.body), scope, l.inner,
          l.body, l.continueTarget, true, st, st');
      var out := ExecBody(o, fuel - 1, scope.body, st);
      n, end := m, mid;
      if out.Normal? {
        StepFall(c, o, (l.continueTarget, 0), l.header, mid.st);
        LeadsTrans(c.p, o, start, m, mid, 1, At(l.header, 0, mid.st));
        n, end := RunsForever(c, o, base, brk, fuel - 1, scope, l, out.st, mid.st);
        LeadsTrans(c.p, o, start, m + 1, At(l.header, 0, mid.st), n, end);
        n := m + 1 + n;
      }
    }
  }

  lemma RunsRangeLoop(c: Context, o: Oracle, base: nat, brk: Option<Node>, fuel: nat, s: Stmt, l: StmtLayout,
                      from: Point, inLoop: bool, st: State, st': State)
    returns (n: nat, end: Config)
    requires Runnable(c) && s.RangeLoop? && LaidStmt(c, brk, s, l, from) && ProperStmt(base, s, inLoop)
    requires Similar(base, st, st') && TmpFresh(base, l)
    ensures Leads(c.p, o, StateAt(from, st'), n, end)
    ensures Arrives(base, brk, end, ExecStmt(o, fuel, s, st), l.to, n, fuel)
    decreases fuel, s.scope, 3
  {
    var inst := Initialize(s.i, s.start);
    StepInline(c, o, from, inst, st');
    var mid := ExecInstruction(c.p.variables, o, inst, st');
    SimilarInstruction(c.p.variables, base, o, inst, st, st');
    StepFall(c, o, (from.0, from.1 + 1), l.header, mid);
    LeadsTrans(c.p, o, StateAt(from, st'), 1, At(from.0, from.1 + 1, mid), 1, At(l.header, 0, mid));
    n, end := RunsRange(c, o, base, brk, fuel, s, l, ExecInstruction({}, o, inst, st), mid);
    LeadsTrans(c.p, o, StateAt(from, st'), 2, At(l.header, 0, mid), n, end);
    n := 2 + n;
  }

  /** From the end of a range-loop body back to the header, advancing the index. */
  lemma LoopBack(c: Context, o: Oracle, base: nat, s: Stmt, l: StmtLayout, st: State, st': State)
    returns (n: nat, end: State)
    requires Runnable(c) && s.RangeLoop? && l.RangeAt? && l.inner.exit.Some?
    requires HasInstruction(c, l.inner.exit.value, Advance(s.i, s.step)) && ProperVar(base, StepOf(s.step))
    requires LoopsBack(c, (l.inner.exit.value.0, l.inner.exit.value.1 + 1), l.continueTarget, l.header)
    requires Similar(base, st, st')
    ensures Leads(c.p, o, StateAt(l.inner.exit.value, st'), n, At(l.header, 0, end))
    ensures Similar(base, ExecInstruction({}, o, Advance(s.i, s.step), st), end)
  {
    var at := l.inner.exit.value;
    var start, inst := StateAt(at, st'), Advance(s.i, s.step);
    StepInline(c, o, at, inst, st');
    SimilarInstruction(c.p.variables, base, o, inst, st, st');
    end := ExecInstruction(c.p.variables, o, inst, st');
    if l.continueTarget == at.0 {
      StepFall(c, o, (at.0, at.1 + 1), l.header, end);
      LeadsTrans(c.p, o, start, 1, At(at.0, at.1 + 1, end), 1, At(l.header, 0, end));
      n := 2;
    } else {
      StepFall(c, o, (at.0, at.1 + 1), l.continueTarget, end);
      StepFall(c, o, (l.continueTarget, 0), l.header, end);
      LeadsTrans(c.p, o, start, 1, At(at.0, at.1 + 1, end), 1, At(l.continueTarget, 0, end));
      LeadsTrans(c.p, o, start, 2, At(l.continueTarget, 0, end), 1, At(l.header, 0, end));
      n := 3;
    }
  }

  /** The header of a range loop: after comparing, control goes to the body or past the loop. */
  lemma HeaderDecides(c: Context, o: Oracle, base: nat, s: Stmt, l: StmtLayout, st: State, st': State)
    returns (mid: State)
    requires Runnable(c) && s.RangeLoop? && l.RangeAt? && l.tmp >= base
    requires HasInstruction(c, (l.header, 0), Comparison(s.i, s.end, s.inclusive, LocalConst(l.tmp)))
    requires EndsWith(c, (l.header, 1), LoopBreak(LocalConst(l.tmp), l.body, l.next))
    requires ProperVar(base, s.end) && Similar(base, st, st')
    ensures Similar(base, st, mid)
    ensures Leads(c.p, o, At(l.header, 0, st'), 2,
            At(if InRange(st, s.i, s.end, s.inclusive) then l.body else l.next, 0, mid))
  {
    var inst := Comparison(s.i, s.end, s.inclusive, LocalConst(l.tmp));
    StepInline(c, o, (l.header, 0), inst, st');
    mid := ExecInstruction(c.p.variables, o, inst, st');
    assert inst.inputs[0] == LocalMut(s.i) && inst.inputs[1] == s.end;
    SimilarRead(c.p.variables, base, st, st', LocalMut(s.i));
    SimilarRead(c.p.variables, base, st, st', s.end);
    forall x: Variable
      ensures SameValue(base, st, mid, x)
    {
      assert SameValue(base, st, st', x);
    }
    var t := if InRange(st, s.i, s.end, s.inclusive) then l.body else l.next;
    StepBranch(c, o, (l.header, 1), LoopBreak(LocalConst(l.tmp), l.body, l.next), mid, t);
    LeadsTrans(c.p, o, At(l.header, 0, st'), 1, At(l.header, 1, mid), 1, At(t, 0, mid));
  }

  lemma RunsRange(c: Context, o: Oracle, base: nat, brk: Option<Node>, fuel: nat, s: Stmt, l: StmtLayout, st: State,
                  st': State)
    returns (n: nat, end: Config)
    requires Runnable(c) && s.RangeLoop? && l.RangeAt? && TmpFresh(base, l)
    requires HasInstruction(c, (l.header, 0), Comparison(s.i, s.end, s.inclusive, LocalConst(l.tmp)))
    requires EndsWith(c, (l.header, 1), LoopBreak(LocalConst(l.tmp), l.body, l.next))
    requires LaidScope(c, Some(l.next), s.scope, l.inner, l.body) && ProperBody(base, s.scope.body, true)
    requires l.inner.exit.Some? && HasInstruction(c, l.inner.exit.value, Advance(s.i, s.step))
    requires LoopsBack(c, (l.inner.exit.value.0, l.inner.exit.value.1 + 1), l.continueTarget, l.header)
    requires ProperVar(base, s.end) && ProperVar(base, StepOf(s.step)) && Similar(base, st, st')
    ensures Leads(c.p, o, At(l.header, 0, st'), n, end)
    ensures Arrives(base, brk, end, ExecRange(o, fuel, s.i, s.end, s.step, s.inclusive, s.scope.body, st),
            Some((l.next, 0)), n, fuel)
    decreases fuel, s.scope, 2
  {
    var start := At(l.header, 0, st');
    if fuel == 0 {
      n, end := 0, start;
      LeadsStep(c.p, o, start);
    } else {
      var entered := HeaderDecides(c, o, base, s, l, st, st');
      n, end := 2, At(l.next, 0, entered);
      if InRange(st, s.i, s.end, s.inclusive) {
        n, end := RunsBody(c, o, base, Some(l.next), fuel - 1, s.scope.body, l.inner.items, (l.body, 0), l.inner.exit,
          true, st, entered);
        LeadsTrans(c.p, o, start, 2, At(l.body, 0, entered), n, end);
        n := 2 + n;
        var out := ExecBody(o, fuel - 1, s.scope.body, st);
        if out.Normal? {
          var k, again := LoopBack(c, o, base, s, l, out.st, end.st);
          LeadsTrans(c.p, o, start, n, end, k, At(l.header, 0, again));
          var m := n + k;
          n, end := RunsRange(c, o, base, brk, fuel - 1, s, l, ExecInstruction({}, o, Advance(s.i, s.step), out.st),
            again);
          LeadsTrans(c.p, o, start, m, At(l.header, 0, again), n, end);
          n := m + n;
        }
      }
    }
  }
}
