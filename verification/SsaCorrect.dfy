/**
 The SSA transform preserves every run: step for step, the renamed program is at the same place,
 has done the same operations, and holds the value of every live variable in its current version.
 */
module SsaCorrect {
  import opened Options
  import opened Ir
  import opened Dominance
  import opened Liveness
  import opened Naming
  import opened Version
  import opened Renaming
  import opened SsaForm

  /** The live sets contain every tracked variable that a reachable block or what follows it reads. */
  ghost predicate LiveSupports(p: Program, live: LiveVars) {
    forall b: Node, v: Id {:trigger SupportedAt(p, live, b, v)} ::
      b < |p.blocks| && Reachable(p, b) && v in p.variables ==> SupportedAt(p, live, b, v)
  }

  ghost predicate SupportedAt(p: Program, live: LiveVars, b: Node, v: Id)
    requires b < |p.blocks|
  {
    && (Exposed(p.blocks[b].ops, v) ==> LiveOn(live, b, v))
    && (forall t: Node :: (b, t) in p.edges && LiveOn(live, t, v) ==> LiveOn(live, b, v) || Killed(p.blocks[b].ops, v))
    && (ReadByTerminator(p, b, v) ==> LiveOn(live, b, v) || Killed(p.blocks[b].ops, v))
  }

  ghost predicate SsaReady(orig: Program, now: Program, marks: map<Node, Mark>, max: Versions, live: LiveVars) {
    && WellFormed(orig) && PlainNames(orig) && TrivialPhis(orig) && orig.blocks[orig.root].phis == []
    && IsSsaForm(orig, now, marks, max)
    && LiveSupports(orig, live) && PhisPlaced(orig, live)
  }

  /** The transformed program: once renamed, no variable is tracked any more. */
  function Untracked(p: Program): Program {
    p.(variables := {})
  }

  // ---------------------------------------------------------------------------------------
  // Agreement of states
  // ---------------------------------------------------------------------------------------

  /** The names in force before instruction `pc` of a renamed block. */
  ghost function NamesAt(vars: set<Id>, b: BasicBlock, start: Names, pc: nat): Names
    requires NamesFor(vars, start) && pc <= |b.ops|
  {
    AfterOps(vars, b.ops[..pc], AfterPhis(vars, b.phis, start))
  }

  /** `v` may still be read before it is written again. */
  ghost predicate Relevant(ops: seq<Instruction>, live: bool, pc: nat, v: Id)
    requires pc <= |ops|
  {
    live || Killed(ops[..pc], v)
  }

  ghost predicate SameUntracked(vars: set<Id>, s: Store, s': Store) {
    forall x: Variable :: !Tracked(vars, x) ==> Get(s, x) == Get(s', x)
  }

  ghost predicate VersionsHold(vars: set<Id>, relevant: iset<Id>, cur: Versions, s: Store, s': Store) {
    forall v: Id :: v in vars && v in cur && v in relevant ==> Get(s', Versioned(v, cur[v])) == Get(s, LocalMut(v))
  }

  ghost function RelevantAt(p: Program, live: LiveVars, b: Node, pc: nat): iset<Id>
    requires b < |p.blocks| && pc <= |p.blocks[b].ops|
  {
    iset v: Id | Relevant(p.blocks[b].ops, LiveOn(live, b, v), pc, v)
  }

  /** The two machines are at the same place with the same history, and current versions hold current values. */
  ghost predicate Agree(p: Program, marks: map<Node, Mark>, live: LiveVars, c: Config, c': Config) {
    match c
    case At(b, pc, st) =>
      && c'.At? && c'.node == b && c'.pc == pc
      && b in marks && b < |p.blocks| && pc <= |p.blocks[b].ops| && NamesFor(p.variables, marks[b].start)
      && st.trace == c'.st.trace && SameUntracked(p.variables, st.store, c'.st.store)
      && VersionsHold(p.variables, RelevantAt(p, live, b, pc),
         NamesAt(p.variables, p.blocks[b], marks[b].start, pc).cur,
                      st.store, c'.st.store)
    case Halted(st) => c'.Halted? && st.trace == c'.st.trace && SameUntracked(p.variables, st.store, c'.st.store)
    case Stuck => c' == Stuck
  }

  // ---------------------------------------------------------------------------------------
  // One instruction
  // ---------------------------------------------------------------------------------------

  /** A variable read at `pc` is either live on entry or already written. */
  lemma ReadIsRelevant(ops: seq<Instruction>, pc: nat, v: Id)
    requires pc < |ops| && ReadsLocal(ops[pc], v)
    ensures Exposed(ops, v) || Killed(ops[..pc], v)
  {
    if !Killed(ops[..pc], v) {
      forall j | 0 <= j < pc
        ensures !WritesLocal(ops[j], v)
      {
        assert ops[..pc][j] == ops[j];
      }
    }
  }

  lemma KilledSnoc(ops: seq<Instruction>, pc: nat, v: Id)
    requires pc < |ops|
    ensures Killed(ops[..pc + 1], v) <==> Killed(ops[..pc], v) || WritesLocal(ops[pc], v)
  {
    assert ops[..pc + 1] == ops[..pc] + [ops[pc]];
    if Killed(ops[..pc], v) {
      var i :| 0 <= i < |ops[..pc]| && WritesLocal(ops[..pc][i], v);
      assert WritesLocal(ops[..pc + 1][i], v);
    }
    if WritesLocal(ops[pc], v) {
      assert WritesLocal(ops[..pc + 1][pc], v);
    }
  }

  lemma InputsAgree(vars: set<Id>, relevant: iset<Id>, cur: Versions, inputs: seq<Variable>, s: Store, s': Store)
    requires cur.Keys == vars && SameUntracked(vars, s, s') && VersionsHold(vars, relevant, cur, s, s')
    requires forall x :: x in inputs && Tracked(vars, x) ==> x.LocalMut? && x.id in relevant
    ensures Values(vars, s, inputs) == Values({}, s', RenameInputs(vars, cur, inputs))
  {
    forall i | 0 <= i < |inputs|
      ensures Get(s, Canon(vars, inputs[i])) == Get(s', Canon({}, ReadName(vars, cur, inputs[i])))
    {
      assert inputs[i] in inputs;
    }
  }

  /** Executing an instruction and its renamed form on agreeing states. */
  lemma InstructionAgrees(vars: set<Id>, o: Oracle, op: Instruction, n: Names, relevant: iset<Id>, after: iset<Id>,
                          st: State, st': State)
    requires NamesFor(vars, n) && st.trace == st'.trace
    requires SameUntracked(vars, st.store, st'.store) && VersionsHold(vars, relevant, n.cur, st.store, st'.store)
    requires forall x :: x in op.inputs && Tracked(vars, x) ==> x.LocalMut? && x.id in relevant
    requires op.out.Some? && Tracked(vars, op.out.value) ==> op.out.value.LocalMut?
    requires forall v: Id :: v in after ==> v in relevant || WritesLocal(op, v)
    ensures var r, r' := ExecInstruction(vars, o, op, st), ExecInstruction({}, o, RenameInstruction(vars, op, n), st');
            && r.trace == r'.trace && SameUntracked(vars, r.store, r'.store)
            && VersionsHold(vars, after, AfterWrite(n, WrittenId(vars, op.out)).cur, r.store, r'.store)
  {
    InputsAgree(vars, relevant, n.cur, op.inputs, st.store, st'.store);
  }

  /** Tracked inputs are relevant where they are read, and what is relevant later is so before or written here. */
  lemma RelevantReads(p: Program, live: LiveVars, b: Node, pc: nat)
    requires b < |p.blocks| && pc < |p.blocks[b].ops| && PlainBlock(p.variables, p.blocks[b]) && LiveSupports(p, live)
    requires Reachable(p, b)
    ensures forall x ::
            x in p.blocks[b].ops[pc].inputs && Tracked(p.variables, x) ==>
              x.LocalMut? && x.id in RelevantAt(p, live, b, pc)
    ensures forall v: Id ::
            v in RelevantAt(p, live, b, pc + 1) ==>
              v in RelevantAt(p, live, b, pc) || WritesLocal(p.blocks[b].ops[pc], v)
  {
    var ops, op := p.blocks[b].ops, p.blocks[b].ops[pc];
    forall x | x in op.inputs && Tracked(p.variables, x)
      ensures x.LocalMut? && x.id in RelevantAt(p, live, b, pc)
    {
      assert ReadsLocal(op, x.id) && SupportedAt(p, live, b, x.id);
      ReadIsRelevant(ops, pc, x.id);
    }
    forall v: Id | v in RelevantAt(p, live, b, pc + 1)
      ensures v in RelevantAt(p, live, b, pc) || WritesLocal(op, v)
    {
      KilledSnoc(ops, pc, v);
    }
  }

  lemma StepInstruction(orig: Program, now: Program, marks: map<Node, Mark>, max: Versions, live: LiveVars, o: Oracle,
                        c: Config, c': Config)
    requires SsaReady(orig, now, marks, max, live) && Agree(orig, marks, live, c, c')
    requires c.At? && c.pc < |orig.blocks[c.node].ops| && Reachable(orig, c.node)
    ensures Agree(orig, marks, live, Step(orig, o, c), Step(Untracked(now), o, c'))
  {
    var vars, b, pc := orig.variables, c.node, c.pc;
    var ops, op := orig.blocks[b].ops, orig.blocks[b].ops[pc];
    assert MarkedBlock(orig, now, marks, b) && PlainBlock(vars, orig.blocks[b]);
    var entry := AfterPhis(vars, orig.blocks[b].phis, marks[b].start);
    assert OpRenamedAt(vars, ops, now.blocks[b].ops, entry, pc);
    AfterOpsSnoc(vars, ops, pc, entry);
    RelevantReads(orig, live, b, pc);
    InstructionAgrees(vars, o, op, AfterOps(vars, ops[..pc], entry), RelevantAt(orig, live, b, pc),
      RelevantAt(orig, live, b, pc + 1), c.st, c'.st);
  }

  // ---------------------------------------------------------------------------------------
  // One jump
  // ---------------------------------------------------------------------------------------

  ghost predicate PhiAmong(phis: seq<PhiInstruction>, v: Id) {
    exists i :: 0 <= i < |phis| && phis[i].out.Versioned? && phis[i].out.id == v
  }

  /** The value of `v` has moved from its version on the edge, if it has a phi, to its new version. */
  ghost predicate VarMoved(vars: set<Id>, phis: seq<PhiInstruction>, start: Names, cur: Versions, store: Store,
                           r: Store, v: Id)
    requires NamesFor(vars, start) && cur.Keys == vars
  {
    v in vars ==> Get(r, Versioned(v, AfterPhis(vars, phis, start).cur[v]))
                  == Get(store, Versioned(v, if PhiAmong(phis, v) then cur[v] else start.cur[v]))
  }

  ghost predicate Moved(vars: set<Id>, phis: seq<PhiInstruction>, start: Names, cur: Versions, store: Store, r: Store)
    requires NamesFor(vars, start) && cur.Keys == vars
  {
    && SameUntracked(vars, store, r)
    && forall v: Id {:trigger VarMoved(vars, phis, start, cur, store, r, v)} ::
       VarMoved(vars, phis, start, cur, store, r, v)
  }

  /** What one more phi does to the names. */
  lemma OnePhiNames(vars: set<Id>, phis: seq<PhiInstruction>, start: Names, k: nat, v: Id)
    requires NamesFor(vars, start) && k < |phis| && TrivialPhi(vars, phis[k]) && v in vars
    ensures var before, after := AfterPhis(vars, phis[..k], start), AfterPhis(vars, phis[..k + 1], start);
            after.cur[v] == if v == phis[k].out.id then Wrap(before.max[v] + 1) else before.cur[v]
    ensures PhiAmong(phis[..k + 1], v) <==> v == phis[k].out.id || PhiAmong(phis[..k], v)
  {
    AfterPhisSnoc(vars, phis, k, start);
    PhiAmongSnoc(phis, k, v);
  }

  lemma MoveOneVar(vars: set<Id>, phis: seq<PhiInstruction>, start: Names, cur: Versions, store: Store, r: Store,
                   k: nat, r': Store, v: Id)
    requires NamesFor(vars, start) && cur.Keys == vars && k < |phis| && TrivialPhi(vars, phis[k]) && v in vars
    requires VarMoved(vars, phis[..k], start, cur, store, r, v)
    requires var id := phis[k].out.id;
             r' == Put(r, Versioned(id, Wrap(AfterPhis(vars, phis[..k], start).max[id] + 1)),
               Get(store, Versioned(id, cur[id])))
    ensures VarMoved(vars, phis[..k + 1], start, cur, store, r', v)
  {
    OnePhiNames(vars, phis, start, k, v);
    var before, after := AfterPhis(vars, phis[..k], start), AfterPhis(vars, phis[..k + 1], start);
    if v != phis[k].out.id {
      assert Get(r', Versioned(v, after.cur[v])) == Get(r, Versioned(v, before.cur[v]));
    }
  }

  lemma MoveOne(vars: set<Id>, phis: seq<PhiInstruction>, start: Names, cur: Versions, store: Store, r: Store, k: nat,
                r': Store)
    requires NamesFor(vars, start) && cur.Keys == vars && k < |phis| && TrivialPhi(vars, phis[k])
    requires Moved(vars, phis[..k], start, cur, store, r)
    requires var id := phis[k].out.id;
             r' == Put(r, Versioned(id, Wrap(AfterPhis(vars, phis[..k], start).max[id] + 1)),
               Get(store, Versioned(id, cur[id])))
    ensures Moved(vars, phis[..k + 1], start, cur, store, r')
  {
    var more := phis[..k + 1];
    forall v: Id
      ensures VarMoved(vars, more, start, cur, store, r', v)
    {
      assert VarMoved(vars, phis[..k], start, cur, store, r, v);
      if v in vars {
        MoveOneVar(vars, phis, start, cur, store, r, k, r', v);
      }
    }
  }

  lemma {:induction false} PhisMoveVersions(vars: set<Id>, orig: seq<PhiInstruction>, now: seq<PhiInstruction>,
                                            start: Names, s: Node, cur: Versions, store: Store, k: nat)
    requires NamesFor(vars, start) && cur.Keys == vars && k <= |orig| == |now|
    requires forall i :: 0 <= i < |orig| ==> TrivialPhi(vars, orig[i])
    requires PhisRenamed(vars, orig, now, start)
    requires forall i :: 0 <= i < |orig| ==> PhiEntryNamed(vars, orig[i].entries, now[i].entries, s, cur)
    ensures Moved(vars, orig[..k], start, cur, store, ExecPhis({}, now[..k], s, store))
  {
    if k == 0 {
      NoPhisMoved(vars, start, cur, store);
      assert now[..0] == [] && orig[..0] == [];
    } else {
      PhisMoveVersions(vars, orig, now, start, s, cur, store, k - 1);
      MoveThrough(vars, orig, now, start, s, cur, store, k - 1);
    }
  }

  lemma MoveThrough(vars: set<Id>, orig: seq<PhiInstruction>, now: seq<PhiInstruction>, start: Names, s: Node,
                    cur: Versions, store: Store, k: nat)
    requires NamesFor(vars, start) && cur.Keys == vars && k < |orig| == |now|
    requires TrivialPhi(vars, orig[k]) && PhisRenamed(vars, orig, now, start)
    requires PhiEntryNamed(vars, orig[k].entries, now[k].entries, s, cur)
    requires Moved(vars, orig[..k], start, cur, store, ExecPhis({}, now[..k], s, store))
    ensures Moved(vars, orig[..k + 1], start, cur, store, ExecPhis({}, now[..k + 1], s, store))
  {
    PhiTarget(vars, orig, now, start, s, cur, k);
    OneMorePhi(now, s, store, k);
    MoveOne(vars, orig, start, cur, store, ExecPhis({}, now[..k], s, store), k, ExecPhis({}, now[..k + 1], s, store));
  }

  lemma NoPhisMoved(vars: set<Id>, start: Names, cur: Versions, store: Store)
    requires NamesFor(vars, start) && cur.Keys == vars
    ensures Moved(vars, [], start, cur, store, store)
  {
    forall v: Id
      ensures VarMoved(vars, [], start, cur, store, store, v)
    {
    }
  }

  lemma OneMorePhi(phis: seq<PhiInstruction>, s: Node, store: Store, k: nat)
    requires k < |phis| && PhiValue(phis[k].entries, s).Some?
    ensures ExecPhis({}, phis[..k + 1], s, store)
            == Put(ExecPhis({}, phis[..k], s, store), phis[k].out, Get(store, PhiValue(phis[k].entries, s).value))
  {
    var more := phis[..k + 1];
    assert more[..k] == phis[..k] && more[k] == phis[k];
  }

  /** A renamed phi takes the version on the edge to the next free version. */
  lemma PhiTarget(vars: set<Id>, orig: seq<PhiInstruction>, now: seq<PhiInstruction>, start: Names, s: Node,
                  cur: Versions, k: nat)
    requires NamesFor(vars, start) && cur.Keys == vars && k < |orig| == |now|
    requires TrivialPhi(vars, orig[k]) && PhisRenamed(vars, orig, now, start)
    requires PhiEntryNamed(vars, orig[k].entries, now[k].entries, s, cur)
    ensures var id := orig[k].out.id;
            && now[k].out == Versioned(id, Wrap(AfterPhis(vars, orig[..k], start).max[id] + 1))
            && PhiValue(now[k].entries, s) == Some(Versioned(id, cur[id]))
  {
    assert PhiRenamedAt(vars, orig, now, start, k);
    PhiValueIsEntry(orig[k].entries, s);
  }

  lemma PhiAmongSnoc(phis: seq<PhiInstruction>, k: nat, v: Id)
    requires k < |phis| && phis[k].out.Versioned?
    ensures PhiAmong(phis[..k + 1], v) <==> v == phis[k].out.id || PhiAmong(phis[..k], v)
  {
    assert phis[..k + 1] == phis[..k] + [phis[k]];
    if v == phis[k].out.id {
      assert phis[..k + 1][k].out.id == v;
    }
    if PhiAmong(phis[..k], v) {
      var i :| 0 <= i < |phis[..k]| && phis[..k][i].out.Versioned? && phis[..k][i].out.id == v;
      assert phis[..k + 1][i].out.id == v;
    }
  }

  /** The phis at the end of an edge: renamed from the start of their block, their entries named at its beginning. */
  lemma EdgePhis(orig: Program, now: Program, marks: map<Node, Mark>, max: Versions, live: LiveVars, s: Node, t: Node)
    requires SsaReady(orig, now, marks, max, live) && (s, t) in orig.edges && s in marks
    ensures t in marks && NamesFor(orig.variables, marks[t].start) && NamesFor(orig.variables, marks[s].end)
    ensures t < |orig.blocks| && t < |now.blocks| && |now.blocks[t].phis| == |orig.blocks[t].phis|
    ensures forall i :: 0 <= i < |orig.blocks[t].phis| ==> TrivialPhi(orig.variables, orig.blocks[t].phis[i])
    ensures PhisRenamed(orig.variables, orig.blocks[t].phis, now.blocks[t].phis, marks[t].start)
    ensures forall i :: 0 <= i < |orig.blocks[t].phis| ==>
              PhiEntryNamed(orig.variables, orig.blocks[t].phis[i].entries, now.blocks[t].phis[i].entries, s,
                marks[s].end.cur)
  {
    assert MarkedBlock(orig, now, marks, s) && MarkedBlock(orig, now, marks, t);
    assert EdgeNamed(orig, now, s, t, marks[s].end.cur);
  }

  lemma EdgeMovesVersions(orig: Program, now: Program, marks: map<Node, Mark>, max: Versions, live: LiveVars, s: Node,
                          t: Node, store: Store)
    requires SsaReady(orig, now, marks, max, live) && (s, t) in orig.edges && s in marks
    ensures t in marks && NamesFor(orig.variables, marks[t].start) && NamesFor(orig.variables, marks[s].end)
    ensures t < |now.blocks|
    ensures Moved(orig.variables, orig.blocks[t].phis, marks[t].start, marks[s].end.cur, store,
            ExecPhis({}, now.blocks[t].phis, s, store))
  {
    EdgePhis(orig, now, marks, max, live, s, t);
    var k := |orig.blocks[t].phis|;
    assert orig.blocks[t].phis[..k] == orig.blocks[t].phis && now.blocks[t].phis[..k] == now.blocks[t].phis;
    PhisMoveVersions(orig.variables, orig.blocks[t].phis, now.blocks[t].phis, marks[t].start, s, marks[s].end.cur,
      store, k);
  }

  /** After the phis of `t`, the new version of a live variable holds what its version at the end of `s` held. */
  lemma LiveVersionMoves(orig: Program, now: Program, marks: map<Node, Mark>, max: Versions, live: LiveVars, s: Node,
                         t: Node, store: Store, v: Id)
    requires SsaReady(orig, now, marks, max, live) && (s, t) in orig.edges && s in marks && v in orig.variables
    requires LiveOn(live, t, v)
    ensures t in marks && t < |now.blocks| && NamesFor(orig.variables, marks[t].start) && v in marks[s].end.cur
    ensures Get(ExecPhis({}, now.blocks[t].phis, s, store),
            Versioned(v, AfterPhis(orig.variables, orig.blocks[t].phis, marks[t].start).cur[v]))
            == Get(store, Versioned(v, marks[s].end.cur[v]))
  {
    EdgeMovesVersions(orig, now, marks, max, live, s, t, store);
    assert VarMoved(orig.variables, orig.blocks[t].phis, marks[t].start, marks[s].end.cur, store,
        ExecPhis({}, now.blocks[t].phis, s, store), v);
    if !PhiAmong(orig.blocks[t].phis, v) {
      EdgeKeepsVersion(orig, now, marks, max, live, s, t, v);
    }
  }

  /** Entering `t` from `s` on states that agree at the end of `s`. */
  lemma EnterAgrees(orig: Program, now: Program, marks: map<Node, Mark>, max: Versions, live: LiveVars, s: Node,
                    t: Node, st: State, st': State)
    requires SsaReady(orig, now, marks, max, live)
    requires (s, t) in orig.edges && Reachable(orig, s) && s in marks
    requires Agree(orig, marks, live, At(s, |orig.blocks[s].ops|, st), At(s, |orig.blocks[s].ops|, st'))
    ensures Agree(orig, marks, live, Enter(orig, s, t, st), Enter(Untracked(now), s, t, st'))
  {
    TrivialPhisAreNoOps(orig.variables, orig.blocks[t].phis, s, st.store);
    EdgeMovesVersions(orig, now, marks, max, live, s, t, st'.store);
    EnterVersions(orig, now, marks, max, live, s, t, st, st');
  }

  lemma EnterVersions(orig: Program, now: Program, marks: map<Node, Mark>, max: Versions, live: LiveVars, s: Node,
                      t: Node, st: State, st': State)
    requires SsaReady(orig, now, marks, max, live)
    requires (s, t) in orig.edges && Reachable(orig, s) && s in marks
    requires Agree(orig, marks, live, At(s, |orig.blocks[s].ops|, st), At(s, |orig.blocks[s].ops|, st'))
    ensures t in marks && t < |orig.blocks| && t < |now.blocks| && NamesFor(orig.variables, marks[t].start)
    ensures VersionsHold(orig.variables, RelevantAt(orig, live, t, 0),
            NamesAt(orig.variables, orig.blocks[t], marks[t].start, 0).cur,
                         st.store, ExecPhis({}, now.blocks[t].phis, s, st'.store))
  {
    EdgePhis(orig, now, marks, max, live, s, t);
    assert orig.blocks[t].ops[..0] == [];
    forall v: Id | v in orig.variables && v in RelevantAt(orig, live, t, 0)
      ensures Get(ExecPhis({}, now.blocks[t].phis, s, st'.store),
              Versioned(v, AfterPhis(orig.variables, orig.blocks[t].phis, marks[t].start).cur[v]))
              == Get(st.store, LocalMut(v))
    {
      EnterLive(orig, now, marks, max, live, s, t, st, st', v);
    }
  }

  lemma EnterLive(orig: Program, now: Program, marks: map<Node, Mark>, max: Versions, live: LiveVars, s: Node, t: Node,
                  st: State, st': State, v: Id)
    requires SsaReady(orig, now, marks, max, live)
    requires (s, t) in orig.edges && Reachable(orig, s) && s in marks
    requires Agree(orig, marks, live, At(s, |orig.blocks[s].ops|, st), At(s, |orig.blocks[s].ops|, st'))
    requires v in orig.variables && v in RelevantAt(orig, live, t, 0)
    ensures t in marks && t < |now.blocks| && NamesFor(orig.variables, marks[t].start)
    ensures Get(ExecPhis({}, now.blocks[t].phis, s, st'.store),
            Versioned(v, AfterPhis(orig.variables, orig.blocks[t].phis, marks[t].start).cur[v]))
            == Get(st.store, LocalMut(v))
  {
    var ops := orig.blocks[s].ops;
    assert MarkedBlock(orig, now, marks, s);
    assert ops[..|ops|] == ops && orig.blocks[t].ops[..0] == [];
    assert LiveOn(live, t, v) && SupportedAt(orig, live, s, v);
    LiveVersionMoves(orig, now, marks, max, live, s, t, st'.store, v);
    assert v in RelevantAt(orig, live, s, |ops|);
  }

  /** Both terminators choose the same successor. */
  lemma JumpAgrees(orig: Program, now: Program, marks: map<Node, Mark>, max: Versions, live: LiveVars, c: Config,
                   c': Config)
    requires SsaReady(orig, now, marks, max, live) && Agree(orig, marks, live, c, c')
    requires c.At? && c.pc == |orig.blocks[c.node].ops| && Reachable(orig, c.node)
    ensures c.node < |now.blocks| && NextNode(orig, c.node, c.st) == NextNode(Untracked(now), c.node, c'.st)
  {
    var vars, b := orig.variables, c.node;
    assert MarkedBlock(orig, now, marks, b) && PlainBlock(vars, orig.blocks[b]);
    assert orig.blocks[b].ops[..|orig.blocks[b].ops|] == orig.blocks[b].ops;
    var x := TerminatorRead(orig.blocks[b].flow);
    if x.Some? && Tracked(vars, x.value) {
      assert ReadByTerminator(orig, b, x.value.id) && SupportedAt(orig, live, b, x.value.id);
      assert x.value.id in RelevantAt(orig, live, b, c.pc);
    }
    assert Successors(Untracked(now), b) == Successors(orig, b);
  }

  lemma StepAgrees(orig: Program, now: Program, marks: map<Node, Mark>, max: Versions, live: LiveVars, o: Oracle,
                   c: Config, c': Config)
    requires SsaReady(orig, now, marks, max, live) && Agree(orig, marks, live, c, c')
    requires c.At? ==> Reachable(orig, c.node)
    ensures Agree(orig, marks, live, Step(orig, o, c), Step(Untracked(now), o, c'))
    ensures Step(orig, o, c).At? ==> Reachable(orig, Step(orig, o, c).node)
  {
    if c.At? {
      if c.pc < |orig.blocks[c.node].ops| {
        StepInstruction(orig, now, marks, max, live, o, c, c');
      } else {
        JumpAgrees(orig, now, marks, max, live, c, c');
        assert MarkedBlock(orig, now, marks, c.node);
        JumpFollowsEdge(orig, c.node, c.st);
        match NextNode(orig, c.node, c.st)
        case Goto(t) =>
          EnterAgrees(orig, now, marks, max, live, c.node, t, c.st, c'.st);
          var path :| PathTo(orig, path, c.node);
          PathExtend(orig, path, c.node, t);
        case Halt =>
      }
    }
  }

  /** Initial states agree when version 0 of each tracked variable holds its initial value. */
  ghost predicate InitialStates(p: Program, st: State, st': State) {
    && st.trace == st'.trace && SameUntracked(p.variables, st.store, st'.store)
    && forall v: Id :: v in p.variables ==> Get(st'.store, Versioned(v, 0)) == Get(st.store, LocalMut(v))
  }

  /** The SSA transform preserves every run, step for step. */
  lemma {:induction false} SsaPreservesRuns(orig: Program, now: Program, marks: map<Node, Mark>, max: Versions,
                                            live: LiveVars, o: Oracle, st: State, st': State, n: nat)
    requires SsaReady(orig, now, marks, max, live) && InitialStates(orig, st, st')
    ensures var c := Run(orig, o, At(orig.root, 0, st), n);
            && Agree(orig, marks, live, c, Run(Untracked(now), o, At(orig.root, 0, st'), n))
            && (c.At? ==> Reachable(orig, c.node))
  {
    if n == 0 {
      var root := orig.root;
      assert MarkedBlock(orig, now, marks, root) && MarkedChild(orig, marks, root);
      assert PathTo(orig, [root], root);
      assert orig.blocks[root].ops[..0] == [];
    } else {
      SsaPreservesRuns(orig, now, marks, max, live, o, st, st', n - 1);
      StepAgrees(orig, now, marks, max, live, o, Run(orig, o, At(orig.root, 0, st), n - 1),
        Run(Untracked(now), o, At(orig.root, 0, st'), n - 1));
    }
  }
}
