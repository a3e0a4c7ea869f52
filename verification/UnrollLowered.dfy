/** The lowered graphs of a range loop and of its unrolled form halt alike. */
module UnrollLowered {
  import opened Options
  import opened Arithmetic
  import opened Ir
  import opened Structured
  import opened Layout
  import opened ParseState
  import opened LoweringCorrect
  import opened RangeUnroll

  /** The same trace, and the same values but for the index `i` and the parser's temporaries. */
  ghost predicate SameBut(i: Id, base: nat, final: State, final': State) {
    && final.trace == final'.trace
    && forall x: Variable :: ProperVar(base, x) && x != LocalMut(i) ==> Get(final.store, x) == Get(final'.store, x)
  }

  ghost predicate HaltsLike(i: Id, base: nat, p: Program, p': Program, o: Oracle, st: State) {
    forall final: State :: Halts(p, o, st, final) ==>
      exists final': State :: Halts(p', o, st, final') && SameBut(i, base, final, final')
  }

  lemma EndsAreClose(i: Id, base: nat, k: int, r: State, r': State, final: State, final': State)
    requires Beside(i, k, r, r') && Similar(base, r, final) && Similar(base, r', final')
    ensures SameBut(i, base, final, final') && SameBut(i, base, final', final)
  {
    forall x: Variable | ProperVar(base, x) && x != LocalMut(i)
      ensures Get(final.store, x) == Get(final'.store, x)
    {
      SimilarRead({}, base, r, final, x);
      SimilarRead({}, base, r', final', x);
    }
  }

  lemma SingleStatement(o: Oracle, fuel: nat, s: Stmt, st: State)
    ensures ExecBody(o, fuel, [s], st) == ExecStmt(o, fuel, s, st)
  {
    assert [s][0] == s && [s][1..] == [];
  }

  lemma LoopEndsToo(l: Loop, s: nat, w: Bounds, o: Oracle, st: State, r': State) returns (k: int, r: State)
    requires Enters(l, s, w, st) && KernelEnds(o, l.UnrolledFrom(w, s), st, r')
    ensures KernelEnds(o, [l.Statement()], st, r) && Beside(l.i, k, r, r')
  {
    var fuel: nat :| EndsWithin(o, fuel, l.UnrolledFrom(w, s), st, r');
    UnrollingPreservesMeaning(l, s, w, o, fuel, st);
    var more := fuel + |l.From(w, s)| + 1;
    SingleStatement(o, more, l.Statement(), st);
    var out := ExecStmt(o, more, l.Statement(), st);
    k :| OutcomesBeside(l.i, k, out, l.ExecUnrolled(o, fuel, w, s, st));
    r := out.st;
    assert EndsWithin(o, more, [l.Statement()], st, r);
  }

  lemma UnrolledEndsToo(l: Loop, s: nat, w: Bounds, o: Oracle, st: State, r: State) returns (k: int, r': State)
    requires Enters(l, s, w, st) && KernelEnds(o, [l.Statement()], st, r)
    ensures KernelEnds(o, l.UnrolledFrom(w, s), st, r') && Beside(l.i, k, r, r')
  {
    var fuel: nat :| EndsWithin(o, fuel, [l.Statement()], st, r);
    SingleStatement(o, fuel, l.Statement(), st);
    UnrollingPreservesMeaning(l, s, w, o, fuel, st);
    var out := l.ExecUnrolled(o, fuel, w, s, st);
    k :| OutcomesBeside(l.i, k, ExecStmt(o, fuel, l.Statement(), st), out);
    r' := out.st;
    assert EndsWithin(o, fuel, l.UnrolledFrom(w, s), st, r');
  }

  lemma UnrolledHaltsLike(l: Loop, s: nat, w: Bounds, o: Oracle, st: State, base: nat, p: Program, p': Program)
    requires Enters(l, s, w, st) && KernelFollowsGraph([l.Statement()], base, p, o, st)
    requires GraphFollowsKernel(l.UnrolledFrom(w, s), base, p', o, st)
    ensures HaltsLike(l.i, base, p, p', o, st)
  {
    forall final: State | Halts(p, o, st, final)
      ensures exists final': State :: Halts(p', o, st, final') && SameBut(l.i, base, final, final')
    {
      var r: State :| KernelEnds(o, [l.Statement()], st, r) && Similar(base, r, final);
      var k, r' := UnrolledEndsToo(l, s, w, o, st, r);
      var final': State :| Halts(p', o, st, final') && Similar(base, r', final');
      EndsAreClose(l.i, base, k, r, r', final, final');
    }
  }

  lemma LoopHaltsLike(l: Loop, s: nat, w: Bounds, o: Oracle, st: State, base: nat, p: Program, p': Program)
    requires Enters(l, s, w, st) && GraphFollowsKernel([l.Statement()], base, p, o, st)
    requires KernelFollowsGraph(l.UnrolledFrom(w, s), base, p', o, st)
    ensures HaltsLike(l.i, base, p', p, o, st)
  {
    forall final': State | Halts(p', o, st, final')
      ensures exists final: State :: Halts(p, o, st, final) && SameBut(l.i, base, final', final)
    {
      var r': State :| KernelEnds(o, l.UnrolledFrom(w, s), st, r') && Similar(base, r', final');
      var k, r := LoopEndsToo(l, s, w, o, st, r');
      var final: State :| Halts(p, o, st, final) && Similar(base, r, final);
      EndsAreClose(l.i, base, k, r, r', final, final');
    }
  }

  /** Any graph the parser may build for the loop and any it may build for its unrolled form halt together, alike. */
  lemma LoweredUnrollingAgrees(l: Loop, s: nat, w: Bounds, o: Oracle, st: State, base: nat,
                               p: Program, c: Context, layout: ScopeLayout,
                               p': Program, c': Context, layout': ScopeLayout)
    requires Enters(l, s, w, st)
    requires IsLowering(p, [l.Statement()], base, c, layout)
    requires IsLowering(p', l.UnrolledFrom(w, s), base, c', layout')
    ensures HaltsLike(l.i, base, p, p', o, st) && HaltsLike(l.i, base, p', p, o, st)
  {
    LoweringPreservesMeaning(p, [l.Statement()], base, c, layout, o, st);
    LoweringPreservesMeaning(p', l.UnrolledFrom(w, s), base, c', layout', o, st);
    UnrolledHaltsLike(l, s, w, o, st, base, p, p');
    LoopHaltsLike(l, s, w, o, st, base, p, p');
  }

  // ---------------------------------------------------------------------------------------
  // What is registered for a loop
  // ---------------------------------------------------------------------------------------

  /** On entry the operands have the values `s`, `e` and, if there is a step, `t`. */
  ghost predicate GivenValues(l: Loop, s: nat, e: nat, t: Option<nat>, st: State) {
    && Get(st.store, l.start) == s && ToU32(Get(st.store, l.end)) == e && (l.step.Some? <==> t.Some?)
    && (l.step.Some? ==> ToU32(Get(st.store, l.step.value)) == t.value)
  }

  /** The value after the last index fits a word; without a step the loop counts by one. */
  ghost predicate IndexFits(l: Loop, s: nat, e: nat, t: Option<nat>)
    requires t != Some(0)
  {
    var stride := if t.Some? then t.value else 1;
    s + |Indices(s, e, stride, l.inclusive)| * stride < WORD
  }

  /** The loop and the statements end together and alike, but for the index variable. */
  ghost predicate EndsAlike(l: Loop, unrolled: seq<Stmt>, o: Oracle, st: State) {
    && (forall r: State :: KernelEnds(o, [l.Statement()], st, r) ==>
          exists k: int, r': State :: KernelEnds(o, unrolled, st, r') && Beside(l.i, k, r, r'))
    && (forall r': State :: KernelEnds(o, unrolled, st, r') ==>
          exists k: int, r: State :: KernelEnds(o, [l.Statement()], st, r) && Beside(l.i, k, r, r'))
  }

  /** Whatever graphs the parser builds for the loop and for the statements, they halt alike. */
  ghost predicate GraphsAlike(l: Loop, unrolled: seq<Stmt>, o: Oracle, st: State) {
    forall base: nat, p: Program, c: Context, layout: ScopeLayout, p': Program, c': Context, layout': ScopeLayout ::
      IsLowering(p, [l.Statement()], base, c, layout) && IsLowering(p', unrolled, base, c', layout') ==>
        HaltsLike(l.i, base, p, p', o, st) && HaltsLike(l.i, base, p', p, o, st)
  }

  lemma RegisteredEndsAlike(l: Loop, s: nat, w: Bounds, o: Oracle, st: State)
    requires Enters(l, s, w, st)
    ensures EndsAlike(l, l.UnrolledFrom(w, s), o, st)
  {
    forall r: State | KernelEnds(o, [l.Statement()], st, r)
      ensures exists k: int, r': State :: KernelEnds(o, l.UnrolledFrom(w, s), st, r') && Beside(l.i, k, r, r')
    {
      var k, r' := UnrolledEndsToo(l, s, w, o, st, r);
    }
    forall r': State | KernelEnds(o, l.UnrolledFrom(w, s), st, r')
      ensures exists k: int, r: State :: KernelEnds(o, [l.Statement()], st, r) && Beside(l.i, k, r, r')
    {
      var k, r := LoopEndsToo(l, s, w, o, st, r');
    }
  }

  lemma RegisteredGraphsAlike(l: Loop, s: nat, w: Bounds, o: Oracle, st: State)
    requires Enters(l, s, w, st)
    ensures GraphsAlike(l, l.UnrolledFrom(w, s), o, st)
  {
    forall base: nat, p: Program, c: Context, layout: ScopeLayout, p': Program, c': Context, layout': ScopeLayout |
      IsLowering(p, [l.Statement()], base, c, layout) && IsLowering(p', l.UnrolledFrom(w, s), base, c', layout')
      ensures HaltsLike(l.i, base, p, p', o, st) && HaltsLike(l.i, base, p', p, o, st)
    {
      LoweredUnrollingAgrees(l, s, w, o, st, base, p, c, layout, p', c', layout');
    }
  }

  /**
   Registers a loop in unrolled form for given operand values. Wherever the operands have those
   values, what is registered ends like the loop statement, and so do their graphs.
   */
  method RegisterLoop(l: Loop, s: nat, e: nat, t: Option<nat>) returns (r: Option<seq<Stmt>>)
    requires l.Proper() && (l.step.Some? <==> t.Some?) && s < WORD && (t != Some(0) ==> IndexFits(l, s, e, t))
    ensures r.None? <==> t == Some(0)
    ensures r.Some? ==> forall o: Oracle, st: State ::
              GivenValues(l, s, e, t, st) ==> EndsAlike(l, r.value, o, st) && GraphsAlike(l, r.value, o, st)
  {
    r := RegisterUnrolled(l.i, s, e, t, l.inclusive, l.Body());
    if r.Some? {
      ghost var w := Bounds(e, if t.Some? then t.value else 1);
      assert r.value == l.UnrolledFrom(w, s);
      forall o: Oracle, st: State | GivenValues(l, s, e, t, st)
        ensures EndsAlike(l, r.value, o, st) && GraphsAlike(l, r.value, o, st)
      {
        assert Enters(l, s, w, st);
        RegisteredEndsAlike(l, s, w, o, st);
        RegisteredGraphsAlike(l, s, w, o, st);
      }
    }
  }
}
