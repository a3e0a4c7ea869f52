/**
 Reduction of one slice by a single unit and by a whole cube through shared memory. The lines of
 the axis are elements of a commutative monoid, its unit being the null value of the instruction.
 */
module ReduceShared {
  import opened Arithmetic
  import opened Folds
  import opened SharedTree
  import Positions

  datatype LineMode = Parallel | Perpendicular

  datatype BoundChecks = Mask | Branch

  datatype ReduceRange = ReduceRange(indexStart: nat, indexStep: nat, coordinateStart: nat, coordinateEnd: nat,
                                     coordinateStep: nat)

  /** What a reduction of one slice starts from; `cubeDim` counts the units of a cube. */
  datatype Params = Params(mode: LineMode, lineSize: nat, cubeDim: nat, axisLength: nat, axisStride: nat,
                           indexStart: nat) {
    predicate Valid() {
      lineSize > 0 && cubeDim > 0
    }

    /** How many coordinates of the axis one line covers. */
    function Width(): nat {
      if mode.Parallel? then lineSize else 1
    }

    function Range(shared: bool): ReduceRange
      requires lineSize > 0
    {
      match mode
      case Parallel => ReduceRange(indexStart, 1, 0, axisLength, if shared then cubeDim * lineSize else lineSize)
      case Perpendicular => ReduceRange(indexStart, axisStride / lineSize, 0, axisLength, if shared then cubeDim else 1)
    }

    function Lines(): nat
      requires lineSize > 0
    {
      DivCeil(axisLength, Width())
    }

    /** The index of the `m`-th line of the axis. */
    function LineIndex(m: nat): nat
      requires lineSize > 0
    {
      indexStart + m * Range(false).indexStep
    }

    /** The tensor holds all lines of the axis. */
    predicate Holds<T>(items: seq<T>)
      requires lineSize > 0
    {
      forall m: nat :: m < Lines() ==> LineIndex(m) < |items|
    }
  }

  function LineAt<T>(p: Params, items: seq<T>, unit: T, m: nat): T
    requires p.Valid()
  {
    if m < p.Lines() && p.LineIndex(m) < |items| then items[p.LineIndex(m)] else unit
  }

  /** The reduction of all lines of the axis in order. */
  ghost function Reduction<T>(f: (T, T) -> T, unit: T, p: Params, items: seq<T>): T
    requires p.Valid()
  {
    Sum(f, unit, (m: nat) => LineAt(p, items, unit, m), p.Lines())
  }

  lemma ReductionIsFold<T>(f: (T, T) -> T, unit: T, p: Params, items: seq<T>, lines: seq<T>)
    requires p.Valid() && |lines| == p.Lines() && forall m: nat :: m < |lines| ==> lines[m] == LineAt(p, items, unit, m)
    ensures Reduction(f, unit, p, items) == Fold(f, [unit] + lines)
  {
    SumIsFold(f, unit, (m: nat) => LineAt(p, items, unit, m), lines);
  }

  lemma CeilingCounts(length: nat, width: nat, m: nat)
    requires width > 0
    ensures m * width < length <==> m < DivCeil(length, width)
  {
    var all := length + width - 1;
    var q, r := all / width, all % width;
    assert all == q * width + r;
    if m < q {
      ProductGrows(m + 1, q, width);
      assert (m + 1) * width == m * width + width;
    } else {
      ProductGrows(q, m, width);
    }
  }

  // ---------------------------------------------------------------------------------------
  // One unit
  // ---------------------------------------------------------------------------------------

  method ReduceSlice<T>(f: (T, T) -> T, unit: T, p: Params, items: seq<T>) returns (accumulator: T)
    requires p.Valid() && p.Holds(items)
    ensures accumulator == Reduction(f, unit, p, items)
  {
    var range := p.Range(false);
    accumulator := unit;
    var index := range.indexStart;
    var coordinate := range.coordinateStart;
    ghost var m: nat := 0;
    ghost var g := (m: nat) => LineAt(p, items, unit, m);
    while coordinate < range.coordinateEnd
      invariant coordinate == m * p.Width() && index == p.LineIndex(m) && m <= p.Lines()
      invariant accumulator == Sum(f, unit, g, m)
      decreases p.Lines() - m
    {
      CeilingCounts(p.axisLength, p.Width(), m);
      accumulator := f(accumulator, items[index]);
      index := index + range.indexStep;
      coordinate := coordinate + range.coordinateStep;
      NextLine(p, m);
      m := m + 1;
    }
    CeilingCounts(p.axisLength, p.Width(), m);
  }

  lemma NextLine(p: Params, m: nat)
    requires p.Valid()
    ensures (m + 1) * p.Width() == m * p.Width() + p.Width()
    ensures p.LineIndex(m + 1) == p.LineIndex(m) + p.Range(false).indexStep
  {
  }

  // ---------------------------------------------------------------------------------------
  // A cube: the units interleave freely, each on its own slot
  // ---------------------------------------------------------------------------------------

  /** The local variables of a unit; `rounds` counts the iterations it has finished. */
  datatype Local = Local(started: bool, firstCoordinate: nat, firstIndex: nat, rounds: nat)

  function Rounds(p: Params): nat
    requires p.Valid()
  {
    DivCeil(p.axisLength, p.Range(true).coordinateStep)
  }

  /** The lines that unit `u` meets in its first `n` iterations. */
  ghost function UnitSum<T>(f: (T, T) -> T, unit: T, p: Params, items: seq<T>, u: nat, n: nat): T
    requires p.Valid()
  {
    Sum(f, unit, (t: nat) => LineAt(p, items, unit, t * p.cubeDim + u), n)
  }

  ghost predicate UnitAt<T>(f: (T, T) -> T, unit: T, p: Params, items: seq<T>, mem: seq<T>, locals: seq<Local>, u: nat)
    requires p.Valid()
  {
    && u < |mem| && u < |locals|
    && var l := locals[u];
       && l.rounds <= Rounds(p)
       && (l.started ==> l.firstCoordinate == l.rounds * p.Range(true).coordinateStep)
       && (l.started ==> l.firstIndex == p.indexStart + l.rounds * (p.Range(true).indexStep * p.cubeDim))
       && if l.started then mem[u] == UnitSum(f, unit, p, items, u, l.rounds) else l.rounds == 0
  }

  ghost predicate CubeAt<T>(f: (T, T) -> T, unit: T, p: Params, items: seq<T>, mem: seq<T>, locals: seq<Local>)
    requires p.Valid()
  {
    && |mem| == |locals| == p.cubeDim
    && forall u: nat {:trigger UnitAt(f, unit, p, items, mem, locals, u)} ::
       u < p.cubeDim ==> UnitAt(f, unit, p, items, mem, locals, u)
  }

  predicate Finished(p: Params, l: Local)
    requires p.Valid()
  {
    l.started && !(l.firstCoordinate < p.axisLength)
  }

  /** Iterations and starts that are still to come. */
  function Remaining(p: Params, locals: seq<Local>): nat
    requires p.Valid()
  {
    if locals == [] then 0
    else
      var l := locals[|locals| - 1];
      Remaining(p, locals[..|locals| - 1]) + (if l.started then 0 else 1)
        + (if l.rounds <= Rounds(p) then Rounds(p) - l.rounds else 0)
  }

  lemma {:induction false} RemainingShrinks(p: Params, locals: seq<Local>, u: nat, l: Local)
    requires p.Valid() && u < |locals|
    requires (!locals[u].started && l.started && l.rounds == locals[u].rounds)
             || (locals[u].started && l.started && l.rounds == locals[u].rounds + 1 && locals[u].rounds < Rounds(p))
    ensures Remaining(p, locals[u := l]) < Remaining(p, locals)
    decreases |locals|
  {
    var last := |locals| - 1;
    if u == last {
      assert locals[u := l][..last] == locals[..last];
    } else {
      RemainingShrinks(p, locals[..last], u, l);
      assert locals[u := l][..last] == locals[..last][u := l];
    }
  }

  /** Where unit `u` looks in iteration `t`: line `t * cubeDim + u`, if there is one. */
  lemma UnitPosition(p: Params, u: nat, t: nat)
    requires p.Valid() && u < p.cubeDim
    ensures var m := t * p.cubeDim + u;
            && t * p.Range(true).coordinateStep + u * p.Width() == m * p.Width()
            && p.indexStart + t * (p.Range(true).indexStep * p.cubeDim) + u * p.Range(true).indexStep == p.LineIndex(m)
            && (m * p.Width() < p.axisLength <==> m < p.Lines())
  {
    var m, w, s := t * p.cubeDim + u, p.Width(), p.Range(true).indexStep;
    CeilingCounts(p.axisLength, w, m);
    assert p.Range(true).coordinateStep == p.cubeDim * w;
    Regroup(t, p.cubeDim, u, w);
    Regroup(t, p.cubeDim, u, s);
  }

  lemma Regroup(t: nat, d: nat, u: nat, w: nat)
    ensures t * (d * w) + u * w == (t * d + u) * w && t * (w * d) + u * w == (t * d + u) * w
  {
  }

  /** The line a unit reads; a masked unit reads line 0 and drops it. */
  method ReadItem<T>(checks: BoundChecks, unit: T, p: Params, items: seq<T>, unitCoordinate: nat, index: nat)
    returns (item: T)
    requires p.Valid() && p.Holds(items)
    requires p.axisLength > 0 && (unitCoordinate < p.axisLength ==> index < |items|)
    ensures item == if unitCoordinate < p.axisLength then items[index] else unit
  {
    match checks {
      case Mask =>
        var mask := unitCoordinate < p.axisLength;
        var index := index * (if mask then 1 else 0);
        CeilingCounts(p.axisLength, p.Width(), 0);
        assert p.LineIndex(0) < |items|;
        var read := items[index];
        item := if mask then read else unit;
      case Branch =>
        if unitCoordinate < p.axisLength {
          item := items[index];
        } else {
          item := unit;
        }
    }
  }

  /** The line unit `u` reads in the iteration it has come to. */
  method ReadUnitItem<T>(checks: BoundChecks, unit: T, p: Params, items: seq<T>, u: nat, l: Local) returns (item: T)
    requires p.Valid() && p.Holds(items) && u < p.cubeDim && l.started && l.firstCoordinate < p.axisLength
    requires l.firstCoordinate == l.rounds * p.Range(true).coordinateStep
    requires l.firstIndex == p.indexStart + l.rounds * (p.Range(true).indexStep * p.cubeDim)
    ensures item == LineAt(p, items, unit, l.rounds * p.cubeDim + u)
  {
    var offset := match p.mode case Parallel => u * p.lineSize case Perpendicular => u;
    var unitCoordinate, index := l.firstCoordinate + offset, l.firstIndex + u * p.Range(true).indexStep;
    UnitPosition(p, u, l.rounds);
    item := ReadItem(checks, unit, p, items, unitCoordinate, index);
  }

  function NextLocal(p: Params, l: Local): Local
    requires p.Valid()
  {
    var range := p.Range(true);
    if !l.started then Local(true, range.coordinateStart, range.indexStart, 0)
    else Local(true, l.firstCoordinate + range.coordinateStep, l.firstIndex + range.indexStep * p.cubeDim, l.rounds + 1)
  }

  /** What an iteration of unit `u` puts into its slot. */
  ghost function NextSlot<T>(f: (T, T) -> T, unit: T, p: Params, items: seq<T>, u: nat, l: Local, slot: T): T
    requires p.Valid()
  {
    if !l.started then unit else f(slot, LineAt(p, items, unit, l.rounds * p.cubeDim + u))
  }

  lemma UnitSteps<T>(f: (T, T) -> T, unit: T, p: Params, items: seq<T>, mem: seq<T>, locals: seq<Local>, u: nat)
    requires p.Valid() && UnitAt(f, unit, p, items, mem, locals, u) && !Finished(p, locals[u])
    ensures var l := NextLocal(p, locals[u]);
            && UnitAt(f, unit, p, items, mem[u := NextSlot(f, unit, p, items, u, locals[u], mem[u])], locals[u := l], u)
            && Remaining(p, locals[u := l]) < Remaining(p, locals)
  {
    var l := locals[u];
    CeilingCounts(p.axisLength, p.Range(true).coordinateStep, l.rounds);
    NextRound(p, l.rounds);
    UnitSumGrows(f, unit, p, items, u, l.rounds);
    RemainingShrinks(p, locals, u, NextLocal(p, l));
  }

  /** One iteration of unit `u`. */
  method StepUnitShared<T>(f: (T, T) -> T, unit: T, p: Params, items: seq<T>, checks: BoundChecks,
                           accumulator: array<T>, u: nat, l: Local, ghost locals: seq<Local>)
    returns (l': Local)
    requires p.Valid() && p.Holds(items) && u < accumulator.Length && u < p.cubeDim && u < |locals| && l == locals[u]
    requires !Finished(p, l)
    requires UnitAt(f, unit, p, items, accumulator[..], locals, u)
    modifies accumulator
    ensures l' == NextLocal(p, l)
    ensures accumulator[..] == old(accumulator[..])[u := NextSlot(f, unit, p, items, u, l, old(accumulator[u]))]
  {
    var range := p.Range(true);
    if !l.started {
      accumulator[u] := unit;
      l' := Local(true, range.coordinateStart, range.indexStart, 0);
    } else {
      var item := ReadUnitItem(checks, unit, p, items, u, l);
      accumulator[u] := f(accumulator[u], item);
      l' := Local(true, l.firstCoordinate + range.coordinateStep, l.firstIndex + range.indexStep * p.cubeDim,
        l.rounds + 1);
    }
  }

  lemma NextRound(p: Params, t: nat)
    requires p.Valid()
    ensures (t + 1) * p.Range(true).coordinateStep == t * p.Range(true).coordinateStep + p.Range(true).coordinateStep
    ensures var s := p.Range(true).indexStep * p.cubeDim; (t + 1) * s == t * s + s
  {
  }

  lemma UnitSumGrows<T>(f: (T, T) -> T, unit: T, p: Params, items: seq<T>, u: nat, n: nat)
    requires p.Valid()
    ensures UnitSum(f, unit, p, items, u, 0) == unit
    ensures UnitSum(f, unit, p, items, u, n + 1) ==
            f(UnitSum(f, unit, p, items, u, n), LineAt(p, items, unit, n * p.cubeDim + u))
  {
    var g := (t: nat) => LineAt(p, items, unit, t * p.cubeDim + u);
    assert Sum(f, unit, g, n + 1) == f(Sum(f, unit, g, n), g(n));
  }

  lemma OthersStay<T>(f: (T, T) -> T, unit: T, p: Params, items: seq<T>, mem: seq<T>, now: seq<T>, locals: seq<Local>,
                      u: nat, l: Local)
    requires p.Valid() && CubeAt(f, unit, p, items, mem, locals) && u < p.cubeDim && |now| == |mem|
    requires now == mem[u := now[u]]
    requires UnitAt(f, unit, p, items, now, locals[u := l], u)
    ensures CubeAt(f, unit, p, items, now, locals[u := l])
  {
    var locals' := locals[u := l];
    forall v: nat | v < p.cubeDim
      ensures UnitAt(f, unit, p, items, now, locals', v)
    {
      assert UnitAt(f, unit, p, items, mem, locals, v);
    }
  }

  /** All units of a cube up to the barrier, interleaved in any way. */
  method ReduceSliceShared<T>(f: (T, T) -> T, unit: T, p: Params, items: seq<T>, checks: BoundChecks,
                              accumulator: array<T>)
    requires p.Valid() && p.Holds(items) && accumulator.Length == p.cubeDim
    modifies accumulator
    ensures forall u: nat :: u < p.cubeDim ==> accumulator[u] == UnitSum(f, unit, p, items, u, Rounds(p))
  {
    var locals := seq(p.cubeDim, _ => Local(false, 0, 0, 0));
    NoneStarted(f, unit, p, items, accumulator[..], locals);
    while exists u :: 0 <= u < p.cubeDim && !Finished(p, locals[u])
      invariant CubeAt(f, unit, p, items, accumulator[..], locals)
      decreases Remaining(p, locals)
    {
      var u :| 0 <= u < p.cubeDim && !Finished(p, locals[u]);
      ghost var mem := accumulator[..];
      assert UnitAt(f, unit, p, items, mem, locals, u);
      UnitSteps(f, unit, p, items, mem, locals, u);
      var l := StepUnitShared(f, unit, p, items, checks, accumulator, u, locals[u], locals);
      OthersStay(f, unit, p, items, mem, accumulator[..], locals, u, l);
      locals := locals[u := l];
    }
    forall u: nat | u < p.cubeDim
      ensures accumulator[u] == UnitSum(f, unit, p, items, u, Rounds(p))
    {
      assert UnitAt(f, unit, p, items, accumulator[..], locals, u);
      assert Finished(p, locals[u]);
      CeilingCounts(p.axisLength, p.Range(true).coordinateStep, locals[u].rounds);
    }
  }

  lemma NoneStarted<T>(f: (T, T) -> T, unit: T, p: Params, items: seq<T>, mem: seq<T>, locals: seq<Local>)
    requires p.Valid() && |mem| == |locals| == p.cubeDim
    requires forall u :: 0 <= u < |locals| ==> locals[u] == Local(false, 0, 0, 0)
    ensures CubeAt(f, unit, p, items, mem, locals)
  {
    forall u: nat | u < p.cubeDim
      ensures UnitAt(f, unit, p, items, mem, locals, u)
    {
    }
  }

  // ---------------------------------------------------------------------------------------
  // The cube computes what a single unit would
  // ---------------------------------------------------------------------------------------

  /** The lines past the end of the axis, which every round may meet, add nothing. */
  lemma RoundsCoverLines(p: Params)
    requires p.Valid()
    ensures p.Lines() <= Rounds(p) * p.cubeDim
  {
    var all := Rounds(p) * p.cubeDim;
    CeilingCounts(p.axisLength, p.Range(true).coordinateStep, Rounds(p));
    CeilingCounts(p.axisLength, p.Width(), all);
    assert p.Range(true).coordinateStep == p.cubeDim * p.Width();
    Regroup(Rounds(p), p.cubeDim, 0, p.Width());
  }

  lemma {:induction false} PaddingAddsNothing<T(!new)>(f: (T, T) -> T, unit: T, p: Params, g: nat -> T, n: nat)
    requires CommutativeMonoid(f, unit) && p.Valid() && p.Lines() <= n
    requires forall m: nat :: m >= p.Lines() ==> g(m) == unit
    ensures Sum(f, unit, g, n) == Sum(f, unit, g, p.Lines())
    decreases n
  {
    if p.Lines() < n {
      PaddingAddsNothing(f, unit, p, g, n - 1);
      assert Commutes(f, Sum(f, unit, g, n - 1), unit);
    }
  }

  /** Line `m` is read by unit `u` in round `t`. */
  ghost predicate IsRead(p: Params, m: nat, t: nat, u: nat)
    requires p.Valid()
  {
    t < Rounds(p) && u < p.cubeDim && t * p.cubeDim + u == m
  }

  /** Every line of the axis is read by exactly one unit in exactly one round. */
  lemma LineIsReadOnce(p: Params, m: nat)
    requires p.Valid() && m < p.Lines()
    ensures exists t: nat, u: nat :: IsRead(p, m, t, u) && forall t': nat, u': nat ::
            IsRead(p, m, t', u') ==> t' == t && u' == u
  {
    RoundsCoverLines(p);
    Positions.RowsSplit(Rounds(p), p.cubeDim, m);
    var t, u := m / p.cubeDim, m % p.cubeDim;
    assert IsRead(p, m, t, u);
    forall t': nat, u': nat | IsRead(p, m, t', u')
      ensures t' == t && u' == u
    {
      QuotientIsUnique(p.cubeDim, t', u');
    }
  }

  /** The sums of the units make up the reduction of all lines. */
  lemma UnitSumsAddUp<T(!new)>(f: (T, T) -> T, unit: T, p: Params, items: seq<T>, part: (nat, nat) -> T)
    requires CommutativeMonoid(f, unit) && p.Valid()
    requires forall t: nat, u: nat :: part(t, u) == UnitSum(f, unit, p, items, u, t)
    ensures AcrossSum(f, unit, part, Rounds(p), p.cubeDim) == Reduction(f, unit, p, items)
  {
    var g, n, start := (m: nat) => LineAt(p, items, unit, m), Rounds(p), (t: nat) => t * p.cubeDim;
    MultiplesCutRows(start, p.cubeDim);
    forall t: nat, u: nat
      ensures AddsAt(f, g, start, part, t, u)
    {
      UnitSumGrows(f, unit, p, items, u, t);
    }
    SumColumns(f, unit, g, start, part, n, p.cubeDim);
    RoundsCoverLines(p);
    PaddingAddsNothing(f, unit, p, g, start(n));
  }

  /** A whole cube: the units reduce their lines, wait for each other, and fold the shared memory. */
  method ReduceCube<T(!new)>(f: (T, T) -> T, unit: T, p: Params, items: seq<T>, checks: BoundChecks) returns (r: T)
    requires CommutativeMonoid(f, unit) && p.Valid() && p.Holds(items)
    ensures r == Reduction(f, unit, p, items)
  {
    var accumulator := new T[p.cubeDim](_ => unit);
    ReduceSliceShared(f, unit, p, items, checks, accumulator);
    ghost var mem := accumulator[..];
    r := ReduceTree(f, accumulator, p.cubeDim, p.cubeDim);
    assert mem[..p.cubeDim] == mem;
    ghost var part := (t: nat, u: nat) => UnitSum(f, unit, p, items, u, t);
    AcrossIsFold(f, unit, part, Rounds(p), mem);
    UnitSumsAddUp(f, unit, p, items, part);
  }
}
