/**
 The tree reduction of a cube's shared memory: in every round each active unit fuses two slots,
 and a barrier ends the round. Within a round the units may run in any order and interleave at
 every single load and store.
 */
module SharedTree {
  import opened Arithmetic
  import opened Folds

  function Destination(jump: nat, unitPos: nat): nat {
    jump * 2 * unitPos
  }

  function Origin(jump: nat, unitPos: nat): nat {
    jump * (2 * unitPos + 1)
  }

  lemma OriginFollows(jump: nat, unitPos: nat)
    ensures Origin(jump, unitPos) == Destination(jump, unitPos) + jump
  {
  }

  lemma {:induction false} DestinationsGrow(jump: nat, u: nat, v: nat)
    requires u < v
    ensures Destination(jump, u) + 2 * jump <= Destination(jump, v)
    decreases v
  {
    assert jump * 2 * v == jump * 2 * (v - 1) + 2 * jump;
    if u < v - 1 {
      DestinationsGrow(jump, u, v - 1);
    }
  }

  /** In a round no active unit touches a slot that another one writes. */
  lemma UnitsAreApart(jump: nat, u: nat, v: nat)
    requires jump > 0 && u != v
    ensures Destination(jump, u) != Destination(jump, v) && Origin(jump, u) != Destination(jump, v)
  {
    OriginFollows(jump, u);
    if u < v {
      DestinationsGrow(jump, u, v);
    } else {
      DestinationsGrow(jump, v, u);
    }
  }

  /** A unit does not write the slot it reads besides. */
  lemma OriginIsApart(jump: nat, u: nat, v: nat)
    requires jump > 0
    ensures Origin(jump, u) != Destination(jump, v)
  {
    OriginFollows(jump, u);
    if u != v {
      UnitsAreApart(jump, u, v);
    }
  }

  ghost predicate IsDestination(jump: nat, active: nat, i: nat) {
    exists u: nat :: u < active && i == Destination(jump, u)
  }

  /** All active units stay within the memory. */
  ghost predicate InBounds(size: nat, jump: nat, active: nat) {
    forall u: nat :: u < active ==> Origin(jump, u) < size
  }

  /** The memory after a round. */
  ghost function Round<T>(f: (T, T) -> T, mem: seq<T>, jump: nat, active: nat): (r: seq<T>)
    requires InBounds(|mem|, jump, active)
    ensures |r| == |mem|
  {
    seq(|mem|, i requires 0 <= i < |mem| => RoundAt(f, mem, jump, active, i))
  }

  ghost function RoundAt<T>(f: (T, T) -> T, mem: seq<T>, jump: nat, active: nat, i: nat): T
    requires InBounds(|mem|, jump, active) && i < |mem|
  {
    if u: nat :| u < active && i == Destination(jump, u) then f(mem[i], mem[Origin(jump, u)]) else mem[i]
  }

  lemma RoundAtDestination<T>(f: (T, T) -> T, mem: seq<T>, jump: nat, active: nat, u: nat)
    requires InBounds(|mem|, jump, active) && jump > 0 && u < active
    ensures Destination(jump, u) < |mem| && Origin(jump, u) < |mem|
    ensures Round(f, mem, jump, active)[Destination(jump, u)] == f(mem[Destination(jump, u)], mem[Origin(jump, u)])
  {
    OriginFollows(jump, u);
    forall v: nat | v < active && Destination(jump, v) == Destination(jump, u)
      ensures v == u
    {
      if v != u {
        UnitsAreApart(jump, u, v);
      }
    }
  }

  lemma RoundElsewhere<T>(f: (T, T) -> T, mem: seq<T>, jump: nat, active: nat, i: nat)
    requires InBounds(|mem|, jump, active) && i < |mem| && !IsDestination(jump, active, i)
    ensures Round(f, mem, jump, active)[i] == mem[i]
  {
  }

  // ---------------------------------------------------------------------------------------
  // Every interleaving of a round
  // ---------------------------------------------------------------------------------------

  /** How far a unit has come: it loads its destination, then its origin, and stores the result. */
  datatype UnitState<T> = Ready | LoadedOne(a: T) | LoadedBoth(a: T, b: T) | Done

  datatype Phase<T> = Phase(mem: seq<T>, units: seq<UnitState<T>>)

  /** One step of one unit; units that are not active do nothing. */
  function StepUnit<T>(f: (T, T) -> T, jump: nat, active: nat, s: Phase<T>, u: nat): Phase<T> {
    var d, o := Destination(jump, u), Origin(jump, u);
    if u >= active || u >= |s.units| || d >= |s.mem| || o >= |s.mem| then s
    else
      match s.units[u]
      case Ready => s.(units := s.units[u := LoadedOne(s.mem[d])])
      case LoadedOne(a) => s.(units := s.units[u := LoadedBoth(a, s.mem[o])])
      case LoadedBoth(a, b) => Phase(s.mem[d := f(a, b)], s.units[u := Done])
      case Done => s
  }

  /** What holds for unit `u` at any moment of a round that started with `mem`. */
  ghost predicate UnitOnCourse<T>(f: (T, T) -> T, jump: nat, mem: seq<T>, s: Phase<T>, u: nat) {
    var d, o := Destination(jump, u), Origin(jump, u);
    && u < |s.units| && d < |mem| && o < |mem| && |s.mem| == |mem|
    && match s.units[u]
       case Ready => s.mem[d] == mem[d]
       case LoadedOne(a) => s.mem[d] == mem[d] && a == mem[d]
       case LoadedBoth(a, b) => s.mem[d] == mem[d] && a == mem[d] && b == mem[o]
       case Done => s.mem[d] == f(mem[d], mem[o])
  }

  ghost predicate OnCourse<T>(f: (T, T) -> T, jump: nat, active: nat, mem: seq<T>, s: Phase<T>) {
    && |s.mem| == |mem| && active <= |s.units|
    && (forall u: nat {:trigger UnitOnCourse(f, jump, mem, s, u)} :: u < active ==> UnitOnCourse(f, jump, mem, s, u))
    && (forall i: nat :: i < |mem| && !IsDestination(jump, active, i) ==> s.mem[i] == mem[i])
  }

  lemma StepKeepsCourse<T>(f: (T, T) -> T, jump: nat, active: nat, mem: seq<T>, s: Phase<T>, u: nat)
    requires jump > 0 && OnCourse(f, jump, active, mem, s)
    ensures OnCourse(f, jump, active, mem, StepUnit(f, jump, active, s, u))
  {
    var s', d, o := StepUnit(f, jump, active, s, u), Destination(jump, u), Origin(jump, u);
    if u < active {
      assert UnitOnCourse(f, jump, mem, s, u);
      assert !IsDestination(jump, active, o) by {
        forall v: nat | v < active
          ensures o != Destination(jump, v)
        {
          OriginIsApart(jump, u, v);
        }
      }
      assert IsDestination(jump, active, d);
      forall v: nat | v < active
        ensures UnitOnCourse(f, jump, mem, s', v)
      {
        assert UnitOnCourse(f, jump, mem, s, v);
        if v != u {
          UnitsAreApart(jump, u, v);
        }
      }
    }
  }

  /** The start of a round. */
  ghost predicate Starts<T>(units: nat, mem: seq<T>, s: Phase<T>) {
    s.mem == mem && |s.units| == units && forall u :: 0 <= u < units ==> s.units[u] == Ready
  }

  lemma StartsOnCourse<T>(f: (T, T) -> T, jump: nat, active: nat, units: nat, mem: seq<T>, s: Phase<T>)
    requires active <= units && InBounds(|mem|, jump, active) && Starts(units, mem, s)
    ensures OnCourse(f, jump, active, mem, s)
  {
    forall u: nat | u < active
      ensures UnitOnCourse(f, jump, mem, s, u)
    {
      OriginFollows(jump, u);
    }
  }

  lemma EndOfCourse<T>(f: (T, T) -> T, jump: nat, active: nat, mem: seq<T>, s: Phase<T>)
    requires jump > 0 && InBounds(|mem|, jump, active) && OnCourse(f, jump, active, mem, s)
    requires forall u :: 0 <= u < active ==> s.units[u].Done?
    ensures s.mem == Round(f, mem, jump, active)
  {
    forall i: nat | i < |mem|
      ensures s.mem[i] == Round(f, mem, jump, active)[i]
    {
      if u: nat :| u < active && i == Destination(jump, u) {
        RoundAtDestination(f, mem, jump, active, u);
        assert UnitOnCourse(f, jump, mem, s, u);
      } else {
        RoundElsewhere(f, mem, jump, active, i);
      }
    }
  }

  ghost predicate AllDone<T>(active: nat, s: Phase<T>) {
    active <= |s.units| && forall u :: 0 <= u < active ==> s.units[u].Done?
  }

  // ---------------------------------------------------------------------------------------
  // The rounds together
  // ---------------------------------------------------------------------------------------

  /** The end of the `k`-th segment of length `jump`. */
  function SegmentEnd(size: nat, jump: nat, k: nat): nat {
    if jump * (k + 1) <= size then jump * (k + 1) else size
  }

  /** Slot `jump * k` holds the fold of its segment of the first `size` slots of `mem0`. */
  ghost predicate SlotHolds<T>(f: (T, T) -> T, mem0: seq<T>, mem: seq<T>, size: nat, jump: nat, k: nat) {
    && jump * k < SegmentEnd(size, jump, k) <= |mem0| && |mem| == |mem0|
    && mem[jump * k] == Fold(f, mem0[jump * k..SegmentEnd(size, jump, k)])
  }

  /** After some rounds: `remaining` segments of length `jump` cover the first `size` slots. */
  ghost predicate Halfway<T>(f: (T, T) -> T, mem0: seq<T>, mem: seq<T>, size: nat, jump: nat, remaining: nat) {
    && 1 <= size <= |mem0| && |mem| == |mem0| && jump > 0
    && remaining > 0 && jump * (remaining - 1) < size <= jump * remaining
    && (forall k: nat {:trigger SlotHolds(f, mem0, mem, size, jump, k)} ::
       k < remaining ==> SlotHolds(f, mem0, mem, size, jump, k))
    && forall i :: size <= i < |mem0| ==> mem[i] == mem0[i]
  }

  lemma RoundStaysInside<T>(f: (T, T) -> T, mem0: seq<T>, mem: seq<T>, size: nat, jump: nat, remaining: nat, u: nat)
    requires Halfway(f, mem0, mem, size, jump, remaining) && u < remaining / 2
    ensures Destination(jump, u) == jump * (2 * u) && Origin(jump, u) == jump * (2 * u + 1) < size
  {
    assert 2 * u + 1 <= remaining - 1;
    assert jump * (2 * u + 1) <= jump * (remaining - 1);
  }

  lemma RoundIsInBounds<T>(f: (T, T) -> T, mem0: seq<T>, mem: seq<T>, size: nat, jump: nat, remaining: nat)
    requires Halfway(f, mem0, mem, size, jump, remaining)
    ensures InBounds(size, jump, remaining / 2) && InBounds(|mem|, jump, remaining / 2)
  {
    forall u: nat | u < remaining / 2
      ensures Origin(jump, u) < size
    {
      RoundStaysInside(f, mem0, mem, size, jump, remaining, u);
    }
  }

  /** Two neighbouring segments become one. */
  lemma SegmentsFuse<T(!new)>(f: (T, T) -> T, mem0: seq<T>, mem: seq<T>, size: nat, jump: nat, remaining: nat, k: nat)
    requires Associative(f) && Halfway(f, mem0, mem, size, jump, remaining) && k < remaining / 2
    requires InBounds(|mem|, jump, remaining / 2)
    ensures SlotHolds(f, mem0, Round(f, mem, jump, remaining / 2), size, 2 * jump, k)
  {
    var i, j := jump * (2 * k), jump * (2 * k + 1);
    RoundStaysInside(f, mem0, mem, size, jump, remaining, k);
    RoundAtDestination(f, mem, jump, remaining / 2, k);
    assert SlotHolds(f, mem0, mem, size, jump, 2 * k) && SlotHolds(f, mem0, mem, size, jump, 2 * k + 1);
    assert 2 * jump * k == i && jump * (2 * k + 2) == 2 * jump * (k + 1);
    var end := SegmentEnd(size, 2 * jump, k);
    assert SegmentEnd(size, jump, 2 * k) == j && SegmentEnd(size, jump, 2 * k + 1) == end;
    FoldConcat(f, mem0[i..j], mem0[j..end]);
    assert mem0[i..j] + mem0[j..end] == mem0[i..end];
  }

  /** A segment without a neighbour stays as it is. */
  lemma LastSegmentStays<T>(f: (T, T) -> T, mem0: seq<T>, mem: seq<T>, size: nat, jump: nat, remaining: nat, k: nat)
    requires Halfway(f, mem0, mem, size, jump, remaining) && k == remaining / 2 && remaining % 2 == 1
    requires InBounds(|mem|, jump, remaining / 2)
    ensures SlotHolds(f, mem0, Round(f, mem, jump, remaining / 2), size, 2 * jump, k)
  {
    var i := jump * (2 * k);
    assert 2 * jump * k == i && jump * (2 * k + 1) <= 2 * jump * (k + 1);
    assert SlotHolds(f, mem0, mem, size, jump, 2 * k);
    forall u: nat | u < remaining / 2
      ensures i != Destination(jump, u)
    {
      DestinationsGrow(jump, u, k);
    }
    RoundElsewhere(f, mem, jump, remaining / 2, i);
  }

  lemma RoundLeavesTheRest<T>(f: (T, T) -> T, mem0: seq<T>, mem: seq<T>, size: nat, jump: nat, remaining: nat, i: nat)
    requires Halfway(f, mem0, mem, size, jump, remaining) && InBounds(|mem|, jump, remaining / 2) && size <= i < |mem|
    ensures Round(f, mem, jump, remaining / 2)[i] == mem[i]
  {
    forall u: nat | u < remaining / 2
      ensures i != Destination(jump, u)
    {
      RoundStaysInside(f, mem0, mem, size, jump, remaining, u);
      OriginFollows(jump, u);
    }
    RoundElsewhere(f, mem, jump, remaining / 2, i);
  }

  /** A round halves the number of segments, rounding up. */
  lemma RoundGoesOn<T(!new)>(f: (T, T) -> T, mem0: seq<T>, mem: seq<T>, size: nat, jump: nat, remaining: nat)
    requires Associative(f) && Halfway(f, mem0, mem, size, jump, remaining) && remaining > 1
    requires InBounds(|mem|, jump, remaining / 2)
    ensures Halfway(f, mem0, Round(f, mem, jump, remaining / 2), size, 2 * jump, DivCeil(remaining, 2))
  {
    var mem', next := Round(f, mem, jump, remaining / 2), DivCeil(remaining, 2);
    forall k: nat | k < next
      ensures SlotHolds(f, mem0, mem', size, 2 * jump, k)
    {
      if k < remaining / 2 {
        SegmentsFuse(f, mem0, mem, size, jump, remaining, k);
      } else {
        LastSegmentStays(f, mem0, mem, size, jump, remaining, k);
      }
    }
    forall i | size <= i < |mem0|
      ensures mem'[i] == mem0[i]
    {
      RoundLeavesTheRest(f, mem0, mem, size, jump, remaining, i);
    }
    SegmentsCover(size, jump, remaining, next);
  }

  lemma SegmentsCover(size: nat, jump: nat, remaining: nat, next: nat)
    requires jump > 0 && remaining > 1 && jump * (remaining - 1) < size <= jump * remaining
    requires next == DivCeil(remaining, 2)
    ensures 2 * jump * (next - 1) < size <= 2 * jump * next
  {
    assert 2 * (next - 1) <= remaining - 1 && remaining <= 2 * next;
    assert jump * (2 * (next - 1)) <= jump * (remaining - 1);
    assert jump * remaining <= jump * (2 * next);
  }

  lemma FirstSlots<T>(f: (T, T) -> T, mem: seq<T>, size: nat)
    requires 1 <= size <= |mem|
    ensures Halfway(f, mem, mem, size, 1, size)
  {
    forall k: nat | k < size
      ensures SlotHolds(f, mem, mem, size, 1, k)
    {
    }
  }

  /** When one segment is left, slot 0 holds the fold of all. */
  lemma LastSlot<T>(f: (T, T) -> T, mem0: seq<T>, mem: seq<T>, size: nat, jump: nat)
    requires Halfway(f, mem0, mem, size, jump, 1)
    ensures mem[0] == Fold(f, mem0[..size])
  {
    assert SlotHolds(f, mem0, mem, size, jump, 0);
  }

  // ---------------------------------------------------------------------------------------
  // Every schedule of the whole reduction
  // ---------------------------------------------------------------------------------------

  /** The round that folds `remaining` segments of length `jump`, in progress. */
  datatype Tree<T> = Tree(phase: Phase<T>, jump: nat, remaining: nat)

  /** A step of some unit, or the barrier, which lets no unit pass before all have arrived. */
  datatype TreeStep = UnitStep(unitPos: nat) | Barrier

  function Waiting<T>(units: nat): (r: seq<UnitState<T>>)
    ensures |r| == units && forall u :: 0 <= u < units ==> r[u] == Ready
  {
    seq(units, _ => Ready)
  }

  ghost function StepTree<T>(f: (T, T) -> T, t: Tree<T>, step: TreeStep): Tree<T> {
    if t.remaining <= 1 then t
    else
      match step
      case UnitStep(u) => t.(phase := StepUnit(f, t.jump, t.remaining / 2, t.phase, u))
      case Barrier =>
        if AllDone(t.remaining / 2, t.phase) then
          Tree(Phase(t.phase.mem, Waiting(|t.phase.units|)), 2 * t.jump, DivCeil(t.remaining, 2))
        else t
  }

  ghost function RunTree<T>(f: (T, T) -> T, t: Tree<T>, schedule: seq<TreeStep>): Tree<T> {
    if schedule == [] then t else StepTree(f, RunTree(f, t, schedule[..|schedule| - 1]), schedule[|schedule| - 1])
  }

  /** The round in progress started from `mem`, which earlier rounds made of `mem0`. */
  ghost predicate TreeFrom<T>(f: (T, T) -> T, mem0: seq<T>, size: nat, mem: seq<T>, t: Tree<T>) {
    && Halfway(f, mem0, mem, size, t.jump, t.remaining) && t.remaining / 2 <= |t.phase.units|
    && OnCourse(f, t.jump, t.remaining / 2, mem, t.phase)
  }

  ghost predicate TreeOnCourse<T(!new)>(f: (T, T) -> T, mem0: seq<T>, size: nat, t: Tree<T>) {
    exists mem: seq<T> :: TreeFrom(f, mem0, size, mem, t)
  }

  lemma BarrierGoesOn<T(!new)>(f: (T, T) -> T, mem0: seq<T>, size: nat, mem: seq<T>, t: Tree<T>)
    requires Associative(f) && TreeFrom(f, mem0, size, mem, t) && t.remaining > 1 && AllDone(t.remaining / 2, t.phase)
    ensures TreeFrom(f, mem0, size, t.phase.mem, StepTree(f, t, Barrier))
  {
    var next := StepTree(f, t, Barrier);
    RoundIsInBounds(f, mem0, mem, size, t.jump, t.remaining);
    EndOfCourse(f, t.jump, t.remaining / 2, mem, t.phase);
    RoundGoesOn(f, mem0, mem, size, t.jump, t.remaining);
    RoundIsInBounds(f, mem0, next.phase.mem, size, next.jump, next.remaining);
    StartsOnCourse(f, next.jump, next.remaining / 2, |t.phase.units|, t.phase.mem, next.phase);
  }

  lemma TreeStepKeepsCourse<T(!new)>(f: (T, T) -> T, mem0: seq<T>, size: nat, t: Tree<T>, step: TreeStep)
    requires Associative(f) && TreeOnCourse(f, mem0, size, t)
    ensures TreeOnCourse(f, mem0, size, StepTree(f, t, step))
  {
    var mem: seq<T> :| TreeFrom(f, mem0, size, mem, t);
    if t.remaining > 1 {
      match step
      case UnitStep(u) =>
        StepKeepsCourse(f, t.jump, t.remaining / 2, mem, t.phase, u);
        assert TreeFrom(f, mem0, size, mem, StepTree(f, t, step));
      case Barrier =>
        if AllDone(t.remaining / 2, t.phase) {
          BarrierGoesOn(f, mem0, size, mem, t);
        }
    }
  }

  /** The reduction before its first step. */
  ghost predicate TreeStarts<T>(mem: seq<T>, size: nat, t: Tree<T>) {
    Starts(|t.phase.units|, mem, t.phase) && size <= |t.phase.units| && t.jump == 1 && t.remaining == size
  }

  lemma TreeStartsOnCourse<T(!new)>(f: (T, T) -> T, mem: seq<T>, size: nat, t: Tree<T>)
    requires 1 <= size <= |mem| && TreeStarts(mem, size, t)
    ensures TreeOnCourse(f, mem, size, t)
  {
    FirstSlots(f, mem, size);
    RoundIsInBounds(f, mem, mem, size, 1, size);
    StartsOnCourse(f, 1, size / 2, |t.phase.units|, mem, t.phase);
    assert TreeFrom(f, mem, size, mem, t);
  }

  lemma {:induction false} ScheduleKeepsTree<T(!new)>(f: (T, T) -> T, mem0: seq<T>, size: nat, t: Tree<T>,
                                                      schedule: seq<TreeStep>)
    requires Associative(f) && TreeOnCourse(f, mem0, size, t)
    ensures TreeOnCourse(f, mem0, size, RunTree(f, t, schedule))
  {
    if schedule != [] {
      var last := |schedule| - 1;
      ScheduleKeepsTree(f, mem0, size, t, schedule[..last]);
      TreeStepKeepsCourse(f, mem0, size, RunTree(f, t, schedule[..last]), schedule[last]);
    }
  }

  /** Once one segment is left, slot 0 holds the fold of all slots in order. */
  lemma FinishedTreeHolds<T(!new)>(f: (T, T) -> T, mem0: seq<T>, size: nat, t: Tree<T>)
    requires TreeOnCourse(f, mem0, size, t) && t.remaining == 1
    ensures t.phase.mem != [] && t.phase.mem[0] == Fold(f, mem0[..size])
  {
    var mem: seq<T> :| TreeFrom(f, mem0, size, mem, t);
    LastSlot(f, mem0, mem, size, t.jump);
    assert !IsDestination(t.jump, 0, 0);
  }

  /**
   However the loads, stores and barriers of all rounds are scheduled, a finished reduction holds
   the fold in slot 0.
   */
  lemma EveryTreeScheduleFolds<T(!new)>(f: (T, T) -> T, mem: seq<T>, size: nat, t: Tree<T>, schedule: seq<TreeStep>)
    requires Associative(f) && 1 <= size <= |mem| && TreeStarts(mem, size, t) && RunTree(f, t, schedule).remaining == 1
    ensures var r := RunTree(f, t, schedule).phase.mem; r != [] && r[0] == Fold(f, mem[..size])
  {
    TreeStartsOnCourse(f, mem, size, t);
    ScheduleKeepsTree(f, mem, size, t, schedule);
    FinishedTreeHolds(f, mem, size, RunTree(f, t, schedule));
  }

  /** While segments are left to fold, some step makes progress: no schedule runs into a dead end. */
  lemma TreeIsNeverStuck<T(!new)>(f: (T, T) -> T, mem0: seq<T>, size: nat, t: Tree<T>)
    requires TreeOnCourse(f, mem0, size, t) && t.remaining > 1
    ensures exists step: TreeStep :: StepTree(f, t, step) != t
  {
    var mem: seq<T> :| TreeFrom(f, mem0, size, mem, t);
    if AllDone(t.remaining / 2, t.phase) {
      assert StepTree(f, t, Barrier).remaining != t.remaining;
    } else {
      var u: nat :| u < t.remaining / 2 && !t.phase.units[u].Done?;
      assert UnitOnCourse(f, t.jump, mem, t.phase, u);
      assert StepUnit(f, t.jump, t.remaining / 2, t.phase, u).units[u] != t.phase.units[u];
      assert StepTree(f, t, UnitStep(u)) != t;
    }
  }

  // ---------------------------------------------------------------------------------------
  // The reduction
  // ---------------------------------------------------------------------------------------

  /** While a round runs: the units in `todo` have not run yet. */
  ghost predicate Fused<T>(f: (T, T) -> T, jump: nat, mem: seq<T>, now: seq<T>, todo: set<nat>, u: nat) {
    var d, o := Destination(jump, u), Origin(jump, u);
    d < |mem| && o < |mem| && |now| == |mem| && now[d] == if u in todo then mem[d] else f(mem[d], mem[o])
  }

  ghost predicate PartlyRun<T>(f: (T, T) -> T, jump: nat, active: nat, mem: seq<T>, now: seq<T>, todo: set<nat>) {
    && |now| == |mem|
    && (forall u: nat {:trigger Fused(f, jump, mem, now, todo, u)} :: u < active ==> Fused(f, jump, mem, now, todo, u))
    && (forall i: nat :: i < |mem| && !IsDestination(jump, active, i) ==> now[i] == mem[i])
  }

  lemma UnitFuses<T>(f: (T, T) -> T, jump: nat, active: nat, mem: seq<T>, now: seq<T>, todo: set<nat>, u: nat)
    requires jump > 0 && PartlyRun(f, jump, active, mem, now, todo) && u in todo && u < active
    ensures Destination(jump, u) < |now| && Origin(jump, u) < |now|
    ensures var d, o := Destination(jump, u), Origin(jump, u);
            PartlyRun(f, jump, active, mem, now[d := f(now[d], now[o])], todo - {u})
  {
    var d, o := Destination(jump, u), Origin(jump, u);
    assert Fused(f, jump, mem, now, todo, u);
    var now' := now[d := f(now[d], now[o])];
    assert !IsDestination(jump, active, o) by {
      forall v: nat | v < active
        ensures o != Destination(jump, v)
      {
        OriginIsApart(jump, u, v);
      }
    }
    assert IsDestination(jump, active, d);
    forall v: nat | v < active
      ensures Fused(f, jump, mem, now', todo - {u}, v)
    {
      assert Fused(f, jump, mem, now, todo, v);
      if v != u {
        UnitsAreApart(jump, u, v);
      }
    }
  }

  lemma UnitSkips<T>(f: (T, T) -> T, jump: nat, active: nat, mem: seq<T>, now: seq<T>, todo: set<nat>, u: nat)
    requires PartlyRun(f, jump, active, mem, now, todo) && u >= active
    ensures PartlyRun(f, jump, active, mem, now, todo - {u})
  {
    forall v: nat | v < active
      ensures Fused(f, jump, mem, now, todo - {u}, v)
    {
      assert Fused(f, jump, mem, now, todo, v);
    }
  }

  lemma AllFused<T>(f: (T, T) -> T, jump: nat, active: nat, mem: seq<T>, now: seq<T>)
    requires jump > 0 && InBounds(|mem|, jump, active) && PartlyRun(f, jump, active, mem, now, {})
    ensures now == Round(f, mem, jump, active)
  {
    forall i: nat | i < |mem|
      ensures now[i] == Round(f, mem, jump, active)[i]
    {
      if u: nat :| u < active && i == Destination(jump, u) {
        RoundAtDestination(f, mem, jump, active, u);
        assert Fused(f, jump, mem, now, {}, u);
      } else {
        RoundElsewhere(f, mem, jump, active, i);
      }
    }
  }

  lemma NoneFused<T>(f: (T, T) -> T, jump: nat, active: nat, mem: seq<T>, todo: set<nat>)
    requires InBounds(|mem|, jump, active) && forall u: nat :: u < active ==> u in todo
    ensures PartlyRun(f, jump, active, mem, mem, todo)
  {
    forall u: nat | u < active
      ensures Fused(f, jump, mem, mem, todo, u)
    {
      OriginFollows(jump, u);
    }
  }

  function UnitsBelow(n: nat): (r: set<nat>)
    ensures forall u: nat :: u in r <==> u < n
  {
    if n == 0 then {} else UnitsBelow(n - 1) + {n - 1}
  }

  /** One round up to its barrier: the units run in any order. */
  method RunRound<T>(f: (T, T) -> T, accumulator: array<T>, jump: nat, active: nat, units: nat)
    requires jump > 0 && active <= units && InBounds(accumulator.Length, jump, active)
    modifies accumulator
    ensures accumulator[..] == Round(f, old(accumulator[..]), jump, active)
  {
    ghost var mem := accumulator[..];
    var todo := UnitsBelow(units);
    NoneFused(f, jump, active, mem, todo);
    while todo != {}
      invariant PartlyRun(f, jump, active, mem, accumulator[..], todo)
      decreases todo
    {
      var unitPos: nat :| unitPos in todo;
      if unitPos < active {
        UnitFuses(f, jump, active, mem, accumulator[..], todo, unitPos);
        var destination, origin := jump * 2 * unitPos, jump * (2 * unitPos + 1);
        ghost var now := accumulator[..];
        accumulator[destination] := f(accumulator[destination], accumulator[origin]);
        assert accumulator[..] == now[destination := f(now[destination], now[origin])];
      } else {
        UnitSkips(f, jump, active, mem, accumulator[..], todo, unitPos);
      }
      todo := todo - {unitPos};
    }
    AllFused(f, jump, active, mem, accumulator[..]);
  }

  method TreePowerOfTwo<T(!new)>(f: (T, T) -> T, accumulator: array<T>, size: nat, units: nat)
    requires Associative(f) && IsPowerOfTwo(size) && size <= accumulator.Length && size <= units
    modifies accumulator
    ensures accumulator[0] == Fold(f, old(accumulator[..size]))
    ensures accumulator[size..] == old(accumulator[size..])
  {
    ghost var mem := accumulator[..];
    var numActiveUnits: nat, jump: nat := size, 1;
    FirstSlots(f, mem, size);
    while numActiveUnits > 1
      invariant Halfway(f, mem, accumulator[..], size, jump, numActiveUnits)
      invariant IsPowerOfTwo(numActiveUnits) && numActiveUnits <= size
    {
      RoundIsInBounds(f, mem, accumulator[..], size, jump, numActiveUnits);
      RoundGoesOn(f, mem, accumulator[..], size, jump, numActiveUnits);
      numActiveUnits := numActiveUnits / 2;
      RunRound(f, accumulator, jump, numActiveUnits, units);
      jump := jump * 2;
    }
    LastSlot(f, mem, accumulator[..], size, jump);
    assert mem[..size] == old(accumulator[..size]) && mem[size..] == old(accumulator[size..]);
  }

  method TreeAnySize<T(!new)>(f: (T, T) -> T, accumulator: array<T>, size: nat, units: nat)
    requires Associative(f) && 1 <= size <= accumulator.Length && size <= units
    modifies accumulator
    ensures accumulator[0] == Fold(f, old(accumulator[..size]))
    ensures accumulator[size..] == old(accumulator[size..])
  {
    ghost var mem := accumulator[..];
    var numRemainingItems: nat, jump: nat := size, 1;
    FirstSlots(f, mem, size);
    while numRemainingItems > 1
      invariant Halfway(f, mem, accumulator[..], size, jump, numRemainingItems)
      invariant numRemainingItems <= size
    {
      RoundIsInBounds(f, mem, accumulator[..], size, jump, numRemainingItems);
      RoundGoesOn(f, mem, accumulator[..], size, jump, numRemainingItems);
      RunRound(f, accumulator, jump, numRemainingItems / 2, units);
      numRemainingItems := DivCeil(numRemainingItems, 2);
      jump := jump * 2;
    }
    LastSlot(f, mem, accumulator[..], size, jump);
    assert mem[..size] == old(accumulator[..size]) && mem[size..] == old(accumulator[size..]);
  }

  /** Slot 0 gets the fold in order of the first `size` slots, for any associative operator and any size. */
  method ReduceTree<T(!new)>(f: (T, T) -> T, accumulator: array<T>, size: nat, units: nat) returns (r: T)
    requires Associative(f) && 1 <= size <= accumulator.Length && size <= units
    modifies accumulator
    ensures r == accumulator[0] == Fold(f, old(accumulator[..size]))
    ensures accumulator[size..] == old(accumulator[size..])
  {
    if IsPowerOfTwo(size) {
      TreePowerOfTwo(f, accumulator, size, units);
    } else {
      TreeAnySize(f, accumulator, size, units);
    }
    r := accumulator[0];
  }
}
