/**
 The sum of a whole tensor by many cubes: every unit adds up a block of lines, every cube folds its
 shared memory, and one unit of each cube adds the result to the output atomically. Elements are
 integers of any size.
 */
module SharedSum {
  import opened Arithmetic
  import opened Folds
  import opened SharedTree
  import opened Positions
  import LineSize
  import opened TensorReduce

  type Line = seq<int>

  /** Lines are added element by element. */
  function AddLines(a: Line, b: Line): (r: Line)
    ensures |r| == if |a| <= |b| then |a| else |b|
    ensures forall i :: 0 <= i < |r| ==> r[i] == a[i] + b[i]
  {
    seq(if |a| <= |b| then |a| else |b|, i requires 0 <= i < |a| && i < |b| => a[i] + b[i])
  }

  lemma AddLinesAssociates()
    ensures Associative(AddLines)
  {
    forall a: Line, b: Line, c: Line
      ensures Associates(AddLines, a, b, c)
    {
      assert AddLines(AddLines(a, b), c) == AddLines(a, AddLines(b, c));
    }
  }

  function Total(line: Line): int {
    if line == [] then 0 else Total(line[..|line| - 1]) + line[|line| - 1]
  }

  lemma TotalOfOne(x: int)
    ensures Total([x]) == x
  {
    assert [x][..0] == [];
  }

  lemma {:induction false} TotalOfConcat(a: Line, b: Line)
    ensures Total(a + b) == Total(a) + Total(b)
    decreases |b|
  {
    if b == [] {
      assert a + b == a;
    } else {
      var n := |b| - 1;
      TotalOfConcat(a, b[..n]);
      assert (a + b)[..|a + b| - 1] == a + b[..n];
    }
  }

  function Plus(a: int, b: int): int {
    a + b
  }

  /** The total is the fold of addition over the elements. */
  lemma {:induction false} TotalIsFold(xs: seq<int>)
    requires xs != []
    ensures Total(xs) == Fold(Plus, xs)
    decreases |xs|
  {
    if |xs| == 1 {
      TotalOfOne(xs[0]);
      assert xs == [xs[0]];
    } else {
      TotalIsFold(xs[..|xs| - 1]);
    }
  }

  lemma {:induction false} TotalOfSum(a: Line, b: Line)
    requires |a| == |b|
    ensures Total(AddLines(a, b)) == Total(a) + Total(b)
    decreases |a|
  {
    if a != [] {
      var n := |a| - 1;
      TotalOfSum(a[..n], b[..n]);
      assert AddLines(a, b)[..n] == AddLines(a[..n], b[..n]);
    }
  }

  lemma {:induction false} TotalOfZeros(line: Line)
    requires forall i :: 0 <= i < |line| ==> line[i] == 0
    ensures Total(line) == 0
  {
    if line != [] {
      TotalOfZeros(line[..|line| - 1]);
    }
  }

  function Totals(lines: seq<Line>): int {
    if lines == [] then 0 else Totals(lines[..|lines| - 1]) + Total(lines[|lines| - 1])
  }

  /** The total of a fold of lines is the sum of their totals. */
  lemma {:induction false} TotalOfFold(lines: seq<Line>, size: nat)
    requires lines != [] && forall i :: 0 <= i < |lines| ==> |lines[i]| == size
    ensures |Fold(AddLines, lines)| == size && Total(Fold(AddLines, lines)) == Totals(lines)
    decreases |lines|
  {
    var n := |lines| - 1;
    if n == 0 {
      assert lines[..0] == [];
    } else {
      TotalOfFold(lines[..n], size);
      TotalOfSum(Fold(AddLines, lines[..n]), lines[n]);
    }
  }

  // ---------------------------------------------------------------------------------------
  // The kernel
  // ---------------------------------------------------------------------------------------

  type Positive = n: nat | n > 0 witness 1

  /**
   A launch: `cubes` cubes in a row, each of `dimX` times `dimY` units; `position` is the builtin
   that tells every unit its absolute position.
   */
  datatype Launch = Launch(input: seq<Line>, lineSize: nat, cubes: Positive, dimX: Positive, dimY: Positive,
                           linesPerUnit: nat,
                           position: (nat, nat) -> nat) {
    ghost predicate Valid() {
      && IsPowerOfTwo(dimX * dimY)
      && (forall k :: 0 <= k < |input| ==> |input[k]| == lineSize)
      && |input| <= (dimY * cubes) * dimX * linesPerUnit
      && forall cube: nat, unitPos: nat {:trigger PositionIsAbsolute(cube, unitPos)} ::
         PositionIsAbsolute(cube, unitPos)
    }

    function Units(): nat {
      dimX * dimY
    }

    function AbsoluteOf(cube: nat, unitPos: nat): nat {
      AbsolutePos(Dim3(cubes, 1, 1), Dim3(dimX, dimY, 1), Dim3(cube, 0, 0), Dim3(unitPos % dimX, unitPos / dimX, 0))
    }

    ghost predicate PositionIsAbsolute(cube: nat, unitPos: nat) {
      position(cube, unitPos) == AbsoluteOf(cube, unitPos)
    }
  }

  /** The total of line `k`, nothing past the end. */
  function LineTotal(input: seq<Line>, k: nat): int {
    if k < |input| then Total(input[k]) else 0
  }

  /** The total of `n` lines from line `first` on. */
  function BlockTotal(input: seq<Line>, first: nat, n: nat): int {
    if n == 0 then 0 else BlockTotal(input, first, n - 1) + LineTotal(input, first + n - 1)
  }

  lemma {:induction false} BlockEnds(input: seq<Line>, first: nat, m: nat, n: nat)
    requires m <= n && (m == n || first + m >= |input|)
    ensures BlockTotal(input, first, m) == BlockTotal(input, first, n)
    decreases n
  {
    if m < n {
      BlockEnds(input, first, m, n - 1);
    }
  }

  /** What the unit at absolute position `a` adds up. */
  function UnitTotal(l: Launch, a: nat): int {
    BlockTotal(l.input, a * l.linesPerUnit, l.linesPerUnit)
  }

  function Select(mask: bool, a: nat, b: nat): nat {
    if mask then a else b
  }

  /** How many lines the unit at absolute position `a` reads: its block is cut at the end of the input. */
  function BlockLines(l: Launch, a: nat): (r: nat)
    ensures r <= l.linesPerUnit && (r == l.linesPerUnit || a * l.linesPerUnit + r >= |l.input|)
    ensures r > 0 ==> a * l.linesPerUnit + r <= |l.input|
  {
    var start, end := a * l.linesPerUnit, a * l.linesPerUnit + l.linesPerUnit;
    Select(end < |l.input|, end, |l.input|) - Select(start < |l.input|, start, |l.input|)
  }

  /** How far a unit has come: its slot is cleared first, then its lines are added one by one. */
  datatype Adder = Idle | Added(lines: nat)

  predicate AdderDone(l: Launch, cube: nat, u: nat, adder: Adder) {
    adder == Added(BlockLines(l, l.position(cube, u)))
  }

  /** What a unit has put into its slot so far. */
  ghost predicate AdderOk(l: Launch, cube: nat, u: nat, adder: Adder, slot: Line) {
    adder.Added? ==>
      && adder.lines <= BlockLines(l, l.position(cube, u)) && |slot| == l.lineSize
      && Total(slot) == BlockTotal(l.input, l.position(cube, u) * l.linesPerUnit, adder.lines)
  }

  function NextAdder(adder: Adder): Adder {
    if adder.Idle? then Added(0) else Added(adder.lines + 1)
  }

  function NextSlot(l: Launch, cube: nat, u: nat, adder: Adder, slot: Line): Line
    requires !AdderDone(l, cube, u, adder) && (adder.Added? ==> adder.lines <= BlockLines(l, l.position(cube, u)))
  {
    if adder.Idle? then seq(l.lineSize, _ => 0)
    else AddLines(slot, l.input[l.position(cube, u) * l.linesPerUnit + adder.lines])
  }

  lemma StepKeepsAdder(l: Launch, cube: nat, u: nat, adder: Adder, slot: Line)
    requires l.Valid() && AdderOk(l, cube, u, adder, slot) && !AdderDone(l, cube, u, adder)
    ensures AdderOk(l, cube, u, NextAdder(adder), NextSlot(l, cube, u, adder, slot))
  {
    if adder.Idle? {
      TotalOfZeros(NextSlot(l, cube, u, adder, slot));
    } else {
      TotalOfSum(slot, l.input[l.position(cube, u) * l.linesPerUnit + adder.lines]);
    }
  }

  /** A unit that is done has added up its block. */
  lemma DoneAdderHolds(l: Launch, cube: nat, u: nat, adder: Adder, slot: Line)
    requires AdderOk(l, cube, u, adder, slot) && AdderDone(l, cube, u, adder)
    ensures |slot| == l.lineSize && Total(slot) == UnitTotal(l, l.position(cube, u))
  {
    var first := l.position(cube, u) * l.linesPerUnit;
    BlockEnds(l.input, first, adder.lines, l.linesPerUnit);
  }

  ghost predicate AddersOk(l: Launch, cube: nat, adders: seq<Adder>, mem: seq<Line>) {
    && |adders| == |mem| == l.Units()
    && forall u: nat {:trigger AdderOk(l, cube, u, adders[u], mem[u])} ::
       u < l.Units() ==> AdderOk(l, cube, u, adders[u], mem[u])
  }

  lemma AddersStep(l: Launch, cube: nat, adders: seq<Adder>, mem: seq<Line>, u: nat)
    requires l.Valid() && AddersOk(l, cube, adders, mem) && u < l.Units() && !AdderDone(l, cube, u, adders[u])
    ensures adders[u].Added? ==> adders[u].lines <= BlockLines(l, l.position(cube, u))
    ensures AddersOk(l, cube, adders[u := NextAdder(adders[u])], mem[u := NextSlot(l, cube, u, adders[u], mem[u])])
  {
    assert AdderOk(l, cube, u, adders[u], mem[u]);
    StepKeepsAdder(l, cube, u, adders[u], mem[u]);
    var adders', mem' := adders[u := NextAdder(adders[u])], mem[u := NextSlot(l, cube, u, adders[u], mem[u])];
    forall v: nat | v < l.Units()
      ensures AdderOk(l, cube, v, adders'[v], mem'[v])
    {
      assert AdderOk(l, cube, v, adders[v], mem[v]);
    }
  }

  /** How many steps the first `n` units have left. */
  function StepsLeft(l: Launch, cube: nat, adders: seq<Adder>, n: nat): int
    requires n <= |adders|
  {
    if n == 0 then 0
    else
      StepsLeft(l, cube, adders, n - 1) + BlockLines(l, l.position(cube, n - 1)) + 1
      - (if adders[n - 1].Idle? then 0 else adders[n - 1].lines + 1)
  }

  lemma {:induction false} OneStepLess(l: Launch, cube: nat, adders: seq<Adder>, u: nat, n: nat)
    requires u < |adders| && n <= |adders|
    ensures StepsLeft(l, cube, adders[u := NextAdder(adders[u])], n) ==
            StepsLeft(l, cube, adders, n) - (if u < n then 1 else 0)
    decreases n
  {
    if n > 0 {
      OneStepLess(l, cube, adders, u, n - 1);
    }
  }

  lemma {:induction false} StepsAreLeft(l: Launch, cube: nat, adders: seq<Adder>, mem: seq<Line>, n: nat)
    requires AddersOk(l, cube, adders, mem) && n <= l.Units()
    ensures StepsLeft(l, cube, adders, n) >= 0
    decreases n
  {
    if n > 0 {
      StepsAreLeft(l, cube, adders, mem, n - 1);
      assert AdderOk(l, cube, n - 1, adders[n - 1], mem[n - 1]);
    }
  }

  /** One step of a unit: it clears its slot or adds its next line. */
  method AddLine(l: Launch, cube: nat, sharedMemory: array<Line>, u: nat, adder: Adder) returns (next: Adder)
    requires l.Valid() && u < sharedMemory.Length && AdderOk(l, cube, u, adder, sharedMemory[u])
    requires !AdderDone(l, cube, u, adder)
    modifies sharedMemory
    ensures next == NextAdder(adder)
    ensures sharedMemory[..] == old(sharedMemory[..])[u := NextSlot(l, cube, u, adder, old(sharedMemory[u]))]
  {
    if adder.Idle? {
      sharedMemory[u] := seq(l.lineSize, _ => 0);
      next := Added(0);
    } else {
      sharedMemory[u] := AddLines(sharedMemory[u], l.input[l.position(cube, u) * l.linesPerUnit + adder.lines]);
      next := Added(adder.lines + 1);
    }
  }

  /** All units of a cube up to the barrier, interleaved line by line in any way. */
  method AddBlocks(l: Launch, cube: nat, sharedMemory: array<Line>)
    requires l.Valid() && sharedMemory.Length == l.Units()
    modifies sharedMemory
    ensures forall u ::
            0 <= u < l.Units() ==>
              |sharedMemory[u]| == l.lineSize && Total(sharedMemory[u]) == UnitTotal(l, l.position(cube, u))
  {
    var adders := seq(l.Units(), _ => Idle);
    StepsAreLeft(l, cube, adders, sharedMemory[..], l.Units());
    while exists u :: 0 <= u < l.Units() && !AdderDone(l, cube, u, adders[u])
      invariant AddersOk(l, cube, adders, sharedMemory[..])
      invariant StepsLeft(l, cube, adders, l.Units()) >= 0
      decreases StepsLeft(l, cube, adders, l.Units())
    {
      var u :| 0 <= u < l.Units() && !AdderDone(l, cube, u, adders[u]);
      ghost var mem := sharedMemory[..];
      assert AdderOk(l, cube, u, adders[u], mem[u]);
      AddersStep(l, cube, adders, mem, u);
      OneStepLess(l, cube, adders, u, l.Units());
      var next := AddLine(l, cube, sharedMemory, u, adders[u]);
      adders := adders[u := next];
      StepsAreLeft(l, cube, adders, sharedMemory[..], l.Units());
    }
    forall u | 0 <= u < l.Units()
      ensures |sharedMemory[u]| == l.lineSize && Total(sharedMemory[u]) == UnitTotal(l, l.position(cube, u))
    {
      assert AdderOk(l, cube, u, adders[u], sharedMemory[..][u]);
      DoneAdderHolds(l, cube, u, adders[u], sharedMemory[u]);
    }
  }

  /** What the first `n` units of a cube add up. */
  function CubeUnits(l: Launch, cube: nat, n: nat): int {
    if n == 0 then 0 else CubeUnits(l, cube, n - 1) + UnitTotal(l, l.position(cube, n - 1))
  }

  /** What one cube adds to the output. */
  function CubeTotal(l: Launch, cube: nat): int {
    CubeUnits(l, cube, l.Units())
  }

  lemma {:induction false} SlotsAreUnits(l: Launch, cube: nat, mem: seq<Line>)
    requires forall u :: 0 <= u < |mem| ==> Total(mem[u]) == UnitTotal(l, l.position(cube, u))
    ensures Totals(mem) == CubeUnits(l, cube, |mem|)
    decreases |mem|
  {
    if mem != [] {
      SlotsAreUnits(l, cube, mem[..|mem| - 1]);
    }
  }

  /** The slots of all units of a cube fold to a line with its total. */
  lemma FoldOfSlots(l: Launch, cube: nat, mem: seq<Line>)
    requires |mem| == l.Units() > 0
    requires forall u :: 0 <= u < |mem| ==> |mem[u]| == l.lineSize && Total(mem[u]) == UnitTotal(l, l.position(cube, u))
    ensures Total(Fold(AddLines, mem)) == CubeTotal(l, cube)
  {
    TotalOfFold(mem, l.lineSize);
    SlotsAreUnits(l, cube, mem);
  }

  method RunCube(l: Launch, cube: nat) returns (sum: int)
    requires l.Valid()
    ensures sum == CubeTotal(l, cube)
  {
    var sharedMemory := new Line[l.Units()](_ => []);
    AddBlocks(l, cube, sharedMemory);
    ghost var mem := sharedMemory[..];
    AddLinesAssociates();
    TreePowerOfTwo(AddLines, sharedMemory, l.Units(), l.Units());
    FoldOfSlots(l, cube, mem);
    assert mem[..l.Units()] == mem;
    sum := SumElements(sharedMemory[0]);
  }

  /** The elements of a line one after the other. */
  method SumElements(line: Line) returns (sum: int)
    ensures sum == Total(line)
  {
    sum := 0;
    for k := 0 to |line|
      invariant sum == Total(line[..k])
    {
      assert line[..k + 1][..k] == line[..k];
      sum := line[k] + sum;
    }
    assert line[..|line|] == line;
  }

  // ---------------------------------------------------------------------------------------
  // Every line is read by exactly one unit of one cube
  // ---------------------------------------------------------------------------------------

  /** Line `k` belongs to the block of the unit. */
  ghost predicate Reads(l: Launch, cube: nat, u: nat, k: nat) {
    var first := l.position(cube, u) * l.linesPerUnit;
    first <= k < first + l.linesPerUnit
  }

  lemma PositionOfReader(l: Launch, cube: nat, u: nat, k: nat)
    requires Reads(l, cube, u, k)
    ensures l.linesPerUnit > 0 && l.position(cube, u) == k / l.linesPerUnit
  {
    var a := l.position(cube, u);
    QuotientIsUnique(l.linesPerUnit, a, k - a * l.linesPerUnit);
  }

  /** The place of a unit in its cube. */
  function UnitPlace(l: Launch, u: nat): Dim3 {
    Dim3(u % l.dimX, u / l.dimX, 0)
  }

  lemma UnitHasPlace(l: Launch, cube: nat, u: nat)
    requires cube < l.cubes && u < l.Units()
    ensures Dim3(l.cubes, 1, 1).Contains(Dim3(cube, 0, 0)) && Dim3(l.dimX, l.dimY, 1).Contains(UnitPlace(l, u))
    ensures u == UnitPlace(l, u).y * l.dimX + UnitPlace(l, u).x
  {
    assert l.Units() == l.dimY * l.dimX;
    RowsSplit(l.dimY, l.dimX, u);
  }

  /** No line is read by two units: their absolute positions differ. */
  lemma ReaderIsUnique(l: Launch, k: nat, cube: nat, u: nat, cube': nat, u': nat)
    requires l.Valid() && cube < l.cubes && cube' < l.cubes && u < l.Units() && u' < l.Units()
    requires Reads(l, cube, u, k) && Reads(l, cube', u', k)
    ensures cube == cube' && u == u'
  {
    PositionOfReader(l, cube, u, k);
    PositionOfReader(l, cube', u', k);
    assert l.PositionIsAbsolute(cube, u) && l.PositionIsAbsolute(cube', u');
    UnitHasPlace(l, cube, u);
    UnitHasPlace(l, cube', u');
    AbsolutePosIsInjective(Dim3(l.cubes, 1, 1), Dim3(l.dimX, l.dimY, 1), Dim3(cube, 0, 0), UnitPlace(l, u));
    AbsolutePosIsInjective(Dim3(l.cubes, 1, 1), Dim3(l.dimX, l.dimY, 1), Dim3(cube', 0, 0), UnitPlace(l, u'));
  }

  lemma UnitAtPosition(l: Launch, a: nat) returns (cube: nat, u: nat)
    requires l.Valid() && a < (l.dimY * l.cubes) * l.dimX
    ensures cube < l.cubes && u < l.Units() && l.position(cube, u) == a
  {
    var count, dim := Dim3(l.cubes, 1, 1), Dim3(l.dimX, l.dimY, 1);
    SameSize(l.cubes, l.dimX, l.dimY);
    AbsolutePosIsSurjective(count, dim, a);
    var p := Place(Whole(count, dim), a);
    var unitPlace := UnitAt(dim, p);
    cube, u := CubeAt(dim, p).x, unitPlace.y * l.dimX + unitPlace.x;
    RowsFit(l.dimY, l.dimX, unitPlace.y, unitPlace.x);
    QuotientIsUnique(l.dimX, unitPlace.y, unitPlace.x);
    assert l.PositionIsAbsolute(cube, u);
  }

  lemma SameSize(cubes: nat, dimX: nat, dimY: nat)
    ensures Whole(Dim3(cubes, 1, 1), Dim3(dimX, dimY, 1)).Size() == (dimY * cubes) * dimX
  {
    assert (cubes * dimX) * dimY == (dimY * cubes) * dimX;
  }

  /** Every line is read: some unit has the absolute position of its block. */
  lemma LineHasReader(l: Launch, k: nat) returns (cube: nat, u: nat)
    requires l.Valid() && k < |l.input|
    ensures cube < l.cubes && u < l.Units() && Reads(l, cube, u, k)
  {
    var all, n := (l.dimY * l.cubes) * l.dimX, l.linesPerUnit;
    assert n > 0;
    RowsSplit(all, n, k);
    cube, u := UnitAtPosition(l, k / n);
  }

  ghost predicate IsReader(l: Launch, cube: nat, u: nat, k: nat) {
    cube < l.cubes && u < l.Units() && Reads(l, cube, u, k)
  }

  /** Every line of the input has exactly one reader. */
  lemma LineIsReadOnce(l: Launch, k: nat)
    requires l.Valid() && k < |l.input|
    ensures exists cube: nat, u: nat :: IsReader(l, cube, u, k) &&
              forall cube': nat, u': nat :: IsReader(l, cube', u', k) ==> cube' == cube && u' == u
  {
    var cube, u := LineHasReader(l, k);
    assert IsReader(l, cube, u, k);
    forall cube': nat, u': nat | IsReader(l, cube', u', k)
      ensures cube' == cube && u' == u
    {
      ReaderIsUnique(l, k, cube, u, cube', u');
    }
  }

  // ---------------------------------------------------------------------------------------
  // Hence the cubes add up the input
  // ---------------------------------------------------------------------------------------

  function LinesBelow(input: seq<Line>, n: nat): int {
    if n == 0 then 0 else LinesBelow(input, n - 1) + LineTotal(input, n - 1)
  }

  /** The sum of all elements. */
  function InputTotal(input: seq<Line>): int {
    LinesBelow(input, |input|)
  }

  /** What a unit, the first units of a cube and the first cubes read of the first `n` lines. */
  ghost function UnitReads(l: Launch, cube: nat, u: nat, n: nat): int {
    if n == 0 then 0
    else UnitReads(l, cube, u, n - 1) + if Reads(l, cube, u, n - 1) then LineTotal(l.input, n - 1) else 0
  }

  ghost function CubeReads(l: Launch, cube: nat, units: nat, n: nat): int {
    if units == 0 then 0 else CubeReads(l, cube, units - 1, n) + UnitReads(l, cube, units - 1, n)
  }

  ghost function GridReads(l: Launch, cubes: nat, n: nat): int {
    if cubes == 0 then 0 else GridReads(l, cubes - 1, n) + CubeReads(l, cubes - 1, l.Units(), n)
  }

  ghost predicate ReadInCube(l: Launch, cube: nat, units: nat, k: nat) {
    exists u: nat :: u < units && Reads(l, cube, u, k)
  }

  ghost predicate ReadInGrid(l: Launch, cubes: nat, k: nat) {
    exists cube: nat :: cube < cubes && ReadInCube(l, cube, l.Units(), k)
  }

  /** One more line adds its total to a cube if one of its units reads it: no two do. */
  lemma {:induction false} NextLineOfCube(l: Launch, cube: nat, units: nat, k: nat)
    requires l.Valid() && cube < l.cubes && units <= l.Units()
    ensures CubeReads(l, cube, units, k + 1) ==
            CubeReads(l, cube, units, k) + if ReadInCube(l, cube, units, k) then LineTotal(l.input, k) else 0
    decreases units
  {
    if units > 0 {
      NextLineOfCube(l, cube, units - 1, k);
      if Reads(l, cube, units - 1, k) {
        if u: nat :| u < units - 1 && Reads(l, cube, u, k) {
          ReaderIsUnique(l, k, cube, u, cube, units - 1);
        }
      }
    }
  }

  lemma {:induction false} NextLineOfGrid(l: Launch, cubes: nat, k: nat)
    requires l.Valid() && cubes <= l.cubes
    ensures GridReads(l, cubes, k + 1) == GridReads(l, cubes, k) +
            if ReadInGrid(l, cubes, k) then LineTotal(l.input, k) else 0
    decreases cubes
  {
    if cubes > 0 {
      NextLineOfGrid(l, cubes - 1, k);
      var last := cubes - 1;
      NextLineOfCube(l, last, l.Units(), k);
      if u: nat :| u < l.Units() && Reads(l, last, u, k) {
        if cube: nat, v: nat :| cube < last && v < l.Units() && Reads(l, cube, v, k) {
          ReaderIsUnique(l, k, cube, v, last, u);
        }
      }
    }
  }

  lemma {:induction false} NothingRead(l: Launch, cube: nat, units: nat)
    ensures CubeReads(l, cube, units, 0) == 0
  {
    if units > 0 {
      NothingRead(l, cube, units - 1);
    }
  }

  lemma {:induction false} NothingReadYet(l: Launch, cubes: nat)
    ensures GridReads(l, cubes, 0) == 0
  {
    if cubes > 0 {
      NothingReadYet(l, cubes - 1);
      NothingRead(l, cubes - 1, l.Units());
    }
  }

  /** All cubes together read the first lines exactly once. */
  lemma {:induction false} GridReadsLines(l: Launch, n: nat)
    requires l.Valid() && n <= |l.input|
    ensures GridReads(l, l.cubes, n) == LinesBelow(l.input, n)
  {
    if n == 0 {
      NothingReadYet(l, l.cubes);
    } else {
      GridReadsLines(l, n - 1);
      NextLineOfGrid(l, l.cubes, n - 1);
      var cube, u := LineHasReader(l, n - 1);
      assert ReadInCube(l, cube, l.Units(), n - 1);
    }
  }

  /** What a unit reads is its block. */
  lemma {:induction false} UnitReadsBlock(l: Launch, cube: nat, u: nat, first: nat, n: nat)
    requires first == l.position(cube, u) * l.linesPerUnit
    ensures UnitReads(l, cube, u, n) ==
            BlockTotal(l.input, first, if n <= first then 0 else
              if n - first <= l.linesPerUnit then n - first else l.linesPerUnit)
    decreases n
  {
    if n > 0 {
      UnitReadsBlock(l, cube, u, first, n - 1);
    }
  }

  lemma {:induction false} CubeReadsUnits(l: Launch, cube: nat, units: nat)
    ensures CubeReads(l, cube, units, |l.input|) == CubeUnits(l, cube, units)
    decreases units
  {
    if units > 0 {
      CubeReadsUnits(l, cube, units - 1);
      var first, n := l.position(cube, units - 1) * l.linesPerUnit, |l.input|;
      UnitReadsBlock(l, cube, units - 1, first, n);
      BlockEnds(l.input, first, if n <= first then 0 else
        if n - first <= l.linesPerUnit then n - first else l.linesPerUnit, l.linesPerUnit);
    }
  }

  /** What the first `n` cubes add to the output. */
  function CubesTotal(l: Launch, n: nat): int {
    if n == 0 then 0 else CubesTotal(l, n - 1) + CubeTotal(l, n - 1)
  }

  lemma {:induction false} GridReadsCubes(l: Launch, n: nat)
    ensures GridReads(l, n, |l.input|) == CubesTotal(l, n)
  {
    if n > 0 {
      GridReadsCubes(l, n - 1);
      CubeReadsUnits(l, n - 1, l.Units());
    }
  }

  /** The cubes add up the input, as every line has exactly one reader. */
  lemma CubesReadInput(l: Launch)
    requires l.Valid()
    ensures CubesTotal(l, l.cubes) == InputTotal(l.input)
  {
    GridReadsCubes(l, l.cubes);
    GridReadsLines(l, |l.input|);
  }

  /** The sum over a set of cubes, whatever the order they are taken in. */
  function SetTotal(l: Launch, done: set<nat>, n: nat): int {
    if n == 0 then 0 else SetTotal(l, done, n - 1) + if n - 1 in done then CubeTotal(l, n - 1) else 0
  }

  lemma {:induction false} SetTotalGrows(l: Launch, done: set<nat>, cube: nat, n: nat)
    requires cube !in done
    ensures SetTotal(l, done + {cube}, n) == SetTotal(l, done, n) + if cube < n then CubeTotal(l, cube) else 0
    decreases n
  {
    if n > 0 {
      SetTotalGrows(l, done, cube, n - 1);
    }
  }

  lemma {:induction false} SetTotalOfAll(l: Launch, done: set<nat>, n: nat)
    requires forall c: nat :: c < n ==> c in done
    ensures SetTotal(l, done, n) == CubesTotal(l, n)
  {
    if n > 0 {
      SetTotalOfAll(l, done, n - 1);
    }
  }

  lemma {:induction false} SetTotalOfNone(l: Launch, n: nat)
    ensures SetTotal(l, {}, n) == 0
  {
    if n > 0 {
      SetTotalOfNone(l, n - 1);
    }
  }

  /** Runs all cubes; their atomic additions happen in any order. */
  method RunKernel(l: Launch, output: array<int>)
    requires l.Valid() && output.Length > 0
    modifies output
    ensures output[0] == old(output[0]) + InputTotal(l.input)
    ensures output[1..] == old(output[1..])
  {
    var todo := UnitsBelow(l.cubes);
    ghost var done: set<nat> := {};
    SetTotalOfNone(l, l.cubes);
    while todo != {}
      invariant todo <= UnitsBelow(l.cubes) && done == UnitsBelow(l.cubes) - todo
      invariant output[0] == old(output[0]) + SetTotal(l, done, l.cubes)
      invariant output[1..] == old(output[1..])
      decreases todo
    {
      var cube :| cube in todo;
      var sum := RunCube(l, cube);
      SetTotalGrows(l, done, cube, l.cubes);
      output[0] := output[0] + sum;
      todo, done := todo - {cube}, done + {cube};
    }
    SetTotalOfAll(l, done, l.cubes);
    CubesReadInput(l);
  }

  // ---------------------------------------------------------------------------------------
  // The launch
  // ---------------------------------------------------------------------------------------

  lemma UnitsSuffice(lines: nat, lineSize: nat, units: nat)
    requires lineSize > 0 && units > 0
    ensures lines <= units * DivCeil(lines * lineSize, units * lineSize)
  {
    var n, w := DivCeil(lines * lineSize, units * lineSize), units * lineSize;
    var all := lines * lineSize;
    assert (all + w - 1) / w * w + (all + w - 1) % w == all + w - 1;
    assert n * w >= all;
    assert n * w == (units * n) * lineSize;
    if units * n < lines {
      ProductGrows(units * n + 1, lines, lineSize);
    }
  }

  /**
   For any input, cut into lines of any size, and any number of cubes, the output grows by the sum
   of all elements.
   */
  method ComputeSharedSum(input: seq<Line>, lineSize: nat, cubeCount: nat, output: array<int>)
    requires cubeCount > 0 && lineSize > 0 && output.Length > 0
    requires forall k :: 0 <= k < |input| ==> |input[k]| == lineSize
    modifies output
    ensures output[0] == old(output[0]) + InputTotal(input)
    ensures output[1..] == old(output[1..])
  {
    var inputLen := |input| * lineSize;
    var numUnits := cubeCount * (32 * 8);
    var linesPerUnit := DivCeil(inputLen, numUnits * lineSize);
    UnitsSuffice(|input|, lineSize, numUnits);
    assert IsPowerOfTwo(256) by {
      assert IsPowerOfTwo(1) && IsPowerOfTwo(2) && IsPowerOfTwo(4) && IsPowerOfTwo(8) && IsPowerOfTwo(16);
      assert IsPowerOfTwo(32) && IsPowerOfTwo(64) && IsPowerOfTwo(128);
    }
    var l := Launch(input, lineSize, cubeCount, 32, 8, linesPerUnit,
                    (cube, unitPos) => AbsolutePos(Dim3(cubeCount, 1, 1), Dim3(32, 8, 1), Dim3(cube, 0, 0),
                      Dim3(unitPos % 32, unitPos / 32, 0)));
    assert (8 * cubeCount) * 32 * linesPerUnit == numUnits * linesPerUnit;
    RunKernel(l, output);
  }

  // ---------------------------------------------------------------------------------------
  // The elements, however they are cut into lines
  // ---------------------------------------------------------------------------------------

  lemma LinesUpTo(lineSize: nat, n: nat, k: nat)
    requires k < n
    ensures (k + 1) * lineSize == k * lineSize + lineSize <= n * lineSize
  {
    ProductGrows(k + 1, n, lineSize);
  }

  lemma {:induction false} CutLinesTotal(xs: seq<int>, lineSize: nat, n: nat)
    requires LineSize.Divides(lineSize, |xs|) && n <= |xs| / lineSize
    ensures n * lineSize <= |xs| && LinesBelow(Cut(xs, lineSize), n) == Total(xs[..n * lineSize])
    decreases n
  {
    if n > 0 {
      var k := n - 1;
      CutLinesTotal(xs, lineSize, k);
      LinesUpTo(lineSize, |xs| / lineSize, k);
      CutIsCut(xs, lineSize, k);
      var from, to := k * lineSize, n * lineSize;
      assert Cut(xs, lineSize)[k] == xs[from..to];
      TotalOfConcat(xs[..from], xs[from..to]);
      assert xs[..from] + xs[from..to] == xs[..to];
    }
  }

  lemma WholeLines(count: nat, lineSize: nat)
    requires LineSize.Divides(lineSize, count)
    ensures count / lineSize * lineSize == count
  {
  }

  /** Cutting into lines of whatever size keeps the sum. */
  lemma CutKeepsTotal(xs: seq<int>, lineSize: nat)
    requires LineSize.Divides(lineSize, |xs|)
    ensures InputTotal(Cut(xs, lineSize)) == Total(xs)
  {
    var n := |xs| / lineSize;
    WholeLines(|xs|, lineSize);
    CutLinesTotal(xs, lineSize, n);
    assert xs[..n * lineSize] == xs;
  }

  /** The largest supported line size that divides the number of elements, or 1. */
  method ChooseLineSize(supported: seq<nat>, count: nat) returns (lineSize: nat)
    ensures lineSize > 0 && count % lineSize == 0 && (lineSize in supported || lineSize == 1)
    ensures forall c :: c in supported && c > 0 && count % c == 0 ==> c <= lineSize
  {
    var fit := LineSize.LargestFit(supported, count, 0);
    lineSize := if fit.Some? then fit.value else 1;
  }

  /**
   The sum of a tensor with elements `xs`: whatever line sizes are supported and however many cubes
   there are, the output grows by the fold of addition over the elements.
   */
  method SharedSumOf(xs: seq<int>, supported: seq<nat>, cubeCount: nat, output: array<int>)
    requires cubeCount > 0 && output.Length > 0
    modifies output
    ensures output[0] == old(output[0]) + if xs == [] then 0 else Fold(Plus, xs)
    ensures output[1..] == old(output[1..])
  {
    var lineSize := ChooseLineSize(supported, |xs|);
    var input := Cut(xs, lineSize);
    forall k | 0 <= k < |input|
      ensures |input[k]| == lineSize
    {
      CutIsCut(xs, lineSize, k);
    }
    ComputeSharedSum(input, lineSize, cubeCount, output);
    CutKeepsTotal(xs, lineSize);
    if xs != [] {
      TotalIsFold(xs);
    }
  }
}
