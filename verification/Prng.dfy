/**
 Which output lines the random kernels write: the indices of all cubes, units and iterations number
 the lines from 0 without gaps or repetitions.
 */
module Prng {
  import opened Arithmetic
  import opened Positions

  /** A launch of `cubes` cubes of `cubeDim` units; lines of `lineSize` values, which divides the values per thread. */
  datatype Params = Params(cubes: nat, cubeDim: nat, valuesPerThread: nat, lineSize: nat) {
    predicate Valid() {
      cubeDim > 0 && lineSize > 0 && valuesPerThread % lineSize == 0
    }

    function LinesPerThread(): nat
      requires lineSize > 0
    {
      valuesPerThread / lineSize
    }

    function Lines(): nat
      requires lineSize > 0
    {
      cubes * LinesPerThread() * cubeDim
    }

    function WriteIndexBase(cubePos: nat, unitPos: nat): nat
      requires lineSize > 0
    {
      cubePos * cubeDim * valuesPerThread / lineSize + unitPos
    }
  }

  function UniformIndex(p: Params, cubePos: nat, unitPos: nat, iteration: nat): nat
    requires p.lineSize > 0
  {
    iteration * p.cubeDim + p.WriteIndexBase(cubePos, unitPos)
  }

  /** The two lines an iteration of the Box-Muller loop writes. */
  function NormalIndex(p: Params, cubePos: nat, unitPos: nat, iteration: nat, second: bool): nat
    requires p.lineSize > 0
  {
    var first := p.WriteIndexBase(cubePos, unitPos) + iteration * p.cubeDim * 2;
    if second then first + p.cubeDim else first
  }

  lemma ExactQuotient(a: nat, n: nat, d: nat)
    requires d > 0 && n % d == 0
    ensures a * n / d == a * (n / d)
  {
    var k := n / d;
    assert n == k * d;
    assert a * n == (a * k) * d + 0;
    QuotientIsUnique(d, a * k, 0);
  }

  /** The index of a write is the linear position of unit, iteration and cube. */
  lemma IndexIsLinear(p: Params, cubePos: nat, unitPos: nat, iteration: nat)
    requires p.Valid()
    ensures UniformIndex(p, cubePos, unitPos, iteration) ==
            Linear(p.cubeDim, p.LinesPerThread(), Dim3(unitPos, iteration, cubePos))
  {
    ExactQuotient(cubePos * p.cubeDim, p.valuesPerThread, p.lineSize);
    var n, d := p.LinesPerThread(), p.cubeDim;
    assert cubePos * d * n + iteration * d == (cubePos * n + iteration) * d;
  }

  /** A cube writes its lines one after the other: unit by unit, then iteration by iteration. */
  lemma IndexCounts(p: Params, cubePos: nat, unitPos: nat, iteration: nat)
    requires p.Valid()
    ensures UniformIndex(p, 0, 0, 0) == 0
    ensures UniformIndex(p, cubePos, unitPos + 1, iteration) == UniformIndex(p, cubePos, unitPos, iteration) + 1
    ensures UniformIndex(p, cubePos, unitPos, iteration + 1) == UniformIndex(p, cubePos, unitPos, iteration) + p.cubeDim
    ensures UniformIndex(p, cubePos + 1, unitPos, iteration) ==
            UniformIndex(p, cubePos, unitPos, iteration) + p.cubeDim * p.LinesPerThread()
  {
    IndexIsLinear(p, 0, 0, 0);
    IndexIsLinear(p, cubePos, unitPos, iteration);
    IndexIsLinear(p, cubePos, unitPos + 1, iteration);
    IndexIsLinear(p, cubePos, unitPos, iteration + 1);
    IndexIsLinear(p, cubePos + 1, unitPos, iteration);
    LinearSteps(p.cubeDim, p.LinesPerThread(), Dim3(unitPos, iteration, cubePos));
  }

  lemma PairIsTwoIterations(p: Params, cubePos: nat, unitPos: nat, iteration: nat, second: bool)
    requires p.lineSize > 0
    ensures NormalIndex(p, cubePos, unitPos, iteration, second) ==
            UniformIndex(p, cubePos, unitPos, 2 * iteration + if second then 1 else 0)
  {
    assert (2 * iteration + 1) * p.cubeDim == iteration * p.cubeDim * 2 + p.cubeDim;
  }

  function Box(p: Params): Dim3
    requires p.lineSize > 0
  {
    Dim3(p.cubeDim, p.LinesPerThread(), p.cubes)
  }

  lemma BoxHoldsLines(p: Params)
    requires p.Valid()
    ensures Box(p).Size() == p.Lines()
  {
    SizeByRows(Box(p));
  }

  /** Different writes go to different lines, all below the number of lines. */
  lemma UniformWritesOnce(p: Params, cubePos: nat, unitPos: nat, iteration: nat)
    requires p.Valid() && cubePos < p.cubes && unitPos < p.cubeDim && iteration < p.LinesPerThread()
    ensures var i := UniformIndex(p, cubePos, unitPos, iteration);
            i < p.Lines() && Place(Box(p), i) == Dim3(unitPos, iteration, cubePos)
  {
    IndexIsLinear(p, cubePos, unitPos, iteration);
    LinearIsPlaced(Box(p), Dim3(unitPos, iteration, cubePos));
    BoxHoldsLines(p);
  }

  /** Every line is written. */
  lemma UniformWritesAll(p: Params, i: nat)
    requires p.Valid() && p.LinesPerThread() > 0 && i < p.Lines()
    ensures var at := Place(Box(p), i);
            at.x < p.cubeDim && at.y < p.LinesPerThread() && at.z < p.cubes && UniformIndex(p, at.z, at.x, at.y) == i
  {
    BoxHoldsLines(p);
    PlaceIsLinear(Box(p), i);
    var at := Place(Box(p), i);
    IndexIsLinear(p, at.z, at.x, at.y);
  }

  ghost predicate NormalWrites(p: Params, i: nat, cubePos: nat, unitPos: nat, iteration: nat, second: bool)
    requires p.lineSize > 0
  {
    && cubePos < p.cubes && unitPos < p.cubeDim && iteration < p.LinesPerThread() / 2
    && NormalIndex(p, cubePos, unitPos, iteration, second) == i
  }

  /** No line is written twice by the paired loop. */
  lemma NormalWritesOnce(p: Params, i: nat, c: nat, u: nat, k: nat, s: bool, c': nat, u': nat, k': nat, s': bool)
    requires p.Valid() && NormalWrites(p, i, c, u, k, s) && NormalWrites(p, i, c', u', k', s')
    ensures i < p.Lines() && c == c' && u == u' && k == k' && s == s'
  {
    var a, a' := if s then 1 else 0, if s' then 1 else 0;
    PairIsTwoIterations(p, c, u, k, s);
    PairIsTwoIterations(p, c', u', k', s');
    UniformWritesOnce(p, c, u, 2 * k + a);
    UniformWritesOnce(p, c', u', 2 * k' + a');
  }

  ghost predicate NormalCovers(p: Params, i: nat)
    requires p.lineSize > 0
  {
    exists c: nat, u: nat, k: nat, s: bool :: NormalWrites(p, i, c, u, k, s)
  }

  /** The paired loop writes line `i` exactly if its iteration is not the odd one out. */
  lemma NormalCoversIff(p: Params, i: nat)
    requires p.Valid() && p.LinesPerThread() > 0 && i < p.Lines()
    ensures NormalCovers(p, i) <==> Place(Box(p), i).y < p.LinesPerThread() / 2 * 2
  {
    UniformWritesAll(p, i);
    var at := Place(Box(p), i);
    if at.y < p.LinesPerThread() / 2 * 2 {
      PairIsTwoIterations(p, at.z, at.x, at.y / 2, at.y % 2 == 1);
      assert NormalWrites(p, i, at.z, at.x, at.y / 2, at.y % 2 == 1);
    }
    if c: nat, u: nat, k: nat, s: bool :| NormalWrites(p, i, c, u, k, s) {
      PairIsTwoIterations(p, c, u, k, s);
      UniformWritesOnce(p, c, u, 2 * k + if s then 1 else 0);
    }
  }

  ghost predicate NormalCoversAll(p: Params)
    requires p.lineSize > 0
  {
    forall i: nat :: i < p.Lines() ==> NormalCovers(p, i)
  }

  /** It writes all lines exactly if the number of lines per thread is even. */
  lemma NormalWritesAllIff(p: Params)
    requires p.Valid() && p.LinesPerThread() > 0 && p.cubes > 0
    ensures NormalCoversAll(p) <==> p.LinesPerThread() % 2 == 0
  {
    var n := p.LinesPerThread();
    if n % 2 == 0 {
      forall i: nat | i < p.Lines()
        ensures NormalCovers(p, i)
      {
        NormalCoversIff(p, i);
        UniformWritesAll(p, i);
      }
    } else {
      var i := UniformIndex(p, 0, 0, n - 1);
      UniformWritesOnce(p, 0, 0, n - 1);
      NormalCoversIff(p, i);
    }
  }

  // ---------------------------------------------------------------------------------------
  // Cubes in a grid and units in a cube have three coordinates
  // ---------------------------------------------------------------------------------------

  /** A launch of `count` cubes of `dim` units. */
  predicate Launches(p: Params, count: Dim3, dim: Dim3) {
    p.Valid() && p.cubes == count.Size() && p.cubeDim == dim.Size()
  }

  function UnitPos(dim: Dim3, unitPlace: Dim3): nat {
    CubePos(dim, unitPlace)
  }

  lemma PositivePlaces(size: Dim3)
    requires size.Size() > 0
    ensures size.x > 0 && size.y > 0 && size.z > 0
  {
  }

  /** Every unit of every cube writes a line of its own in each iteration. */
  lemma GridWritesOnce(p: Params, count: Dim3, dim: Dim3, c: Dim3, u: Dim3, k: nat, c': Dim3, u': Dim3, k': nat)
    requires Launches(p, count, dim) && count.Contains(c) && count.Contains(c') && dim.Contains(u) && dim.Contains(u')
    requires k < p.LinesPerThread() && k' < p.LinesPerThread()
    requires UniformIndex(p, CubePos(count, c), UnitPos(dim, u), k) ==
             UniformIndex(p, CubePos(count, c'), UnitPos(dim, u'), k')
    ensures c == c' && u == u' && k == k'
  {
    LinearIsPlaced(count, c');
    CubePosIsBijective(count, c, CubePos(count, c'));
    LinearIsPlaced(dim, u);
    LinearIsPlaced(dim, u');
    UniformWritesOnce(p, CubePos(count, c), UnitPos(dim, u), k);
    UniformWritesOnce(p, CubePos(count, c'), UnitPos(dim, u'), k');
  }

  /** And every line is written by a unit of some cube. */
  lemma GridWritesAll(p: Params, count: Dim3, dim: Dim3, i: nat) returns (c: Dim3, u: Dim3, k: nat)
    requires Launches(p, count, dim) && p.LinesPerThread() > 0 && i < p.Lines()
    ensures count.Contains(c) && dim.Contains(u) && k < p.LinesPerThread()
    ensures UniformIndex(p, CubePos(count, c), UnitPos(dim, u), k) == i
  {
    UniformWritesAll(p, i);
    var at := Place(Box(p), i);
    PositivePlaces(count);
    PositivePlaces(dim);
    PlaceIsLinear(count, at.z);
    PlaceIsLinear(dim, at.x);
    c, u, k := Place(count, at.z), Place(dim, at.x), at.y;
  }

  ghost predicate GridNormalWrites(p: Params, count: Dim3, dim: Dim3, i: nat, c: Dim3, u: Dim3, k: nat, s: bool)
    requires p.lineSize > 0
  {
    count.Contains(c) && dim.Contains(u) && NormalWrites(p, i, CubePos(count, c), UnitPos(dim, u), k, s)
  }

  /** The paired loop writes no line twice. */
  lemma GridNormalWritesOnce(p: Params, count: Dim3, dim: Dim3, i: nat, c: Dim3, u: Dim3, k: nat, s: bool, c': Dim3,
                             u': Dim3, k': nat, s': bool)
    requires Launches(p, count, dim)
    requires GridNormalWrites(p, count, dim, i, c, u, k, s) && GridNormalWrites(p, count, dim, i, c', u', k', s')
    ensures c == c' && u == u' && k == k' && s == s'
  {
    NormalWritesOnce(p, i, CubePos(count, c), UnitPos(dim, u), k, s, CubePos(count, c'), UnitPos(dim, u'), k', s');
    LinearIsPlaced(count, c);
    LinearIsPlaced(count, c');
    LinearIsPlaced(dim, u);
    LinearIsPlaced(dim, u');
  }

  ghost predicate GridNormalCovers(p: Params, count: Dim3, dim: Dim3, i: nat)
    requires p.lineSize > 0
  {
    exists c: Dim3, u: Dim3, k: nat, s: bool :: GridNormalWrites(p, count, dim, i, c, u, k, s)
  }

  lemma GridCoversAsFlat(p: Params, count: Dim3, dim: Dim3, i: nat)
    requires Launches(p, count, dim)
    ensures GridNormalCovers(p, count, dim, i) <==> NormalCovers(p, i)
  {
    if c: Dim3, u: Dim3, k: nat, s: bool :| GridNormalWrites(p, count, dim, i, c, u, k, s) {
      assert NormalWrites(p, i, CubePos(count, c), UnitPos(dim, u), k, s);
    }
    if a: nat, b: nat, k: nat, s: bool :| NormalWrites(p, i, a, b, k, s) {
      PositivePlaces(count);
      PositivePlaces(dim);
      PlaceIsLinear(count, a);
      PlaceIsLinear(dim, b);
      assert GridNormalWrites(p, count, dim, i, Place(count, a), Place(dim, b), k, s);
    }
  }

  /** On a grid, too, it writes all lines exactly if the number of lines per thread is even. */
  lemma GridNormalWritesAllIff(p: Params, count: Dim3, dim: Dim3)
    requires Launches(p, count, dim) && p.LinesPerThread() > 0 && p.cubes > 0
    ensures (forall i: nat :: i < p.Lines() ==> GridNormalCovers(p, count, dim, i)) <==> p.LinesPerThread() % 2 == 0
  {
    NormalWritesAllIff(p);
    forall i: nat
      ensures GridNormalCovers(p, count, dim, i) <==> NormalCovers(p, i)
    {
      GridCoversAsFlat(p, count, dim, i);
    }
  }
}
