/** Where the units of a grid of cubes are: the linear positions a kernel can ask for. */
module Positions {
  import opened Arithmetic

  datatype Dim3 = Dim3(x: nat, y: nat, z: nat) {
    function Size(): nat {
      x * y * z
    }

    predicate Contains(p: Dim3) {
      p.x < x && p.y < y && p.z < z
    }
  }

  /** Position `p` in a box whose first two extents are `sizeX` and `sizeY`. */
  function Linear(sizeX: nat, sizeY: nat, p: Dim3): nat {
    (p.z * sizeY + p.y) * sizeX + p.x
  }

  function CubePos(count: Dim3, cube: Dim3): nat {
    Linear(count.x, count.y, cube)
  }

  /** Global coordinates of a unit. */
  function Global(dim: Dim3, cube: Dim3, unitPos: Dim3): Dim3 {
    Dim3(cube.x * dim.x + unitPos.x, cube.y * dim.y + unitPos.y, cube.z * dim.z + unitPos.z)
  }

  function AbsolutePos(count: Dim3, dim: Dim3, cube: Dim3, unitPos: Dim3): nat {
    Linear(count.x * dim.x, count.y * dim.y, Global(dim, cube, unitPos))
  }

  // ---------------------------------------------------------------------------------------
  // Neighbours
  // ---------------------------------------------------------------------------------------

  lemma LinearSteps(sizeX: nat, sizeY: nat, p: Dim3)
    ensures Linear(sizeX, sizeY, Dim3(0, 0, 0)) == 0
    ensures Linear(sizeX, sizeY, p.(x := p.x + 1)) == Linear(sizeX, sizeY, p) + 1
    ensures Linear(sizeX, sizeY, p.(y := p.y + 1)) == Linear(sizeX, sizeY, p) + sizeX
    ensures Linear(sizeX, sizeY, p.(z := p.z + 1)) == Linear(sizeX, sizeY, p) + sizeX * sizeY
  {
    var row := p.z * sizeY + p.y;
    assert (row + 1) * sizeX == row * sizeX + sizeX;
    assert (row + sizeY) * sizeX == row * sizeX + sizeX * sizeY;
    assert (p.z + 1) * sizeY == p.z * sizeY + sizeY;
  }

  /** Cubes are counted along x first, then along y, then along z. */
  lemma CubePosCounts(count: Dim3, cube: Dim3)
    ensures CubePos(count, Dim3(0, 0, 0)) == 0
    ensures CubePos(count, cube.(x := cube.x + 1)) == CubePos(count, cube) + 1
    ensures CubePos(count, cube.(y := cube.y + 1)) == CubePos(count, cube) + count.x
    ensures CubePos(count, cube.(z := cube.z + 1)) == CubePos(count, cube) + count.x * count.y
  {
    LinearSteps(count.x, count.y, cube);
  }

  /** Units are counted the same way through the whole grid: rows run through all cubes. */
  lemma AbsolutePosCounts(count: Dim3, dim: Dim3, cube: Dim3, u: Dim3)
    ensures AbsolutePos(count, dim, Dim3(0, 0, 0), Dim3(0, 0, 0)) == 0
    ensures AbsolutePos(count, dim, cube, u.(x := u.x + 1)) == AbsolutePos(count, dim, cube, u) + 1
    ensures AbsolutePos(count, dim, cube, u.(y := u.y + 1)) == AbsolutePos(count, dim, cube, u) + count.x * dim.x
    ensures AbsolutePos(count, dim, cube, u.(z := u.z + 1)) ==
            AbsolutePos(count, dim, cube, u) + (count.x * dim.x) * (count.y * dim.y)
    ensures AbsolutePos(count, dim, cube.(x := cube.x + 1), u) == AbsolutePos(count, dim, cube, u.(x := u.x + dim.x))
    ensures AbsolutePos(count, dim, cube.(y := cube.y + 1), u) == AbsolutePos(count, dim, cube, u.(y := u.y + dim.y))
    ensures AbsolutePos(count, dim, cube.(z := cube.z + 1), u) == AbsolutePos(count, dim, cube, u.(z := u.z + dim.z))
  {
    LinearSteps(count.x * dim.x, count.y * dim.y, Global(dim, cube, u));
    NextMultiple(cube.x, dim.x);
    NextMultiple(cube.y, dim.y);
    NextMultiple(cube.z, dim.z);
  }

  lemma NextMultiple(a: nat, n: nat)
    ensures (a + 1) * n == a * n + n && 0 * n == 0
  {
  }

  // ---------------------------------------------------------------------------------------
  // Both ways between boxes and ranges
  // ---------------------------------------------------------------------------------------

  lemma RowsFit(rows: nat, size: nat, q: nat, r: nat)
    requires q < rows && r < size
    ensures q * size + r < rows * size
  {
    ProductGrows(q + 1, rows, size);
  }

  lemma RowsSplit(rows: nat, size: nat, a: nat)
    requires size > 0 && a < rows * size
    ensures a / size < rows && a % size < size && (a / size) * size + a % size == a
  {
    if rows <= a / size {
      ProductGrows(rows, a / size, size);
    }
  }

  function Place(size: Dim3, a: nat): Dim3
    requires size.x > 0 && size.y > 0
  {
    Dim3(a % size.x, a / size.x % size.y, a / size.x / size.y)
  }

  lemma SizeByRows(size: Dim3)
    ensures size.Size() == (size.z * size.y) * size.x
  {
  }

  /** Linear positions number the places of a box from 0 without gaps. */
  lemma LinearIsPlaced(size: Dim3, p: Dim3)
    requires size.Contains(p)
    ensures Linear(size.x, size.y, p) < size.Size() && Place(size, Linear(size.x, size.y, p)) == p
  {
    var row := p.z * size.y + p.y;
    SizeByRows(size);
    RowsFit(size.z, size.y, p.z, p.y);
    RowsFit(size.z * size.y, size.x, row, p.x);
    QuotientIsUnique(size.x, row, p.x);
    QuotientIsUnique(size.y, p.z, p.y);
  }

  lemma PlaceIsLinear(size: Dim3, a: nat)
    requires size.x > 0 && size.y > 0 && a < size.Size()
    ensures size.Contains(Place(size, a)) && Linear(size.x, size.y, Place(size, a)) == a
  {
    SizeByRows(size);
    RowsSplit(size.z * size.y, size.x, a);
    RowsSplit(size.z, size.y, a / size.x);
  }

  /** Cube positions number the cubes of a grid from 0 without gaps or repetitions. */
  lemma CubePosIsBijective(count: Dim3, cube: Dim3, a: nat)
    requires count.Contains(cube) && a < count.Size()
    ensures CubePos(count, cube) < count.Size() && Place(count, CubePos(count, cube)) == cube
    ensures count.Contains(Place(count, a)) && CubePos(count, Place(count, a)) == a
  {
    LinearIsPlaced(count, cube);
    PlaceIsLinear(count, a);
  }

  function Whole(count: Dim3, dim: Dim3): Dim3 {
    Dim3(count.x * dim.x, count.y * dim.y, count.z * dim.z)
  }

  /** The cube and the unit at a global place. */
  function CubeAt(dim: Dim3, p: Dim3): Dim3
    requires dim.x > 0 && dim.y > 0 && dim.z > 0
  {
    Dim3(p.x / dim.x, p.y / dim.y, p.z / dim.z)
  }

  function UnitAt(dim: Dim3, p: Dim3): Dim3
    requires dim.x > 0 && dim.y > 0 && dim.z > 0
  {
    Dim3(p.x % dim.x, p.y % dim.y, p.z % dim.z)
  }

  lemma GlobalIsUnique(count: Dim3, dim: Dim3, cube: Dim3, unitPos: Dim3)
    requires count.Contains(cube) && dim.Contains(unitPos)
    ensures var p := Global(dim, cube, unitPos);
            Whole(count, dim).Contains(p) && CubeAt(dim, p) == cube && UnitAt(dim, p) == unitPos
  {
    RowsFit(count.x, dim.x, cube.x, unitPos.x);
    RowsFit(count.y, dim.y, cube.y, unitPos.y);
    RowsFit(count.z, dim.z, cube.z, unitPos.z);
    QuotientIsUnique(dim.x, cube.x, unitPos.x);
    QuotientIsUnique(dim.y, cube.y, unitPos.y);
    QuotientIsUnique(dim.z, cube.z, unitPos.z);
  }

  lemma GlobalIsSomewhere(count: Dim3, dim: Dim3, p: Dim3)
    requires dim.x > 0 && dim.y > 0 && dim.z > 0 && Whole(count, dim).Contains(p)
    ensures count.Contains(CubeAt(dim, p)) && dim.Contains(UnitAt(dim, p))
    ensures Global(dim, CubeAt(dim, p), UnitAt(dim, p)) == p
  {
    RowsSplit(count.x, dim.x, p.x);
    RowsSplit(count.y, dim.y, p.y);
    RowsSplit(count.z, dim.z, p.z);
  }

  lemma WholeIsPositive(count: Dim3, dim: Dim3)
    requires count.x > 0 && count.y > 0 && dim.x > 0 && dim.y > 0
    ensures Whole(count, dim).x > 0 && Whole(count, dim).y > 0
  {
  }

  /** Different units have different absolute positions, all below the number of units. */
  lemma AbsolutePosIsInjective(count: Dim3, dim: Dim3, cube: Dim3, unitPos: Dim3)
    requires count.Contains(cube) && dim.Contains(unitPos)
    ensures var whole, a := Whole(count, dim), AbsolutePos(count, dim, cube, unitPos);
            && whole.x > 0 && whole.y > 0 && a < whole.Size()
            && CubeAt(dim, Place(whole, a)) == cube && UnitAt(dim, Place(whole, a)) == unitPos
  {
    WholeIsPositive(count, dim);
    GlobalIsUnique(count, dim, cube, unitPos);
    LinearIsPlaced(Whole(count, dim), Global(dim, cube, unitPos));
  }

  /** Every position below the number of units is that of a unit. */
  lemma AbsolutePosIsSurjective(count: Dim3, dim: Dim3, a: nat)
    requires count.x > 0 && count.y > 0 && dim.x > 0 && dim.y > 0 && dim.z > 0 && a < Whole(count, dim).Size()
    ensures Whole(count, dim).x > 0 && Whole(count, dim).y > 0
    ensures var p := Place(Whole(count, dim), a);
            && count.Contains(CubeAt(dim, p)) && dim.Contains(UnitAt(dim, p))
            && AbsolutePos(count, dim, CubeAt(dim, p), UnitAt(dim, p)) == a
  {
    WholeIsPositive(count, dim);
    PlaceIsLinear(Whole(count, dim), a);
    GlobalIsSomewhere(count, dim, Place(Whole(count, dim), a));
  }
}
