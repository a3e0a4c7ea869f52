/**
 Which elements a reduction combines: the lines a unit or a cube reads are those of one slice of the
 tensor, found by coordinates and strides alone.
 */
module TensorReduce {
  import opened Arithmetic
  import opened Folds
  import opened ReduceShared
  import LineSize

  /** Elements in memory, with the extent and the stride of each axis. */
  datatype Tensor<+E> = Tensor(data: seq<E>, shape: seq<nat>, strides: seq<nat>)

  ghost predicate InShape(x: seq<nat>, shape: seq<nat>) {
    |x| == |shape| && forall i :: 0 <= i < |x| ==> x[i] < shape[i]
  }

  /** Every element is in memory, and the memory consists of whole lines. */
  ghost predicate TensorOk<E>(t: Tensor<E>, lineSize: nat) {
    && |t.shape| == |t.strides| && LineSize.Divides(lineSize, |t.data|)
    && forall x: seq<nat> {:trigger InShape(x, t.shape)} ::
       InShape(x, t.shape) ==> LineSize.Offset(x, t.strides) < |t.data|
  }

  /** The slice along `axis` through `x`, which lies at its start. */
  ghost predicate SliceOk<E>(t: Tensor<E>, axis: nat, x: seq<nat>) {
    && |x| == |t.shape| == |t.strides| && axis < |x| && x[axis] == 0
    && forall i :: 0 <= i < |x| && i != axis ==> x[i] < t.shape[i]
  }

  /** Lines never straddle: along the axis, or across it where its stride is a whole number of lines. */
  ghost predicate LinesFit<E>(mode: LineMode, t: Tensor<E>, axis: nat, x: seq<nat>, lineSize: nat)
    requires SliceOk(t, axis, x)
  {
    && LineSize.Divides(lineSize, LineSize.Offset(x, t.strides))
    && if mode.Parallel? then t.strides[axis] == 1 else LineSize.Divides(lineSize, t.strides[axis])
  }

  /** The address of the element at coordinate `k` of the slice. */
  function Address(strides: seq<nat>, axis: nat, x: seq<nat>, k: nat): nat
    requires |x| == |strides| && axis < |x|
  {
    LineSize.Offset(x[axis := k], strides)
  }

  // ---------------------------------------------------------------------------------------
  // Addresses
  // ---------------------------------------------------------------------------------------

  lemma AddressAdvances(strides: seq<nat>, axis: nat, x: seq<nat>, k: nat)
    requires |x| == |strides| && axis < |x| && x[axis] == 0
    ensures Address(strides, axis, x, k) == LineSize.Offset(x, strides) + k * strides[axis]
  {
    LineSize.OffsetMoves(x, strides, axis, k);
  }

  lemma ExactProduct(a: nat, d: nat, m: nat)
    requires d > 0
    ensures m * (a / d) * d == m * a <==> m == 0 || a % d == 0
  {
    var q, r := a / d, a % d;
    assert a == q * d + r;
    SplitProduct(m, q, d, r);
    assert m > 0 && r > 0 ==> m * r > 0;
  }

  lemma StepsAcross(offset: nat, first: nat, a: nat, d: nat, m: nat)
    requires d > 0 && first * d == offset
    ensures (first + m * (a / d)) * d == offset + m * a <==> m == 0 || a % d == 0
  {
    SplitProduct(m, a / d, d, first);
    ExactProduct(a, d, m);
  }

  lemma SplitProduct(m: nat, q: nat, d: nat, r: nat)
    ensures m * (q * d + r) == m * q * d + m * r && (r + m * q) * d == r * d + m * q * d
  {
  }

  /** The parameters of a reduction of the slice. */
  ghost predicate IsFor<E>(p: Params, t: Tensor<E>, axis: nat, x: seq<nat>)
    requires SliceOk(t, axis, x)
  {
    && p.lineSize > 0 && p.axisLength == t.shape[axis] && p.axisStride == t.strides[axis]
    && p.indexStart == LineSize.Offset(x, t.strides) / p.lineSize
  }

  /** In parallel mode the lines follow each other along the axis. */
  lemma ParallelLineIsAt<E>(p: Params, t: Tensor<E>, axis: nat, x: seq<nat>, m: nat)
    requires SliceOk(t, axis, x) && IsFor(p, t, axis, x) && p.mode.Parallel? && t.strides[axis] == 1
    requires LineSize.Divides(p.lineSize, LineSize.Offset(x, t.strides))
    ensures p.LineIndex(m) * p.lineSize == Address(t.strides, axis, x, m * p.lineSize)
  {
    AddressAdvances(t.strides, axis, x, m * p.lineSize);
    var first := p.indexStart;
    SplitProduct(m, 1, p.lineSize, first);
  }

  /** In perpendicular mode they do so across it exactly if the stride is a whole number of lines. */
  lemma PerpendicularLineIsAtIff<E>(p: Params, t: Tensor<E>, axis: nat, x: seq<nat>, m: nat)
    requires SliceOk(t, axis, x) && IsFor(p, t, axis, x) && p.mode.Perpendicular?
    requires LineSize.Divides(p.lineSize, LineSize.Offset(x, t.strides))
    ensures p.LineIndex(m) * p.lineSize == Address(t.strides, axis, x, m)
            <==> m == 0 || LineSize.Divides(p.lineSize, t.strides[axis])
  {
    AddressAdvances(t.strides, axis, x, m);
    var offset := LineSize.Offset(x, t.strides);
    assert p.indexStart * p.lineSize == offset;
    StepsAcross(offset, p.indexStart, t.strides[axis], p.lineSize, m);
  }

  lemma LineIsAt<E>(p: Params, t: Tensor<E>, axis: nat, x: seq<nat>, m: nat)
    requires SliceOk(t, axis, x) && IsFor(p, t, axis, x) && LinesFit(p.mode, t, axis, x, p.lineSize)
    ensures p.LineIndex(m) * p.lineSize ==
            Address(t.strides, axis, x, m * (if p.mode.Parallel? then p.lineSize else 1))
  {
    if p.mode.Parallel? {
      ParallelLineIsAt(p, t, axis, x, m);
    } else {
      PerpendicularLineIsAtIff(p, t, axis, x, m);
    }
  }

  // ---------------------------------------------------------------------------------------
  // The lines of a slice
  // ---------------------------------------------------------------------------------------

  lemma LineEnds(n: nat, lineSize: nat, k: nat)
    requires k < n
    ensures k * lineSize + lineSize <= n * lineSize
  {
    ProductGrows(k + 1, n, lineSize);
    SplitProduct(k, 1, lineSize, 1);
  }

  ghost predicate IsCut<E>(data: seq<E>, lineSize: nat, lines: seq<seq<E>>, k: nat) {
    k < |lines| ==> k * lineSize + lineSize <= |data| && lines[k] == data[k * lineSize..][..lineSize]
  }

  /** The memory cut into lines. */
  function Cut<E>(data: seq<E>, lineSize: nat): (r: seq<seq<E>>)
    requires LineSize.Divides(lineSize, |data|)
    ensures |r| == |data| / lineSize
  {
    seq(|data| / lineSize, k requires 0 <= k < |data| / lineSize =>
      LineEnds(|data| / lineSize, lineSize, k); data[k * lineSize..][..lineSize])
  }

  lemma CutIsCut<E>(data: seq<E>, lineSize: nat, k: nat)
    requires LineSize.Divides(lineSize, |data|)
    ensures IsCut(data, lineSize, Cut(data, lineSize), k)
  {
    if k < |data| / lineSize {
      LineEnds(|data| / lineSize, lineSize, k);
    }
  }

  /** The line of elements that starts at coordinate `k` of the slice. */
  function LineFrom<E>(t: Tensor<E>, axis: nat, x: seq<nat>, lineSize: nat, k: nat): seq<E>
    requires |x| == |t.strides| && axis < |x|
  {
    var a := Address(t.strides, axis, x, k);
    if a + lineSize <= |t.data| then t.data[a..][..lineSize] else []
  }

  /** The first `n` lines of the slice, each `width` coordinates after the one before. */
  function SliceLines<E>(t: Tensor<E>, axis: nat, x: seq<nat>, lineSize: nat, width: nat, n: nat): (r: seq<seq<E>>)
    requires |x| == |t.strides| && axis < |x|
    ensures |r| == n
  {
    if n == 0 then []
    else SliceLines(t, axis, x, lineSize, width, n - 1) + [LineFrom(t, axis, x, lineSize, (n - 1) * width)]
  }

  /** All lines of the slice: along the axis they cover `lineSize` coordinates each, across it one. */
  function AllLines<E>(mode: LineMode, t: Tensor<E>, axis: nat, x: seq<nat>, lineSize: nat): seq<seq<E>>
    requires |x| == |t.strides| && axis < |x| && axis < |t.shape| && lineSize > 0
  {
    if mode.Parallel? then SliceLines(t, axis, x, lineSize, lineSize, DivCeil(t.shape[axis], lineSize))
    else SliceLines(t, axis, x, lineSize, 1, t.shape[axis])
  }

  /** A multiple of the line size within the memory starts a whole line. */
  lemma WholeLine(data: nat, lineSize: nat, k: nat)
    requires LineSize.Divides(lineSize, data) && k * lineSize < data
    ensures k < data / lineSize && k * lineSize + lineSize <= data
  {
    var n := data / lineSize;
    assert data == n * lineSize;
    if n <= k {
      ProductGrows(n, k, lineSize);
    }
    LineEnds(n, lineSize, k);
  }

  /** The `m`-th line the reduction reads is the one that starts at its coordinate. */
  lemma LineIsRead<E>(p: Params, t: Tensor<E>, axis: nat, x: seq<nat>, unit: seq<E>, m: nat)
    requires SliceOk(t, axis, x) && TensorOk(t, p.lineSize) && p.Valid() && IsFor(p, t, axis, x)
    requires LinesFit(p.mode, t, axis, x, p.lineSize) && m < p.Lines()
    ensures p.LineIndex(m) < |Cut(t.data, p.lineSize)|
    ensures LineAt(p, Cut(t.data, p.lineSize), unit, m) == LineFrom(t, axis, x, p.lineSize, m * p.Width())
  {
    var k := m * p.Width();
    CeilingCounts(p.axisLength, p.Width(), m);
    assert InShape(x[axis := k], t.shape);
    LineIsAt(p, t, axis, x, m);
    WholeLine(|t.data|, p.lineSize, p.LineIndex(m));
    CutIsCut(t.data, p.lineSize, p.LineIndex(m));
  }

  lemma {:induction false} SliceLineAt<E>(t: Tensor<E>, axis: nat, x: seq<nat>, lineSize: nat, width: nat, n: nat,
                                          m: nat)
    requires |x| == |t.strides| && axis < |x| && m < n
    ensures SliceLines(t, axis, x, lineSize, width, n)[m] == LineFrom(t, axis, x, lineSize, m * width)
    decreases n
  {
    if m < n - 1 {
      SliceLineAt(t, axis, x, lineSize, width, n - 1, m);
    }
  }

  lemma LinesCounted<E>(p: Params, t: Tensor<E>, axis: nat, x: seq<nat>)
    requires SliceOk(t, axis, x) && IsFor(p, t, axis, x)
    ensures AllLines(p.mode, t, axis, x, p.lineSize) == SliceLines(t, axis, x, p.lineSize, p.Width(), p.Lines())
  {
  }

  /** The reduction combines exactly the lines of the slice, in order. */
  lemma ReductionReadsSlice<E>(f: (seq<E>, seq<E>) -> seq<E>, unit: seq<E>, p: Params, t: Tensor<E>, axis: nat,
                                     x: seq<nat>)
    requires SliceOk(t, axis, x) && TensorOk(t, p.lineSize) && p.Valid() && IsFor(p, t, axis, x)
    requires LinesFit(p.mode, t, axis, x, p.lineSize)
    ensures p.Holds(Cut(t.data, p.lineSize))
    ensures Reduction(f, unit, p, Cut(t.data, p.lineSize))
            == Fold(f, [unit] + AllLines(p.mode, t, axis, x, p.lineSize))
  {
    forall m: nat | m < p.Lines()
      ensures p.LineIndex(m) < |Cut(t.data, p.lineSize)|
    {
      LineIsRead(p, t, axis, x, unit, m);
    }
    var lines, items := AllLines(p.mode, t, axis, x, p.lineSize), Cut(t.data, p.lineSize);
    LinesCounted(p, t, axis, x);
    forall m: nat | m < |lines|
      ensures lines[m] == LineAt(p, items, unit, m)
    {
      LineIsRead(p, t, axis, x, unit, m);
      SliceLineAt(t, axis, x, p.lineSize, p.Width(), p.Lines(), m);
    }
    ReductionIsFold(f, unit, p, items, lines);
  }

  /** Element `j` of a line along the axis is the element of the tensor `j` coordinates further. */
  lemma LineElement<E>(t: Tensor<E>, axis: nat, x: seq<nat>, lineSize: nat, k: nat, j: nat)
    requires SliceOk(t, axis, x) && t.strides[axis] == 1 && j < lineSize
    requires Address(t.strides, axis, x, k) + lineSize <= |t.data|
    ensures Address(t.strides, axis, x, k + j) < |t.data|
    ensures LineFrom(t, axis, x, lineSize, k)[j] == t.data[Address(t.strides, axis, x, k + j)]
  {
    AddressAdvances(t.strides, axis, x, k);
    AddressAdvances(t.strides, axis, x, k + j);
  }

  // ---------------------------------------------------------------------------------------
  // Reducing a slice of a tensor
  // ---------------------------------------------------------------------------------------

  method SliceParams<E>(mode: LineMode, lineSize: nat, cubeDim: nat, t: Tensor<E>, axis: nat, x: seq<nat>)
    returns (p: Params)
    requires SliceOk(t, axis, x) && lineSize > 0 && cubeDim > 0
    ensures p.Valid() && IsFor(p, t, axis, x) && p.mode == mode && p.lineSize == lineSize && p.cubeDim == cubeDim
  {
    var indexStart := LineSize.IndexStart(x, t.strides, lineSize);
    p := Params(mode, lineSize, cubeDim, t.shape[axis], t.strides[axis], indexStart);
  }

  /** One unit combines all lines of the slice in order. */
  method ReduceTensorSlice<E(!new)>(f: (seq<E>, seq<E>) -> seq<E>, unit: seq<E>, mode: LineMode, lineSize: nat,
                                    t: Tensor<E>, axis: nat, x: seq<nat>)
    returns (r: seq<E>)
    requires SliceOk(t, axis, x) && TensorOk(t, lineSize) && LinesFit(mode, t, axis, x, lineSize)
    ensures r == Fold(f, [unit] + AllLines(mode, t, axis, x, lineSize))
  {
    var p := SliceParams(mode, lineSize, 1, t, axis, x);
    ReductionReadsSlice(f, unit, p, t, axis, x);
    r := ReduceSlice(f, unit, p, Cut(t.data, lineSize));
  }

  /** A whole cube gives the same. */
  method ReduceTensorCube<E(!new)>(f: (seq<E>, seq<E>) -> seq<E>, unit: seq<E>, mode: LineMode, lineSize: nat,
                                   cubeDim: nat, checks: BoundChecks, t: Tensor<E>, axis: nat, x: seq<nat>)
    returns (r: seq<E>)
    requires CommutativeMonoid(f, unit) && cubeDim > 0
    requires SliceOk(t, axis, x) && TensorOk(t, lineSize) && LinesFit(mode, t, axis, x, lineSize)
    ensures r == Fold(f, [unit] + AllLines(mode, t, axis, x, lineSize))
  {
    var p := SliceParams(mode, lineSize, cubeDim, t, axis, x);
    ReductionReadsSlice(f, unit, p, t, axis, x);
    r := ReduceCube(f, unit, p, Cut(t.data, lineSize), checks);
  }
}
