/** The choice of a line size along an axis of stride 1, and why lines of that size never straddle. */
module LineSize {
  import opened Arithmetic
  import opened Options

  datatype LineSizeError = AxisOutOfBounds | StrideMismatch | NoValidLineSize

  datatype Result<+T> = Ok(value: T) | Err(error: LineSizeError)

  /** The smallest stride above 1, or 0. */
  function NextStride(strides: seq<nat>): (r: nat)
    ensures r == 0 <==> forall i :: 0 <= i < |strides| ==> strides[i] <= 1
    ensures r != 0 ==> r > 1 && r in strides && forall i :: 0 <= i < |strides| && strides[i] > 1 ==> r <= strides[i]
  {
    if strides == [] then 0
    else
      var rest := NextStride(strides[1..]);
      assert forall i :: 1 <= i < |strides| ==> strides[i] == strides[1..][i - 1];
      if strides[0] > 1 && (rest == 0 || strides[0] < rest) then strides[0] else rest
  }

  predicate Divides(d: nat, n: nat) {
    d > 0 && n % d == 0
  }

  predicate Fits(lineSize: nat, axisShape: nat, nextStride: nat) {
    Divides(lineSize, axisShape) && Divides(lineSize, nextStride)
  }

  /** The largest candidate that fits. */
  function LargestFit(candidates: seq<nat>, axisShape: nat, nextStride: nat): (r: Option<nat>)
    ensures r.Some? ==> r.value in candidates && r.value > 0 && axisShape % r.value == 0 && nextStride % r.value == 0
    ensures forall c ::
            c in candidates && c > 0 && axisShape % c == 0 && nextStride % c == 0 ==> r.Some? && c <= r.value
  {
    if candidates == [] then None
    else
      var rest, c := LargestFit(candidates[1..], axisShape, nextStride), candidates[0];
      assert forall x :: x in candidates <==> x == c || x in candidates[1..];
      if Fits(c, axisShape, nextStride) && (rest.None? || rest.value < c) then Some(c) else rest
  }

  function TryLineSizeParallel(supported: seq<nat>, shape: seq<nat>, strides: seq<nat>, axis: nat): (r: Result<nat>)
    ensures r.Ok? ==> axis < |strides| && axis < |shape| && strides[axis] == 1 && r.value in supported
    ensures r.Ok? ==> r.value > 0 && shape[axis] % r.value == 0 && NextStride(strides) % r.value == 0
    ensures r == Err(StrideMismatch) <==> axis < |strides| && strides[axis] != 1
    ensures r == Err(AxisOutOfBounds) <==> axis >= |strides| || (strides[axis] == 1 && axis >= |shape|)
    ensures axis < |strides| && axis < |shape| && strides[axis] == 1 ==>
              forall c :: c in supported && c > 0 && shape[axis] % c == 0 && NextStride(strides) % c == 0 ==>
                r.Ok? && c <= r.value
  {
    if axis >= |strides| then Err(AxisOutOfBounds)
    else if strides[axis] != 1 then Err(StrideMismatch)
    else if axis >= |shape| then Err(AxisOutOfBounds)
    else
      match LargestFit(supported, shape[axis], NextStride(strides))
      case Some(c) => Ok(c)
      case None => Err(NoValidLineSize)
  }

  /** The least of the strides above 1. */
  ghost predicate IsLeastStride(strides: seq<nat>, s: nat) {
    s in strides && s > 1 && forall i :: 0 <= i < |strides| && strides[i] > 1 ==> s <= strides[i]
  }

  /** A size divides the extent of the axis, and the least stride above 1 if there is one. */
  ghost predicate Usable(c: nat, shape: seq<nat>, strides: seq<nat>, axis: nat)
    requires axis < |shape|
  {
    c > 0 && shape[axis] % c == 0 && forall s: nat :: IsLeastStride(strides, s) ==> s % c == 0
  }

  lemma UsableFits(c: nat, shape: seq<nat>, strides: seq<nat>, axis: nat)
    requires axis < |shape|
    ensures Usable(c, shape, strides, axis) <==> c > 0 && shape[axis] % c == 0 && NextStride(strides) % c == 0
  {
    var next := NextStride(strides);
    if next != 0 {
      assert IsLeastStride(strides, next);
      assert forall s: nat :: IsLeastStride(strides, s) ==> s == next;
    } else {
      assert forall s: nat :: !IsLeastStride(strides, s);
    }
  }

  /** On an axis of stride 1 the largest usable size is chosen, and the choice fails exactly if no size is usable. */
  lemma LargestUsableIsChosen(supported: seq<nat>, shape: seq<nat>, strides: seq<nat>, axis: nat)
    requires axis < |shape| && axis < |strides| && strides[axis] == 1
    ensures var r := TryLineSizeParallel(supported, shape, strides, axis);
            && (r.Ok? ==> r.value in supported && Usable(r.value, shape, strides, axis))
            && (forall c: nat :: c in supported && Usable(c, shape, strides, axis) ==> r.Ok? && c <= r.value)
            && (r == Err(NoValidLineSize) <==> forall c: nat :: c in supported ==> !Usable(c, shape, strides, axis))
  {
    forall c: nat
      ensures Usable(c, shape, strides, axis) <==> c > 0 && shape[axis] % c == 0 && NextStride(strides) % c == 0
    {
      UsableFits(c, shape, strides, axis);
    }
  }

  // ---------------------------------------------------------------------------------------
  // Offsets
  // ---------------------------------------------------------------------------------------

  function Offset(coordinates: seq<nat>, strides: seq<nat>): nat
    requires |coordinates| == |strides|
  {
    if strides == [] then 0
    else
      var n := |strides| - 1;
      Offset(coordinates[..n], strides[..n]) + coordinates[n] * strides[n]
  }

  /** Moving along one axis moves the offset by its stride. */
  lemma {:induction false} OffsetMoves(x: seq<nat>, strides: seq<nat>, axis: nat, k: nat)
    requires |x| == |strides| && axis < |x|
    ensures Offset(x[axis := x[axis] + k], strides) == Offset(x, strides) + k * strides[axis]
    decreases |x|
  {
    var n := |strides| - 1;
    var y := x[axis := x[axis] + k];
    if axis == n {
      assert y[..n] == x[..n];
      assert (x[n] + k) * strides[n] == x[n] * strides[n] + k * strides[n];
    } else {
      OffsetMoves(x[..n], strides[..n], axis, k);
      assert y[..n] == x[..n][axis := x[axis] + k] && y[n] == x[n];
    }
  }

  /** The origin has offset 0. */
  lemma {:induction false} OffsetOfOrigin(x: seq<nat>, strides: seq<nat>)
    requires |x| == |strides| && forall i :: 0 <= i < |x| ==> x[i] == 0
    ensures Offset(x, strides) == 0
    decreases |x|
  {
    if strides != [] {
      var n := |strides| - 1;
      OffsetOfOrigin(x[..n], strides[..n]);
    }
  }

  lemma MultiplesAdd(d: nat, a: nat, b: nat)
    requires Divides(d, a) && Divides(d, b)
    ensures Divides(d, a + b)
  {
    assert a == a / d * d && b == b / d * d;
    assert a + b == (a / d + b / d) * d;
    MultipleDivides(d, a / d + b / d);
  }

  lemma MultipleDivides(d: nat, k: nat)
    requires d > 0
    ensures Divides(d, k * d) && k * d / d == k
  {
    QuotientIsUnique(d, k, 0);
  }

  lemma MultiplesScale(d: nat, k: nat, a: nat)
    requires Divides(d, a)
    ensures Divides(d, k * a)
  {
    assert a == a / d * d;
    assert k * a == (k * (a / d)) * d;
    MultipleDivides(d, k * (a / d));
  }

  lemma MultipleOfMultiple(d: nat, a: nat, b: nat)
    requires Divides(d, a) && Divides(a, b)
    ensures Divides(d, b)
  {
    MultiplesScale(d, b / a, a);
    assert b == b / a * a;
  }

  /** Strides above 1 are multiples of the smallest one, and other axes of stride 1 have extent 1. */
  ghost predicate Regular(shape: seq<nat>, strides: seq<nat>, axis: nat) {
    && |shape| == |strides|
    && (forall i :: 0 <= i < |strides| && strides[i] > 1 ==> Divides(NextStride(strides), strides[i]))
    && (forall i :: 0 <= i < |strides| && strides[i] == 1 && i != axis ==> shape[i] <= 1)
  }

  /** The coordinates of the first element of a line along the axis. */
  ghost predicate IsLineStart(coordinates: seq<nat>, shape: seq<nat>, axis: nat, lineSize: nat) {
    && |coordinates| == |shape| && (forall i :: 0 <= i < |shape| ==> coordinates[i] < shape[i])
    && axis < |shape| && Divides(lineSize, coordinates[axis])
  }

  /** Each axis contributes a multiple of the line size. */
  lemma TermIsMultiple(l: nat, next: nat, coordinate: nat, stride: nat, extent: nat, isAxis: bool)
    requires l > 0 && Divides(l, next) && coordinate < extent
    requires (stride > 1 ==> Divides(next, stride)) && (stride == 1 && !isAxis ==> extent <= 1)
    requires (isAxis ==> stride == 1 && Divides(l, coordinate))
    ensures Divides(l, coordinate * stride)
  {
    if stride > 1 {
      MultipleOfMultiple(l, next, stride);
      MultiplesScale(l, coordinate, stride);
    }
  }

  lemma {:induction false} SumIsMultiple(l: nat, coordinates: seq<nat>, strides: seq<nat>)
    requires |coordinates| == |strides| && l > 0
    requires forall i :: 0 <= i < |strides| ==> Divides(l, coordinates[i] * strides[i])
    ensures Divides(l, Offset(coordinates, strides))
  {
    if strides != [] {
      var n := |strides| - 1;
      SumIsMultiple(l, coordinates[..n], strides[..n]);
      MultiplesAdd(l, Offset(coordinates[..n], strides[..n]), coordinates[n] * strides[n]);
    }
  }

  /** The line size divides the offset of every line start, and whole lines make up the axis. */
  lemma LineStartsAreAligned(supported: seq<nat>, shape: seq<nat>, strides: seq<nat>, axis: nat, coordinates: seq<nat>)
    requires Regular(shape, strides, axis) && TryLineSizeParallel(supported, shape, strides, axis).Ok?
    requires var l := TryLineSizeParallel(supported, shape, strides, axis).value;
             IsLineStart(coordinates, shape, axis, l)
    ensures var l := TryLineSizeParallel(supported, shape, strides, axis).value;
            Divides(l, Offset(coordinates, strides)) && Divides(l, shape[axis])
  {
    var l := TryLineSizeParallel(supported, shape, strides, axis).value;
    forall i | 0 <= i < |strides|
      ensures Divides(l, coordinates[i] * strides[i])
    {
      TermIsMultiple(l, NextStride(strides), coordinates[i], strides[i], shape[i], i == axis);
    }
    SumIsMultiple(l, coordinates, strides);
  }

  /** The start index of a slice in lines; with an aligned offset the division loses nothing. */
  method IndexStart(coordinates: seq<nat>, strides: seq<nat>, lineSize: nat) returns (indexStart: nat)
    requires |coordinates| == |strides| && lineSize > 0
    ensures indexStart == Offset(coordinates, strides) / lineSize
    ensures Divides(lineSize, Offset(coordinates, strides)) ==> indexStart * lineSize == Offset(coordinates, strides)
  {
    indexStart := 0;
    for a := 0 to |strides|
      invariant indexStart == Offset(coordinates[..a], strides[..a])
    {
      assert coordinates[..a + 1][..a] == coordinates[..a] && strides[..a + 1][..a] == strides[..a];
      indexStart := indexStart + coordinates[a] * strides[a];
    }
    assert coordinates[..|strides|] == coordinates && strides[..|strides|] == strides;
    indexStart := indexStart / lineSize;
  }
}
