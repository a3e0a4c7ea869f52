/** Folds over sequences and index ranges for an operator that is associative, or a commutative monoid. */
module Folds {
  ghost predicate Associates<T>(f: (T, T) -> T, a: T, b: T, c: T) {
    f(f(a, b), c) == f(a, f(b, c))
  }

  ghost predicate Commutes<T>(f: (T, T) -> T, a: T, b: T) {
    f(a, b) == f(b, a)
  }

  ghost predicate Associative<T(!new)>(f: (T, T) -> T) {
    forall a, b, c {:trigger Associates(f, a, b, c)} :: Associates(f, a, b, c)
  }

  ghost predicate CommutativeMonoid<T(!new)>(f: (T, T) -> T, unit: T) {
    && Associative(f) && (forall a, b {:trigger Commutes(f, a, b)} :: Commutes(f, a, b))
    && forall a :: f(unit, a) == a
  }

  /** The elements of a non-empty sequence combined in order. */
  function Fold<T>(f: (T, T) -> T, s: seq<T>): T
    requires s != []
  {
    if |s| == 1 then s[0] else f(Fold(f, s[..|s| - 1]), s[|s| - 1])
  }

  lemma {:induction false} FoldConcat<T(!new)>(f: (T, T) -> T, s: seq<T>, t: seq<T>)
    requires Associative(f) && s != [] && t != []
    ensures Fold(f, s + t) == f(Fold(f, s), Fold(f, t))
    decreases |t|
  {
    var all := s + t;
    assert all[|all| - 1] == t[|t| - 1];
    assert |t| > 1 ==> Associates(f, Fold(f, s), Fold(f, t[..|t| - 1]), t[|t| - 1]);
    if |t| == 1 {
      assert all[..|all| - 1] == s;
    } else {
      FoldConcat(f, s, t[..|t| - 1]);
      assert all[..|all| - 1] == s + t[..|t| - 1];
    }
  }

  /** The values of `g` on the indices below `n`, combined in order. */
  function Sum<T>(f: (T, T) -> T, unit: T, g: nat -> T, n: nat): T {
    if n == 0 then unit else f(Sum(f, unit, g, n - 1), g(n - 1))
  }

  /** It is the fold of the unit and the values. */
  lemma {:induction false} SumIsFold<T>(f: (T, T) -> T, unit: T, g: nat -> T, s: seq<T>)
    requires forall m: nat :: m < |s| ==> g(m) == s[m]
    ensures Sum(f, unit, g, |s|) == Fold(f, [unit] + s)
    decreases |s|
  {
    var all := [unit] + s;
    if s != [] {
      var n := |s| - 1;
      SumIsFold(f, unit, g, s[..n]);
      assert all[..|all| - 1] == [unit] + s[..n] && all[|all| - 1] == s[n];
    }
  }

  /** The sum of `n` values from index `from` on. */
  function RowSum<T>(f: (T, T) -> T, unit: T, g: nat -> T, from: nat, n: nat): T {
    if n == 0 then unit else f(RowSum(f, unit, g, from, n - 1), g(from + n - 1))
  }

  lemma {:induction false} SumThenRow<T(!new)>(f: (T, T) -> T, unit: T, g: nat -> T, from: nat, n: nat)
    requires CommutativeMonoid(f, unit)
    ensures Sum(f, unit, g, from + n) == f(Sum(f, unit, g, from), RowSum(f, unit, g, from, n))
    decreases n
  {
    if n == 0 {
      assert Commutes(f, Sum(f, unit, g, from), unit);
    } else {
      SumThenRow(f, unit, g, from, n - 1);
      assert Associates(f, Sum(f, unit, g, from), RowSum(f, unit, g, from, n - 1), g(from + n - 1));
    }
  }

  // A range of indices cut into rows of equal length; `start` gives the first index of each row.

  ghost predicate StepsAt(start: nat -> nat, columns: nat, r: nat) {
    start(r + 1) == start(r) + columns
  }

  ghost predicate CutsRows(start: nat -> nat, columns: nat) {
    start(0) == 0 && forall r: nat {:trigger StepsAt(start, columns, r)} :: StepsAt(start, columns, r)
  }

  /** Multiples cut a range into rows. */
  lemma MultiplesCutRows(start: nat -> nat, columns: nat)
    requires forall r: nat :: start(r) == r * columns
    ensures CutsRows(start, columns)
  {
    forall r: nat
      ensures StepsAt(start, columns, r)
    {
      assert (r + 1) * columns == r * columns + columns;
    }
  }

  // Columns are summed row by row: `part(r, c)` is the sum of the first `r` values of column `c`.

  ghost predicate AddsAt<T>(f: (T, T) -> T, g: nat -> T, start: nat -> nat, part: (nat, nat) -> T, r: nat, c: nat) {
    part(r + 1, c) == f(part(r, c), g(start(r) + c))
  }

  ghost predicate SumsColumns<T(!new)>(f: (T, T) -> T, unit: T, g: nat -> T, start: nat -> nat, part: (nat, nat) -> T) {
    && (forall c: nat :: part(0, c) == unit)
    && forall r: nat, c: nat {:trigger AddsAt(f, g, start, part, r, c)} :: AddsAt(f, g, start, part, r, c)
  }

  /** The sum of the partial sums of the first `n` columns. */
  function AcrossSum<T>(f: (T, T) -> T, unit: T, part: (nat, nat) -> T, r: nat, n: nat): T {
    if n == 0 then unit else f(AcrossSum(f, unit, part, r, n - 1), part(r, n - 1))
  }

  lemma {:induction false} AcrossGrows<T(!new)>(f: (T, T) -> T, unit: T, g: nat -> T, start: nat -> nat,
                                                part: (nat, nat) -> T, r: nat, n: nat)
    requires CommutativeMonoid(f, unit) && SumsColumns(f, unit, g, start, part)
    ensures AcrossSum(f, unit, part, r + 1, n) == f(AcrossSum(f, unit, part, r, n), RowSum(f, unit, g, start(r), n))
    decreases n
  {
    if n > 0 {
      AcrossGrows(f, unit, g, start, part, r, n - 1);
      assert AddsAt(f, g, start, part, r, n - 1);
      var a, b := AcrossSum(f, unit, part, r, n - 1), RowSum(f, unit, g, start(r), n - 1);
      Interchange(f, unit, a, b, part(r, n - 1), g(start(r) + n - 1));
    }
  }

  lemma Interchange<T(!new)>(f: (T, T) -> T, unit: T, a: T, b: T, c: T, d: T)
    requires CommutativeMonoid(f, unit)
    ensures f(f(a, b), f(c, d)) == f(f(a, c), f(b, d))
  {
    assert Associates(f, a, b, f(c, d)) && Associates(f, b, c, d) && Commutes(f, b, c);
    assert Associates(f, c, b, d) && Associates(f, a, c, f(b, d));
  }

  lemma {:induction false} AcrossStarts<T>(f: (T, T) -> T, unit: T, part: (nat, nat) -> T, n: nat)
    requires f(unit, unit) == unit && forall c: nat :: part(0, c) == unit
    ensures AcrossSum(f, unit, part, 0, n) == unit
  {
    if n > 0 {
      AcrossStarts(f, unit, part, n - 1);
    }
  }

  /** The sum of all values is the sum of the sums over the columns. */
  lemma {:induction false} SumColumns<T(!new)>(f: (T, T) -> T, unit: T, g: nat -> T, start: nat -> nat,
                                               part: (nat, nat) -> T, rows: nat, columns: nat)
    requires CommutativeMonoid(f, unit) && CutsRows(start, columns) && SumsColumns(f, unit, g, start, part)
    ensures AcrossSum(f, unit, part, rows, columns) == Sum(f, unit, g, start(rows))
    decreases rows
  {
    if rows == 0 {
      AcrossStarts(f, unit, part, columns);
    } else {
      SumColumns(f, unit, g, start, part, rows - 1, columns);
      AcrossGrows(f, unit, g, start, part, rows - 1, columns);
      assert StepsAt(start, columns, rows - 1);
      SumThenRow(f, unit, g, start(rows - 1), columns);
    }
  }

  lemma {:induction false} AcrossIsFold<T(!new)>(f: (T, T) -> T, unit: T, part: (nat, nat) -> T, r: nat, s: seq<T>)
    requires (forall a :: f(unit, a) == a) && s != [] && forall c: nat :: c < |s| ==> part(r, c) == s[c]
    ensures AcrossSum(f, unit, part, r, |s|) == Fold(f, s)
    decreases |s|
  {
    if |s| == 1 {
      assert AcrossSum(f, unit, part, r, 0) == unit;
    } else {
      AcrossIsFold(f, unit, part, r, s[..|s| - 1]);
    }
  }
}
