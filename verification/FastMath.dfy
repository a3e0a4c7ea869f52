/**
 Division by a fixed divisor through a multiplication, an addition and a shift on 32-bit words, and
 exactly when it is the division it stands for.
 */
module FastMath {
  import opened Arithmetic

  function Pow2(n: nat): (r: nat)
    ensures r > 0
  {
    if n == 0 then 1 else 2 * Pow2(n - 1)
  }

  lemma {:induction false} Pow2Adds(a: nat, b: nat)
    ensures Pow2(a + b) == Pow2(a) * Pow2(b)
  {
    if a > 0 {
      Pow2Adds(a - 1, b);
      assert a - 1 + b == a + b - 1;
    }
  }

  lemma {:induction false} Pow2Grows(a: nat, b: nat)
    requires a <= b
    ensures Pow2(a) <= Pow2(b) && (a < b ==> Pow2(a) < Pow2(b))
    decreases b
  {
    if a < b {
      Pow2Grows(a, b - 1);
    }
  }

  lemma WordIsPow2()
    ensures Pow2(32) == WORD && Pow2(31) == WORD / 2
  {
    assert Pow2(8) == 256;
    Pow2Adds(8, 8);
    Pow2Adds(16, 15);
    Pow2Adds(16, 16);
    assert Pow2(15) * 2 == Pow2(16);
  }

  // ---------------------------------------------------------------------------------------
  // Operations on words
  // ---------------------------------------------------------------------------------------

  function MulHi(a: nat, b: nat): nat {
    a * b / WORD
  }

  function Quotient(a: nat, b: nat): nat
    requires b > 0
  {
    a / b
  }

  function ShiftRight(a: nat, n: nat): nat {
    Quotient(a, Pow2(n))
  }

  function BitAnd(a: nat, b: nat): nat {
    if a == 0 || b == 0 then 0 else 2 * BitAnd(a / 2, b / 2) + (a % 2) * (b % 2)
  }

  /** Masking with one less than a power of two keeps the remainder. */
  lemma {:induction false} MaskIsRemainder(a: nat, n: nat)
    ensures BitAnd(a, Pow2(n) - 1) == a % Pow2(n)
    decreases n
  {
    if n == 0 {
      assert Pow2(n) == 1;
    } else {
      var p := Pow2(n - 1);
      MaskIsRemainder(a / 2, n - 1);
      MaskStep(a, p);
      assert Pow2(n) == 2 * p;
    }
  }

  lemma MaskStep(a: nat, p: nat)
    requires p > 0 && BitAnd(a / 2, p - 1) == a / 2 % p
    ensures BitAnd(a, 2 * p - 1) == a % (2 * p)
  {
    MaskByHalves(a, p);
    HalvesOfRemainder(a, p);
  }

  lemma MaskByHalves(a: nat, p: nat)
    requires p > 0
    ensures BitAnd(a, 2 * p - 1) == 2 * BitAnd(a / 2, p - 1) + a % 2
  {
    var mask := 2 * p - 1;
    assert mask / 2 == p - 1 && mask % 2 == 1;
    if a > 0 {
      assert BitAnd(a, mask) == 2 * BitAnd(a / 2, mask / 2) + (a % 2) * (mask % 2);
    }
  }

  lemma HalvesOfRemainder(a: nat, p: nat)
    requires p > 0
    ensures a % (2 * p) == 2 * (a / 2 % p) + a % 2
  {
    var h := a / 2;
    assert a == 2 * h + a % 2 && h == h / p * p + h % p;
    assert a == h / p * (2 * p) + (2 * (h % p) + a % 2);
    QuotientIsUnique(2 * p, h / p, 2 * (h % p) + a % 2);
  }

  /** A quotient lies where its multiples say. */
  lemma QuotientBetween(n: nat, d: nat, q: nat)
    requires d > 0 && q * d <= n < (q + 1) * d
    ensures n / d == q
  {
    QuotientIsUnique(d, q, n - q * d);
  }

  lemma DivideTwice(n: nat, a: nat, b: nat)
    requires a > 0 && b > 0
    ensures a * b > 0 && n / a / b == n / (a * b)
  {
    var x, r := n / a, n % a;
    var q, s := x / b, x % b;
    DivisionHolds(n, a);
    DivisionHolds(x, b);
    Distribute(q, b, s, a);
    ProductGrows(s + 1, b, a);
    CommonProduct(a, b);
    RestOfQuotient(n, a * b, q, s * a + r);
  }

  lemma DivisionHolds(n: nat, d: nat)
    requires d > 0
    ensures n == n / d * d + n % d && n % d < d
  {
  }

  lemma CommonProduct(a: nat, b: nat)
    requires a > 0 && b > 0
    ensures b * a == a * b > 0
  {
  }

  lemma RestOfQuotient(n: nat, d: nat, q: nat, rest: nat)
    requires rest < d && n == q * d + rest
    ensures n / d == q
  {
    QuotientIsUnique(d, q, rest);
  }

  lemma Distribute(q: nat, b: nat, s: nat, a: nat)
    ensures (q * b + s) * a == q * (a * b) + s * a && (s + 1) * a == s * a + a
  {
  }

  // ---------------------------------------------------------------------------------------
  // Set-up
  // ---------------------------------------------------------------------------------------

  datatype FastDivmod =
    | Fast(divisor: nat, multiplier: nat, shiftRight: nat)
    | PowerOfTwo(shift: nat, mask: nat)
    | Fallback(divisor: nat)

  function TrailingZeros(n: nat): (r: nat)
    requires n > 0
    decreases n
  {
    if n % 2 == 1 then 0 else 1 + TrailingZeros(n / 2)
  }

  lemma {:induction false} PowerOfTwoIs(n: nat)
    requires IsPowerOfTwo(n)
    ensures n == Pow2(TrailingZeros(n))
  {
    if n != 1 {
      PowerOfTwoIs(n / 2);
    }
  }

  lemma {:induction false} Pow2IsPowerOfTwo(n: nat)
    ensures IsPowerOfTwo(Pow2(n))
  {
    if n > 0 {
      Pow2IsPowerOfTwo(n - 1);
      assert 2 * Pow2(n - 1) / 2 == Pow2(n - 1);
    }
  }

  /** The least exponent whose power of two reaches `x`, or 32. */
  method FindLog2(x: nat) returns (r: nat)
    requires x < WORD
    ensures r <= 32 && x <= Pow2(r) && forall i: nat :: i < r ==> Pow2(i) < x
  {
    WordIsPow2();
    for i := 0 to 32
      invariant forall j: nat :: j < i ==> Pow2(j) < x
    {
      if Pow2(i) >= x {
        return i;
      }
    }
    return 32;
  }

  /** The shift and the multiplier of a divisor that is no power of two. */
  ghost predicate IsFastFor(divisor: nat, multiplier: nat, shift: nat) {
    && Pow2(shift) < 2 * divisor && divisor < Pow2(shift)
    && multiplier == WORD * (Pow2(shift) - divisor) / divisor + 1
  }

  ghost predicate Represents(f: FastDivmod, divisor: nat) {
    match f
    case Fast(d, m, s) => d == divisor && IsFastFor(d, m, s) && m < WORD && s <= 32 && (s == 32 <==> divisor > WORD / 2)
    case PowerOfTwo(s, mask) => divisor == Pow2(s) && mask == divisor - 1
    case Fallback(d) => d == divisor
  }

  /** The multiplier always fits a word. */
  lemma MultiplierFits(divisor: nat, shift: nat)
    requires 0 < divisor < WORD && Pow2(shift) < 2 * divisor && divisor < Pow2(shift)
    ensures WORD * (Pow2(shift) - divisor) / divisor + 1 < WORD
  {
    var gap := Pow2(shift) - divisor;
    var q := WORD * gap / divisor;
    assert q * divisor <= WORD * gap;
    assert WORD * gap <= WORD * (divisor - 1) == WORD * divisor - WORD;
    if q >= WORD - 1 {
      ProductGrows(WORD - 1, q, divisor);
    }
  }

  lemma ShiftIsTight(divisor: nat, shift: nat)
    requires 1 <= divisor < WORD && !IsPowerOfTwo(divisor) && shift <= 32
    requires divisor <= Pow2(shift) && forall i: nat :: i < shift ==> Pow2(i) < divisor
    ensures Pow2(shift) < 2 * divisor && divisor < Pow2(shift) && (shift == 32 <==> divisor > WORD / 2)
  {
    WordIsPow2();
    Pow2IsPowerOfTwo(shift);
    assert Pow2(0) == 1;
    assert shift > 0 && Pow2(shift - 1) < divisor;
    if shift < 32 {
      Pow2Grows(shift, 31);
    }
  }

  /** Above `2^31` the shift is 32, the width of the word; below it is less. */
  method NewFastDivmod(divisor: nat, u64Supported: bool) returns (f: FastDivmod)
    requires 1 <= divisor < WORD
    ensures Represents(f, divisor)
    ensures f.PowerOfTwo? <==> IsPowerOfTwo(divisor)
    ensures f.Fast? <==> !IsPowerOfTwo(divisor) && u64Supported
  {
    if IsPowerOfTwo(divisor) {
      PowerOfTwoIs(divisor);
      return PowerOfTwo(TrailingZeros(divisor), divisor - 1);
    }
    if !u64Supported {
      return Fallback(divisor);
    }
    var shift := FindLog2(divisor);
    ShiftIsTight(divisor, shift);
    MultiplierFits(divisor, shift);
    var multiplier := WORD * (Pow2(shift) - divisor) / divisor + 1;
    f := Fast(divisor, multiplier, shift);
  }

  // ---------------------------------------------------------------------------------------
  // Use
  // ---------------------------------------------------------------------------------------

  function Div(f: FastDivmod, dividend: nat): nat
    requires f.Fallback? ==> f.divisor > 0
  {
    match f
    case Fast(_, multiplier, shiftRight) => ShiftRight(ToU32(MulHi(dividend, multiplier) + dividend), shiftRight)
    case PowerOfTwo(shift, _) => ShiftRight(dividend, shift)
    case Fallback(divisor) => dividend / divisor
  }

  function Modulo(f: FastDivmod, dividend: nat): nat
    requires f.Fallback? ==> f.divisor > 0
  {
    var q := Div(f, dividend);
    match f
    case Fast(divisor, _, _) => ToU32(dividend - ToU32(q * divisor))
    case PowerOfTwo(_, mask) => BitAnd(dividend, mask)
    case Fallback(divisor) => dividend % divisor
  }

  function DivMod(f: FastDivmod, dividend: nat): (nat, nat)
    requires f.Fallback? ==> f.divisor > 0
  {
    var q := Div(f, dividend);
    var r := match f
      case Fast(divisor, _, _) => ToU32(dividend - ToU32(q * divisor))
      case Fallback(divisor) => ToU32(dividend - ToU32(q * divisor))
      case PowerOfTwo(_, mask) => BitAnd(dividend, mask);
    (q, r)
  }

  /** The sum of the dividend and its high product does not overflow. */
  predicate Fits(f: FastDivmod, dividend: nat) {
    f.Fast? ==> MulHi(dividend, f.multiplier) + dividend < WORD
  }

  lemma SmallDividendsFit(f: FastDivmod, divisor: nat, dividend: nat)
    requires Represents(f, divisor) && dividend < WORD / 2
    ensures Fits(f, dividend)
  {
    if f.Fast? {
      ProductGrows(f.multiplier, WORD, dividend);
      assert MulHi(dividend, f.multiplier) * WORD <= dividend * f.multiplier;
    }
  }

  /** Together with the word itself, the multiplier is the inverse of the divisor, rounded up. */
  lemma MultiplierIsInverse(divisor: nat, multiplier: nat, shift: nat)
    requires divisor > 0 && IsFastFor(divisor, multiplier, shift)
    ensures var all := WORD * Pow2(shift); all < (multiplier + WORD) * divisor <= all + Pow2(shift)
  {
    var gap, s := WORD * (Pow2(shift) - divisor), Pow2(shift);
    var q, r := gap / divisor, gap % divisor;
    assert gap == q * divisor + r;
    assert gap == WORD * s - WORD * divisor;
    assert (q + 1 + WORD) * divisor == q * divisor + divisor + WORD * divisor;
  }

  /** Without overflow, multiplying and shifting is dividing. */
  lemma ProductIsQuotient(divisor: nat, multiplier: nat, shift: nat, dividend: nat)
    requires divisor > 0 && IsFastFor(divisor, multiplier, shift) && dividend < WORD
    ensures (MulHi(dividend, multiplier) + dividend) / Pow2(shift) == dividend / divisor
  {
    MultiplierIsInverse(divisor, multiplier, shift);
    InverseDivides(divisor, multiplier + WORD, Pow2(shift), WORD * Pow2(shift), dividend);
    SumIsProduct(dividend, multiplier);
  }

  lemma InverseDivides(divisor: nat, m: nat, s: nat, all: nat, n: nat)
    requires divisor > 0 && s > 0 && n < WORD && all == WORD * s && all < m * divisor <= all + s
    ensures n * m / WORD / s == n / divisor
  {
    RoundsDown(n, divisor, m, all, s);
    QuotientBetween(n * m, all, n / divisor);
    DivideTwice(n * m, WORD, s);
  }

  lemma SumIsProduct(n: nat, multiplier: nat)
    ensures MulHi(n, multiplier) + n == n * (multiplier + WORD) / WORD
  {
    var x := n * multiplier;
    assert n * (multiplier + WORD) == x + n * WORD == (x / WORD + n) * WORD + x % WORD;
    QuotientIsUnique(WORD, x / WORD + n, x % WORD);
  }

  lemma RoundsDown(n: nat, divisor: nat, m: nat, all: nat, s: nat)
    requires divisor > 0 && n < WORD && s > 0 && all == WORD * s && all < m * divisor <= all + s
    ensures n / divisor * all <= n * m < (n / divisor + 1) * all
  {
    var q, r := n / divisor, n % divisor;
    var e := m * divisor - all;
    assert n == q * divisor + r;
    ErrorIsSmall(n, e, s);
    assert n * m * divisor == n * (m * divisor) == n * all + n * e;
    LowerBound(q * all, n * m, divisor, q, r, all, n, e);
    UpperBound(n * m, (q + 1) * all, divisor, q, r, all, n, e);
  }

  lemma ErrorIsSmall(n: nat, e: nat, s: nat)
    requires n < WORD && e <= s && s > 0
    ensures n * e < WORD * s
  {
    ProductGrows(n, WORD - 1, e);
    ProductGrows(e, s, WORD - 1);
    assert (WORD - 1) * s < WORD * s;
  }

  lemma LowerBound(low: nat, x: nat, divisor: nat, q: nat, r: nat, all: nat, n: nat, e: nat)
    requires divisor > 0 && low == q * all && n == q * divisor + r && x * divisor == n * all + n * e
    ensures low <= x
  {
    assert low * divisor == (q * divisor) * all;
    ProductGrows(q * divisor, n, all);
    if x < low {
      ProductGrows(x + 1, low, divisor);
    }
  }

  lemma UpperBound(x: nat, high: nat, divisor: nat, q: nat, r: nat, all: nat, n: nat, e: nat)
    requires divisor > 0 && high == (q + 1) * all && n == q * divisor + r && r < divisor
    requires x * divisor == n * all + n * e && n * e < all
    ensures x < high
  {
    assert high * divisor == (q * divisor + divisor) * all;
    ProductGrows(n + 1, q * divisor + divisor, all);
    assert (n + 1) * all == n * all + all;
    if high <= x {
      ProductGrows(high, x, divisor);
    }
  }

  // ---------------------------------------------------------------------------------------
  // Exactness
  // ---------------------------------------------------------------------------------------

  lemma WordSplits(shift: nat)
    requires shift <= 31
    ensures Pow2(32 - shift) * Pow2(shift) == WORD
  {
    WordIsPow2();
    Pow2Adds(32 - shift, shift);
  }

  lemma QuotientDrops(y: nat, s: nat, k: nat)
    requires s > 0
    ensures (y + k * s) / s == y / s + k
  {
    var q, r := y / s, y % s;
    assert y == q * s + r;
    assert y + k * s == (q + k) * s + r;
    QuotientIsUnique(s, q + k, r);
  }

  /** An overflow takes `2^(32 - shift)` off the quotient. */
  lemma OverflowedQuotient(x: nat, shift: nat)
    requires WORD <= x < 2 * WORD && shift <= 31
    ensures ToU32(x) / Pow2(shift) == x / Pow2(shift) - Pow2(32 - shift)
  {
    WordSplits(shift);
    QuotientDrops(x - WORD, Pow2(shift), Pow2(32 - shift));
    assert ToU32(x) == x - WORD;
  }

  lemma HighProductIsSmall(dividend: nat, multiplier: nat)
    requires dividend < WORD && multiplier < WORD
    ensures MulHi(dividend, multiplier) + dividend < 2 * WORD
  {
    ProductGrows(multiplier, WORD, dividend);
    assert MulHi(dividend, multiplier) * WORD <= dividend * multiplier;
  }

  /** For every divisor up to `2^31` and every dividend: `div` divides exactly if the sum fits a word. */
  lemma DivIsExactIff(f: FastDivmod, divisor: nat, dividend: nat)
    requires Represents(f, divisor) && 1 <= divisor <= WORD / 2 && dividend < WORD
    ensures Div(f, dividend) == dividend / divisor <==> Fits(f, dividend)
  {
    if f.Fast? {
      ProductIsQuotient(divisor, f.multiplier, f.shiftRight, dividend);
      HighProductIsSmall(dividend, f.multiplier);
      WrappedQuotient(MulHi(dividend, f.multiplier) + dividend, f.shiftRight);
    }
  }

  lemma WrappedQuotient(x: nat, shift: nat)
    requires x < 2 * WORD && shift <= 31
    ensures ShiftRight(ToU32(x), shift) == x / Pow2(shift) <==> x < WORD
  {
    if x < WORD {
      assert ToU32(x) == x;
    } else {
      OverflowedQuotient(x, shift);
    }
  }

  lemma RemainderFromQuotient(dividend: nat, divisor: nat)
    requires 0 < divisor && dividend < WORD
    ensures ToU32(dividend - ToU32(dividend / divisor * divisor)) == dividend % divisor
  {
    var q, r := dividend / divisor, dividend % divisor;
    assert dividend == q * divisor + r && q * divisor <= dividend;
    assert ToU32(q * divisor) == q * divisor && dividend - q * divisor == r;
    assert r <= dividend && ToU32(r) == r;
  }

  /** A quotient that is off by `k` gives a wrong remainder as well. */
  lemma RemainderFromOff(dividend: nat, divisor: nat, q: nat, k: nat)
    requires 0 < divisor && dividend < WORD && dividend / divisor == q + k && 0 < k * divisor < WORD
    ensures ToU32(dividend - ToU32(q * divisor)) != dividend % divisor
  {
    var r, p, off := dividend % divisor, q * divisor, k * divisor;
    assert dividend == (q + k) * divisor + r;
    assert (q + k) * divisor == p + off;
    assert ToU32(p) == p && dividend - p == r + off;
    WrapIsOff(r, off);
  }

  lemma WrapIsOff(r: nat, off: nat)
    requires r < WORD && 0 < off < WORD
    ensures ToU32(r + off) != r
  {
    assert ToU32(r + off) == if r + off < WORD then r + off else r + off - WORD;
  }

  lemma ProductIsBelow(k: nat, a: nat, b: nat)
    requires 0 < a < b && k > 0
    ensures 0 < k * a < k * b
  {
  }

  /** And so does `modulo`. */
  lemma ModuloIsExactIff(f: FastDivmod, divisor: nat, dividend: nat)
    requires Represents(f, divisor) && 1 <= divisor <= WORD / 2 && dividend < WORD
    ensures Modulo(f, dividend) == dividend % divisor <==> Fits(f, dividend)
  {
    match f
    case Fast(_, multiplier, shift) =>
      DivIsExactIff(f, divisor, dividend);
      if Fits(f, dividend) {
        RemainderFromQuotient(dividend, divisor);
      } else {
        ProductIsQuotient(divisor, multiplier, shift, dividend);
        HighProductIsSmall(dividend, multiplier);
        OverflowedRemainder(MulHi(dividend, multiplier) + dividend, dividend, divisor, shift);
      }
    case PowerOfTwo(shift, _) => MaskIsRemainder(dividend, shift);
    case Fallback(_) =>
  }

  lemma OverflowedRemainder(x: nat, dividend: nat, divisor: nat, shift: nat)
    requires WORD <= x < 2 * WORD && shift <= 31 && 0 < divisor < Pow2(shift) && dividend < WORD
    requires x / Pow2(shift) == dividend / divisor
    ensures ToU32(dividend - ToU32(ShiftRight(ToU32(x), shift) * divisor)) != dividend % divisor
  {
    OverflowedQuotient(x, shift);
    WordSplits(shift);
    ProductIsBelow(Pow2(32 - shift), divisor, Pow2(shift));
    RemainderFromOff(dividend, divisor, ShiftRight(ToU32(x), shift), Pow2(32 - shift));
  }

  /** `div_mod` gives both at once. */
  lemma DivModIsExactIff(f: FastDivmod, divisor: nat, dividend: nat)
    requires Represents(f, divisor) && 1 <= divisor <= WORD / 2 && dividend < WORD
    ensures DivMod(f, dividend) == (dividend / divisor, dividend % divisor) <==> Fits(f, dividend)
  {
    DivIsExactIff(f, divisor, dividend);
    ModuloIsExactIff(f, divisor, dividend);
    if f.Fallback? {
      RemainderFromQuotient(dividend, divisor);
    }
  }

  /** All dividends below `2^31` are divided exactly. */
  lemma SmallDividendsAreExact(f: FastDivmod, divisor: nat, dividend: nat)
    requires Represents(f, divisor) && 1 <= divisor <= WORD / 2 && dividend < WORD / 2
    ensures DivMod(f, dividend) == (dividend / divisor, dividend % divisor)
  {
    SmallDividendsFit(f, divisor, dividend);
    DivModIsExactIff(f, divisor, dividend);
  }

  /** Beyond that range it can fail: the largest dividend divided by three. */
  lemma LargestDividendOverflows()
    ensures var f := Fast(3, 1431655766, 2);
            Represents(f, 3) && !Fits(f, WORD - 1) && Div(f, WORD - 1) != (WORD - 1) / 3
  {
    var f := Fast(3, 1431655766, 2);
    assert Pow2(2) == 4;
    assert WORD * (Pow2(2) - 3) / 3 + 1 == 1431655766;
    assert Represents(f, 3);
    DivIsExactIff(f, 3, WORD - 1);
  }
}
