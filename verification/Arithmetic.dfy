/** Words of 32 bits, and facts about products and quotients. */
module Arithmetic {
  const WORD := 0x1_0000_0000

  function ToU32(x: int): (r: nat)
    ensures r < WORD
  {
    x % WORD
  }

  predicate IsPowerOfTwo(n: nat) {
    n == 1 || (n > 0 && n % 2 == 0 && IsPowerOfTwo(n / 2))
  }

  function DivCeil(a: nat, b: nat): nat
    requires b > 0
  {
    (a + b - 1) / b
  }

  lemma ProductGrows(a: nat, b: nat, size: nat)
    requires a <= b
    ensures a * size <= b * size
  {
  }

  lemma QuotientIsUnique(size: nat, q: nat, r: nat)
    requires r < size
    ensures (q * size + r) / size == q && (q * size + r) % size == r
  {
    var a := q * size + r;
    var q', r' := a / size, a % size;
    assert q' * size + r' == q * size + r;
    if q' < q {
      ProductGrows(q' + 1, q, size);
    } else if q < q' {
      ProductGrows(q + 1, q', size);
    }
  }
}
