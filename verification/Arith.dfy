/** Integer facts shared by the rings and the address arithmetic. */
module Arith {

  predicate IsPowerOfTwo(n: nat) {
    n == 1 || (n > 1 && n % 2 == 0 && IsPowerOfTwo(n / 2))
  }

  lemma ScaleBounds(e: int, d: int)
    requires d > 0
    ensures e >= 1 ==> e * d >= d
    ensures e <= -1 ==> e * d <= -d
    ensures e == 0 ==> e * d == 0
  {
  }

  lemma DivModUnique(n: int, d: int, k: int, r: int)
    requires d > 0 && 0 <= r < d && n == k * d + r
    ensures n / d == k && n % d == r
  {
    var e := n / d - k;
    assert e * d == r - n % d;
    ScaleBounds(e, d);
  }
}
