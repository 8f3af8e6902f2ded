/** Shared definitions: optional values, powers of two, and two facts of integer arithmetic. */
module Basics {

  datatype Option<+T> = None | Some(value: T)

  function Two(k: nat): (r: nat)
    ensures r > 0
  {
    if k == 0 then 1 else 2 * Two(k - 1)
  }

  lemma {:induction false} TwoAdd(a: nat, b: nat)
    ensures Two(a + b) == Two(a) * Two(b)
  {
    if a > 0 {
      TwoAdd(a - 1, b);
      assert Two(a) == 2 * Two(a - 1) && Two(a + b) == 2 * Two(a - 1 + b);
      hide Two;
      Regroup(2, Two(a - 1), Two(b));
    }
  }

  lemma Regroup(a: int, b: int, c: int)
    ensures (a * b) * c == a * (b * c)
  {
  }

  lemma Grow(d: int, k: int)
    requires d > 0 && k >= 1
    ensures d * k >= d
  {
  }

  /** Quotient and remainder are unique. */
  lemma Remainder(x: int, d: int, q: int, r: int)
    requires d > 0 && 0 <= r < d && x == d * q + r
    ensures x % d == r
  {
    var q', r' := x / d, x % d;
    assert d * (q' - q) == r - r';
    assert d * (q - q') == r' - r;
    if q' > q { Grow(d, q' - q); } else if q' < q { Grow(d, q - q'); }
  }
}
