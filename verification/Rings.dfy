/** Commutative rings given by their operations, and the part of ring theory that the square
    root of `septic_extension.rs` rests on: laws of exponents, and additivity of the p-th power
    map in characteristic p. */
module Rings {
  import opened Basics

  datatype Ring<!T> = Ring(zero: T, one: T, add: (T, T) -> T, neg: T -> T, mul: (T, T) -> T)

  /** The axioms at three points. `IsRing` quantifies over this predicate, so that a proof
      obtains exactly the instances it names. */
  ghost predicate LawsAt<T>(R: Ring<T>, a: T, b: T, c: T) {
    && R.add(a, b) == R.add(b, a)
    && R.add(R.add(a, b), c) == R.add(a, R.add(b, c))
    && R.add(R.zero, a) == a
    && R.add(a, R.neg(a)) == R.zero
    && R.mul(a, b) == R.mul(b, a)
    && R.mul(R.mul(a, b), c) == R.mul(a, R.mul(b, c))
    && R.mul(R.one, a) == a
    && R.mul(a, R.add(b, c)) == R.add(R.mul(a, b), R.mul(a, c))
  }

  ghost predicate IsRing<T(!new)>(R: Ring<T>) {
    forall a, b, c :: LawsAt(R, a, b, c)
  }

  lemma ZeroTimes<T(!new)>(R: Ring<T>, a: T)
    requires IsRing(R)
    ensures R.mul(R.zero, a) == R.zero
    ensures R.mul(a, R.zero) == R.zero
  {
    var z := R.mul(a, R.zero);
    assert LawsAt(R, a, R.zero, R.zero);
    assert LawsAt(R, R.zero, R.zero, R.zero);
    assert z == R.add(z, z);
    AddCancel(R, z, z, R.zero);
    assert LawsAt(R, R.zero, z, z);
    assert LawsAt(R, z, R.zero, z);
  }

  lemma AddCancel<T(!new)>(R: Ring<T>, a: T, b: T, c: T)
    requires IsRing(R)
    ensures R.add(a, b) == R.add(a, c) ==> b == c
  {
    var n := R.neg(a);
    assert LawsAt(R, n, a, b) && LawsAt(R, n, a, c) && LawsAt(R, a, n, n);
    assert LawsAt(R, b, a, a) && LawsAt(R, c, a, a);
  }

  lemma MulCross<T(!new)>(R: Ring<T>, a: T, b: T, c: T, d: T)
    requires IsRing(R)
    ensures R.mul(R.mul(a, b), R.mul(c, d)) == R.mul(R.mul(a, c), R.mul(b, d))
  {
    assert LawsAt(R, a, b, R.mul(c, d)) && LawsAt(R, b, c, d) && LawsAt(R, c, b, d)
        && LawsAt(R, a, c, R.mul(b, d));
  }

  lemma AddCross<T(!new)>(R: Ring<T>, a: T, b: T, c: T, d: T)
    requires IsRing(R)
    ensures R.add(R.add(a, b), R.add(c, d)) == R.add(R.add(a, c), R.add(b, d))
  {
    assert LawsAt(R, a, b, R.add(c, d)) && LawsAt(R, b, c, d) && LawsAt(R, c, b, d)
        && LawsAt(R, a, c, R.add(b, d));
  }

  // ---------------------------------------------------------------- powers

  ghost function Pow<T>(R: Ring<T>, x: T, n: nat): T {
    if n == 0 then R.one else R.mul(x, Pow(R, x, n - 1))
  }

  lemma {:induction false} PowAdd<T(!new)>(R: Ring<T>, x: T, m: nat, n: nat)
    requires IsRing(R)
    ensures Pow(R, x, m + n) == R.mul(Pow(R, x, m), Pow(R, x, n))
  {
    if m == 0 {
      assert LawsAt(R, Pow(R, x, n), x, x);
    } else {
      PowAdd(R, x, m - 1, n);
      assert LawsAt(R, x, Pow(R, x, m - 1), Pow(R, x, n));
    }
  }

  lemma {:induction false} PowMulBase<T(!new)>(R: Ring<T>, x: T, y: T, n: nat)
    requires IsRing(R)
    ensures Pow(R, R.mul(x, y), n) == R.mul(Pow(R, x, n), Pow(R, y, n))
  {
    if n == 0 {
      assert LawsAt(R, R.one, x, x);
    } else {
      PowMulBase(R, x, y, n - 1);
      MulCross(R, x, y, Pow(R, x, n - 1), Pow(R, y, n - 1));
    }
  }

  lemma {:induction false} PowPow<T(!new)>(R: Ring<T>, x: T, m: nat, n: nat)
    requires IsRing(R)
    ensures Pow(R, Pow(R, x, m), n) == Pow(R, x, m * n)
  {
    if n == 0 {
      assert m * n == 0;
    } else {
      PowPow(R, x, m, n - 1);
      PowAdd(R, x, m, m * (n - 1));
      assert m * n == m + m * (n - 1);
    }
  }

  lemma {:induction false} PowOfOne<T(!new)>(R: Ring<T>, n: nat)
    requires IsRing(R)
    ensures Pow(R, R.one, n) == R.one
  {
    if n != 0 {
      PowOfOne(R, n - 1);
      assert LawsAt(R, R.one, R.one, R.one);
    }
  }

  lemma PowSmall<T(!new)>(R: Ring<T>, x: T)
    requires IsRing(R)
    ensures Pow(R, x, 1) == x
    ensures Pow(R, x, 2) == R.mul(x, x)
  {
    assert Pow(R, x, 1) == R.mul(x, Pow(R, x, 0));
    assert LawsAt(R, R.one, x, x) && LawsAt(R, x, R.one, x);
  }

  // ---------------------------------------------------------------- multiples

  /** x + x + ... + x, n times. */
  ghost function Times<T>(R: Ring<T>, n: nat, x: T): T {
    if n == 0 then R.zero else R.add(x, Times(R, n - 1, x))
  }

  lemma {:induction false} TimesAdd<T(!new)>(R: Ring<T>, m: nat, n: nat, x: T)
    requires IsRing(R)
    ensures Times(R, m + n, x) == R.add(Times(R, m, x), Times(R, n, x))
  {
    if m == 0 {
      assert LawsAt(R, Times(R, n, x), x, x);
    } else {
      TimesAdd(R, m - 1, n, x);
      assert LawsAt(R, x, Times(R, m - 1, x), Times(R, n, x));
    }
  }

  lemma {:induction false} TimesMul<T(!new)>(R: Ring<T>, n: nat, x: T, y: T)
    requires IsRing(R)
    ensures R.mul(y, Times(R, n, x)) == Times(R, n, R.mul(y, x))
  {
    if n == 0 {
      ZeroTimes(R, y);
    } else {
      TimesMul(R, n - 1, x, y);
      assert LawsAt(R, y, x, Times(R, n - 1, x));
    }
  }

  lemma {:induction false} TimesTimes<T(!new)>(R: Ring<T>, m: nat, n: nat, x: T)
    requires IsRing(R)
    ensures Times(R, m, Times(R, n, x)) == Times(R, m * n, x)
  {
    if m == 0 {
      assert m * n == 0;
    } else {
      TimesTimes(R, m - 1, n, x);
      TimesAdd(R, n, (m - 1) * n, x);
      assert m * n == n + (m - 1) * n;
    }
  }

  // ---------------------------------------------------------------- the binomial theorem

  ghost function Choose(n: nat, k: nat): nat {
    if k == 0 then 1 else if n == 0 then 0 else Choose(n - 1, k - 1) + Choose(n - 1, k)
  }

  lemma {:induction false} ChooseAbove(n: nat, k: nat)
    requires k > n
    ensures Choose(n, k) == 0
  {
    if n > 0 { ChooseAbove(n - 1, k - 1); ChooseAbove(n - 1, k); }
  }

  lemma {:induction false} ChooseSelf(n: nat)
    ensures Choose(n, n) == 1
  {
    if n > 0 { ChooseSelf(n - 1); ChooseAbove(n - 1, n); }
  }

  lemma AbsorbStep(n: int, k: int, a: int, b: int, c: int, d: int)
    requires (k - 1) * a == (n - 1) * c
    requires k * b == (n - 1) * d
    requires a == c + d
    ensures k * (a + b) == n * a
  {
    calc {
      k * (a + b);
      (k - 1) * a + a + k * b;
      (n - 1) * c + (n - 1) * d + a;
      (n - 1) * (c + d) + a;
      n * a;
    }
  }

  lemma {:induction false} ChooseAbsorb(n: nat, k: nat)
    requires n > 0 && k > 0
    ensures k * Choose(n, k) == n * Choose(n - 1, k - 1)
  {
    if n == 1 {
      if k > 1 { ChooseAbove(1, k); ChooseAbove(0, k - 1); }
    } else if k == 1 {
      ChooseAbsorb(n - 1, 1);
    } else {
      ChooseAbsorb(n - 1, k);
      ChooseAbsorb(n - 1, k - 1);
      AbsorbStep(n, k, Choose(n - 1, k - 1), Choose(n - 1, k), Choose(n - 2, k - 2), Choose(n - 2, k - 1));
    }
  }

  /** The term C(n, i) x^i y^(n-i) of the binomial expansion. */
  ghost function Term<T>(R: Ring<T>, x: T, y: T, n: nat, i: nat): T {
    if i > n then R.zero else Times(R, Choose(n, i), R.mul(Pow(R, x, i), Pow(R, y, n - i)))
  }

  ghost function TermSum<T>(R: Ring<T>, x: T, y: T, n: nat, k: nat): T {
    if k == 0 then R.zero else R.add(TermSum(R, x, y, n, k - 1), Term(R, x, y, n, k - 1))
  }

  lemma TermPascal<T(!new)>(R: Ring<T>, x: T, y: T, n: nat, i: nat)
    requires IsRing(R)
    requires i <= n
    ensures Term(R, x, y, n + 1, i + 1) == R.add(R.mul(x, Term(R, x, y, n, i)), R.mul(y, Term(R, x, y, n, i + 1)))
  {
    var m := R.mul(Pow(R, x, i + 1), Pow(R, y, n - i));
    TimesMul(R, Choose(n, i), R.mul(Pow(R, x, i), Pow(R, y, n - i)), x);
    assert LawsAt(R, x, Pow(R, x, i), Pow(R, y, n - i));
    assert R.mul(x, Term(R, x, y, n, i)) == Times(R, Choose(n, i), m);
    TimesAdd(R, Choose(n, i), Choose(n, i + 1), m);
    if i == n {
      ChooseAbove(n, n + 1);
      ZeroTimes(R, y);
    } else {
      var q := Pow(R, y, n - i - 1);
      TimesMul(R, Choose(n, i + 1), R.mul(Pow(R, x, i + 1), q), y);
      assert LawsAt(R, y, Pow(R, x, i + 1), q) && LawsAt(R, Pow(R, x, i + 1), y, q);
    }
  }

  lemma FirstTerm<T(!new)>(R: Ring<T>, x: T, y: T, n: nat)
    requires IsRing(R)
    ensures Term(R, x, y, n, 0) == Pow(R, y, n)
    ensures TermSum(R, x, y, n, 1) == Pow(R, y, n)
  {
    var m := Pow(R, y, n);
    assert Choose(n, 0) == 1 && Pow(R, x, 0) == R.one;
    assert LawsAt(R, m, R.zero, m);
    TimesOne(R, m);
    assert TermSum(R, x, y, n, 0) == R.zero;
  }

  lemma TimesOne<T(!new)>(R: Ring<T>, x: T)
    requires IsRing(R)
    ensures Times(R, 1, x) == x
  {
    assert Times(R, 0, x) == R.zero;
    assert LawsAt(R, x, R.zero, x);
  }

  lemma {:induction false} TermSumStep<T(!new)>(R: Ring<T>, x: T, y: T, n: nat, k: nat)
    requires IsRing(R)
    requires k <= n + 1
    ensures R.add(R.mul(x, TermSum(R, x, y, n, k)), R.mul(y, TermSum(R, x, y, n, k + 1)))
         == TermSum(R, x, y, n + 1, k + 1)
  {
    if k == 0 {
      FirstTerm(R, x, y, n);
      FirstTerm(R, x, y, n + 1);
      ZeroTimes(R, x);
      assert LawsAt(R, Pow(R, y, n + 1), x, x);
    } else {
      TermSumStep(R, x, y, n, k - 1);
      TermPascal(R, x, y, n, k - 1);
      TermSumUnfold(R, x, y, n, k);
      TermSumUnfold(R, x, y, n, k + 1);
      TermSumUnfold(R, x, y, n + 1, k + 1);
      Regroup(R, x, y, TermSum(R, x, y, n, k - 1), Term(R, x, y, n, k - 1), TermSum(R, x, y, n, k),
        Term(R, x, y, n, k));
    }
  }

  lemma TermSumUnfold<T(!new)>(R: Ring<T>, x: T, y: T, n: nat, k: nat)
    requires k > 0
    ensures TermSum(R, x, y, n, k) == R.add(TermSum(R, x, y, n, k - 1), Term(R, x, y, n, k - 1))
  {
  }

  lemma Regroup<T(!new)>(R: Ring<T>, x: T, y: T, s: T, t: T, s': T, t': T)
    requires IsRing(R)
    ensures R.add(R.mul(x, R.add(s, t)), R.mul(y, R.add(s', t')))
         == R.add(R.add(R.mul(x, s), R.mul(y, s')), R.add(R.mul(x, t), R.mul(y, t')))
  {
    assert LawsAt(R, x, s, t) && LawsAt(R, y, s', t');
    AddCross(R, R.mul(x, s), R.mul(x, t), R.mul(y, s'), R.mul(y, t'));
  }

  lemma {:induction false} Binomial<T(!new)>(R: Ring<T>, x: T, y: T, n: nat)
    requires IsRing(R)
    ensures Pow(R, R.add(x, y), n) == TermSum(R, x, y, n, n + 1)
  {
    if n == 0 {
      FirstTerm(R, x, y, 0);
      assert Pow(R, R.add(x, y), 0) == R.one == Pow(R, y, 0);
    } else {
      Binomial(R, x, y, n - 1);
      var s := TermSum(R, x, y, n - 1, n);
      TermSumStep(R, x, y, n - 1, n);
      assert Term(R, x, y, n - 1, n) == R.zero;
      assert LawsAt(R, R.zero, s, s) && LawsAt(R, s, R.zero, s);
      assert TermSum(R, x, y, n - 1, n + 1) == s;
      DistributeLeft(R, x, y, s);
    }
  }

  lemma DistributeLeft<T(!new)>(R: Ring<T>, x: T, y: T, s: T)
    requires IsRing(R)
    ensures R.mul(R.add(x, y), s) == R.add(R.mul(x, s), R.mul(y, s))
  {
    assert LawsAt(R, s, x, y) && LawsAt(R, x, s, s) && LawsAt(R, y, s, s) && LawsAt(R, R.add(x, y), s, s);
  }

  // ---------------------------------------------------------------- characteristic p

  ghost predicate Divides(d: nat, n: nat) {
    d > 0 && n % d == 0
  }

  ghost predicate EuclidAt(p: nat, a: nat, b: nat) {
    Divides(p, a * b) ==> Divides(p, a) || Divides(p, b)
  }

  /** Euclid's lemma, the only property of a prime used below. */
  ghost predicate IsPrime(p: nat) {
    p >= 2 && forall a, b :: EuclidAt(p, a, b)
  }

  ghost predicate HasCharacteristic<T(!new)>(R: Ring<T>, p: nat) {
    forall x :: Times(R, p, x) == R.zero
  }

  lemma PrimeDividesChoose(p: nat, i: nat)
    requires IsPrime(p) && 0 < i < p
    ensures Divides(p, Choose(p, i))
  {
    ChooseAbsorb(p, i);
    MultipleDivides(p, Choose(p - 1, i - 1));
    SmallNotDivisible(p, i);
    assert EuclidAt(p, i, Choose(p, i));
  }

  lemma SmallNotDivisible(p: nat, i: nat)
    requires 0 < i < p
    ensures !Divides(p, i)
  {
    Remainder(i, p, 0, i);
  }

  lemma MultipleDivides(p: nat, d: nat)
    requires p > 0
    ensures Divides(p, p * d)
  {
    Remainder(p * d, p, d, 0);
  }

  lemma MiddleTermVanishes<T(!new)>(R: Ring<T>, p: nat, x: T, y: T, i: nat)
    requires IsRing(R) && IsPrime(p) && HasCharacteristic(R, p)
    requires 0 < i < p
    ensures Term(R, x, y, p, i) == R.zero
  {
    PrimeDividesChoose(p, i);
    TimesDivisible(R, p, Choose(p, i), R.mul(Pow(R, x, i), Pow(R, y, p - i)));
  }

  lemma TimesDivisible<T(!new)>(R: Ring<T>, p: nat, n: nat, x: T)
    requires IsRing(R) && HasCharacteristic(R, p)
    requires Divides(p, n)
    ensures Times(R, n, x) == R.zero
  {
    var q := n / p;
    TimesTimes(R, q, p, x);
    TimesZero(R, q);
    assert n == q * p;
  }

  lemma {:induction false} TimesZero<T(!new)>(R: Ring<T>, n: nat)
    requires IsRing(R)
    ensures Times(R, n, R.zero) == R.zero
  {
    if n > 0 {
      TimesZero(R, n - 1);
      assert LawsAt(R, R.zero, R.zero, R.zero);
    }
  }

  lemma {:induction false} OnlyFirstTerm<T(!new)>(R: Ring<T>, p: nat, x: T, y: T, k: nat)
    requires IsRing(R) && IsPrime(p) && HasCharacteristic(R, p)
    requires 0 < k <= p
    ensures TermSum(R, x, y, p, k) == Pow(R, y, p)
  {
    if k == 1 {
      FirstTerm(R, x, y, p);
    } else {
      OnlyFirstTerm(R, p, x, y, k - 1);
      MiddleTermVanishes(R, p, x, y, k - 1);
      var s := Pow(R, y, p);
      assert LawsAt(R, s, R.zero, s) && LawsAt(R, R.zero, s, s);
    }
  }

  /** In characteristic p, the p-th power map is additive. */
  lemma PowCharAdditive<T(!new)>(R: Ring<T>, p: nat, x: T, y: T)
    requires IsRing(R) && IsPrime(p) && HasCharacteristic(R, p)
    ensures Pow(R, R.add(x, y), p) == R.add(Pow(R, x, p), Pow(R, y, p))
  {
    Binomial(R, x, y, p);
    OnlyFirstTerm(R, p, x, y, p);
    ChooseSelf(p);
    var m := Pow(R, x, p);
    assert LawsAt(R, m, R.one, m) && LawsAt(R, R.one, m, m);
    assert Pow(R, y, 0) == R.one;
    TimesOne(R, m);
    assert LawsAt(R, m, Pow(R, y, p), m);
  }
}
