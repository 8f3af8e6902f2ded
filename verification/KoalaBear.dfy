/** The KoalaBear prime field, the base field `F` of `septic_extension.rs`. That its order is
    prime, that 3 generates its multiplicative group, Fermat's theorem and Euler's criterion
    are proved here, from two modular powers of 3 and a counting argument. */
module KoalaBear {
  import opened Basics
  import opened Rings

  /** `F::order()`, equal to 127 * 2^24 + 1. */
  const P: int := 2130706433

  /** `F::generator()`. */
  const G: Fp := 3

  type Fp = x: int | 0 <= x < P

  function Add(a: Fp, b: Fp): Fp { if a + b < P then a + b else a + b - P }
  function Sub(a: Fp, b: Fp): Fp { if a >= b then a - b else a - b + P }
  function Neg(a: Fp): Fp { if a == 0 then 0 else P - a }
  function Mul(a: Fp, b: Fp): Fp { (a * b) % P }

  const FpRing: Ring<Fp> := Ring(0, 1, (a, b) => Add(a, b), a => Neg(a), (a, b) => Mul(a, b))

  // ---------------------------------------------------------------- ring laws

  lemma ModUnique(x: int, r: int, k: int)
    requires x == r + P * k && 0 <= r < P
    ensures x % P == r
  {
  }

  lemma ModMul(x: int, y: int)
    ensures ((x % P) * y) % P == (x * y) % P
  {
    var q, r := x / P, x % P;
    var q', r' := (r * y) / P, (r * y) % P;
    calc {
      x * y;
      (P * q + r) * y;
      P * (q * y) + r * y;
      r' + P * (q * y + q');
    }
    ModUnique(x * y, r', q * y + q');
  }

  lemma MulAssoc(a: Fp, b: Fp, c: Fp)
    ensures Mul(Mul(a, b), c) == Mul(a, Mul(b, c))
  {
    ModMul(a * b, c);
    ModMul(b * c, a);
    assert (a * b) * c == (b * c) * a;
    assert a * ((b * c) % P) == ((b * c) % P) * a;
  }

  lemma MulComm(a: Fp, b: Fp)
    ensures Mul(a, b) == Mul(b, a)
  {
    assert a * b == b * a;
  }

  lemma Distribute(a: Fp, b: Fp, c: Fp)
    ensures Mul(a, Add(b, c)) == Add(Mul(a, b), Mul(a, c))
  {
    var q1, q2 := (a * b) / P, (a * c) / P;
    var e := if b + c < P then 0 else 1;
    var f := if Mul(a, b) + Mul(a, c) < P then 0 else 1;
    var k := q1 + q2 + f - a * e;
    calc {
      a * Add(b, c);
      a * (b + c - P * e);
      a * b + a * c - P * (a * e);
      Mul(a, b) + Mul(a, c) + P * (q1 + q2) - P * (a * e);
      Add(Mul(a, b), Mul(a, c)) + P * k;
    }
    ModUnique(a * Add(b, c), Add(Mul(a, b), Mul(a, c)), k);
  }

  lemma AddLaws(a: Fp, b: Fp, c: Fp)
    ensures Add(a, b) == Add(b, a)
    ensures Add(Add(a, b), c) == Add(a, Add(b, c))
    ensures Add(a, Neg(a)) == 0 && Add(0, a) == a && Sub(a, b) == Add(a, Neg(b))
  {
  }

  lemma FpIsRing()
    ensures IsRing(FpRing)
  {
    forall a, b, c ensures LawsAt(FpRing, a, b, c) {
      AddLaws(a, b, c);
      MulComm(a, b);
      MulAssoc(a, b, c);
      Distribute(a, b, c);
      assert Mul(1, a) == a;
    }
  }

  // ---------------------------------------------------------------- powers

  ghost function FPow(a: Fp, n: nat): Fp { Pow(FpRing, a, n) }

  lemma PowUnfold(a: Fp, n: nat)
    requires n > 0
    ensures FPow(a, n) == Mul(a, FPow(a, n - 1))
  {
  }

  lemma PowPlus(a: Fp, m: nat, n: nat)
    ensures FPow(a, m + n) == Mul(FPow(a, m), FPow(a, n))
  {
    FpIsRing();
    PowAdd(FpRing, a, m, n);
  }

  lemma PowTimes(a: Fp, m: nat, n: nat)
    ensures FPow(FPow(a, m), n) == FPow(a, m * n)
  {
    FpIsRing();
    PowPow(FpRing, a, m, n);
  }

  lemma PowProduct(a: Fp, b: Fp, n: nat)
    ensures FPow(Mul(a, b), n) == Mul(FPow(a, n), FPow(b, n))
  {
    FpIsRing();
    PowMulBase(FpRing, a, b, n);
  }

  lemma PowOne(n: nat)
    ensures FPow(1, n) == 1
  {
    FpIsRing();
    PowOfOne(FpRing, n);
  }

  /** `exp_u64`: square and multiply. */
  function Exp(a: Fp, n: nat): Fp
    decreases n
  {
    if n == 0 then 1
    else
      var h := Exp(Mul(a, a), n / 2);
      if n % 2 == 0 then h else Mul(a, h)
  }

  lemma {:induction false} ExpIsPow(a: Fp, n: nat)
    ensures Exp(a, n) == FPow(a, n)
    decreases n
  {
    if n > 0 {
      ExpIsPow(Mul(a, a), n / 2);
      FpIsRing();
      PowSmall(FpRing, a);
      PowTimes(a, 2, n / 2);
      if n % 2 == 1 { PowUnfold(a, n); }
    }
  }

  // ---------------------------------------------------------------- the order of 3

  /** 3^n == y, in a form that does not make the verifier expand the power. */
  ghost predicate Reaches(n: nat, y: Fp) {
    forall m: nat :: m == n ==> FPow(3, m) == y
  }

  lemma Square(n: nat, y: Fp, y': Fp)
    requires Reaches(n, y) && (y * y) % 2130706433 == y'
    ensures Reaches(2 * n, y')
  {
    PowPlus(3, n, n);
  }

  lemma Step(n: nat, y: Fp, x: Fp, y': Fp)
    requires Reaches(0x80_0000, x) && Reaches(n, y)
    requires (x * y) % 2130706433 == y'
    ensures Reaches(0x80_0000 + n, y')
  {
    var m := 0x80_0000;
    PowPlus(3, m, n);
  }

  lemma StartAtThree()
    ensures Reaches(1, 3)
  {
    FpIsRing();
    PowSmall(FpRing, 3);
  }

  /** 3^(2^23) and 3^(2^24), by repeated squaring. */
  lemma RepeatedSquares()
    ensures Reaches(0x80_0000, 69130339)
    ensures Reaches(0x100_0000, 1828256994)
  {
    StartAtThree();
    Square(0x1, 3, 9);
    Square(0x2, 9, 81);
    Square(0x4, 81, 6561);
    Square(0x8, 6561, 43046721);
    Square(0x10, 43046721, 202438999);
    Square(0x20, 202438999, 1016389529);
    Square(0x40, 1016389529, 1112399510);
    Square(0x80, 1112399510, 925288330);
    Square(0x100, 925288330, 1368166559);
    Square(0x200, 1368166559, 1178470116);
    Square(0x400, 1178470116, 1220923943);
    Square(0x800, 1220923943, 1356258691);
    Square(0x1000, 1356258691, 591038889);
    Square(0x2000, 591038889, 919906353);
    Square(0x4000, 919906353, 435958235);
    Square(0x8000, 435958235, 2072804047);
    Square(0x10000, 2072804047, 555809599);
    Square(0x20000, 555809599, 749749968);
    Square(0x40000, 749749968, 14471777);
    Square(0x80000, 14471777, 932825293);
    Square(0x100000, 932825293, 338912181);
    Square(0x200000, 338912181, 297594125);
    Square(0x400000, 297594125, 69130339);
    Square(0x800000, 69130339, 1828256994);
  }

  lemma PowersOfThree()
    ensures FPow(3, (P - 1) / 127) == 1828256994
    ensures FPow(3, (P - 1) / 2) == P - 1
    ensures FPow(3, P - 1) == 1
  {
    RepeatedSquares();
    Square(0x800000, 69130339, 1828256994);
    Step(0x1000000, 1828256994, 69130339, 345726642);
    Square(0x1800000, 345726642, 1044068769);
    Step(0x3000000, 1044068769, 69130339, 1935687324);
    Square(0x3800000, 1935687324, 1434391678);
    Step(0x7000000, 1434391678, 69130339, 1483545991);
    Square(0x7800000, 1483545991, 1758221443);
    Step(0xf000000, 1758221443, 69130339, 1883686423);
    Square(0xf800000, 1883686423, 26808122);
    Step(0x1f000000, 26808122, 69130339, 197692886);
    Square(0x1f800000, 197692886, 819825795);
    Step(0x3f000000, 819825795, 69130339, 2130706432);
    Square(1065353216, 2130706432, 1);
  }

  lemma EvenCofactor(t: int, m: int, h: int)
    requires t % 2 == 1 && t * m == 2 * h
    ensures m % 2 == 0 && t * (m / 2) == h
  {
    var u := t / 2;
    assert (2 * u + 1) * m == 2 * (u * m) + m;
    assert m == 2 * (h - u * m);
    assert t * (2 * (m / 2)) == 2 * (t * (m / 2));
  }

  lemma {:induction false} TwoPowerTimes127(k: nat, t: int, m: int)
    requires 0 < t && 0 < m && t * m == Two(k) * 127
    ensures t == 1 || t % 2 == 0 || t % 127 == 0
  {
    if t % 2 == 1 {
      if k == 0 {
        Divisors127(t, m);
      } else {
        EvenCofactor(t, m, Two(k - 1) * 127);
        TwoPowerTimes127(k - 1, t, m / 2);
      }
    }
  }

  lemma Divisors127(t: int, m: int)
    requires 0 < t && 0 < m && t * m == 127
    ensures t == 1 || t == 127
  {
    if t <= 11 {
      SmallDivisor(t, m);
    } else if m <= 11 {
      SmallDivisor(m, t);
    } else {
      MulMonotone(12, t, 12, m);
    }
  }

  lemma MulMonotone(a: int, b: int, c: int, d: int)
    requires 0 <= a <= b && 0 <= c <= d
    ensures a * c <= b * d
  {
  }

  lemma SmallDivisor(d: int, e: int)
    requires 1 <= d <= 11 && d * e == 127
    ensures d == 1
  {
    if d == 2 {} else if d == 3 {} else if d == 4 {} else if d == 5 {} else if d == 6 {}
    else if d == 7 {} else if d == 8 {} else if d == 9 {} else if d == 10 {} else if d == 11 {}
  }

  lemma {:induction false} PowOfRoot(a: Fp, m: nat, q: nat)
    requires FPow(a, m) == 1
    ensures FPow(a, m * q) == 1
  {
    PowTimes(a, m, q);
    PowOne(q);
  }

  lemma PowRemainder(a: Fp, m: nat, n: nat)
    requires m > 0 && FPow(a, m) == 1 && FPow(a, n) == 1
    ensures FPow(a, n % m) == 1
  {
    var q, r := n / m, n % m;
    PowOfRoot(a, m, q);
    assert n == m * q + r;
    PowPlus(a, m * q, r);
  }

  /** The least positive exponent at most n at which 3 has power 1. */
  ghost function LeastOrder(n: nat): (m: nat)
    requires n > 0 && FPow(3, n) == 1
    ensures 0 < m <= n && FPow(3, m) == 1
    ensures forall k :: 0 < k < m ==> FPow(3, k) != 1
    decreases n
  {
    if k :| 0 < k < n && FPow(3, k) == 1 then LeastOrder(k) else n
  }

  lemma PowCofactor(a: Fp, m: nat, t: nat, q: nat, n: nat)
    requires q > 0 && FPow(a, m) == 1 && t % q == 0 && t * m == q * n
    ensures FPow(a, n) == 1
  {
    var u := t / q;
    assert q * (m * u) == q * n by { assert t == q * u; }
    MulCancel(q, m * u, n);
    PowOfRoot(a, m, u);
  }

  lemma MulCancel(q: int, x: int, y: int)
    requires q > 0 && q * x == q * y
    ensures x == y
  {
    assert q * (x - y) == 0;
  }

  lemma NotAnOrder(t: nat, m: nat)
    requires t * m == P - 1 && FPow(3, m) == 1
    ensures t % 2 != 0 && t % 127 != 0
  {
    PowersOfThree();
    if t % 2 == 0 { PowCofactor(3, m, t, 2, (P - 1) / 2); }
    if t % 127 == 0 { PowCofactor(3, m, t, 127, (P - 1) / 127); }
  }

  lemma DivisorOrder(t: nat, m: nat)
    requires t * m == P - 1 && FPow(3, m) == 1
    ensures t == 1
  {
    NotAnOrder(t, m);
    TwoTo24();
    TwoPowerTimes127(24, t, m);
  }

  /** 3 has order P - 1. */
  lemma OrderOfThree(k: nat)
    requires 0 < k < P - 1
    ensures FPow(3, k) != 1
  {
    PowersOfThree();
    var m := LeastOrder(P - 1);
    PowRemainder(3, m, P - 1);
    assert (P - 1) % m == 0;
    var t := (P - 1) / m;
    assert t * m == P - 1;
    DivisorOrder(t, m);
  }

  lemma TwoTo24()
    ensures Two(24) == 0x100_0000
  {
    assert Two(8) == 256;
    assert Two(16) == 256 * Two(8);
    assert Two(24) == 256 * Two(16);
  }

  // ---------------------------------------------------------------- 3 generates

  lemma PowNonZero(k: nat)
    requires k <= P - 1
    ensures FPow(3, k) != 0
    ensures Mul(FPow(3, P - 1 - k), FPow(3, k)) == 1
  {
    PowersOfThree();
    PowPlus(3, P - 1 - k, k);
  }

  lemma PowInjective(i: nat, j: nat)
    requires i < j < P - 1
    ensures FPow(3, i) != FPow(3, j)
  {
    hide FPow, Mul;
    var c := FPow(3, P - 1 - i);
    PowPlus(3, i, j - i);
    PowNonZero(i);
    OrderOfThree(j - i);
    MulAssoc(c, FPow(3, i), FPow(3, j - i));
    MulOne(FPow(3, j - i));
  }

  lemma MulOne(a: Fp)
    ensures Mul(1, a) == a == Mul(a, 1)
  {
  }

  /** The powers 3^0, ..., 3^(n-1). */
  ghost function Powers(n: nat): (s: set<int>)
    ensures forall x :: x in s <==> exists k :: 0 <= k < n && FPow(3, k) == x
  {
    set k | 0 <= k < n :: FPow(3, k)
  }

  lemma {:induction false} CountPowers(n: nat)
    requires n <= P - 1
    ensures |Powers(n)| == n
  {
    hide FPow;
    if n == 0 {
      assert Powers(0) == {};
    } else {
      CountPowers(n - 1);
      forall k | 0 <= k < n - 1 ensures FPow(3, k) != FPow(3, n - 1) { PowInjective(k, n - 1); }
      assert Powers(n) == Powers(n - 1) + {FPow(3, n - 1)};
    }
  }

  ghost function Range(n: nat): (s: set<int>)
    ensures forall x :: x in s <==> 1 <= x <= n
  {
    if n == 0 then {} else Range(n - 1) + {n}
  }

  lemma {:induction false} CountRange(n: nat)
    ensures |Range(n)| == n
  {
    if n == 0 {
      assert Range(0) == {};
    } else {
      CountRange(n - 1);
    }
  }

  lemma SubsetOfSameSize(s: set<int>, t: set<int>)
    requires s <= t && |s| == |t|
    ensures s == t
  {
    assert t == s + (t - s);
  }

  /** Every non-zero element is a power of the generator: the hypothesis behind
      `F::generator`, and with it that P is prime. */
  lemma GeneratorGenerates(a: Fp)
    requires a != 0
    ensures exists k: nat :: k < P - 1 && FPow(G, k) == a
  {
    CountPowers(P - 1);
    CountRange(P - 1);
    forall k: nat | k < P - 1 ensures FPow(3, k) != 0 { PowNonZero(k); }
    SubsetOfSameSize(Powers(P - 1), Range(P - 1));
    assert a in Powers(P - 1);
  }

  /** Discrete logarithm. */
  ghost function Log(a: Fp): (k: nat)
    requires a != 0
    ensures k < P - 1 && FPow(G, k) == a
  {
    GeneratorGenerates(a);
    var k: nat :| k < P - 1 && FPow(G, k) == a;
    k
  }

  // ---------------------------------------------------------------- consequences

  lemma MulZero(a: Fp)
    ensures Mul(0, a) == 0 == Mul(a, 0)
  {
  }

  lemma Fermat(a: Fp)
    ensures a != 0 ==> FPow(a, P - 1) == 1
    ensures FPow(a, P) == a
  {
    hide FPow, Mul;
    PowUnfold(a, P);
    if a != 0 {
      var k := Log(a);
      PowersOfThree();
      PowTimes(G, k, P - 1);
      PowOfRoot(G, P - 1, k);
      assert k * (P - 1) == (P - 1) * k;
      MulOne(a);
    } else {
      MulZero(FPow(0, P - 1));
    }
  }

  /** `inverse`; the source panics on zero, which every caller here excludes. */
  function Inverse(a: Fp): (r: Fp)
    requires a != 0
    ensures Mul(a, r) == 1
  {
    assert Mul(a, Exp(a, P - 2)) == 1 by {
      ExpIsPow(a, P - 2);
      Fermat(a);
      PowUnfold(a, P - 1);
    }
    Exp(a, P - 2)
  }

  /** P has no zero divisors. */
  lemma NoZeroDivisors(a: Fp, b: Fp)
    requires Mul(a, b) == 0
    ensures a == 0 || b == 0
  {
    if a != 0 {
      var c := Inverse(a);
      MulAssoc(c, a, b);
      MulComm(c, a);
      assert Mul(1, b) == b;
      assert Mul(c, 0) == 0;
    }
  }

  lemma OrderIsPrime()
    ensures IsPrime(P)
  {
    forall a: nat, b: nat ensures EuclidAt(P, a, b) {
      if Divides(P, a * b) {
        var r, t := a % P, b % P;
        ModMul(a, b);
        ModMul(b, r);
        assert b * r == r * b && t * r == r * t;
        assert Mul(r, t) == 0;
        NoZeroDivisors(r, t);
      }
    }
  }

  ghost predicate IsSquare(a: Fp) {
    exists b: Fp :: Mul(b, b) == a
  }

  lemma SquareFromRoot(a: Fp, b: Fp)
    requires Mul(b, b) == a
    ensures IsSquare(a)
  {
  }

  lemma HalfPowerOfSquare(b: Fp)
    requires b != 0
    ensures FPow(Mul(b, b), (P - 1) / 2) == 1
  {
    FpIsRing();
    PowSmall(FpRing, b);
    PowTimes(b, 2, (P - 1) / 2);
    Fermat(b);
  }

  lemma OddLogHalfPower(a: Fp, h: nat)
    requires h < P - 1 && a == Mul(G, Mul(FPow(G, h), FPow(G, h)))
    ensures FPow(a, (P - 1) / 2) == P - 1
  {
    hide FPow, Mul;
    var s := FPow(G, h);
    PowNonZero(h);
    HalfPowerOfSquare(s);
    PowProduct(G, Mul(s, s), (P - 1) / 2);
    PowersOfThree();
    MulOne(P - 1);
  }

  lemma LogParity(a: Fp)
    requires a != 0
    ensures exists h: nat :: h < P - 1 && (a == Mul(FPow(G, h), FPow(G, h)) || a == Mul(G, Mul(FPow(G, h), FPow(G, h))))
  {
    var k := Log(a);
    var h := k / 2;
    PowPlus(G, h, h);
    if k % 2 == 1 { PowUnfold(G, k); }
    assert h < P - 1 && (a == Mul(FPow(G, h), FPow(G, h)) || a == Mul(G, Mul(FPow(G, h), FPow(G, h))));
  }

  /** Euler's criterion: the test `x.exp_u64((p - 1) / 2) == F::one()` holds exactly for the
      non-zero squares, and otherwise the power is 0 or -1. */
  lemma EulerCriterion(a: Fp)
    ensures FPow(a, (P - 1) / 2) == 1 <==> a != 0 && IsSquare(a)
    ensures a != 0 && !IsSquare(a) ==> FPow(a, (P - 1) / 2) == P - 1
  {
    hide FPow, Mul;
    if a == 0 {
      PowUnfold(0, (P - 1) / 2);
      MulZero(FPow(0, (P - 1) / 2 - 1));
    } else {
      LogParity(a);
      var h: nat :| h < P - 1 && (a == Mul(FPow(G, h), FPow(G, h)) || a == Mul(G, Mul(FPow(G, h), FPow(G, h))));
      PowNonZero(h);
      if a == Mul(FPow(G, h), FPow(G, h)) {
        SquareFromRoot(a, FPow(G, h));
        HalfPowerOfSquare(FPow(G, h));
      } else {
        OddLogHalfPower(a, h);
        if IsSquare(a) {
          var b: Fp :| Mul(b, b) == a;
          MulZero(b);
          HalfPowerOfSquare(b);
        }
      }
    }
  }
}
