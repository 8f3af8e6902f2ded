/** `CipollaExtension`: F_p[w]/(w^2 - nonresidue), square-and-multiply in it, and the identity
    behind Cipolla's algorithm, for a non-residue and for zero. */
module Cipolla {
  import opened Rings
  import F = KoalaBear

  const P := F.P
  type Fp = F.Fp

  datatype Ext = Ext(re: Fp, im: Fp)

  const ONE := Ext(1, 0)

  /** `mul_ext`. */
  function MulExt(a: Ext, b: Ext, nu: Fp): Ext {
    Ext(F.Add(F.Mul(a.re, b.re), F.Mul(F.Mul(nu, a.im), b.im)),
        F.Add(F.Mul(a.re, b.im), F.Mul(a.im, b.re)))
  }

  function AddExt(a: Ext, b: Ext): Ext { Ext(F.Add(a.re, b.re), F.Add(a.im, b.im)) }

  ghost function ExtRing(nu: Fp): Ring<Ext> {
    Ring(Ext(0, 0), ONE, (a: Ext, b: Ext) => AddExt(a, b),
         (a: Ext) => Ext(F.Neg(a.re), F.Neg(a.im)), (a: Ext, b: Ext) => MulExt(a, b, nu))
  }

  // ---------------------------------------------------------------- ring laws, coefficientwise

  lemma ModSum(x: int, y: int)
    ensures F.Add(x % P, y % P) == (x + y) % P
  {
    var e := if x % P + y % P < P then 0 else 1;
    F.ModUnique(x + y, F.Add(x % P, y % P), x / P + y / P + e);
  }

  /** The coefficients of a product as residues of integers. */
  lemma MulExact(a: Ext, b: Ext, nu: Fp)
    ensures MulExt(a, b, nu).re == (a.re * b.re + nu * (a.im * b.im)) % P
    ensures MulExt(a, b, nu).im == (a.re * b.im + a.im * b.re) % P
  {
    F.ModMul(nu * a.im, b.im);
    assert nu * a.im * b.im == nu * (a.im * b.im);
    ModSum(a.re * b.re, nu * (a.im * b.im));
    ModSum(a.re * b.im, a.im * b.re);
  }

  lemma ModLinear(x: int, c: int, y: int, d: int)
    ensures ((x % P) * c + (y % P) * d) % P == (x * c + y * d) % P
  {
    F.ModMul(x, c);
    F.ModMul(y, d);
    ModSum((x % P) * c, (y % P) * d);
    ModSum(x * c, y * d);
  }

  /** The integers behind (a * b) * c. */
  ghost function TripleRe(a: Ext, b: Ext, c: Ext, nu: Fp): int {
    a.re * (b.re * c.re) + nu * (a.im * (b.im * c.re) + a.re * (b.im * c.im) + a.im * (b.re * c.im))
  }

  ghost function TripleIm(a: Ext, b: Ext, c: Ext, nu: Fp): int {
    a.re * (b.re * c.im) + nu * (a.im * (b.im * c.im)) + a.re * (b.im * c.re) + a.im * (b.re * c.re)
  }

  lemma TripleExact(a: Ext, b: Ext, c: Ext, nu: Fp)
    ensures MulExt(MulExt(a, b, nu), c, nu) == Ext(TripleRe(a, b, c, nu) % P, TripleIm(a, b, c, nu) % P)
  {
    hide MulExt, TripleRe, TripleIm, PairRe, PairIm;
    MulPair(a, b, nu);
    TimesExact(MulExt(a, b, nu), PairRe(a, b, nu), PairIm(a, b), c, nu);
    Expand(a, b, c, nu);
  }

  ghost function PairRe(a: Ext, b: Ext, nu: Fp): int { a.re * b.re + nu * (a.im * b.im) }
  ghost function PairIm(a: Ext, b: Ext): int { a.re * b.im + a.im * b.re }

  lemma MulPair(a: Ext, b: Ext, nu: Fp)
    ensures MulExt(a, b, nu) == Ext(PairRe(a, b, nu) % P, PairIm(a, b) % P)
  {
    hide MulExt;
    MulExact(a, b, nu);
  }

  /** Multiplying a reduced pair by c, from its unreduced parts. */
  lemma TimesExact(x: Ext, re: int, im: int, c: Ext, nu: Fp)
    requires x == Ext(re % P, im % P)
    ensures MulExt(x, c, nu) == Ext((re * c.re + im * (nu * c.im)) % P, (re * c.im + im * c.re) % P)
  {
    hide MulExt;
    MulExact(x, c, nu);
    ModLinear(re, c.re, im, nu * c.im);
    ModLinear(re, c.im, im, c.re);
    Cycle(nu, im % P, c.im);
  }

  lemma Cycle(x: int, y: int, z: int)
    ensures x * (y * z) == y * (x * z) == y * (z * x)
  {
  }

  lemma ExpandPair(x: int, y: int, k: int, u: int, v: int, c: int)
    ensures (x * y + k * (u * v)) * c == x * (y * c) + k * (u * (v * c))
  {
    assert (x * y) * c == x * (y * c);
    assert (k * (u * v)) * c == k * ((u * v) * c);
    assert (u * v) * c == u * (v * c);
  }

  lemma Expand(a: Ext, b: Ext, c: Ext, nu: Fp)
    ensures PairRe(a, b, nu) * c.re + PairIm(a, b) * (nu * c.im) == TripleRe(a, b, c, nu)
    ensures PairRe(a, b, nu) * c.im + PairIm(a, b) * c.re == TripleIm(a, b, c, nu)
  {
    ExpandPair(a.re, b.re, nu, a.im, b.im, c.re);
    ExpandPair(a.re, b.re, nu, a.im, b.im, c.im);
    ExpandPair(a.re, b.im, 1, a.im, b.re, c.re);
    ExpandPair(a.re, b.im, 1, a.im, b.re, c.im);
    Cycle(a.re * b.im + a.im * b.re, nu, c.im);
    Spread(nu, a.im * (b.im * c.re), a.re * (b.im * c.im), a.im * (b.re * c.im));
  }

  lemma Spread(k: int, x: int, y: int, z: int)
    ensures k * (x + y + z) == k * x + k * (y + z)
  {
  }

  lemma MulExtComm(a: Ext, b: Ext, nu: Fp)
    ensures MulExt(a, b, nu) == MulExt(b, a, nu)
  {
    hide MulExt;
    MulExact(a, b, nu);
    MulExact(b, a, nu);
    assert a.im * b.im == b.im * a.im;
  }

  lemma MulExtAssoc(a: Ext, b: Ext, c: Ext, nu: Fp)
    ensures MulExt(MulExt(a, b, nu), c, nu) == MulExt(a, MulExt(b, c, nu), nu)
  {
    hide MulExt;
    MulExtComm(a, MulExt(b, c, nu), nu);
    TripleExact(a, b, c, nu);
    TripleExact(b, c, a, nu);
    Cycle(a.re, b.re, c.re); Cycle(a.im, b.im, c.re); Cycle(a.re, b.im, c.im); Cycle(a.im, b.re, c.im);
    Cycle(a.re, b.re, c.im); Cycle(a.im, b.im, c.im); Cycle(a.re, b.im, c.re); Cycle(a.im, b.re, c.re);
  }

  lemma DistributeExt(a: Ext, b: Ext, c: Ext, nu: Fp)
    ensures MulExt(a, AddExt(b, c), nu) == AddExt(MulExt(a, b, nu), MulExt(a, c, nu))
  {
    hide F.Add, F.Mul;
    var n := F.Mul(nu, a.im);
    F.Distribute(a.re, b.re, c.re); F.Distribute(n, b.im, c.im);
    F.Distribute(a.re, b.im, c.im); F.Distribute(a.im, b.re, c.re);
    FourSum(F.Mul(a.re, b.re), F.Mul(a.re, c.re), F.Mul(n, b.im), F.Mul(n, c.im));
    FourSum(F.Mul(a.re, b.im), F.Mul(a.re, c.im), F.Mul(a.im, b.re), F.Mul(a.im, c.re));
  }

  lemma FourSum(a: Fp, b: Fp, c: Fp, d: Fp)
    ensures F.Add(F.Add(a, b), F.Add(c, d)) == F.Add(F.Add(a, c), F.Add(b, d))
  {
    F.FpIsRing();
    AddCross(F.FpRing, a, b, c, d);
  }

  lemma MulExtOne(a: Ext, nu: Fp)
    ensures MulExt(ONE, a, nu) == a
  {
    hide MulExt;
    MulExact(ONE, a, nu);
    F.ModUnique(a.re, a.re, 0);
    F.ModUnique(a.im, a.im, 0);
  }

  lemma ExtIsRing(nu: Fp)
    ensures IsRing(ExtRing(nu))
  {
    hide MulExt;
    forall a, b, c ensures LawsAt(ExtRing(nu), a, b, c) {
      F.AddLaws(a.re, b.re, c.re);
      F.AddLaws(a.im, b.im, c.im);
      MulExtComm(a, b, nu);
      MulExtAssoc(a, b, c, nu);
      MulExtOne(a, nu);
      DistributeExt(a, b, c, nu);
    }
  }

  lemma {:induction false} TimesExt(n: nat, a: Ext, nu: Fp)
    ensures Times(ExtRing(nu), n, a) == Ext((n * a.re) % P, (n * a.im) % P)
  {
    hide MulExt, F.Add;
    if n > 0 {
      TimesExt(n - 1, a, nu);
      F.ModUnique(a.re, a.re, 0);
      F.ModUnique(a.im, a.im, 0);
      ModSum(a.re, (n - 1) * a.re);
      ModSum(a.im, (n - 1) * a.im);
      assert n * a.re == a.re + (n - 1) * a.re && n * a.im == a.im + (n - 1) * a.im;
    }
  }

  lemma ExtCharacteristic(nu: Fp)
    ensures HasCharacteristic(ExtRing(nu), P)
  {
    forall a: Ext ensures Times(ExtRing(nu), P, a) == Ext(0, 0) {
      TimesExt(P, a, nu);
      F.ModUnique(P * a.re, 0, a.re);
      F.ModUnique(P * a.im, 0, a.im);
    }
  }

  // ---------------------------------------------------------------- square and multiply

  ghost function EPow(x: Ext, n: nat, nu: Fp): Ext { Pow(ExtRing(nu), x, n) }

  lemma EPowPlus(x: Ext, m: nat, n: nat, nu: Fp)
    ensures EPow(x, m + n, nu) == MulExt(EPow(x, m, nu), EPow(x, n, nu), nu)
  {
    hide MulExt;
    ExtIsRing(nu);
    PowAdd(ExtRing(nu), x, m, n);
  }

  lemma EPowSmall(x: Ext, nu: Fp)
    ensures EPow(x, 0, nu) == ONE && EPow(x, 1, nu) == x
  {
    hide MulExt;
    ExtIsRing(nu);
    PowSmall(ExtRing(nu), x);
  }

  /** `BigUint::bits` and `BigUint::bit`. */
  function BitLength(n: nat): nat {
    if n == 0 then 0 else 1 + BitLength(n / 2)
  }

  function Bit(n: nat, i: nat): bool {
    if i == 0 then n % 2 == 1 else Bit(n / 2, i - 1)
  }

  /** Shifting both by one place keeps the bits aligned. */
  lemma BitShift(exp: nat, rest: nat, i: nat)
    requires forall j: nat :: Bit(exp, i + j) == Bit(rest, j)
    ensures Bit(exp, i) == (rest % 2 == 1)
    ensures forall j: nat :: Bit(exp, i + 1 + j) == Bit(rest / 2, j)
  {
    assert Bit(exp, i + 0) == Bit(rest, 0);
    forall j: nat ensures Bit(exp, i + 1 + j) == Bit(rest / 2, j) {
      assert Bit(exp, i + (j + 1)) == Bit(rest, j + 1);
    }
  }

  lemma EPowHalve(x: Ext, n: nat, nu: Fp)
    ensures
      var h := EPow(MulExt(x, x, nu), n / 2, nu);
      EPow(x, n, nu) == if n % 2 == 1 then MulExt(x, h, nu) else h
  {
    hide MulExt;
    ExtIsRing(nu);
    PowSmall(ExtRing(nu), x);
    PowPow(ExtRing(nu), x, 2, n / 2);
    if n % 2 == 1 { EPowPlus(x, 1, n - 1, nu); }
  }

  /** `pow`: for i in 0..bits, multiply when bit i is set, then square. */
  method PowExt(x: Ext, exp: nat, nu: Fp) returns (result: Ext)
    ensures result == EPow(x, exp, nu)
  {
    hide MulExt, EPow, Bit;
    result := ONE;
    var base := x;
    var bits := BitLength(exp);
    ghost var rest := exp;
    MulExtOne(EPow(x, exp, nu), nu);
    for i := 0 to bits
      invariant BitLength(rest) == bits - i
      invariant forall j: nat :: Bit(exp, i + j) == Bit(rest, j)
      invariant MulExt(result, EPow(base, rest, nu), nu) == EPow(x, exp, nu)
    {
      EPowHalve(base, rest, nu);
      BitShift(exp, rest, i);
      if Bit(exp, i) {
        MulExtAssoc(result, base, EPow(MulExt(base, base, nu), rest / 2, nu), nu);
        result := MulExt(result, base, nu);
      }
      base := MulExt(base, base, nu);
      rest := rest / 2;
    }
    EPowSmall(base, nu);
    MulExtComm(result, ONE, nu);
    MulExtOne(result, nu);
  }

  // ---------------------------------------------------------------- Cipolla's identity

  lemma {:induction false} RealPow(k: Fp, n: nat, nu: Fp)
    ensures EPow(Ext(k, 0), n, nu) == Ext(F.FPow(k, n), 0)
  {
    if n > 0 {
      RealPow(k, n - 1, nu);
      F.PowUnfold(k, n);
      RealTimes(k, F.FPow(k, n - 1), 0, nu);
    }
  }

  lemma RealTimes(j: Fp, k: Fp, l: Fp, nu: Fp)
    ensures MulExt(Ext(j, 0), Ext(k, l), nu) == Ext(F.Mul(j, k), F.Mul(j, l))
  {
    assert F.Mul(nu, 0) == 0;
  }

  lemma RootPow(nu: Fp)
    ensures EPow(Ext(0, 1), P, nu) == Ext(0, F.FPow(nu, (P - 1) / 2))
  {
    var w := Ext(0, 1);
    var h := (P - 1) / 2;
    assert MulExt(w, w, nu) == Ext(nu, 0) by { F.ModUnique(nu, nu, 0); }
    hide MulExt, EPow, F.FPow, F.Mul;
    EPowSmall(w, nu);
    EPowHalve(w, 2 * h, nu);
    RealPow(nu, h, nu);
    EPowPlus(w, 2 * h, 1, nu);
    RealTimes(F.FPow(nu, h), 0, 1, nu);
    F.MulOne(F.FPow(nu, h));
    F.MulZero(F.FPow(nu, h));
  }

  /** (a + w)^p = a + nu^((p-1)/2) w. */
  lemma ConjugatePow(a: Fp, nu: Fp)
    ensures EPow(Ext(a, 1), P, nu) == Ext(a, F.FPow(nu, (P - 1) / 2))
  {
    assert AddExt(Ext(a, 0), Ext(0, 1)) == Ext(a, 1);
    hide MulExt;
    ExtIsRing(nu);
    ExtCharacteristic(nu);
    F.OrderIsPrime();
    PowCharAdditive(ExtRing(nu), P, Ext(a, 0), Ext(0, 1));
    RealPow(a, P, nu);
    F.Fermat(a);
    RootPow(nu);
  }

  lemma NormOfPair(a: Fp, e: Fp, nu: Fp)
    ensures MulExt(Ext(a, 1), Ext(a, e), nu) == Ext(F.Add(F.Mul(a, a), F.Mul(nu, e)), F.Add(F.Mul(a, e), a))
  {
    F.ModUnique(nu, nu, 0);
    F.ModUnique(a, a, 0);
  }

  /** Squaring the half power: y^2 = (a + w)^(p + 1). */
  lemma HalfPowerSquared(a: Fp, nu: Fp)
    ensures
      var y := EPow(Ext(a, 1), (P + 1) / 2, nu);
      var e := F.FPow(nu, (P - 1) / 2);
      MulExt(y, y, nu) == Ext(F.Add(F.Mul(a, a), F.Mul(nu, e)), F.Add(F.Mul(a, e), a))
  {
    hide MulExt, EPow;
    var x := Ext(a, 1);
    EPowPlus(x, (P + 1) / 2, (P + 1) / 2, nu);
    EPowPlus(x, 1, P, nu);
    EPowSmall(x, nu);
    ConjugatePow(a, nu);
    NormOfPair(a, F.FPow(nu, (P - 1) / 2), nu);
  }

  lemma MinusOneTimes(k: Fp)
    ensures F.Mul(k, P - 1) == F.Neg(k)
  {
    assert k * (P - 1) == P * k - k;
    F.ModUnique(k * (P - 1), F.Neg(k), if k == 0 then 0 else k - 1);
  }

  lemma TwiceIsZero(u: Fp, v: Fp)
    requires F.Add(F.Mul(u, v), F.Mul(v, u)) == 0
    ensures u == 0 || v == 0
  {
    F.MulComm(u, v);
    assert F.Mul(u, v) == 0;
    F.NoZeroDivisors(u, v);
  }

  /** Cipolla's theorem, including the exit of the search where a^2 - base is zero: the real part
      of (a + w)^((p+1)/2) is a square root of base. */
  lemma CipollaRoot(a: Fp, base: Fp, nu: Fp)
    requires nu == F.Sub(F.Mul(a, a), base)
    requires F.IsSquare(base) && base != 0
    requires F.FPow(nu, (P - 1) / 2) != 1
    ensures var y := EPow(Ext(a, 1), (P + 1) / 2, nu); F.Mul(y.re, y.re) == base
  {
    var y := EPow(Ext(a, 1), (P + 1) / 2, nu);
    HalfPowerSquared(a, nu);
    F.EulerCriterion(nu);
    if nu == 0 {
      ZeroCase(a, base, y);
    } else {
      MinusOneTimes(nu);
      MinusOneTimes(a);
      F.AddLaws(F.Mul(a, a), base, 0);
      F.AddLaws(a, a, 0);
      assert MulExt(y, y, nu) == Ext(base, 0) by { SubCancel(F.Mul(a, a), base); }
      NonResidueCase(base, nu, y);
    }
  }

  lemma SubCancel(s: Fp, t: Fp)
    ensures F.Add(s, F.Neg(F.Sub(s, t))) == t
    ensures F.Add(F.Neg(s), s) == 0
  {
  }

  lemma ZeroCase(a: Fp, base: Fp, y: Ext)
    requires F.Sub(F.Mul(a, a), base) == 0
    requires MulExt(y, y, 0).re == F.Add(F.Mul(a, a), F.Mul(0, F.FPow(0, (P - 1) / 2)))
    ensures F.Mul(y.re, y.re) == base
  {
    assert F.Mul(F.Mul(0, y.im), y.im) == 0;
  }

  lemma NonResidueCase(base: Fp, nu: Fp, y: Ext)
    requires F.IsSquare(base) && base != 0 && !F.IsSquare(nu)
    requires MulExt(y, y, nu) == Ext(base, 0)
    ensures F.Mul(y.re, y.re) == base
  {
    TwiceIsZero(y.re, y.im);
    var v2 := F.Mul(y.im, y.im);
    F.MulAssoc(nu, y.im, y.im);
    if y.im == 0 {
      assert F.Mul(nu, v2) == 0;
    } else {
      assert F.Mul(nu, v2) == base;
      var c: Fp :| F.Mul(c, c) == base;
      QuotientIsSquare(nu, y.im, c);
    }
  }

  lemma QuotientIsSquare(nu: Fp, v: Fp, c: Fp)
    requires v != 0 && F.Mul(nu, F.Mul(v, v)) == F.Mul(c, c)
    ensures F.IsSquare(nu)
  {
    hide F.Mul;
    var i := F.Inverse(v);
    F.FpIsRing();
    var R := F.FpRing;
    MulCross(R, c, i, c, i);
    MulCross(R, v, i, v, i);
    F.MulAssoc(nu, F.Mul(v, v), F.Mul(i, i));
    assert LawsAt(R, nu, 1, 1) && LawsAt(R, 1, 1, nu);
    F.SquareFromRoot(nu, F.Mul(c, i));
  }
}
