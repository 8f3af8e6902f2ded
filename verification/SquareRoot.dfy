/** `is_square` and `sqrt` of `septic_extension.rs`. */
module SquareRoot {
  import opened Basics
  import opened Rings
  import F = KoalaBear
  import C = Cipolla
  import opened SepticExtension
  import opened Frobenius
  import opened SepticField

  ghost predicate IsSquare(n: Septic) {
    exists b: Septic :: Mul(b, b) == n
  }

  // ---------------------------------------------------------------- the square test

  /** `is_square`: the norm, and whether Euler's criterion accepts it. */
  function SquareTest(n: Septic): (F.Fp, bool) {
    (Norm(n), F.Exp(Norm(n), (P - 1) / 2) == 1)
  }

  lemma SquareHasSquareNorm(n: Septic, b: Septic)
    requires n != ZERO && Mul(b, b) == n
    ensures SquareTest(n).1
  {
    hide Mul, Norm, F.Mul;
    if b == ZERO { ZeroMul(ZERO); }
    NormNonZero(b);
    NormNonZero(n);
    NormMul(b, b);
    F.SquareFromRoot(Norm(n), Norm(b));
    F.EulerCriterion(Norm(n));
    F.ExpIsPow(Norm(n), (P - 1) / 2);
  }

  // ---------------------------------------------------------------- the Frobenius part of the root

  lemma SquareOf(a: Septic, b: Septic)
    ensures Mul(Mul(a, b), Mul(a, b)) == Mul(Mul(a, a), Mul(b, b))
  {
    hide Mul;
    Cross(a, b, a, b);
  }

  lemma HalfPower(n: Septic, w: Septic)
    requires w == SPow(n, (P + 1) / 2)
    ensures Mul(w, w) == Mul(n, Frob(n))
  {
    hide Mul, Frob, SPow;
    PowPlus(n, (P + 1) / 2, (P + 1) / 2);
    PowPlus(n, 1, P);
    FirstPower(n);
    FrobIsPow(n);
  }

  /** The product `denominator` squares to the norm times n. */
  lemma DenominatorSquared(n: Septic, w: Septic)
    requires w == SPow(n, (P + 1) / 2)
    ensures
      var f := Frob(w); var f3 := Frob2(f); var f5 := Frob2(f3);
      var d := Mul(Mul(Mul(f, f3), f5), n);
      Mul(d, d) == Mul(FromBase(Norm(n)), n)
  {
    hide Mul, Frob, Frob2, SPow, FromBase, Norm;
    var f := Frob(w); var f3 := Frob2(f); var f5 := Frob2(f3);
    var base := Mul(Frob(n), Frob2(n));
    HalfPower(n, w);
    FrobHom(w, w, 0);
    FrobHom(n, Frob(n), 0);
    DoubleFrob(n);
    assert Mul(f, f) == base;
    Frob2Hom(f, f);
    Frob2Hom(f3, f3);
    SquareOf(f, f3);
    SquareOf(Mul(f, f3), f5);
    assert Mul(Mul(Mul(f, f3), f5), Mul(Mul(f, f3), f5)) == PowR1(n);
    SquareOf(Mul(Mul(f, f3), f5), n);
    MulAssoc(PowR1(n), n, n);
    PowRIsBase(n);
  }

  /** Scaling by a root of 1/norm finishes the root. */
  lemma FinishRoot(n: Septic, d: Septic, re: F.Fp, base: F.Fp)
    requires Mul(d, d) == Mul(FromBase(Norm(n)), n)
    requires F.Mul(re, re) == base && F.Mul(Norm(n), base) == 1
    ensures Mul(Scale(d, re), Scale(d, re)) == n
  {
    assert FromBase(1) == ONE;
    hide Mul, Scale, FromBase, Norm, F.Mul;
    ScaleIsMul(d, re);
    SquareOf(FromBase(re), d);
    BaseProduct(re, re);
    MulAssoc(FromBase(base), FromBase(Norm(n)), n);
    BaseProduct(base, Norm(n));
    F.MulComm(base, Norm(n));
    MulOne(n);
  }

  // ---------------------------------------------------------------- the three loops

  /** The 1..30 loop: repeated squaring that collects n^((p+1)/2). */
  method HalfExponent(n: Septic) returns (nPower: Septic)
    ensures nPower == SPow(n, (P + 1) / 2)
  {
    hide Mul, SPow, Two;
    var nIter := n;
    nPower := n;
    ghost var e: nat, f: nat := 1, 1;
    FirstPower(n);
    TwoStep(0);
    for i := 1 to 30
      invariant e == Two(i - 1) && f == (if i <= 23 then 1 else 1 + Two(i) - Two(23))
      invariant nIter == SPow(n, e) && nPower == SPow(n, f)
    {
      PowPlus(n, e, e);
      TwoStep(i - 1);
      TwoStep(i);
      nIter := Mul(nIter, nIter);
      e := 2 * e;
      if i >= 23 {
        PowPlus(n, f, e);
        nPower := Mul(nPower, nIter);
        f := f + e;
      }
    }
    Powers30();
  }

  lemma TwoStep(k: nat)
    ensures Two(0) == 1 && Two(k + 1) == 2 * Two(k)
  {
  }

  lemma Powers30()
    ensures Two(23) == 0x80_0000 && Two(30) == 0x4000_0000
  {
    F.TwoTo24();
    assert Two(24) == 2 * Two(23);
    assert Two(30) == 64 * Two(24);
  }

  /** An exponent, among the first half of the powers of the generator, at which the search below
      must stop. */
  ghost predicate Stop(t: nat, base: F.Fp) {
    t < (P - 1) / 2 && F.Mul(F.FPow(F.G, t), F.FPow(F.G, t)) == base
  }

  lemma StopExists(base: F.Fp)
    requires base != 0 && F.IsSquare(base)
    ensures exists t :: Stop(t, base)
  {
    hide F.FPow;
    var c: F.Fp :| F.Mul(c, c) == base;
    assert c != 0;
    var t := F.Log(c);
    if t < (P - 1) / 2 {
      assert Stop(t, base);
    } else {
      var u := t - (P - 1) / 2;
      F.PowPlus(F.G, t, t);
      F.PowPlus(F.G, u, u);
      F.PowPlus(F.G, P - 1, u + u);
      F.PowersOfThree();
      F.ModUnique(1 * F.FPow(F.G, u + u), F.FPow(F.G, u + u), 0);
      assert Stop(u, base);
    }
  }

  /** The non-residue search. It stops within (p - 1) / 2 steps, because a runs through the powers
      of a generator: at the latest when a is a root of base, where a^2 - base is zero. */
  method FindNonResidue(base: F.Fp) returns (a: F.Fp, nu: F.Fp)
    requires base != 0 && F.IsSquare(base)
    ensures nu == F.Sub(F.Mul(a, a), base)
    ensures F.FPow(nu, (P - 1) / 2) != 1
    ensures exists k: nat :: k < (P - 1) / 2 && a == F.FPow(F.G, k)
  {
    hide F.Mul, F.FPow;
    a := 1;
    nu := F.Sub(1, base);
    ghost var k := 0;
    StopExists(base);
    ghost var t: nat :| Stop(t, base);
    SearchStart(base);
    F.ExpIsPow(nu, (P - 1) / 2);
    while F.Exp(nu, (P - 1) / 2) == 1
      invariant a == F.FPow(F.G, k) && k <= t
      invariant nu == F.Sub(F.Mul(a, a), base)
      invariant F.Exp(nu, (P - 1) / 2) == F.FPow(nu, (P - 1) / 2)
      decreases t - k
    {
      if k == t { ZeroIsNoResidue(base); }
      SearchStep(k);
      a := F.Mul(a, F.G);
      k := k + 1;
      nu := F.Sub(F.Mul(a, a), base);
      F.ExpIsPow(nu, (P - 1) / 2);
    }
  }

  lemma SearchStart(base: F.Fp)
    ensures F.FPow(F.G, 0) == 1 && F.Sub(F.Mul(1, 1), base) == F.Sub(1, base)
  {
  }

  lemma SearchStep(k: nat)
    ensures F.FPow(F.G, k + 1) == F.Mul(F.FPow(F.G, k), F.G)
  {
    F.PowUnfold(F.G, k + 1);
    F.MulComm(F.G, F.FPow(F.G, k));
  }

  lemma ZeroIsNoResidue(base: F.Fp)
    ensures F.Sub(base, base) == 0 && F.FPow(0, (P - 1) / 2) != 1
  {
    F.EulerCriterion(0);
  }

  // ---------------------------------------------------------------- sqrt

  /** `is_square` accepts exactly the non-zero squares. */
  lemma SquareTestExact(n: Septic)
    ensures SquareTest(n).1 <==> n != ZERO && IsSquare(n)
  {
    hide Mul, Norm, Frob, Frob2, SPow, Scale, FromBase, F.Mul, F.FPow, F.Exp;
    NormNonZero(n);
    if n == ZERO {
      F.ExpIsPow(0, (P - 1) / 2);
      ZeroIsNoResidue(0);
    } else if SquareTest(n).1 {
      var base := F.Inverse(Norm(n));
      InverseIsSquare(Norm(n), base);
      var re: F.Fp :| F.Mul(re, re) == base;
      var w := SPow(n, (P + 1) / 2);
      var f3 := Frob2(Frob(w));
      var d := Mul(Mul(Mul(Frob(w), f3), Frob2(f3)), n);
      DenominatorSquared(n, w);
      FinishRoot(n, d, re, base);
    } else if b: Septic :| Mul(b, b) == n {
      SquareHasSquareNorm(n, b);
    }
  }

  /** `sqrt`: `Some(r)` with r * r == n exactly when n is a square. */
  method Sqrt(n: Septic) returns (r: Option<Septic>)
    ensures r.Some? <==> IsSquare(n)
    ensures r.Some? ==> Mul(r.value, r.value) == n
  {
    hide Mul, Norm, Frob, Frob2, SPow, Scale, FromBase, F.Mul, F.FPow;
    if n == ZERO || n == ONE {
      ZeroMul(ZERO);
      MulOne(ONE);
      return Some(n);
    }
    var (numerator, isSquare) := SquareTest(n);
    if !isSquare {
      if IsSquare(n) {
        ghost var b: Septic :| Mul(b, b) == n;
        SquareHasSquareNorm(n, b);
      }
      return None;
    }
    var nPower := HalfExponent(n);
    var nFrobenius := Frob(nPower);
    var denominator := nFrobenius;
    nFrobenius := Frob2(nFrobenius);
    denominator := Mul(denominator, nFrobenius);
    nFrobenius := Frob2(nFrobenius);
    denominator := Mul(denominator, nFrobenius);
    denominator := Mul(denominator, n);
    DenominatorSquared(n, nPower);
    NormNonZero(n);
    var base := F.Inverse(numerator);
    InverseIsSquare(numerator, base);
    var a, nu := FindNonResidue(base);
    var x := C.PowExt(C.Ext(a, 1), (P + 1) / 2, nu);
    C.CipollaRoot(a, base, nu);
    FinishRoot(n, denominator, x.re, base);
    r := Some(Scale(denominator, x.re));
  }

  lemma InverseIsSquare(k: F.Fp, i: F.Fp)
    requires F.Mul(k, i) == 1 && F.Exp(k, (P - 1) / 2) == 1
    ensures i != 0 && F.IsSquare(i)
  {
    F.ExpIsPow(k, (P - 1) / 2);
    F.PowProduct(k, i, (P - 1) / 2);
    F.PowOne((P - 1) / 2);
    F.ModUnique(F.FPow(i, (P - 1) / 2), F.FPow(i, (P - 1) / 2), 0);
    F.EulerCriterion(i);
  }
}
