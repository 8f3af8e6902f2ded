/** Norm and inverse of `septic_extension.rs`. The extension is shown to be a
    field: z^7 - 3z - 5 needs no irreducibility hypothesis. */
module SepticField {
  import opened Basics
  import opened Rings
  import F = KoalaBear
  import opened SepticExtension
  import opened Frobenius

  /** `pow_r_1`: the product of the six proper conjugates. */
  function PowR1(a: Septic): Septic {
    var base := Mul(Frob(a), Frob2(a));
    var base2 := Frob2(base);
    var base4 := Frob2(base2);
    Mul(Mul(base, base2), base4)
  }

  /** `pow_r_1 * self`, and its constant coefficient: the norm. */
  function PowR(a: Septic): Septic { Mul(PowR1(a), a) }
  function Norm(a: Septic): F.Fp { PowR(a).c0 }

  // ---------------------------------------------------------------- products

  lemma Cross(a: Septic, b: Septic, c: Septic, d: Septic)
    ensures Mul(Mul(a, b), Mul(c, d)) == Mul(Mul(a, c), Mul(b, d))
  {
    hide Mul;
    SepticIsRing();
    MulCross(SepticRing, a, b, c, d);
  }

  lemma Frob2Hom(a: Septic, b: Septic)
    ensures Frob2(Mul(a, b)) == Mul(Frob2(a), Frob2(b))
  {
    hide Frob, Frob2, Mul;
    DoubleFrob(a); DoubleFrob(b); DoubleFrob(Mul(a, b));
    FrobHom(a, b, 0);
    FrobHom(Frob(a), Frob(b), 0);
  }

  lemma PowR1Mul(a: Septic, b: Septic)
    ensures PowR1(Mul(a, b)) == Mul(PowR1(a), PowR1(b))
  {
    hide Frob, Frob2, Mul;
    var ba, bb := Mul(Frob(a), Frob2(a)), Mul(Frob(b), Frob2(b));
    FrobHom(a, b, 0);
    Frob2Hom(a, b);
    Cross(Frob(a), Frob(b), Frob2(a), Frob2(b));
    Frob2Hom(ba, bb);
    Frob2Hom(Frob2(ba), Frob2(bb));
    Cross(ba, bb, Frob2(ba), Frob2(bb));
    Cross(Mul(ba, Frob2(ba)), Mul(bb, Frob2(bb)), Frob2(Frob2(ba)), Frob2(Frob2(bb)));
  }

  /** The conjugates in order: base * base_p2 * base_p4 is f1 f2 f3 f4 f5 f6. */
  lemma Conjugates(a: Septic)
    ensures
      var f1 := Frob(a); var f2 := Frob(f1); var f3 := Frob(f2); var f4 := Frob(f3); var f5 := Frob(f4);
      var f6 := Frob(f5);
      PowR1(a) == Mul(Mul(Mul(f1, f2), Mul(f3, f4)), Mul(f5, f6)) && Frob(f6) == a
  {
    hide Frob, Frob2, Mul;
    var f1 := Frob(a); var f2 := Frob(f1); var f3 := Frob(f2); var f4 := Frob(f3); var f5 := Frob(f4);
    var f6 := Frob(f5);
    DoubleFrob(a); DoubleFrob(f1); DoubleFrob(f2); DoubleFrob(f3); DoubleFrob(f4);
    Frob2Hom(f1, f2);
    Frob2Hom(f3, f4);
    SevenFrob(a);
  }

  /** Rotating the seven conjugates does not change their product. */
  lemma Rotate(a: Septic, b: Septic, c: Septic, d: Septic, e: Septic, f: Septic, g: Septic)
    ensures Mul(Mul(Mul(Mul(b, c), Mul(d, e)), Mul(f, g)), a) == Mul(Mul(Mul(Mul(a, b), Mul(c, d)), Mul(e, f)), g)
  {
    hide Mul;
    var bc, de, fg := Mul(b, c), Mul(d, e), Mul(f, g);
    calc {
      Mul(Mul(Mul(bc, de), fg), a);
      { MulComm(Mul(Mul(bc, de), fg), a); MulAssoc(a, Mul(bc, de), fg); MulAssoc(a, bc, de); MulAssoc(a, b, c); }
      Mul(Mul(Mul(Mul(a, b), c), de), fg);
      { MulAssoc(Mul(Mul(Mul(a, b), c), de), f, g); MulAssoc(Mul(Mul(a, b), c), d, e); MulAssoc(Mul(a, b), c, d); }
      Mul(Mul(Mul(Mul(Mul(a, b), Mul(c, d)), e), f), g);
      { MulAssoc(Mul(Mul(a, b), Mul(c, d)), e, f); }
      Mul(Mul(Mul(Mul(a, b), Mul(c, d)), Mul(e, f)), g);
    }
  }

  lemma PowRFixed(a: Septic)
    ensures Frob(PowR(a)) == PowR(a)
  {
    hide Frob, Frob2, Mul, PowR1;
    var f1 := Frob(a); var f2 := Frob(f1); var f3 := Frob(f2); var f4 := Frob(f3); var f5 := Frob(f4);
    var f6 := Frob(f5);
    Conjugates(a);
    FrobHom(PowR1(a), a, 0);
    FrobHom(Mul(Mul(f1, f2), Mul(f3, f4)), Mul(f5, f6), 0);
    FrobHom(Mul(f1, f2), Mul(f3, f4), 0);
    FrobHom(f1, f2, 0); FrobHom(f3, f4, 0); FrobHom(f5, f6, 0);
    Rotate(f1, f2, f3, f4, f5, f6, a);
  }

  /** `pow_r` lies in the base field, so reading its constant coefficient loses nothing. */
  lemma PowRIsBase(a: Septic)
    ensures PowR(a) == FromBase(Norm(a))
  {
    hide Frob, Mul, PowR1, FromBase;
    PowRFixed(a);
    FixedIsBase(PowR(a));
  }

  lemma BaseInjective(j: F.Fp, k: F.Fp)
    ensures FromBase(j) == FromBase(k) ==> j == k
  {
  }

  lemma NormMul(a: Septic, b: Septic)
    ensures Norm(Mul(a, b)) == F.Mul(Norm(a), Norm(b))
  {
    hide Frob, Mul, PowR1, FromBase, Norm, F.Mul;
    PowRIsBase(a); PowRIsBase(b); PowRIsBase(Mul(a, b));
    PowR1Mul(a, b);
    Cross(PowR1(a), PowR1(b), a, b);
    BaseProduct(Norm(a), Norm(b));
    BaseInjective(Norm(Mul(a, b)), F.Mul(Norm(a), Norm(b)));
  }

  lemma NormOne()
    ensures Norm(ONE) == 1
  {
    assert ONE == FromBase(1);
    hide Frob, Frob2, Mul, FromBase;
    FrobHom(ONE, ONE, 1);
    DoubleFrob(ONE);
    MulOne(ONE);
    assert PowR(ONE) == ONE;
    assert ONE.c0 == 1;
  }

  // ---------------------------------------------------------------- the extension is a field

  lemma OrderSeven(a: Septic, n: nat)
    requires n == P * P * P * P * P * P * P
    ensures SPow(a, n) == a
  {
    hide Frob, SPow;
    var f1 := Frob(a); var f2 := Frob(f1); var f3 := Frob(f2); var f4 := Frob(f3); var f5 := Frob(f4);
    var f6 := Frob(f5);
    FrobIsPow(a); FrobIsPow(f1); FrobIsPow(f2); FrobIsPow(f3); FrobIsPow(f4); FrobIsPow(f5); FrobIsPow(f6);
    SevenFrob(a);
    PowTimes(a, P, P);
    PowTimes(a, P * P, P);
    PowTimes(a, P * P * P, P);
    PowTimes(a, P * P * P * P, P);
    PowTimes(a, P * P * P * P * P, P);
    PowTimes(a, P * P * P * P * P * P, P);
  }

  lemma {:induction false} IdempotentPow(e: Septic, n: nat)
    requires n > 0 && Mul(e, e) == e
    ensures SPow(e, n) == e
  {
    hide Mul;
    if n == 1 {
      MulOne(e);
      assert SPow(e, 1) == Mul(e, SPow(e, 0));
    } else {
      IdempotentPow(e, n - 1);
    }
  }

  /** The only idempotents are zero and one. */
  lemma Idempotents(e: Septic)
    requires Mul(e, e) == e
    ensures e == ZERO || e == ONE
  {
    hide Mul, Frob, FromBase, SPow, F.Mul;
    var k := e.c0;
    IdempotentPow(e, P);
    FrobIsPow(e);
    FixedIsBase(e);
    BaseProduct(k, k);
    BaseInjective(F.Mul(k, k), k);
    IdempotentBase(k);
    BaseUnits();
  }

  lemma BaseUnits()
    ensures FromBase(0) == ZERO && FromBase(1) == ONE
  {
  }

  lemma IdempotentBase(k: F.Fp)
    requires F.Mul(k, k) == k
    ensures k == 0 || k == 1
  {
    if k != 0 {
      var c := F.Inverse(k);
      hide F.Mul;
      F.MulAssoc(c, k, k);
      F.MulComm(c, k);
      F.MulOne(k);
    }
  }

  lemma Absorb(a: Septic, n: nat)
    requires n > 2 && SPow(a, n) == a
    ensures var e := SPow(a, n - 1); Mul(e, a) == a && Mul(e, e) == e && e == Mul(a, SPow(a, n - 2))
  {
    hide Mul, SPow;
    PowPlus(a, n - 1, 1);
    PowPlus(a, 1, n - 2);
    PowPlus(a, n, n - 2);
    PowPlus(a, n - 1, n - 1);
    FirstPower(a);
  }

  lemma FirstPower(a: Septic)
    ensures SPow(a, 1) == a
  {
    hide Mul;
    SepticIsRing();
    PowSmall(SepticRing, a);
  }

  /** Every non-zero element has an inverse. */
  lemma Invertible(a: Septic)
    requires a != ZERO
    ensures exists b: Septic :: Mul(a, b) == ONE
  {
    hide Mul, SPow;
    var n := P * P * P * P * P * P * P;
    OrderSeven(a, n);
    assert n > 2;
    Absorb(a, n);
    var e := SPow(a, n - 1);
    Idempotents(e);
    if e == ZERO {
      ZeroMul(a);
      assert false;
    }
    assert Mul(a, SPow(a, n - 2)) == ONE;
  }

  lemma ZeroMul(a: Septic)
    ensures Mul(ZERO, a) == ZERO && Mul(a, ZERO) == ZERO
  {
    hide Mul;
    SepticIsRing();
    ZeroTimes(SepticRing, a);
  }

  /** The norm vanishes only at zero. */
  lemma NormNonZero(a: Septic)
    ensures Norm(a) == 0 <==> a == ZERO
  {
    hide Mul, Norm, F.Mul;
    if a == ZERO {
      ZeroNorm();
    } else {
      Invertible(a);
      var b: Septic :| Mul(a, b) == ONE;
      NormMul(a, b);
      NormOne();
      ZeroTimesBase(Norm(b));
    }
  }

  lemma ZeroTimesBase(k: F.Fp)
    ensures F.Mul(0, k) == 0
  {
  }

  lemma ZeroNorm()
    ensures Norm(ZERO) == 0
  {
    hide Mul;
    ZeroMul(PowR1(ZERO));
  }

  /** `inv`: the conjugates' product over the norm. */
  function Inv(a: Septic): (r: Septic)
    requires a != ZERO
    ensures Mul(a, r) == ONE
  {
    NormNonZero(a);
    InvCorrect(a);
    Scale(PowR1(a), F.Inverse(Norm(a)))
  }

  lemma InvCorrect(a: Septic)
    requires Norm(a) != 0
    ensures Mul(a, Scale(PowR1(a), F.Inverse(Norm(a)))) == ONE
  {
    var n := Norm(a);
    var k := F.Inverse(n);
    assert FromBase(1) == ONE;
    hide Mul, PowR1, Scale, FromBase, Norm, F.Mul, F.Inverse;
    ScaleIsMul(PowR1(a), k);
    MulAssoc(a, PowR1(a), FromBase(k));
    MulComm(a, PowR1(a));
    PowRIsBase(a);
    BaseProduct(n, k);
  }

  /** `try_inverse`: `None` exactly at zero. */
  function TryInverse(a: Septic): (r: Option<Septic>)
    ensures r.None? <==> a == ZERO
    ensures r.Some? ==> Mul(a, r.value) == ONE
  {
    if a == ZERO then None else Some(Inv(a))
  }

  lemma NoZeroDivisors(a: Septic, b: Septic)
    requires Mul(a, b) == ZERO
    ensures a == ZERO || b == ZERO
  {
    hide Mul;
    if a != ZERO {
      var c := Inv(a);
      MulComm(a, c);
      MulAssoc(c, a, b);
      MulOne(b);
      ZeroMul(c);
    }
  }
}
