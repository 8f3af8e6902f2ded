/** `frobenius` and `double_frobenius`: the table-driven linear maps are the p-th and the p^2-th
    power map, seven applications are the identity, and the elements they fix are exactly the
    base field. */
module Frobenius {
  import opened Rings
  import F = KoalaBear
  import V = SepticIntegers
  import opened SepticExtension
  import opened SepticTables

  /** The accumulation shared by both maps: a_0 + a_1 b_1 + ... + a_6 b_6. */
  function Combine(a: Septic, b1: Septic, b2: Septic, b3: Septic, b4: Septic, b5: Septic, b6: Septic): Septic {
    var s3 := Add(Add(Add(FromBase(a.c0), Scale(b1, a.c1)), Scale(b2, a.c2)), Scale(b3, a.c3));
    Add(Add(Add(s3, Scale(b4, a.c4)), Scale(b5, a.c5)), Scale(b6, a.c6))
  }

  /** `frobenius`. */
  function Frob(a: Septic): Septic { Combine(a, T1, T2, T3, T4, T5, T6) }

  /** `double_frobenius`. */
  function Frob2(a: Septic): Septic { Combine(a, U1, U2, U3, U4, U5, U6) }

  ghost function SPow(a: Septic, n: nat): Septic { Pow(SepticRing, a, n) }

  // ---------------------------------------------------------------- characteristic p

  lemma TimesUnfold(n: nat, a: Septic)
    ensures Times(SepticRing, 0, a) == ZERO
    ensures n > 0 ==> Times(SepticRing, n, a) == Add(a, Times(SepticRing, n - 1, a))
  {
    hide Add;
  }

  lemma ScaleOneMore(n: nat, a: Septic)
    ensures V.Scale(n + 1, a) == V.Add(a, V.Scale(n, a))
  {
  }

  lemma ScaleByZero(a: Septic)
    ensures Reduce(V.Scale(0, a)) == ZERO
  {
    hide V.Scale, Reduce;
    V.AddLaws(a, a, a, a);
    ReduceId(ZERO);
  }

  lemma {:induction false} TimesReduced(n: nat, a: Septic)
    ensures Times(SepticRing, n, a) == Reduce(V.Scale(n, a))
  {
    hide V.Scale, V.Add, Add, Reduce, Times;
    TimesUnfold(n, a);
    if n == 0 {
      ScaleByZero(a);
    } else {
      TimesReduced(n - 1, a);
      SumReduced(a, Times(SepticRing, n - 1, a));
      ReduceAdd(a, V.Scale(n - 1, a));
      ScaleOneMore(n - 1, a);
    }
  }

  lemma CharacteristicP()
    ensures HasCharacteristic(SepticRing, P)
  {
    hide V.Scale, V.Add, Reduce;
    forall a: Septic ensures Times(SepticRing, P, a) == ZERO {
      TimesReduced(P, a);
      V.AddLaws(V.Scale(P, a), V.ZERO, a, a);
      ReduceMultiple(V.ZERO, a);
      ReduceId(ZERO);
    }
  }

  lemma PowSum(a: Septic, b: Septic)
    ensures SPow(Add(a, b), P) == Add(SPow(a, P), SPow(b, P))
  {
    hide Add, Mul;
    SepticIsRing();
    F.OrderIsPrime();
    CharacteristicP();
    PowCharAdditive(SepticRing, P, a, b);
  }

  lemma PowProduct(a: Septic, b: Septic, n: nat)
    ensures SPow(Mul(a, b), n) == Mul(SPow(a, n), SPow(b, n))
  {
    hide Mul;
    SepticIsRing();
    PowMulBase(SepticRing, a, b, n);
  }

  lemma PowTimes(a: Septic, m: nat, n: nat)
    ensures SPow(SPow(a, m), n) == SPow(a, m * n)
  {
    hide Mul;
    SepticIsRing();
    PowPow(SepticRing, a, m, n);
  }

  lemma PowPlus(a: Septic, m: nat, n: nat)
    ensures SPow(a, m + n) == Mul(SPow(a, m), SPow(a, n))
  {
    hide Mul;
    SepticIsRing();
    PowAdd(SepticRing, a, m, n);
  }

  lemma BaseProduct(j: F.Fp, k: F.Fp)
    ensures Mul(FromBase(j), FromBase(k)) == FromBase(F.Mul(j, k))
  {
    assert Scale(FromBase(j), k) == FromBase(F.Mul(j, k));
    hide Mul, Scale, FromBase;
    ScaleIsMul(FromBase(j), k);
  }

  lemma {:induction false} PowBase(k: F.Fp, n: nat)
    ensures SPow(FromBase(k), n) == FromBase(F.FPow(k, n))
  {
    hide Mul;
    if n > 0 {
      PowBase(k, n - 1);
      F.PowUnfold(k, n);
      BaseProduct(k, F.FPow(k, n - 1));
    }
  }

  lemma TermPow(b: Septic, k: F.Fp, t: Septic)
    requires SPow(b, P) == t
    ensures SPow(Scale(b, k), P) == Scale(t, k)
  {
    hide Mul, Scale, FromBase;
    ScaleIsMul(b, k);
    ScaleIsMul(t, k);
    PowProduct(FromBase(k), b, P);
    PowBase(k, P);
    F.Fermat(k);
  }
  // ---------------------------------------------------------------- power map

  lemma CombinePow(a: Septic, b1: Septic, b2: Septic, b3: Septic, b4: Septic, b5: Septic, b6: Septic,
                   t1: Septic, t2: Septic, t3: Septic, t4: Septic, t5: Septic, t6: Septic)
    requires SPow(b1, P) == t1 && SPow(b2, P) == t2 && SPow(b3, P) == t3
    requires SPow(b4, P) == t4 && SPow(b5, P) == t5 && SPow(b6, P) == t6
    ensures SPow(Combine(a, b1, b2, b3, b4, b5, b6), P) == Combine(a, t1, t2, t3, t4, t5, t6)
  {
    hide Add, Scale, FromBase, SPow;
    var s0 := FromBase(a.c0);
    var s1 := Add(s0, Scale(b1, a.c1));
    var s2 := Add(s1, Scale(b2, a.c2));
    var s3 := Add(s2, Scale(b3, a.c3));
    var s4 := Add(s3, Scale(b4, a.c4));
    var s5 := Add(s4, Scale(b5, a.c5));
    PowBase(a.c0, P);
    F.Fermat(a.c0);
    TermPow(b1, a.c1, t1); TermPow(b2, a.c2, t2); TermPow(b3, a.c3, t3);
    TermPow(b4, a.c4, t4); TermPow(b5, a.c5, t5); TermPow(b6, a.c6, t6);
    PowSum(s0, Scale(b1, a.c1)); PowSum(s1, Scale(b2, a.c2)); PowSum(s2, Scale(b3, a.c3));
    PowSum(s3, Scale(b4, a.c4)); PowSum(s4, Scale(b5, a.c5)); PowSum(s5, Scale(b6, a.c6));
  }

  /** The polynomial with the coefficients of a, evaluated at w. */
  ghost function At(a: Septic, w: Septic): Septic {
    var w2 := Mul(w, w); var w3 := Mul(w, w2); var w4 := Mul(w, w3); var w5 := Mul(w, w4); var w6 := Mul(w, w5);
    Combine(a, w, w2, w3, w4, w5, w6)
  }

  /** a(w)^p = a(w^p). */
  lemma AtPow(a: Septic, w: Septic, t: Septic)
    requires SPow(w, P) == t
    ensures SPow(At(a, w), P) == At(a, t)
  {
    hide Mul, Combine, SPow;
    var w2 := Mul(w, w); var w3 := Mul(w, w2); var w4 := Mul(w, w3); var w5 := Mul(w, w4); var w6 := Mul(w, w5);
    var t2 := Mul(t, t); var t3 := Mul(t, t2); var t4 := Mul(t, t3); var t5 := Mul(t, t4); var t6 := Mul(t, t5);
    PowProduct(w, w, P); PowProduct(w, w2, P); PowProduct(w, w3, P); PowProduct(w, w4, P); PowProduct(w, w5, P);
    CombinePow(a, w, w2, w3, w4, w5, w6, t, t2, t3, t4, t5, t6);
  }

  lemma FrobIsAt(a: Septic)
    ensures Frob(a) == At(a, T1) && Frob2(a) == At(a, U1)
  {
    hide Mul, Combine;
    PowersOfT1();
    PowersOfU1();
  }

  lemma UnitTerms(k: F.Fp)
    ensures F.Mul(0, k) == 0 && F.Mul(1, k) == k
  {
    F.ModUnique(1 * k, k, 0);
  }

  const Z2: Septic := V.Vec(0, 0, 1, 0, 0, 0, 0)
  const Z3: Septic := V.Vec(0, 0, 0, 1, 0, 0, 0)
  const Z4: Septic := V.Vec(0, 0, 0, 0, 1, 0, 0)
  const Z5: Septic := V.Vec(0, 0, 0, 0, 0, 1, 0)
  const Z6: Septic := V.Vec(0, 0, 0, 0, 0, 0, 1)

  lemma PowersOfZ()
    ensures Mul(Z, Z) == Z2 && Mul(Z, Z2) == Z3 && Mul(Z, Z3) == Z4 && Mul(Z, Z4) == Z5 && Mul(Z, Z5) == Z6
  {
    hide Mul;
    Shift(0, 1, 0, 0, 0, 0); Shift(0, 0, 1, 0, 0, 0); Shift(0, 0, 0, 1, 0, 0); Shift(0, 0, 0, 0, 1, 0);
    Shift(0, 0, 0, 0, 0, 1);
  }

  lemma Shift(x0: F.Fp, x1: F.Fp, x2: F.Fp, x3: F.Fp, x4: F.Fp, x5: F.Fp)
    ensures Mul(Z, V.Vec(x0, x1, x2, x3, x4, x5, 0)) == V.Vec(0, x0, x1, x2, x3, x4, x5)
  {
    hide Mul;
    var v := V.Vec(x0, x1, x2, x3, x4, x5, 0);
    ReduceId(v);
    TimesZReduced(v);
    ReduceId(V.Vec(0, x0, x1, x2, x3, x4, x5));
  }

  lemma AtZ(a: Septic)
    ensures At(a, Z) == a
  {
    hide Mul, F.Mul;
    PowersOfZ();
    UnitTerms(a.c1); UnitTerms(a.c2); UnitTerms(a.c3); UnitTerms(a.c4); UnitTerms(a.c5); UnitTerms(a.c6);
  }

  /** `frobenius` is the p-th power map. */
  lemma FrobIsPow(a: Septic)
    ensures Frob(a) == SPow(a, P)
  {
    hide Mul, Combine, At, Frob, SPow;
    AtZ(a);
    ZToThePower();
    AtPow(a, Z, T1);
    FrobIsAt(a);
  }

  lemma ZToThePower()
    ensures SPow(Z, P) == T1
  {
    ZToTheP();
  }

  /** Frobenius is a ring homomorphism that fixes the base field. */
  lemma FrobHom(a: Septic, b: Septic, k: F.Fp)
    ensures Frob(Add(a, b)) == Add(Frob(a), Frob(b))
    ensures Frob(Mul(a, b)) == Mul(Frob(a), Frob(b))
    ensures Frob(FromBase(k)) == FromBase(k)
  {
    hide Mul, Add, Frob, SPow, FromBase;
    FrobIsPow(a); FrobIsPow(b); FrobIsPow(Add(a, b)); FrobIsPow(Mul(a, b)); FrobIsPow(FromBase(k));
    PowSum(a, b);
    PowProduct(a, b, P);
    PowBase(k, P);
    F.Fermat(k);
  }

  // ---------------------------------------------------------------- powers of Frobenius

  /** The coefficients of a_0 + a_1 b_1 + ... + a_6 b_6 before reduction. */
  function CombineFormula(a: V.Vec, b1: V.Vec, b2: V.Vec, b3: V.Vec, b4: V.Vec, b5: V.Vec, b6: V.Vec): V.Vec {
    V.Vec(a.c0 + b1.c0 * a.c1 + b2.c0 * a.c2 + b3.c0 * a.c3 + b4.c0 * a.c4 + b5.c0 * a.c5 + b6.c0 * a.c6,
          b1.c1 * a.c1 + b2.c1 * a.c2 + b3.c1 * a.c3 + b4.c1 * a.c4 + b5.c1 * a.c5 + b6.c1 * a.c6,
          b1.c2 * a.c1 + b2.c2 * a.c2 + b3.c2 * a.c3 + b4.c2 * a.c4 + b5.c2 * a.c5 + b6.c2 * a.c6,
          b1.c3 * a.c1 + b2.c3 * a.c2 + b3.c3 * a.c3 + b4.c3 * a.c4 + b5.c3 * a.c5 + b6.c3 * a.c6,
          b1.c4 * a.c1 + b2.c4 * a.c2 + b3.c4 * a.c3 + b4.c4 * a.c4 + b5.c4 * a.c5 + b6.c4 * a.c6,
          b1.c5 * a.c1 + b2.c5 * a.c2 + b3.c5 * a.c3 + b4.c5 * a.c4 + b5.c5 * a.c5 + b6.c5 * a.c6,
          b1.c6 * a.c1 + b2.c6 * a.c2 + b3.c6 * a.c3 + b4.c6 * a.c4 + b5.c6 * a.c5 + b6.c6 * a.c6)
  }

  lemma CombineReduced(a: Septic, b1: Septic, b2: Septic, b3: Septic, b4: Septic, b5: Septic, b6: Septic)
    ensures Combine(a, b1, b2, b3, b4, b5, b6) == Reduce(CombineFormula(a, b1, b2, b3, b4, b5, b6))
  {
    hide Add, Scale, V.Add, V.Scale, Reduce, FromBase, CombineFormula;
    var s0 := V.Vec(a.c0, 0, 0, 0, 0, 0, 0);
    var s1 := V.Add(s0, V.Scale(a.c1, b1));
    var s2 := V.Add(s1, V.Scale(a.c2, b2));
    var s3 := V.Add(s2, V.Scale(a.c3, b3));
    var s4 := V.Add(s3, V.Scale(a.c4, b4));
    var s5 := V.Add(s4, V.Scale(a.c5, b5));
    StartReduced(a.c0);
    StepReduced(s0, b1, a.c1); StepReduced(s1, b2, a.c2); StepReduced(s2, b3, a.c3);
    StepReduced(s3, b4, a.c4); StepReduced(s4, b5, a.c5); StepReduced(s5, b6, a.c6);
    FormulaValue(a, b1, b2, b3, b4, b5, b6);
  }

  lemma StartReduced(k: F.Fp)
    ensures FromBase(k) == Reduce(V.Vec(k, 0, 0, 0, 0, 0, 0))
  {
    ReduceId(FromBase(k));
  }

  lemma StepReduced(s: V.Vec, b: Septic, k: F.Fp)
    ensures Add(Reduce(s), Scale(b, k)) == Reduce(V.Add(s, V.Scale(k, b)))
  {
    hide Add, Scale, V.Add, V.Scale, Reduce;
    ScaleReduced(b, k);
    SumReduced(Reduce(s), Scale(b, k));
    ReduceAdd(s, V.Scale(k, b));
    ReduceAdd(s, Scale(b, k));
  }

  lemma FormulaValue(a: V.Vec, b1: V.Vec, b2: V.Vec, b3: V.Vec, b4: V.Vec, b5: V.Vec, b6: V.Vec)
    ensures CombineFormula(a, b1, b2, b3, b4, b5, b6)
      == V.Add(V.Add(V.Add(V.Add(V.Add(V.Add(V.Vec(a.c0, 0, 0, 0, 0, 0, 0), V.Scale(a.c1, b1)), V.Scale(a.c2, b2)),
               V.Scale(a.c3, b3)), V.Scale(a.c4, b4)), V.Scale(a.c5, b5)), V.Scale(a.c6, b6))
  {
  }

  lemma CombineIs(a: Septic, b1: Septic, b2: Septic, b3: Septic, b4: Septic, b5: Septic, b6: Septic, c: Septic)
    requires Reduce(CombineFormula(a, b1, b2, b3, b4, b5, b6)) == c
    ensures Combine(a, b1, b2, b3, b4, b5, b6) == c
  {
    CombineReduced(a, b1, b2, b3, b4, b5, b6);
  }

  /** The orbit of z: z^p, z^(p^2), z^(p^4), z^(p^6) and back to z at z^(p^7). */
  lemma OrbitOfZ()
    ensures Frob(T1) == U1 && Frob2(U1) == Z_P4 && Frob2(Z_P4) == Z_P6 && Frob(Z_P6) == Z
  {
    hide Combine;
    CombineIs(T1, T1, T2, T3, T4, T5, T6, U1);
    CombineIs(U1, U1, U2, U3, U4, U5, U6, Z_P4);
    CombineIs(Z_P4, U1, U2, U3, U4, U5, U6, Z_P6);
    CombineIs(Z_P6, T1, T2, T3, T4, T5, T6, Z);
  }

  lemma FrobAt(a: Septic, w: Septic)
    ensures Frob(At(a, w)) == At(a, Frob(w))
  {
    hide Frob, At, SPow;
    FrobIsPow(w);
    FrobIsPow(At(a, w));
    AtPow(a, w, Frob(w));
  }

  /** `double_frobenius` is `frobenius` twice. */
  lemma DoubleFrob(a: Septic)
    ensures Frob2(a) == Frob(Frob(a))
  {
    hide Frob, Frob2, At;
    FrobIsAt(a);
    FrobAt(a, T1);
    OrbitOfZ();
  }

  lemma Frob2At(a: Septic, w: Septic)
    ensures Frob2(At(a, w)) == At(a, Frob2(w))
  {
    hide Frob, Frob2, At;
    DoubleFrob(At(a, w));
    DoubleFrob(w);
    FrobAt(a, w);
    FrobAt(a, Frob(w));
  }

  /** Seven applications of Frobenius are the identity. */
  lemma SevenFrob(a: Septic)
    ensures Frob(Frob2(Frob2(Frob2(a)))) == a
    ensures Frob(Frob(Frob(Frob(Frob(Frob(Frob(a))))))) == a
  {
    hide Frob, Frob2, At;
    FrobIsAt(a);
    Frob2At(a, U1);
    Frob2At(a, Z_P4);
    FrobAt(a, Z_P6);
    OrbitOfZ();
    AtZ(a);
    DoubleFrob(a);
    DoubleFrob(Frob2(a));
    DoubleFrob(Frob2(Frob2(a)));
  }

  // ---------------------------------------------------------------- the fixed field

  lemma MultipleInRange(x: int, k: int)
    requires 0 <= x < P && x == 2130706433 * k
    ensures x == 0
  {
  }

  // If (Frobenius - 1) vanishes at coefficients a_1, ..., a_6 modulo p then so do they: the
  // multipliers are the rows of its inverse modulo p.
  /** Coordinates 1 to 6 of Frob(a) - a, as integers, are the multiples q of p. */
  ghost predicate InKernel(a1: int, a2: int, a3: int, a4: int, a5: int, a6: int,
                           q1: int, q2: int, q3: int, q4: int, q5: int, q6: int)
  {
    && a1 * 1950759908 + a2 * 1749509219 + a3 * 1095215454 + a4 * 1212861 + a5 * 1580508159
       + a6 * 439102875 == 2130706433 * q1
    && a1 * 1879852731 + a2 * 983995728 + a3 * 1794102427 + a4 * 2104391040 + a5 * 1332301780
       + a6 * 410223214 == 2130706433 * q2
    && a1 * 746569225 + a2 * 711096547 + a3 * 1173566778 + a4 * 1447859676 + a5 * 1528790701
       + a6 * 964813232 == 2130706433 * q3
    && a1 * 180350946 + a2 * 1505254548 + a3 * 140526665 + a4 * 308944372 + a5 * 380217034
       + a6 * 1250258104 == 2130706433 * q4
    && a1 * 1600835585 + a2 * 639452798 + a3 * 110899104 + a4 * 106444152 + a5 * 1752756729
       + a6 * 877333757 == 2130706433 * q5
    && a1 * 333893434 + a2 * 68186395 + a3 * 1387282150 + a4 * 1362577042 + a5 * 989817517
       + a6 * 222095777 == 2130706433 * q6
  }

  lemma Kernel1(a1: int, a2: int, a3: int, a4: int, a5: int, a6: int,
                q1: int, q2: int, q3: int, q4: int, q5: int, q6: int)
    requires InKernel(a1, a2, a3, a4, a5, a6, q1, q2, q3, q4, q5, q6)
    requires 0 <= a1 < P && 0 <= a2 < P && 0 <= a3 < P
    ensures a1 == 0 && a2 == 0 && a3 == 0
  {
    MultipleInRange(a1, q1 * 37676551 + q2 * 800250263 + q3 * 1011165932 + q4 * 2047974270 + q5 * 1037242399
      + q6 * 1941741415
      - (a1 * 2351754885 + a2 * 2558205728 + a3 * 2703438159 + a4 * 3067997657 + a5 * 3374590639 + a6 * 2450909273));
    MultipleInRange(a2, q1 * 1152028301 + q2 * 1830625459 + q3 * 844168697 + q4 * 1040533498 + q5 * 1232003525
      + q6 * 2088727558
      - (a1 * 4306635499 + a2 * 3244743521 + a3 * 4091245151 + a4 * 3930454945 + a5 * 4774371043 + a6 * 2307685536));
    MultipleInRange(a3, q1 * 659860012 + q2 * 58712754 + q3 * 1848985566 + q4 * 2082593533 + q5 * 620873745
      + q6 * 762726017
      - (a1 * 2066065577 + a2 * 2868002747 + a3 * 2073286116 + a4 * 2135532786 + a5 * 3089532570 + a6 * 2541715078));
  }

  lemma Kernel2(a1: int, a2: int, a3: int, a4: int, a5: int, a6: int,
                q1: int, q2: int, q3: int, q4: int, q5: int, q6: int)
    requires InKernel(a1, a2, a3, a4, a5, a6, q1, q2, q3, q4, q5, q6)
    requires 0 <= a4 < P && 0 <= a5 < P && 0 <= a6 < P
    ensures a4 == 0 && a5 == 0 && a6 == 0
  {
    MultipleInRange(a4, q1 * 136151733 + q2 * 759217579 + q3 * 510148977 + q4 * 907235295 + q5 * 264571065
      + q6 * 1618762923
      - (a1 * 1502472555 + a2 * 1404796581 + a3 * 2117812082 + a4 * 2276529670 + a5 * 2073285050 + a6 * 1215253097));
    MultipleInRange(a5, q1 * 1542785395 + q2 * 157441185 + q3 * 1139808719 + q4 * 663951005 + q5 * 239477189
      + q6 * 827290827
      - (a1 * 2316532651 + a2 * 2287275385 + a3 * 2148271586 + a4 * 1568181517 + a5 * 2760460401 + a6 * 1438808915));
    MultipleInRange(a6, q1 * 119727411 + q2 * 1228335641 + q3 * 216728208 + q4 * 1510951433 + q5 * 897019249
      + q6 * 1528119236
      - (a1 * 2310577802 + a2 * 2123436983 + a3 * 2356482502 + a4 * 2601624635 + a5 * 2729790024 + a6 * 1774538247));
  }

  lemma FrobMinusOne(a: Septic)
    ensures CombineFormula(a, T1, T2, T3, T4, T5, T6).c1 - a.c1
         == a.c1 * 1950759908 + a.c2 * 1749509219 + a.c3 * 1095215454 + a.c4 * 1212861 + a.c5 * 1580508159
             + a.c6 * 439102875
    ensures CombineFormula(a, T1, T2, T3, T4, T5, T6).c2 - a.c2
         == a.c1 * 1879852731 + a.c2 * 983995728 + a.c3 * 1794102427 + a.c4 * 2104391040 + a.c5 * 1332301780
             + a.c6 * 410223214
    ensures CombineFormula(a, T1, T2, T3, T4, T5, T6).c3 - a.c3
         == a.c1 * 746569225 + a.c2 * 711096547 + a.c3 * 1173566778 + a.c4 * 1447859676 + a.c5 * 1528790701
             + a.c6 * 964813232
    ensures CombineFormula(a, T1, T2, T3, T4, T5, T6).c4 - a.c4
         == a.c1 * 180350946 + a.c2 * 1505254548 + a.c3 * 140526665 + a.c4 * 308944372 + a.c5 * 380217034
             + a.c6 * 1250258104
    ensures CombineFormula(a, T1, T2, T3, T4, T5, T6).c5 - a.c5
         == a.c1 * 1600835585 + a.c2 * 639452798 + a.c3 * 110899104 + a.c4 * 106444152 + a.c5 * 1752756729
             + a.c6 * 877333757
    ensures CombineFormula(a, T1, T2, T3, T4, T5, T6).c6 - a.c6
         == a.c1 * 333893434 + a.c2 * 68186395 + a.c3 * 1387282150 + a.c4 * 1362577042 + a.c5 * 989817517
             + a.c6 * 222095777
  {
  }

  lemma FixedCoefficient(x: int, y: int)
    requires 0 <= x < P && y % P == x
    ensures y - x == 2130706433 * (y / P)
  {
  }

  /** Only base field elements are fixed by Frobenius. */
  lemma FixedIsBase(a: Septic)
    requires Frob(a) == a
    ensures a == FromBase(a.c0)
  {
    hide Combine, CombineFormula;
    var v := CombineFormula(a, T1, T2, T3, T4, T5, T6);
    CombineReduced(a, T1, T2, T3, T4, T5, T6);
    assert Reduce(v) == a;
    FixedCoefficient(a.c1, v.c1); FixedCoefficient(a.c2, v.c2); FixedCoefficient(a.c3, v.c3);
    FixedCoefficient(a.c4, v.c4); FixedCoefficient(a.c5, v.c5); FixedCoefficient(a.c6, v.c6);
    var q1, q2, q3, q4, q5, q6 := v.c1 / P, v.c2 / P, v.c3 / P, v.c4 / P, v.c5 / P, v.c6 / P;
    FrobMinusOne(a);
    Kernel1(a.c1, a.c2, a.c3, a.c4, a.c5, a.c6, q1, q2, q3, q4, q5, q6);
    Kernel2(a.c1, a.c2, a.c3, a.c4, a.c5, a.c6, q1, q2, q3, q4, q5, q6);
  }
}
