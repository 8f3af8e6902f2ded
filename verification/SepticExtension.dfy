/** The septic extension F_p[z]/(z^7 - 3z - 5) of `septic_extension.rs`: coefficientwise
    operations, the product with its single reduction pass, and the ring laws. */
module SepticExtension {
  import opened Rings
  import F = KoalaBear
  import V = SepticIntegers

  const P := F.P

  ghost predicate InRange(v: V.Vec) {
    && 0 <= v.c0 < P
    && 0 <= v.c1 < P
    && 0 <= v.c2 < P
    && 0 <= v.c3 < P
    && 0 <= v.c4 < P
    && 0 <= v.c5 < P
    && 0 <= v.c6 < P
  }

  /** `SepticExtension<F>`: seven canonical base field coefficients, lowest first. */
  type Septic = v: V.Vec | InRange(v) witness V.ZERO

  const ZERO: Septic := V.ZERO
  const ONE: Septic := V.ONE

  function FromBase(k: F.Fp): Septic { V.Vec(k, 0, 0, 0, 0, 0, 0) }

  function Add(a: Septic, b: Septic): Septic {
    V.Vec(F.Add(a.c0, b.c0), F.Add(a.c1, b.c1), F.Add(a.c2, b.c2), F.Add(a.c3, b.c3), F.Add(a.c4, b.c4),
          F.Add(a.c5, b.c5), F.Add(a.c6, b.c6))
  }

  function Sub(a: Septic, b: Septic): Septic {
    V.Vec(F.Sub(a.c0, b.c0), F.Sub(a.c1, b.c1), F.Sub(a.c2, b.c2), F.Sub(a.c3, b.c3), F.Sub(a.c4, b.c4),
          F.Sub(a.c5, b.c5), F.Sub(a.c6, b.c6))
  }

  function Neg(a: Septic): Septic {
    V.Vec(F.Neg(a.c0), F.Neg(a.c1), F.Neg(a.c2), F.Neg(a.c3), F.Neg(a.c4), F.Neg(a.c5), F.Neg(a.c6))
  }

  /** `Mul<F>`: every coefficient times a base field element. */
  function Scale(a: Septic, k: F.Fp): Septic {
    V.Vec(F.Mul(a.c0, k), F.Mul(a.c1, k), F.Mul(a.c2, k), F.Mul(a.c3, k), F.Mul(a.c4, k), F.Mul(a.c5, k),
          F.Mul(a.c6, k))
  }

  /** Every coefficient to its canonical representative. */
  function Reduce(v: V.Vec): Septic {
    V.Vec(v.c0 % P, v.c1 % P, v.c2 % P, v.c3 % P, v.c4 % P, v.c5 % P, v.c6 % P)
  }

  /** The product: that of the exact ring Z[z]/(z^7 - 3z - 5), reduced. `SepticProduct.Multiply`
      is the loop nest of the source. */
  function Mul(a: Septic, b: Septic): Septic { Reduce(V.Mul(a, b)) }

  const SepticRing: Ring<Septic> := Ring(ZERO, ONE, (a, b) => Add(a, b), a => Neg(a), (a, b) => Mul(a, b))

  // ---------------------------------------------------------------- reduction is a ring map

  lemma ModPlusMultiple(x: int, k: int)
    ensures (x + P * k) % P == x % P
  {
    var q, r := x / P, x % P;
    F.ModUnique(x + P * k, r, q + k);
  }

  lemma ReduceMultiple(u: V.Vec, w: V.Vec)
    ensures Reduce(V.Add(u, V.Scale(P, w))) == Reduce(u)
  {
    ModPlusMultiple(u.c0, w.c0); ModPlusMultiple(u.c1, w.c1); ModPlusMultiple(u.c2, w.c2);
    ModPlusMultiple(u.c3, w.c3); ModPlusMultiple(u.c4, w.c4); ModPlusMultiple(u.c5, w.c5);
    ModPlusMultiple(u.c6, w.c6);
  }

  ghost function Quotient(v: V.Vec): V.Vec {
    V.Vec(v.c0 / P, v.c1 / P, v.c2 / P, v.c3 / P, v.c4 / P, v.c5 / P, v.c6 / P)
  }

  lemma SplitOff(v: V.Vec)
    ensures v == V.Add(Reduce(v), V.Scale(P, Quotient(v)))
  {
  }

  lemma ReduceId(a: Septic)
    ensures Reduce(a) == a
  {
  }

  lemma ReduceAdd(u: V.Vec, v: V.Vec)
    ensures Reduce(V.Add(Reduce(u), v)) == Reduce(V.Add(u, v)) == Reduce(V.Add(u, Reduce(v)))
  {
    hide V.Add, V.Scale, Reduce, Quotient;
    SplitOff(u);
    SplitOff(v);
    var u', v', qu, qv := Reduce(u), Reduce(v), V.Scale(P, Quotient(u)), V.Scale(P, Quotient(v));
    ReduceMultiple(V.Add(u', v), Quotient(u));
    ReduceMultiple(V.Add(u, v'), Quotient(v));
    V.AddLaws(u', v, qu, v);
    V.AddLaws(u', qu, v, v);
    V.AddLaws(qu, v, v, v);
    V.AddLaws(u, v', qv, v);
  }

  lemma ReduceMul(u: V.Vec, v: V.Vec)
    ensures Reduce(V.Mul(Reduce(u), v)) == Reduce(V.Mul(u, v)) == Reduce(V.Mul(u, Reduce(v)))
  {
    ReduceMulLeft(u, v);
    ReduceMulLeft(v, u);
    hide V.Mul, Reduce;
    V.MulComm(u, v);
    V.MulComm(u, Reduce(v));
  }

  lemma ReduceMulLeft(u: V.Vec, v: V.Vec)
    ensures Reduce(V.Mul(Reduce(u), v)) == Reduce(V.Mul(u, v))
  {
    hide V.Add, V.Scale, V.Mul, Reduce, Quotient;
    SplitOff(u);
    V.MulAddLeft(Reduce(u), V.Scale(P, Quotient(u)), v);
    V.MulScaleLeft(P, Quotient(u), v);
    ReduceMultiple(V.Mul(Reduce(u), v), V.Mul(Quotient(u), v));
  }

  // ---------------------------------------------------------------- the operations, reduced

  lemma AddCoefficient(x: F.Fp, y: F.Fp)
    ensures F.Add(x, y) == (x + y) % P
  {
    F.ModUnique(x + y, F.Add(x, y), if x + y < P then 0 else 1);
  }

  lemma SumReduced(a: Septic, b: Septic)
    ensures Add(a, b) == Reduce(V.Add(a, b))
  {
    hide F.Add;
    AddCoefficient(a.c0, b.c0); AddCoefficient(a.c1, b.c1); AddCoefficient(a.c2, b.c2);
    AddCoefficient(a.c3, b.c3); AddCoefficient(a.c4, b.c4); AddCoefficient(a.c5, b.c5);
    AddCoefficient(a.c6, b.c6);
  }

  lemma ScaleReduced(a: Septic, k: F.Fp)
    ensures Scale(a, k) == Reduce(V.Scale(k, a))
  {
  }

  // ---------------------------------------------------------------- ring laws

  lemma AddLaws(a: Septic, b: Septic, c: Septic)
    ensures Add(a, b) == Add(b, a)
    ensures Add(Add(a, b), c) == Add(a, Add(b, c))
    ensures Add(ZERO, a) == a
    ensures Add(a, Neg(a)) == ZERO
  {
    F.AddLaws(a.c0, b.c0, c.c0); F.AddLaws(a.c1, b.c1, c.c1); F.AddLaws(a.c2, b.c2, c.c2);
    F.AddLaws(a.c3, b.c3, c.c3); F.AddLaws(a.c4, b.c4, c.c4); F.AddLaws(a.c5, b.c5, c.c5);
    F.AddLaws(a.c6, b.c6, c.c6);
  }

  lemma MulComm(a: Septic, b: Septic)
    ensures Mul(a, b) == Mul(b, a)
  {
    V.MulComm(a, b);
  }

  lemma MulAssoc(a: Septic, b: Septic, c: Septic)
    ensures Mul(Mul(a, b), c) == Mul(a, Mul(b, c))
  {
    hide V.Mul, Reduce;
    ReduceMul(V.Mul(a, b), c);
    ReduceMul(a, V.Mul(b, c));
    V.MulAssoc(a, b, c);
  }

  lemma MulOne(a: Septic)
    ensures Mul(ONE, a) == a && Mul(a, ONE) == a
  {
    hide V.Mul, Reduce;
    V.MulOneRight(a);
    V.MulComm(a, ONE);
    ReduceId(a);
  }

  lemma Distribute(a: Septic, b: Septic, c: Septic)
    ensures Mul(a, Add(b, c)) == Add(Mul(a, b), Mul(a, c))
  {
    hide Add, V.Add, V.Mul, Reduce;
    SumReduced(b, c);
    SumReduced(Mul(a, b), Mul(a, c));
    ReduceMul(a, V.Add(b, c));
    V.MulComm(a, V.Add(b, c));
    V.MulAddLeft(b, c, a);
    V.MulComm(a, b);
    V.MulComm(a, c);
    ReduceAdd(V.Mul(a, b), V.Mul(a, c));
    ReduceAdd(V.Mul(a, b), Mul(a, c));
  }

  /** The septic operations form a commutative ring with unit. */
  lemma SepticIsRing()
    ensures IsRing(SepticRing)
  {
    hide Add, Neg, Mul;
    forall a, b, c ensures LawsAt(SepticRing, a, b, c) {
      AddLaws(a, b, c);
      MulComm(a, b);
      MulAssoc(a, b, c);
      MulOne(a);
      Distribute(a, b, c);
    }
  }

  /** A base field element acts by scaling. */
  lemma ScaleIsMul(a: Septic, k: F.Fp)
    ensures Scale(a, k) == Mul(FromBase(k), a) == Mul(a, FromBase(k))
  {
    assert FromBase(k) == V.Scale(k, V.ONE);
    hide Mul, Scale, V.Mul, V.Scale, Reduce, FromBase;
    ScaleReduced(a, k);
    V.MulScaleLeft(k, V.ONE, a);
    V.MulOneRight(a);
    V.MulComm(a, V.ONE);
    MulReduced(FromBase(k), a);
    MulComm(FromBase(k), a);
  }

  lemma MulReduced(a: Septic, b: Septic)
    ensures Mul(a, b) == Reduce(V.Mul(a, b))
  {
  }
}
