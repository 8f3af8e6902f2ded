/** Identities in the septic field used by the curve formulas. */
module SepticAlgebra {
  import opened Rings
  import F = KoalaBear
  import opened SepticExtension
  import opened SepticField

  function Square(a: Septic): Septic { Mul(a, a) }

  // ---------------------------------------------------------------- sums and differences

  lemma BaseSubLaws(x: F.Fp, y: F.Fp)
    ensures F.Sub(x, y) == F.Add(x, F.Neg(y)) == F.Neg(F.Sub(y, x))
    ensures F.Sub(x, y) == 0 <==> x == y
    ensures F.Add(F.Sub(x, y), y) == x == F.Sub(F.Add(x, y), y)
  {
  }

  lemma SubLaws(a: Septic, b: Septic)
    ensures Sub(a, b) == Add(a, Neg(b)) == Neg(Sub(b, a))
    ensures Sub(a, b) == ZERO <==> a == b
    ensures Add(Sub(a, b), b) == a
    ensures Sub(Add(a, b), b) == a
  {
    hide F.Add, F.Sub, F.Neg;
    BaseSubLaws(a.c0, b.c0); BaseSubLaws(a.c1, b.c1); BaseSubLaws(a.c2, b.c2); BaseSubLaws(a.c3, b.c3);
    BaseSubLaws(a.c4, b.c4); BaseSubLaws(a.c5, b.c5); BaseSubLaws(a.c6, b.c6);
  }

  lemma NegLaws(a: Septic)
    ensures Neg(Neg(a)) == a
    ensures Sub(ZERO, a) == Neg(a) && Sub(a, ZERO) == a && Add(a, ZERO) == a
  {
  }

  lemma Telescope(a: Septic, b: Septic, c: Septic)
    ensures Sub(a, c) == Add(Sub(a, b), Sub(b, c))
  {
  }

  lemma SubSwap(a: Septic, b: Septic, c: Septic)
    ensures Sub(Sub(a, b), c) == Sub(Sub(a, c), b)
  {
  }

  lemma SubOfSum(a: Septic, b: Septic, c: Septic)
    ensures Sub(Sub(a, b), c) == Sub(a, Add(b, c))
  {
  }

  lemma BaseSubSame(x: F.Fp, y: F.Fp, z: F.Fp)
    ensures F.Sub(F.Add(x, z), F.Add(y, z)) == F.Sub(x, y)
    ensures F.Sub(x, F.Sub(x, y)) == y
  {
  }

  lemma SubSame(a: Septic, b: Septic, c: Septic)
    ensures Sub(Add(a, c), Add(b, c)) == Sub(a, b)
    ensures Sub(a, Sub(a, b)) == b
  {
    hide F.Add, F.Sub, F.Neg;
    BaseSubSame(a.c0, b.c0, c.c0); BaseSubSame(a.c1, b.c1, c.c1); BaseSubSame(a.c2, b.c2, c.c2);
    BaseSubSame(a.c3, b.c3, c.c3); BaseSubSame(a.c4, b.c4, c.c4); BaseSubSame(a.c5, b.c5, c.c5);
    BaseSubSame(a.c6, b.c6, c.c6);
  }

  lemma SubPairs(a: Septic, b: Septic, c: Septic, d: Septic)
    ensures Sub(Add(a, b), Add(c, d)) == Add(Sub(a, c), Sub(b, d))
  {
    hide Add, Sub, Neg;
    SubLaws(Add(a, b), Add(c, d)); SubLaws(a, c); SubLaws(b, d);
    NegSum(c, d);
    SepticIsRing();
    AddCross(SepticRing, a, b, Neg(c), Neg(d));
  }

  lemma NegSum(c: Septic, d: Septic)
    ensures Neg(Add(c, d)) == Add(Neg(c), Neg(d))
  {
  }

  lemma SumLaws(a: Septic, b: Septic, c: Septic)
    ensures Add(a, b) == Add(b, a) && Add(Add(a, b), c) == Add(a, Add(b, c))
  {
    hide Add, Neg;
    AddLaws(a, b, c);
  }

  // ---------------------------------------------------------------- products

  lemma MulNeg(a: Septic, b: Septic)
    ensures Mul(a, Neg(b)) == Neg(Mul(a, b)) == Mul(Neg(a), b)
  {
    MulNegRight(a, b);
    MulNegRight(b, a);
    hide Mul, Neg;
    MulComm(a, b); MulComm(Neg(a), b);
  }

  lemma MulNegRight(a: Septic, b: Septic)
    ensures Mul(a, Neg(b)) == Neg(Mul(a, b))
  {
    hide Mul, Add, Neg;
    var p, q := Mul(a, b), Mul(a, Neg(b));
    Distribute(a, b, Neg(b));
    AddLaws(b, b, b);
    AddLaws(p, p, p);
    ZeroMul(a);
    SepticIsRing();
    AddCancel(SepticRing, p, q, Neg(p));
  }

  lemma MulSub(a: Septic, b: Septic, c: Septic)
    ensures Mul(a, Sub(b, c)) == Sub(Mul(a, b), Mul(a, c))
    ensures Mul(Sub(b, c), a) == Sub(Mul(b, a), Mul(c, a))
  {
    hide Mul, Add, Neg, Sub;
    SubLaws(b, c);
    SubLaws(Mul(a, b), Mul(a, c));
    Distribute(a, b, Neg(c));
    MulNeg(a, c);
    MulComm(a, Sub(b, c)); MulComm(a, b); MulComm(a, c);
  }

  lemma DistributeRight(a: Septic, b: Septic, c: Septic)
    ensures Mul(Add(a, b), c) == Add(Mul(a, c), Mul(b, c))
  {
    hide Mul, Add;
    Distribute(c, a, b);
    MulComm(c, Add(a, b)); MulComm(c, a); MulComm(c, b);
  }

  lemma Cancel(d: Septic, a: Septic, b: Septic)
    requires d != ZERO && Mul(d, a) == Mul(d, b)
    ensures a == b
  {
    hide Mul, Sub;
    MulSub(d, a, b);
    SubLaws(Mul(d, a), Mul(d, b));
    SubLaws(a, b);
    NoZeroDivisors(d, Sub(a, b));
  }

  lemma NegSquare(a: Septic)
    ensures Square(Neg(a)) == Square(a)
  {
    hide Mul, Neg;
    MulNeg(Neg(a), a);
    MulNeg(a, a);
    NegLaws(Mul(a, a));
  }

  lemma DiffSquares(u: Septic, v: Septic)
    ensures Sub(Square(u), Square(v)) == Mul(Sub(u, v), Add(u, v))
  {
    hide Mul, Add, Sub;
    Distribute(Sub(u, v), u, v);
    MulSub(u, u, v);
    MulSub(v, u, v);
    MulComm(u, v);
    Telescope(Mul(u, u), Mul(u, v), Mul(v, v));
  }

  lemma DiffCubes(u: Septic, v: Septic)
    ensures Sub(Mul(Square(u), u), Mul(Square(v), v)) == Mul(Sub(u, v), Add(Add(Square(u), Mul(u, v)), Square(v)))
  {
    hide Mul, Add, Sub;
    var d := Sub(u, v);
    var u2, v2 := Mul(u, u), Mul(v, v);
    Telescope(Mul(u2, u), Mul(u2, v), Mul(v2, v));
    MulSub(u2, u, v);
    MulComm(u2, d);
    MulSub(v, u2, v2);
    DiffSquares(u, v);
    MulAssoc(d, Add(u, v), v);
    DistributeRight(u, v, v);
    Distribute(d, u2, Add(Mul(u, v), v2));
    SumLaws(u2, Mul(u, v), v2);
  }

  /** Division: `a / b`, which the source evaluates as a times the inverse of b. */
  function Div(a: Septic, b: Septic): (r: Septic)
    requires b != ZERO
    ensures Mul(r, b) == a
  {
    DivCorrect(a, b);
    Mul(a, Inv(b))
  }

  lemma DivCorrect(a: Septic, b: Septic)
    requires b != ZERO
    ensures Mul(Mul(a, Inv(b)), b) == a
  {
    hide Mul;
    MulAssoc(a, Inv(b), b);
    MulComm(Inv(b), b);
    MulOne(a);
  }

  /** A quotient is the unique solution. */
  lemma DivUnique(a: Septic, b: Septic, r: Septic)
    requires b != ZERO && Mul(r, b) == a
    ensures Div(a, b) == r
  {
    hide Mul, Inv;
    MulComm(Div(a, b), b);
    MulComm(r, b);
    Cancel(b, Div(a, b), r);
  }
}
