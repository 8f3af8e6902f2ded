/** The ring Z[z]/(z^7 - 3z - 5) with exact integer coefficients, and its laws. The septic
    extension of `septic_extension.rs` is this ring with every coefficient reduced. */
module SepticIntegers {

  datatype Vec = Vec(c0: int, c1: int, c2: int, c3: int, c4: int, c5: int, c6: int)

  const ZERO := Vec(0, 0, 0, 0, 0, 0, 0)
  const ONE := Vec(1, 0, 0, 0, 0, 0, 0)

  function Coefs(a: Vec): (s: seq<int>)
    ensures |s| == 7
  {
    [a.c0, a.c1, a.c2, a.c3, a.c4, a.c5, a.c6]
  }

  function Add(a: Vec, b: Vec): Vec {
    Vec(a.c0 + b.c0, a.c1 + b.c1, a.c2 + b.c2, a.c3 + b.c3, a.c4 + b.c4, a.c5 + b.c5, a.c6 + b.c6)
  }

  function Scale(k: int, a: Vec): Vec {
    Vec(k * a.c0, k * a.c1, k * a.c2, k * a.c3, k * a.c4, k * a.c5, k * a.c6)
  }

  /** Multiplication by z, with z^7 = 3z + 5. */
  function TimesZ(a: Vec): Vec {
    Vec(5 * a.c6, a.c0 + 3 * a.c6, a.c1, a.c2, a.c3, a.c4, a.c5)
  }

  /** s(z) * b, for a polynomial s given by its coefficients, lowest first. */
  function EvalAt(s: seq<int>, b: Vec): Vec {
    if s == [] then ZERO else Add(Scale(s[0], b), EvalAt(s[1..], TimesZ(b)))
  }

  function Mul(a: Vec, b: Vec): Vec {
    EvalAt(Coefs(a), b)
  }

  // ---------------------------------------------------------------- linearity

  lemma ScaleAdd(k: int, a: Vec, b: Vec)
    ensures Scale(k, Add(a, b)) == Add(Scale(k, a), Scale(k, b))
  {
  }

  lemma AddScale(j: int, k: int, a: Vec)
    ensures Scale(j + k, a) == Add(Scale(j, a), Scale(k, a))
  {
  }

  lemma ScaleScale(j: int, k: int, a: Vec)
    ensures Scale(j, Scale(k, a)) == Scale(j * k, a)
  {
    MulAssocInt(j, k, a.c0); MulAssocInt(j, k, a.c1); MulAssocInt(j, k, a.c2); MulAssocInt(j, k, a.c3);
    MulAssocInt(j, k, a.c4); MulAssocInt(j, k, a.c5); MulAssocInt(j, k, a.c6);
  }

  lemma MulAssocInt(j: int, k: int, x: int)
    ensures j * (k * x) == (j * k) * x
  {
  }

  lemma TimesZScale(k: int, a: Vec)
    ensures TimesZ(Scale(k, a)) == Scale(k, TimesZ(a))
  {
    assert 5 * (k * a.c6) == k * (5 * a.c6);
    assert k * a.c0 + 3 * (k * a.c6) == k * (a.c0 + 3 * a.c6);
  }

  lemma AddLaws(a: Vec, b: Vec, c: Vec, d: Vec)
    ensures Add(Add(a, b), Add(c, d)) == Add(Add(a, c), Add(b, d))
    ensures Add(a, b) == Add(b, a) && Add(Add(a, b), c) == Add(a, Add(b, c))
    ensures Add(ZERO, a) == a == Add(a, ZERO) && Scale(0, a) == ZERO && Scale(1, a) == a
    ensures TimesZ(Add(a, b)) == Add(TimesZ(a), TimesZ(b)) && TimesZ(ZERO) == ZERO
  {
  }

  lemma ScaleZero(k: int)
    ensures Scale(k, ZERO) == ZERO
  {
  }

  lemma {:induction false} EvalAddRight(s: seq<int>, a: Vec, b: Vec)
    ensures EvalAt(s, Add(a, b)) == Add(EvalAt(s, a), EvalAt(s, b))
  {
    hide Add, Scale, TimesZ;
    if s == [] {
      AddLaws(ZERO, ZERO, ZERO, ZERO);
    } else {
      var a', b' := EvalAt(s[1..], TimesZ(a)), EvalAt(s[1..], TimesZ(b));
      ScaleAdd(s[0], a, b);
      AddLaws(a, b, a, b);
      EvalAddRight(s[1..], TimesZ(a), TimesZ(b));
      AddLaws(Scale(s[0], a), Scale(s[0], b), a', b');
    }
  }

  lemma {:induction false} EvalScaleRight(s: seq<int>, k: int, a: Vec)
    ensures EvalAt(s, Scale(k, a)) == Scale(k, EvalAt(s, a))
  {
    hide Add, Scale, TimesZ;
    if s == [] {
      ScaleZero(k);
    } else {
      ScaleScale(s[0], k, a);
      ScaleScale(k, s[0], a);
      assert s[0] * k == k * s[0];
      TimesZScale(k, a);
      EvalScaleRight(s[1..], k, TimesZ(a));
      ScaleAdd(k, Scale(s[0], a), EvalAt(s[1..], TimesZ(a)));
    }
  }

  lemma {:induction false} EvalTimesZ(s: seq<int>, a: Vec)
    ensures EvalAt(s, TimesZ(a)) == TimesZ(EvalAt(s, a))
  {
    hide Add, Scale, TimesZ;
    AddLaws(ZERO, ZERO, ZERO, ZERO);
    if s != [] {
      EvalTimesZ(s[1..], TimesZ(a));
      TimesZScale(s[0], a);
      AddLaws(Scale(s[0], a), EvalAt(s[1..], TimesZ(a)), a, a);
    }
  }

  /** Pointwise sum of two coefficient lists. */
  function AddLists(s: seq<int>, t: seq<int>): (r: seq<int>)
    requires |s| == |t|
    ensures |r| == |s|
  {
    seq(|s|, i requires 0 <= i < |s| => s[i] + t[i])
  }

  lemma {:induction false} EvalAddLeft(s: seq<int>, t: seq<int>, a: Vec)
    requires |s| == |t|
    ensures EvalAt(AddLists(s, t), a) == Add(EvalAt(s, a), EvalAt(t, a))
  {
    hide Add, Scale, TimesZ;
    if s == [] {
      AddLaws(ZERO, ZERO, ZERO, ZERO);
    } else {
      assert AddLists(s, t)[1..] == AddLists(s[1..], t[1..]);
      EvalAddLeft(s[1..], t[1..], TimesZ(a));
      AddScale(s[0], t[0], a);
      AddLaws(Scale(s[0], a), Scale(t[0], a), EvalAt(s[1..], TimesZ(a)), EvalAt(t[1..], TimesZ(a)));
    }
  }

  lemma {:induction false} EvalScaleLeft(s: seq<int>, t: seq<int>, k: int, a: Vec)
    requires |t| == |s| && forall i :: 0 <= i < |s| ==> t[i] == k * s[i]
    ensures EvalAt(t, a) == Scale(k, EvalAt(s, a))
  {
    hide Add, Scale, TimesZ;
    if s == [] {
      ScaleZero(k);
    } else {
      EvalScaleLeft(s[1..], t[1..], k, TimesZ(a));
      ScaleScale(k, s[0], a);
      ScaleAdd(k, Scale(s[0], a), EvalAt(s[1..], TimesZ(a)));
    }
  }

  lemma MulAddLeft(a: Vec, b: Vec, c: Vec)
    ensures Mul(Add(a, b), c) == Add(Mul(a, c), Mul(b, c))
  {
    assert Coefs(Add(a, b)) == AddLists(Coefs(a), Coefs(b));
    EvalAddLeft(Coefs(a), Coefs(b), c);
  }

  lemma MulScaleLeft(k: int, a: Vec, b: Vec)
    ensures Mul(Scale(k, a), b) == Scale(k, Mul(a, b))
  {
    EvalScaleLeft(Coefs(a), Coefs(Scale(k, a)), k, b);
  }

  // ---------------------------------------------------------------- multiplication is a ring product

  lemma EvalCons(x: int, s: seq<int>, b: Vec)
    ensures EvalAt([x] + s, b) == Add(Scale(x, b), EvalAt(s, TimesZ(b)))
  {
    assert ([x] + s)[1..] == s;
  }

  /** a * b = sum of a_i z^i b. */
  lemma MulTerms(a: Vec, b0: Vec, b1: Vec, b2: Vec, b3: Vec, b4: Vec, b5: Vec, b6: Vec)
    requires b1 == TimesZ(b0) && b2 == TimesZ(b1) && b3 == TimesZ(b2) && b4 == TimesZ(b3)
    requires b5 == TimesZ(b4) && b6 == TimesZ(b5)
    ensures Mul(a, b0) == Add(Scale(a.c0, b0), Add(Scale(a.c1, b1), Add(Scale(a.c2, b2), Add(Scale(a.c3, b3),
        Add(Scale(a.c4, b4), Add(Scale(a.c5, b5), Add(Scale(a.c6, b6), ZERO)))))))
  {
    hide Add, Scale, TimesZ;
    assert Coefs(a) == [a.c0] + ([a.c1] + ([a.c2] + ([a.c3] + ([a.c4] + ([a.c5] + ([a.c6] + []))))));
    EvalCons(a.c6, [], b6);
    EvalCons(a.c5, [a.c6] + [], b5);
    EvalCons(a.c4, [a.c5] + ([a.c6] + []), b4);
    EvalCons(a.c3, [a.c4] + ([a.c5] + ([a.c6] + [])), b3);
    EvalCons(a.c2, [a.c3] + ([a.c4] + ([a.c5] + ([a.c6] + []))), b2);
    EvalCons(a.c1, [a.c2] + ([a.c3] + ([a.c4] + ([a.c5] + ([a.c6] + [])))), b1);
    EvalCons(a.c0, [a.c1] + ([a.c2] + ([a.c3] + ([a.c4] + ([a.c5] + ([a.c6] + []))))), b0);
  }

  lemma MulOneRight(a: Vec)
    ensures Mul(a, ONE) == a
  {
    hide Mul;
    MulTerms(a, ONE, Vec(0, 1, 0, 0, 0, 0, 0), Vec(0, 0, 1, 0, 0, 0, 0), Vec(0, 0, 0, 1, 0, 0, 0),
             Vec(0, 0, 0, 0, 1, 0, 0), Vec(0, 0, 0, 0, 0, 1, 0), Vec(0, 0, 0, 0, 0, 0, 1));
  }

  /** z^7 * b = (3z + 5) * b. */
  lemma ZToTheSeventh(b: Vec)
    ensures TimesZ(TimesZ(TimesZ(TimesZ(TimesZ(TimesZ(TimesZ(b))))))) == Add(Scale(3, TimesZ(b)), Scale(5, b))
  {
  }

  lemma MulTimesZLeft(a: Vec, b: Vec)
    ensures Mul(TimesZ(a), b) == TimesZ(Mul(a, b))
  {
    var b1 := TimesZ(b); var b2 := TimesZ(b1); var b3 := TimesZ(b2); var b4 := TimesZ(b3);
    var b5 := TimesZ(b4); var b6 := TimesZ(b5); var b7 := TimesZ(b6);
    assert TimesZ(Mul(a, b)) == Mul(a, b1) by { EvalTimesZ(Coefs(a), b); }
    assert TimesZ(a) == Vec(5 * a.c6, a.c0 + 3 * a.c6, a.c1, a.c2, a.c3, a.c4, a.c5);
    hide Mul, Scale, TimesZ;
    MulTerms(TimesZ(a), b, b1, b2, b3, b4, b5, b6);
    MulTerms(a, b1, b2, b3, b4, b5, b6, b7);
    ZToTheSeventh(b);
    ScaleAdd(a.c6, Scale(3, b1), Scale(5, b));
    ScaleScale(a.c6, 3, b1);
    ScaleScale(a.c6, 5, b);
    AddScale(a.c0, 3 * a.c6, b1);
  }

  lemma {:induction false} EvalMul(s: seq<int>, b: Vec, c: Vec)
    ensures Mul(EvalAt(s, b), c) == EvalAt(s, Mul(b, c))
  {
    hide Add, Scale, TimesZ, Mul;
    if s == [] {
      AddLaws(ZERO, ZERO, ZERO, ZERO);
      MulScaleLeft(0, ZERO, c);
      AddLaws(Mul(ZERO, c), ZERO, ZERO, ZERO);
    } else {
      var rest := EvalAt(s[1..], TimesZ(b));
      MulAddLeft(Scale(s[0], b), rest, c);
      MulScaleLeft(s[0], b, c);
      EvalMul(s[1..], TimesZ(b), c);
      MulTimesZLeft(b, c);
    }
  }

  lemma MulAssoc(a: Vec, b: Vec, c: Vec)
    ensures Mul(Mul(a, b), c) == Mul(a, Mul(b, c))
  {
    EvalMul(Coefs(a), b, c);
  }

  lemma {:induction false} MulEval(a: Vec, s: seq<int>, c: Vec)
    ensures Mul(a, EvalAt(s, c)) == EvalAt(s, Mul(a, c))
  {
    hide Add, Scale, TimesZ;
    if s == [] {
      AddLaws(ZERO, ZERO, ZERO, ZERO);
      EvalScaleRight(Coefs(a), 0, ZERO);
      AddLaws(Mul(a, ZERO), ZERO, ZERO, ZERO);
    } else {
      var rest := EvalAt(s[1..], TimesZ(c));
      EvalAddRight(Coefs(a), Scale(s[0], c), rest);
      EvalScaleRight(Coefs(a), s[0], c);
      MulEval(a, s[1..], TimesZ(c));
      EvalTimesZ(Coefs(a), c);
    }
  }

  lemma MulComm(a: Vec, b: Vec)
    ensures Mul(a, b) == Mul(b, a)
  {
    MulOneRight(a);
    MulOneRight(b);
    MulEval(a, Coefs(b), ONE);
  }

  /** The coefficients of a * b written out, for evaluation at constants. */
  function Formula(a: Vec, b: Vec): Vec {
    Vec(a.c0 * b.c0 + a.c1 * (5 * b.c6) + a.c2 * (5 * b.c5) + a.c3 * (5 * b.c4) + a.c4 * (5 * b.c3)
        + a.c5 * (5 * b.c2) + a.c6 * (5 * b.c1),
        a.c0 * b.c1 + a.c1 * (b.c0 + 3 * b.c6) + a.c2 * (5 * b.c6 + 3 * b.c5) + a.c3 * (5 * b.c5 + 3 * b.c4)
            + a.c4 * (5 * b.c4 + 3 * b.c3) + a.c5 * (5 * b.c3 + 3 * b.c2) + a.c6 * (5 * b.c2 + 3 * b.c1),
        a.c0 * b.c2 + a.c1 * b.c1 + a.c2 * (b.c0 + 3 * b.c6) + a.c3 * (5 * b.c6 + 3 * b.c5)
            + a.c4 * (5 * b.c5 + 3 * b.c4) + a.c5 * (5 * b.c4 + 3 * b.c3) + a.c6 * (5 * b.c3 + 3 * b.c2),
        a.c0 * b.c3 + a.c1 * b.c2 + a.c2 * b.c1 + a.c3 * (b.c0 + 3 * b.c6) + a.c4 * (5 * b.c6 + 3 * b.c5)
            + a.c5 * (5 * b.c5 + 3 * b.c4) + a.c6 * (5 * b.c4 + 3 * b.c3),
        a.c0 * b.c4 + a.c1 * b.c3 + a.c2 * b.c2 + a.c3 * b.c1 + a.c4 * (b.c0 + 3 * b.c6)
            + a.c5 * (5 * b.c6 + 3 * b.c5) + a.c6 * (5 * b.c5 + 3 * b.c4),
        a.c0 * b.c5 + a.c1 * b.c4 + a.c2 * b.c3 + a.c3 * b.c2 + a.c4 * b.c1 + a.c5 * (b.c0 + 3 * b.c6)
            + a.c6 * (5 * b.c6 + 3 * b.c5),
        a.c0 * b.c6 + a.c1 * b.c5 + a.c2 * b.c4 + a.c3 * b.c3 + a.c4 * b.c2 + a.c5 * b.c1 + a.c6 * (b.c0 + 3 * b.c6))
  }

  lemma MulFormula(a: Vec, b: Vec)
    ensures Mul(a, b) == Formula(a, b)
  {
    hide Mul;
    var b1 := TimesZ(b); var b2 := TimesZ(b1); var b3 := TimesZ(b2); var b4 := TimesZ(b3);
    var b5 := TimesZ(b4); var b6 := TimesZ(b5);
    MulTerms(a, b, b1, b2, b3, b4, b5, b6);
  }
}
