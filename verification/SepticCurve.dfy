/** The curve y^2 = x^3 + 45x + 41z^3 of `septic_curve.rs`: incomplete addition, doubling, the
    two sum checkers and complete addition. */
module SepticCurve {
  import opened Basics
  import F = KoalaBear
  import V = SepticIntegers
  import opened SepticExtension
  import opened SepticField
  import opened SepticAlgebra

  /** `SepticCurve`. */
  datatype Point = Point(x: Septic, y: Septic)

  const B: Septic := V.Vec(0, 0, 0, 41, 0, 0, 0)

  /** `curve_formula`: x^3 + 45x + 41z^3. */
  function CurveFormula(x: Septic): Septic {
    Add(Add(Mul(Square(x), x), Scale(x, 45)), B)
  }

  /** `check_on_point`. */
  predicate OnCurve(p: Point) { Square(p.y) == CurveFormula(p.x) }

  /** `neg`. */
  function NegPoint(p: Point): Point { Point(p.x, Neg(p.y)) }

  lemma SubNonZero(a: Septic, b: Septic)
    ensures Sub(a, b) == ZERO <==> a == b
  {
    hide Sub, Add, Neg;
    SubLaws(a, b);
  }

  function Slope(p: Point, q: Point): (s: Septic)
    requires p.x != q.x
    ensures Mul(s, Sub(q.x, p.x)) == Sub(q.y, p.y)
  {
    SubNonZero(q.x, p.x);
    Div(Sub(q.y, p.y), Sub(q.x, p.x))
  }

  /** The third point of the line through p with the given slope, reflected. */
  function Chord(p: Point, qx: Septic, s: Septic): Point {
    var x := Sub(Sub(Square(s), p.x), qx);
    Point(x, Sub(Mul(s, Sub(p.x, x)), p.y))
  }

  /** `add_incomplete`; equal x-coordinates would divide by zero. */
  function AddIncomplete(p: Point, q: Point): Point
    requires p.x != q.x
  {
    Chord(p, q.x, Slope(p, q))
  }

  /** `sub_incomplete`. */
  function SubIncomplete(p: Point, q: Point): Point
    requires p.x != q.x
  {
    AddIncomplete(p, NegPoint(q))
  }

  // ---------------------------------------------------------------- commutativity and cancellation

  lemma SlopeUnique(p: Point, q: Point, s: Septic)
    requires p.x != q.x && Mul(s, Sub(q.x, p.x)) == Sub(q.y, p.y)
    ensures Slope(p, q) == s
  {
    hide Mul, Sub, Div;
    SubNonZero(q.x, p.x);
    DivUnique(Sub(q.y, p.y), Sub(q.x, p.x), s);
  }

  /** The y-coordinate of the sum can be read from either summand. */
  lemma ChordFromOther(p: Point, q: Point, s: Septic)
    requires Mul(s, Sub(q.x, p.x)) == Sub(q.y, p.y)
    ensures Chord(p, q.x, s) == Chord(q, p.x, s)
  {
    hide Mul, Sub, Add;
    var x := Sub(Sub(Square(s), p.x), q.x);
    SubSwap(Square(s), p.x, q.x);
    Telescope(q.x, p.x, x);
    Distribute(s, Sub(q.x, p.x), Sub(p.x, x));
    var t := Mul(s, Sub(p.x, x));
    assert Mul(s, Sub(q.x, x)) == Add(Sub(q.y, p.y), t);
    ShiftSub(q.y, p.y, t);
  }

  lemma ShiftSub(a: Septic, b: Septic, t: Septic)
    ensures Sub(Add(Sub(a, b), t), a) == Sub(t, b)
  {
  }

  lemma ReverseLine(p: Point, q: Point, s: Septic)
    requires Mul(s, Sub(q.x, p.x)) == Sub(q.y, p.y)
    ensures Mul(s, Sub(p.x, q.x)) == Sub(p.y, q.y)
  {
    hide Mul, Sub, Add, Neg;
    SubLaws(p.x, q.x);
    SubLaws(p.y, q.y);
    MulNeg(s, Sub(q.x, p.x));
  }

  lemma AddCommutes(p: Point, q: Point)
    requires p.x != q.x
    ensures AddIncomplete(p, q) == AddIncomplete(q, p)
  {
    hide Mul, Sub, Add, Neg, Chord;
    var s := Slope(p, q);
    ReverseLine(p, q, s);
    SlopeUnique(q, p, s);
    ChordFromOther(p, q, s);
  }

  /** Back along the line through p and q, which may be a tangent at p == q. */
  lemma LineBack(p: Point, q: Point, s: Septic)
    requires Mul(s, Sub(q.x, p.x)) == Sub(q.y, p.y) && Chord(p, q.x, s).x != q.x
    ensures SubIncomplete(Chord(p, q.x, s), q) == p
  {
    hide Mul, Sub, Add, Neg, Slope;
    var r, q' := Chord(p, q.x, s), NegPoint(q);
    var t := Mul(s, Sub(q.x, r.x));
    ChordFromOther(p, q, s);
    assert r.y == Sub(t, q.y);
    MulNeg(s, Sub(q.x, r.x));
    assert Mul(Neg(s), Sub(q.x, r.x)) == Neg(t);
    BackSlope(t, q.y);
    SlopeUnique(r, q', Neg(s));
    NegSquare(s);
    RecoverX(Square(s), p.x, q.x);
    MulNeg(s, Sub(r.x, p.x));
    SubLaws(r.x, p.x); SubLaws(p.x, r.x);
    MulNeg(s, Sub(p.x, r.x));
    NegLaws(Mul(s, Sub(p.x, r.x)));
    SubSame(Mul(s, Sub(p.x, r.x)), p.y, p.y);
  }

  /** (p + q) - q == p, whenever both additions are unexceptional. */
  lemma SubUndoesAdd(p: Point, q: Point)
    requires p.x != q.x && AddIncomplete(p, q).x != q.x
    ensures SubIncomplete(AddIncomplete(p, q), q) == p
  {
    hide Mul, Sub, Chord;
    LineBack(p, q, Slope(p, q));
  }

  lemma BackSlope(t: Septic, y: Septic)
    ensures Sub(Neg(y), Sub(t, y)) == Neg(t)
  {
  }

  lemma RecoverX(s2: Septic, x1: Septic, x2: Septic)
    ensures Sub(Sub(s2, Sub(Sub(s2, x1), x2)), x2) == x1
  {
    hide Sub, Add;
    SubOfSum(s2, x1, x2);
    SubSame(s2, Add(x1, x2), x1);
    SubLaws(x1, x2);
  }

  // ---------------------------------------------------------------- closure

  /** u^2 + uv + v^2 + 45, the slope numerator of the curve between u and v. */
  function Quad(u: Septic, v: Septic): Septic {
    Add(Add(Add(Square(u), Mul(u, v)), Square(v)), FromBase(45))
  }

  lemma FormulaDiff(u: Septic, v: Septic)
    ensures Sub(CurveFormula(u), CurveFormula(v)) == Mul(Sub(u, v), Quad(u, v))
  {
    hide Mul, Sub, Add, Scale, FromBase;
    var k := FromBase(45);
    var u3, v3 := Mul(Square(u), u), Mul(Square(v), v);
    SubSame(Add(u3, Scale(u, 45)), Add(v3, Scale(v, 45)), B);
    SubPairs(u3, Scale(u, 45), v3, Scale(v, 45));
    DiffCubes(u, v);
    ScaleIsMul(u, 45); ScaleIsMul(v, 45);
    MulSub(k, u, v);
    Distribute(Sub(u, v), Add(Add(Square(u), Mul(u, v)), Square(v)), k);
  }

  lemma QuadDiff(u: Septic, w: Septic, v: Septic)
    ensures Sub(Quad(u, v), Quad(w, v)) == Mul(Sub(u, w), Add(Add(u, w), v))
  {
    hide Mul, Sub, Add, FromBase;
    SubSame(Add(Add(Square(u), Mul(u, v)), Square(v)), Add(Add(Square(w), Mul(w, v)), Square(v)), FromBase(45));
    SubSame(Add(Square(u), Mul(u, v)), Add(Square(w), Mul(w, v)), Square(v));
    SubPairs(Square(u), Mul(u, v), Square(w), Mul(w, v));
    DiffSquares(u, w);
    MulSub(v, u, w);
    Distribute(Sub(u, w), Add(u, w), v);
  }

  lemma SumOfThree(s2: Septic, x1: Septic, x2: Septic)
    ensures var x3 := Sub(Sub(s2, x1), x2); Add(Add(x3, x2), x1) == s2
  {
    hide Sub, Add;
    SubLaws(Sub(s2, x1), x2);
    SubLaws(s2, x1);
  }

  /** The double of y plus the chord's rise, extended from qx to x3. */
  lemma ExtendChord(p: Point, qx: Septic, s: Septic, x3: Septic)
    requires x3 == Sub(Sub(Square(s), p.x), qx)
    requires Mul(s, Add(Add(p.y, p.y), Mul(s, Sub(qx, p.x)))) == Quad(qx, p.x)
    ensures Mul(s, Add(Add(p.y, p.y), Mul(s, Sub(x3, p.x)))) == Quad(x3, p.x)
  {
    hide Mul, Sub, Add, Quad;
    var y2 := Add(p.y, p.y);
    var a, b := Mul(s, Sub(qx, p.x)), Mul(s, Sub(x3, qx));
    Telescope(x3, qx, p.x);
    SumLaws(Sub(x3, qx), Sub(qx, p.x), s);
    Distribute(s, Sub(qx, p.x), Sub(x3, qx));
    SumLaws(y2, a, b);
    Distribute(s, Add(y2, a), b);
    MulAssoc(s, s, Sub(x3, qx));
    MulComm(Mul(s, s), Sub(x3, qx));
    SumOfThree(Square(s), p.x, qx);
    QuadDiff(x3, qx, p.x);
    var q3, q2 := Quad(x3, p.x), Quad(qx, p.x);
    SubLaws(q3, q2);
    SumLaws(Sub(q3, q2), q2, s);
  }

  lemma ReflectY(p: Point, t: Septic)
    ensures Sub(Neg(t), p.y) == Neg(Add(p.y, t))
  {
  }

  /** The third point of a chord or tangent line lies on the curve. */
  lemma ChordOnCurve(p: Point, qx: Septic, s: Septic)
    requires OnCurve(p)
    requires Mul(s, Add(Add(p.y, p.y), Mul(s, Sub(qx, p.x)))) == Quad(qx, p.x)
    ensures OnCurve(Chord(p, qx, s))
  {
    hide Mul, Sub, Add, Neg, Quad, CurveFormula;
    var x3 := Sub(Sub(Square(s), p.x), qx);
    var dx := Sub(x3, p.x);
    var t := Mul(s, dx);
    var m := Add(p.y, t);
    SubLaws(p.x, x3);
    MulNeg(s, dx);
    ReflectY(p, t);
    assert Chord(p, qx, s) == Point(x3, Neg(m));
    NegSquare(m);
    DiffSquares(m, p.y);
    SumLaws(p.y, t, p.y);
    SubLaws(t, p.y);
    SumLaws(p.y, t, p.y);
    SumLaws(t, p.y, p.y);
    SumLaws(t, Add(p.y, p.y), t);
    assert Add(m, p.y) == Add(Add(p.y, p.y), t);
    assert Sub(m, p.y) == t;
    ExtendChord(p, qx, s, x3);
    MulComm(s, dx);
    MulAssoc(dx, s, Add(m, p.y));
    FormulaDiff(x3, p.x);
    SubLaws(Square(m), Square(p.y));
    SubLaws(CurveFormula(x3), CurveFormula(p.x));
  }

  /** The slope of the line through two points of the curve. */
  lemma ChordIdentity(p: Point, q: Point, s: Septic)
    requires OnCurve(p) && OnCurve(q) && p.x != q.x && Mul(s, Sub(q.x, p.x)) == Sub(q.y, p.y)
    ensures Mul(s, Add(Add(p.y, p.y), Mul(s, Sub(q.x, p.x)))) == Quad(q.x, p.x)
  {
    hide Mul, Sub, Add, Quad, CurveFormula;
    var d := Sub(q.x, p.x);
    FormulaDiff(q.x, p.x);
    DiffSquares(q.y, p.y);
    MulComm(s, d);
    MulAssoc(d, s, Add(q.y, p.y));
    SubNonZero(q.x, p.x);
    Cancel(d, Mul(s, Add(q.y, p.y)), Quad(q.x, p.x));
    SubLaws(q.y, p.y);
    SumLaws(Sub(q.y, p.y), p.y, p.y);
    SumLaws(p.y, p.y, Sub(q.y, p.y));
    SumLaws(Sub(q.y, p.y), Add(p.y, p.y), s);
    assert Add(q.y, p.y) == Add(Add(p.y, p.y), Mul(s, d));
  }

  /** Incomplete addition stays on the curve. */
  lemma AddOnCurve(p: Point, q: Point)
    requires OnCurve(p) && OnCurve(q) && p.x != q.x
    ensures OnCurve(AddIncomplete(p, q))
  {
    hide Mul, Sub, Add, Quad, Chord, CurveFormula;
    var s := Slope(p, q);
    ChordIdentity(p, q, s);
    ChordOnCurve(p, q.x, s);
  }

  lemma NegOnCurve(p: Point)
    ensures OnCurve(NegPoint(p)) <==> OnCurve(p)
  {
    hide Mul, Neg, CurveFormula;
    NegSquare(p.y);
  }

  // ---------------------------------------------------------------- doubling

  lemma TwiceNonZero(y: Septic)
    ensures Scale(y, 2) == Add(y, y)
    ensures Scale(y, 2) == ZERO <==> y == ZERO
  {
    DoubleCoefficient(y.c0); DoubleCoefficient(y.c1); DoubleCoefficient(y.c2); DoubleCoefficient(y.c3);
    DoubleCoefficient(y.c4); DoubleCoefficient(y.c5); DoubleCoefficient(y.c6);
    hide F.Mul, F.Add;
  }

  lemma DoubleCoefficient(k: F.Fp)
    ensures F.Mul(k, 2) == F.Add(k, k)
    ensures F.Mul(k, 2) == 0 <==> k == 0
  {
    F.ModUnique(k * 2, F.Add(k, k), if k + k < P then 0 else 1);
  }

  /** `double`; y = 0 would divide by zero. */
  function Double(p: Point): Point
    requires p.y != ZERO
  {
    TwiceNonZero(p.y);
    var slope := Div(Add(Scale(Mul(p.x, p.x), 3), FromBase(45)), Scale(p.y, 2));
    var x := Sub(Square(slope), Scale(p.x, 2));
    Point(x, Sub(Mul(slope, Sub(p.x, x)), p.y))
  }

  lemma TripleSum(a: Septic)
    ensures Scale(a, 3) == Add(Add(a, a), a)
  {
    TripleCoefficient(a.c0); TripleCoefficient(a.c1); TripleCoefficient(a.c2); TripleCoefficient(a.c3);
    TripleCoefficient(a.c4); TripleCoefficient(a.c5); TripleCoefficient(a.c6);
    hide F.Mul, F.Add;
  }

  lemma TripleCoefficient(k: F.Fp)
    ensures F.Mul(k, 3) == F.Add(F.Add(k, k), k)
  {
    F.ModUnique(k * 3, F.Add(F.Add(k, k), k), if 3 * k < P then 0 else if 3 * k < 2 * P then 1 else 2);
  }

  /** Doubling is the chord construction with a tangent slope. */
  lemma DoubleIsChord(p: Point)
    requires p.y != ZERO
    ensures exists s ::
      && Double(p) == Chord(p, p.x, s)
      && Mul(s, Add(Add(p.y, p.y), Mul(s, Sub(p.x, p.x)))) == Quad(p.x, p.x)
  {
    hide Mul, Sub, Add, Scale, FromBase;
    TwiceNonZero(p.y);
    var s := Div(Add(Scale(Mul(p.x, p.x), 3), FromBase(45)), Scale(p.y, 2));
    TwiceNonZero(p.x);
    SubOfSum(Square(s), p.x, p.x);
    TripleSum(Mul(p.x, p.x));
    SubLaws(p.x, p.x);
    ZeroMul(s);
    NegLaws(Add(p.y, p.y));
    assert Double(p) == Chord(p, p.x, s) && Mul(s, Add(Add(p.y, p.y), Mul(s, Sub(p.x, p.x)))) == Quad(p.x, p.x);
  }

  /** The slope is determined by 2 y s = 3 x^2 + 45. */
  lemma TangentUnique(p: Point, s: Septic)
    requires p.y != ZERO && Mul(s, Add(p.y, p.y)) == Quad(p.x, p.x)
    ensures Double(p) == Chord(p, p.x, s)
  {
    hide Mul, Sub, Add, Scale, FromBase, Div;
    TwiceNonZero(p.y);
    TripleSum(Mul(p.x, p.x));
    DivUnique(Add(Scale(Mul(p.x, p.x), 3), FromBase(45)), Scale(p.y, 2), s);
    TwiceNonZero(p.x);
    SubOfSum(Square(s), p.x, p.x);
  }

  lemma DoubleOnCurve(p: Point)
    requires OnCurve(p) && p.y != ZERO
    ensures OnCurve(Double(p))
  {
    hide Mul, Sub, Add, Quad, Chord, Double, CurveFormula;
    DoubleIsChord(p);
    var s :| Double(p) == Chord(p, p.x, s) && Mul(s, Add(Add(p.y, p.y), Mul(s, Sub(p.x, p.x)))) == Quad(p.x, p.x);
    ChordOnCurve(p, p.x, s);
  }

  // ---------------------------------------------------------------- sum checkers

  /** `sum_checker_x` and `sum_checker_y`. */
  function SumCheckerX(p1: Point, p2: Point, p3: Point): Septic {
    Sub(Mul(Add(Add(p1.x, p2.x), p3.x), Square(Sub(p2.x, p1.x))), Square(Sub(p2.y, p1.y)))
  }

  function SumCheckerY(p1: Point, p2: Point, p3: Point): Septic {
    Sub(Mul(Add(p1.y, p3.y), Sub(p2.x, p1.x)), Mul(Sub(p2.y, p1.y), Sub(p1.x, p3.x)))
  }

  lemma MulCancelIff(d: Septic, a: Septic, b: Septic)
    requires d != ZERO
    ensures Mul(a, d) == Mul(b, d) <==> a == b
  {
    hide Mul;
    MulComm(a, d);
    MulComm(b, d);
    if Mul(a, d) == Mul(b, d) { Cancel(d, a, b); }
  }

  lemma CheckerX(p1: Point, p2: Point, p3: Point)
    requires p1.x != p2.x
    ensures SumCheckerX(p1, p2, p3) == ZERO <==> p3.x == AddIncomplete(p1, p2).x
  {
    hide Mul, Sub, Add, Slope;
    var s := Slope(p1, p2);
    var d := Sub(p2.x, p1.x);
    var sum := Add(Add(p1.x, p2.x), p3.x);
    SubNonZero(p2.x, p1.x);
    if Square(d) == ZERO { NoZeroDivisors(d, d); }
    Cross(s, d, s, d);
    assert Square(Sub(p2.y, p1.y)) == Mul(Square(s), Square(d));
    SubNonZero(Mul(sum, Square(d)), Mul(Square(s), Square(d)));
    MulCancelIff(Square(d), sum, Square(s));
    SubOfSum(Square(s), p1.x, p2.x);
    SumLaws(Add(p1.x, p2.x), p3.x, s);
    MoveAcross(Square(s), Add(p1.x, p2.x), p3.x);
  }

  lemma MoveAcross(a: Septic, b: Septic, c: Septic)
    ensures Add(c, b) == a <==> c == Sub(a, b)
  {
    hide Sub, Add, Neg;
    SubLaws(c, b);
    SubLaws(a, b);
  }

  /** `sum_checker_y` vanishes exactly when p3, reflected, is on the line through p1 and p2. */
  lemma CheckerY(p1: Point, p2: Point, p3: Point)
    requires p1.x != p2.x
    ensures SumCheckerY(p1, p2, p3) == ZERO <==> p3.y == Sub(Mul(Slope(p1, p2), Sub(p1.x, p3.x)), p1.y)
  {
    hide Mul, Sub, Add, Slope;
    var s := Slope(p1, p2);
    var d := Sub(p2.x, p1.x);
    var e := Sub(p1.x, p3.x);
    SubNonZero(p2.x, p1.x);
    MulAssoc(s, d, e); MulComm(d, e); MulAssoc(s, e, d);
    SubNonZero(Mul(Add(p1.y, p3.y), d), Mul(Mul(s, e), d));
    MulCancelIff(d, Add(p1.y, p3.y), Mul(s, e));
    SumLaws(p1.y, p3.y, p1.y);
    MoveAcross(Mul(s, e), p1.y, p3.y);
  }

  /** Together the checkers accept exactly the incomplete sum. */
  lemma CheckersExact(p1: Point, p2: Point, p3: Point)
    requires p1.x != p2.x
    ensures SumCheckerX(p1, p2, p3) == ZERO && SumCheckerY(p1, p2, p3) == ZERO <==> p3 == AddIncomplete(p1, p2)
  {
    hide Mul, Sub, Add, Slope, SumCheckerX, SumCheckerY;
    CheckerX(p1, p2, p3);
    CheckerY(p1, p2, p3);
  }

  lemma SlantedLine(p1: Point, p2: Point)
    requires p1.x != p2.x
    ensures Slope(p1, p2) == ZERO <==> p1.y == p2.y
  {
    hide Mul, Sub, Slope;
    var s, d := Slope(p1, p2), Sub(p2.x, p1.x);
    SubNonZero(p2.y, p1.y);
    SubNonZero(p2.x, p1.x);
    ZeroMul(d);
    if p1.y == p2.y { NoZeroDivisors(s, d); }
  }

  /** Two points of a line that agree in y agree in x, unless the line is level. */
  lemma SameHeight(s: Septic, p: Point, x: Septic, x': Septic)
    ensures Sub(Mul(s, Sub(p.x, x)), p.y) == Sub(Mul(s, Sub(p.x, x')), p.y) <==> s == ZERO || x == x'
  {
    hide Mul, Sub, Add;
    var a, b := Mul(s, Sub(p.x, x)), Mul(s, Sub(p.x, x'));
    SubLaws(a, p.y); SubLaws(b, p.y);
    ZeroMul(Sub(p.x, x)); ZeroMul(Sub(p.x, x'));
    if s != ZERO && a == b {
      Cancel(s, Sub(p.x, x), Sub(p.x, x'));
      SubSame(p.x, x, s); SubSame(p.x, x', s);
    }
  }

  /** Alone, `sum_checker_y` singles out the y-coordinate of the sum exactly when p3 already has its
      x-coordinate or the line is level. */
  lemma CheckerYExact(p1: Point, p2: Point, x: Septic)
    requires p1.x != p2.x
    ensures (forall y :: SumCheckerY(p1, p2, Point(x, y)) == ZERO <==> y == AddIncomplete(p1, p2).y)
       <==> p1.y == p2.y || x == AddIncomplete(p1, p2).x
  {
    hide Mul, Sub, Add, Slope, SumCheckerY;
    var s, sum := Slope(p1, p2), AddIncomplete(p1, p2);
    var onLine := Sub(Mul(s, Sub(p1.x, x)), p1.y);
    forall y ensures SumCheckerY(p1, p2, Point(x, y)) == ZERO <==> y == onLine { CheckerY(p1, p2, Point(x, y)); }
    SameHeight(s, p1, x, sum.x);
    SlantedLine(p1, p2);
    assert SumCheckerY(p1, p2, Point(x, onLine)) == ZERO;
  }

  /** On every slanted line it accepts a point whose y-coordinate is not that of the sum. */
  lemma CheckerYFails(p1: Point, p2: Point) returns (p3: Point)
    requires p1.x != p2.x && p1.y != p2.y
    ensures SumCheckerY(p1, p2, p3) == ZERO && p3.y != AddIncomplete(p1, p2).y
  {
    hide Mul, Sub, Add, Slope, SumCheckerY;
    var s, sum := Slope(p1, p2), AddIncomplete(p1, p2);
    var x := Add(sum.x, ONE);
    assert x != sum.x by {
      SubLaws(ONE, sum.x);
      SubLaws(sum.x, sum.x);
      SumLaws(sum.x, ONE, ONE);
      assert ONE.c0 != ZERO.c0;
    }
    p3 := Point(x, Sub(Mul(s, Sub(p1.x, x)), p1.y));
    CheckerY(p1, p2, p3);
    SameHeight(s, p1, x, sum.x);
    SlantedLine(p1, p2);
  }

  // ---------------------------------------------------------------- complete addition

  /** `SepticCurveComplete`. */
  datatype Complete = Infinity | Affine(point: Point)

  predicate Valid(c: Complete) { c.Affine? ==> OnCurve(c.point) }

  function NegComplete(c: Complete): Complete {
    match c case Infinity => Infinity case Affine(p) => Affine(NegPoint(p))
  }

  /** `Add for SepticCurveComplete`; `None` where doubling a point with y = 0 would divide by
      zero. */
  function AddComplete(a: Complete, b: Complete): Option<Complete> {
    if a.Infinity? then Some(b)
    else if b.Infinity? then Some(a)
    else if a.point.x != b.point.x then Some(Affine(AddIncomplete(a.point, b.point)))
    else if a.point.y == b.point.y then
      if a.point.y == ZERO then None else Some(Affine(Double(a.point)))
    else Some(Infinity)
  }

  lemma SameX(p: Point, q: Point)
    requires OnCurve(p) && OnCurve(q) && p.x == q.x
    ensures q.y == p.y || q.y == Neg(p.y)
  {
    hide Mul, Sub, Add, Neg, CurveFormula;
    DiffSquares(p.y, q.y);
    SubNonZero(Square(p.y), Square(q.y));
    NoZeroDivisors(Sub(p.y, q.y), Add(p.y, q.y));
    SubNonZero(p.y, q.y);
    NegFromSum(p.y, q.y);
  }

  lemma NegFromSum(a: Septic, b: Septic)
    ensures Add(a, b) == ZERO <==> b == Neg(a)
  {
  }

  lemma NegEqual(a: Septic)
    ensures Neg(a) == a <==> a == ZERO
  {
  }

  /** Complete addition is closed and commutative, with Infinity as the identity. It is undefined
      only when a point with y = 0 is doubled, and yields Infinity exactly on opposite points. */
  lemma CompleteAddition(a: Complete, b: Complete)
    requires Valid(a) && Valid(b)
    ensures AddComplete(a, b).Some? ==> Valid(AddComplete(a, b).value)
    ensures AddComplete(a, b) == AddComplete(b, a)
    ensures AddComplete(a, Infinity) == Some(a) == AddComplete(Infinity, a)
    ensures AddComplete(a, b).None? <==> a == b && a.Affine? && a.point.y == ZERO
    ensures AddComplete(a, b) == Some(Infinity) <==> b == NegComplete(a) && (a.Affine? ==> a.point.y != ZERO)
  {
    hide AddIncomplete, Double, OnCurve, Neg;
    if a.Affine? && b.Affine? {
      var p, q := a.point, b.point;
      NegEqual(p.y);
      if p.x != q.x {
        AddOnCurve(p, q);
        AddCommutes(p, q);
      } else {
        SameX(p, q);
        if p.y == q.y && p.y != ZERO { DoubleOnCurve(p); }
      }
    }
  }

  /** The sum of two points with different x-coordinates is the point that both checkers accept. That
      of a point with itself is the chord whose slope s has 2 y s = 3 x^2 + 45. */
  lemma CompleteSum(p: Point, q: Point)
    ensures p.x != q.x ==>
      && AddComplete(Affine(p), Affine(q)).Some? && AddComplete(Affine(p), Affine(q)).value.Affine?
      && var r := AddComplete(Affine(p), Affine(q)).value.point;
         SumCheckerX(p, q, r) == ZERO && SumCheckerY(p, q, r) == ZERO
    ensures p.y != ZERO ==> exists s ::
      && Mul(s, Add(p.y, p.y)) == Add(Scale(Square(p.x), 3), FromBase(45))
      && AddComplete(Affine(p), Affine(p)) == Some(Affine(Chord(p, p.x, s)))
  {
    hide Mul, Sub, Add, Scale, FromBase, Chord, AddIncomplete, SumCheckerX, SumCheckerY;
    if p.x != q.x { CheckersExact(p, q, AddIncomplete(p, q)); }
    if p.y != ZERO {
      TwiceNonZero(p.y);
      TripleSum(Mul(p.x, p.x));
      var s := Div(Add(Scale(Square(p.x), 3), FromBase(45)), Add(p.y, p.y));
      TangentUnique(p, s);
    }
  }

  /** The line through p and q that touches the curve at q leads back to p by doubling. */
  lemma TangentBack(p: Point, q: Point, s: Septic)
    requires Mul(s, Sub(q.x, p.x)) == Sub(q.y, p.y)
    requires Mul(s, Add(Add(q.y, q.y), Mul(s, Sub(p.x, q.x)))) == Quad(p.x, q.x)
    requires Chord(p, q.x, s).x == q.x
    ensures Chord(p, q.x, s) == NegPoint(q)
    ensures q.y != ZERO ==> NegPoint(q).y != ZERO && Double(NegPoint(q)) == p
  {
    hide Mul, Sub, Add, Neg, Quad, Double;
    ChordFromOther(p, q, s);
    SubLaws(q.x, q.x);
    ZeroMul(s);
    NegLaws(q.y);
    if q.y != ZERO {
      SubSwap(Square(s), p.x, q.x);
      ExtendChord(q, p.x, s, q.x);
      NegLaws(Add(q.y, q.y));
      assert Mul(s, Add(q.y, q.y)) == Quad(q.x, q.x);
      var n := NegPoint(q);
      NegSum(q.y, q.y);
      MulNeg(s, Neg(Add(q.y, q.y)));
      MulNeg(s, Add(q.y, q.y));
      NegLaws(Mul(s, Add(q.y, q.y)));
      NegEqual(q.y);
      NegZero(q.y);
      TangentUnique(n, Neg(s));
      NegSquare(s);
      RecoverX(Square(s), p.x, q.x);
      MulNeg(s, Sub(q.x, p.x));
      BackHeight(p.y, q.y);
    }
  }

  lemma NegZero(a: Septic)
    ensures Neg(a) == ZERO <==> a == ZERO
  {
  }

  lemma BackHeight(y: Septic, z: Septic)
    ensures Sub(Neg(Sub(z, y)), Neg(z)) == y
  {
  }

  lemma AddCancels(p: Point, q: Point)
    requires OnCurve(p) && OnCurve(q) && p.x != q.x
    ensures var r := AddIncomplete(p, q);
      if r.x != q.x then SubIncomplete(r, q) == p
      else r == NegPoint(q) && (q.y != ZERO ==> NegPoint(q).y != ZERO && Double(NegPoint(q)) == p)
  {
    hide Mul, Sub, Add, Neg, Quad, Chord, Double, CurveFormula;
    var s := Slope(p, q);
    if Chord(p, q.x, s).x != q.x {
      LineBack(p, q, s);
    } else {
      ReverseLine(p, q, s);
      ChordIdentity(q, p, s);
      TangentBack(p, q, s);
    }
  }

  lemma DoubleCancels(p: Point)
    requires p.y != ZERO
    ensures var r := Double(p);
      if r.x != p.x then SubIncomplete(r, p) == p
      else r == NegPoint(p) && NegPoint(p).y != ZERO && Double(NegPoint(p)) == p
  {
    hide Mul, Sub, Add, Neg, Quad, Chord, Double, CurveFormula;
    DoubleIsChord(p);
    var s :| Double(p) == Chord(p, p.x, s) && Mul(s, Add(Add(p.y, p.y), Mul(s, Sub(p.x, p.x)))) == Quad(p.x, p.x);
    SubLaws(p.x, p.x);
    SubLaws(p.y, p.y);
    ZeroMul(s);
    if Double(p).x != p.x { LineBack(p, p, s); } else { TangentBack(p, p, s); }
  }

  /** (a + b) + (-b) is a again, in every case; only the doubling of a point b with y = 0, which is
      its own negative, is undefined. */
  lemma CompleteCancels(a: Complete, b: Complete, c: Complete)
    requires Valid(a) && Valid(b) && AddComplete(a, b) == Some(c)
    ensures AddComplete(c, NegComplete(b))
         == if c == NegComplete(b) && b.Affine? && b.point.y == ZERO then None else Some(a)
  {
    hide Mul, Sub, Add, Neg, Quad, Chord, AddIncomplete, Double, CurveFormula;
    if a.Affine? && b.Affine? {
      var p, q := a.point, b.point;
      NegEqual(q.y);
      NegZero(q.y);
      if p.x != q.x {
        AddCancels(p, q);
      } else {
        SameX(q, p);
        if p.y == q.y { DoubleCancels(p); }
      }
    } else if b.Affine? {
      NegEqual(b.point.y);
      NegZero(b.point.y);
    }
  }
}
