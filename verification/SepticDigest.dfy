/** `septic_digest.rs`: digests blinded by a start point and offset by the zero digest. */
module SepticDigest {
  import opened Basics
  import F = KoalaBear
  import V = SepticIntegers
  import opened SepticExtension
  import opened SepticField
  import opened SepticTables
  import opened SepticAlgebra
  import opened SepticCurve

  // ---------------------------------------------------------------- the constant points

  lemma FormulaCoefficient(x3: F.Fp, x: F.Fp, b: F.Fp)
    ensures F.Add(F.Add(x3, F.Mul(x, 45)), b) == (x3 + x * 45 + b) % P
  {
    var q := (x * 45) / P;
    var s := x3 + F.Mul(x, 45);
    var e := if s < P then 0 else 1;
    var f := if F.Add(x3, F.Mul(x, 45)) + b < P then 0 else 1;
    F.ModUnique(x3 + x * 45 + b, F.Add(F.Add(x3, F.Mul(x, 45)), b), q + e + f);
  }

  /** A point is on the curve when its powers are as given and the coefficients add up. */
  lemma OnCurveBy(p: Point, x2: Septic, x3: Septic, y2: Septic)
    requires Mul(p.x, p.x) == x2 && Mul(x2, p.x) == x3 && Mul(p.y, p.y) == y2
    requires y2.c0 == (x3.c0 + p.x.c0 * 45) % P && y2.c1 == (x3.c1 + p.x.c1 * 45) % P
    requires y2.c2 == (x3.c2 + p.x.c2 * 45) % P && y2.c3 == (x3.c3 + p.x.c3 * 45 + 41) % P
    requires y2.c4 == (x3.c4 + p.x.c4 * 45) % P
    requires y2.c5 == (x3.c5 + p.x.c5 * 45) % P && y2.c6 == (x3.c6 + p.x.c6 * 45) % P
    ensures OnCurve(p)
  {
    hide Mul, F.Add, F.Mul;
    FormulaCoefficient(x3.c0, p.x.c0, 0); FormulaCoefficient(x3.c1, p.x.c1, 0); FormulaCoefficient(x3.c2, p.x.c2, 0);
    FormulaCoefficient(x3.c3, p.x.c3, 41); FormulaCoefficient(x3.c4, p.x.c4, 0); FormulaCoefficient(x3.c5, p.x.c5, 0);
    FormulaCoefficient(x3.c6, p.x.c6, 0);
  }

  const ZERO_X: Septic := V.Vec(21053971, 90322736, 156256384, 23627556, 34171264, 126183783, 25645942)
  const ZERO_Y: Septic := V.Vec(2020310104, 1513506566, 1843922297, 2003644209, 805967281, 1882435203, 1623804682)
  const ZERO_X2: Septic := V.Vec(117897610, 227660724, 1877443178, 526671222, 1632263916, 258702224, 1938103395)
  const ZERO_X3: Septic := V.Vec(331415199, 2013743702, 1702025064, 1704568352, 745654777, 1788547206, 1580078011)
  const ZERO_Y2: Septic := V.Vec(1278843894, 1816853956, 210736612, 637101980, 152655224, 1074698142, 603438968)

  lemma ZeroPowers()
    ensures Mul(ZERO_X, ZERO_X) == ZERO_X2 && Mul(ZERO_X2, ZERO_X) == ZERO_X3 && Mul(ZERO_Y, ZERO_Y) == ZERO_Y2
  {
    hide Mul;
    ProductIs(ZERO_X, ZERO_X, ZERO_X2);
    ProductIs(ZERO_X2, ZERO_X, ZERO_X3);
    ProductIs(ZERO_Y, ZERO_Y, ZERO_Y2);
  }

  lemma ZeroOnCurve()
    ensures OnCurve(Point(ZERO_X, ZERO_Y))
  {
    hide Mul;
    ZeroPowers();
    OnCurveBy(Point(ZERO_X, ZERO_Y), ZERO_X2, ZERO_X3, ZERO_Y2);
  }

  const START_X: Septic := V.Vec(24322128, 134698632, 124949330, 121922369, 84248355, 107561600, 86325264)
  const START_Y: Septic := V.Vec(1095433104, 7540207, 1124564165, 2035506693, 11121645, 102781365, 398772161)
  const START_X2: Septic := V.Vec(790307522, 1298185214, 1419886444, 1210844372, 1795303279, 280418229, 1866327570)
  const START_X3: Septic := V.Vec(2095011999, 640352152, 863215207, 1716890085, 371893445, 800138014, 1918598028)
  const START_Y2: Septic := V.Vec(1058801326, 309671293, 93815758, 811277432, 2032362987, 1378997148, 1541822042)

  lemma StartPowers()
    ensures Mul(START_X, START_X) == START_X2 && Mul(START_X2, START_X) == START_X3 && Mul(START_Y, START_Y) == START_Y2
  {
    hide Mul;
    ProductIs(START_X, START_X, START_X2);
    ProductIs(START_X2, START_X, START_X3);
    ProductIs(START_Y, START_Y, START_Y2);
  }

  lemma StartOnCurve()
    ensures OnCurve(Point(START_X, START_Y))
  {
    hide Mul;
    StartPowers();
    OnCurveBy(Point(START_X, START_Y), START_X2, START_X3, START_Y2);
  }

  const DUMMY_X: Septic := V.Vec(57770625, 136856976, 72496438, 2651249, 55731748, 158816036, 118044313)
  const DUMMY_Y: Septic := V.Vec(1250555984, 1592495468, 656721246, 420301347, 2125819749, 819876460, 17687681)
  const DUMMY_X2: Septic := V.Vec(248718291, 231209841, 1619701374, 1561377931, 1349633436, 604456808, 15000882)
  const DUMMY_X3: Septic := V.Vec(1736444344, 619929429, 169298851, 936913578, 1726397507, 794167045, 242587594)
  const DUMMY_Y2: Septic := V.Vec(74709603, 386374050, 1300932128, 1056219824, 2103619734, 1548769366, 1293168813)

  lemma DummyPowers()
    ensures Mul(DUMMY_X, DUMMY_X) == DUMMY_X2 && Mul(DUMMY_X2, DUMMY_X) == DUMMY_X3 && Mul(DUMMY_Y, DUMMY_Y) == DUMMY_Y2
  {
    hide Mul;
    ProductIs(DUMMY_X, DUMMY_X, DUMMY_X2);
    ProductIs(DUMMY_X2, DUMMY_X, DUMMY_X3);
    ProductIs(DUMMY_Y, DUMMY_Y, DUMMY_Y2);
  }

  lemma DummyOnCurve()
    ensures OnCurve(Point(DUMMY_X, DUMMY_Y))
  {
    hide Mul;
    DummyPowers();
    OnCurveBy(Point(DUMMY_X, DUMMY_Y), DUMMY_X2, DUMMY_X3, DUMMY_Y2);
  }

  /** `SepticDigest::zero` and `SepticDigest::starting_digest`. */
  const Zero := Point(ZERO_X, ZERO_Y)
  const Start := Point(START_X, START_Y)

  // ---------------------------------------------------------------- checked addition

  /** Such a point exists for the two digest constants, which are on the curve. */
  lemma CheckerYFailsOnDigests()
    ensures OnCurve(Zero) && OnCurve(Start) && Zero.x != Start.x
    ensures exists p3 :: SumCheckerY(Zero, Start, p3) == ZERO && p3.y != AddIncomplete(Zero, Start).y
  {
    hide OnCurve, SumCheckerY, AddIncomplete;
    ZeroOnCurve();
    StartOnCurve();
    assert Zero.x.c0 != Start.x.c0 && Zero.y.c0 != Start.y.c0;
    var p3 := CheckerYFails(Zero, Start);
  }

  /** `checked_add_incomplete`. */
  function CheckedIncomplete(p: Point, q: Point): Option<Point> {
    if p.x == q.x then None else Some(AddIncomplete(p, q))
  }

  /** start + a - zero: the blinded form in which digests are accumulated. */
  function Absorb(acc: Point, d: Point): Option<Point> {
    match CheckedIncomplete(acc, d)
    case None => None
    case Some(s) => CheckedIncomplete(s, NegPoint(Zero))
  }

  /** b + zero - start: back from the blinded form. */
  function Unblind(b: Point): Option<Point> {
    match CheckedIncomplete(b, Zero)
    case None => None
    case Some(s) => CheckedIncomplete(s, NegPoint(Start))
  }

  /** `checked_add`. */
  function CheckedAdd(a: Point, b: Point): Option<Point> {
    match Absorb(Start, a)
    case None => None
    case Some(sumA) =>
      match Absorb(sumA, b)
      case None => None
      case Some(sumB) => Unblind(sumB)
  }

  lemma NegNeg(p: Point)
    ensures NegPoint(NegPoint(p)) == p
  {
    hide Neg, Add, Sub;
    NegLaws(p.y);
  }

  /** p + q - q and p - q + q both give p back, when no addition is exceptional. */
  lemma Undo(p: Point, q: Point)
    requires p.x != q.x
    ensures AddIncomplete(p, q).x != q.x ==> AddIncomplete(AddIncomplete(p, q), NegPoint(q)) == p
    ensures AddIncomplete(p, NegPoint(q)).x != q.x ==> AddIncomplete(AddIncomplete(p, NegPoint(q)), q) == p
  {
    hide AddIncomplete, Neg;
    NegNeg(q);
    if AddIncomplete(p, q).x != q.x { SubUndoesAdd(p, q); }
    if AddIncomplete(p, NegPoint(q)).x != q.x { SubUndoesAdd(p, NegPoint(q)); }
  }

  /** Unblinding and blinding again gives the accumulator back, whenever neither is exceptional:
      the +zero/-start and +start/-zero steps telescope. */
  lemma Reblind(b: Point, c: Point, b': Point)
    requires Unblind(b) == Some(c) && Absorb(Start, c) == Some(b')
    ensures b' == b
  {
    hide AddIncomplete, Neg;
    var s := AddIncomplete(b, Zero);
    Undo(s, Start);
    AddCommutes(Start, c);
    Undo(b, Zero);
  }

  /** Absorbing and then unblinding returns the digest, when unexceptional. */
  lemma SingleDigest(d: Point, a: Point, r: Point)
    requires Absorb(Start, d) == Some(a) && Unblind(a) == Some(r)
    ensures r == d
  {
    hide AddIncomplete, Neg;
    var s := AddIncomplete(Start, d);
    Undo(s, Zero);
    AddCommutes(Start, d);
    Undo(d, Start);
  }

  /** Absorbing a digest can be undone: adding the zero digest and subtracting the absorbed one gives the
      accumulator back, when unexceptional. */
  lemma AbsorbUndone(acc: Point, d: Point, r: Point)
    requires Absorb(acc, d) == Some(r) && r.x != Zero.x
    ensures AddIncomplete(r, Zero) == AddIncomplete(acc, d)
    ensures AddIncomplete(r, Zero).x != d.x ==> AddIncomplete(AddIncomplete(r, Zero), NegPoint(d)) == acc
  {
    hide AddIncomplete, Neg;
    Undo(AddIncomplete(acc, d), Zero);
    Undo(acc, d);
  }

  /** What unblinding computes: start + r == b + zero. */
  lemma UnblindIs(b: Point, r: Point)
    requires Unblind(b) == Some(r) && r.x != Start.x
    ensures AddIncomplete(Start, r) == AddIncomplete(b, Zero)
  {
    hide AddIncomplete, Neg;
    Undo(AddIncomplete(b, Zero), Start);
    AddCommutes(Start, r);
  }

  /** What `checked_add` computes, in terms of the curve alone: start + r == (start + a - zero) + b, so
      that taking b away leaves a as if it had been the only digest. */
  lemma CheckedAddMeaning(a: Point, b: Point, r: Point)
    requires CheckedAdd(a, b) == Some(r)
    ensures a.x != Start.x && AddIncomplete(Start, a).x != Zero.x
    ensures var first := AddIncomplete(AddIncomplete(Start, a), NegPoint(Zero));
      && first.x != b.x
      && (r.x != Start.x ==> AddIncomplete(Start, r) == AddIncomplete(first, b))
      && (r.x != Start.x && AddIncomplete(Start, r).x != b.x ==>
            AddIncomplete(AddIncomplete(Start, r), NegPoint(b)) == first)
  {
    hide AddIncomplete, Neg;
    var first := Absorb(Start, a).value;
    var both := Absorb(first, b).value;
    AbsorbUndone(first, b, both);
    if r.x != Start.x { UnblindIs(both, r); }
  }

  /** The zero digest is an identity of `checked_add` on either side. */
  lemma ZeroIsIdentity(d: Point)
    ensures CheckedAdd(Zero, d).Some? ==> CheckedAdd(Zero, d) == Some(d)
    ensures CheckedAdd(d, Zero).Some? ==> CheckedAdd(d, Zero) == Some(d)
  {
    hide AddIncomplete, Neg, Unblind;
    if CheckedAdd(Zero, d).Some? {
      Undo(Start, Zero);
      var a := Absorb(Start, d).value;
      SingleDigest(d, a, Unblind(a).value);
    }
    if CheckedAdd(d, Zero).Some? {
      var a := Absorb(Start, d).value;
      var s := AddIncomplete(Start, d);
      Undo(s, Zero);
      SingleDigest(d, a, Unblind(a).value);
    }
  }

  // The line through the two constants, and the x-coordinate of their sum.
  const DELTA_X: Septic := V.Vec(2127438276, 2086330537, 31307054, 2032411620, 2080629342, 18622183, 2070027111)
  const DELTA_Y: Septic := V.Vec(924877000, 1505966359, 719358132, 2098843949, 794845636, 1779653838, 1225032521)
  const LINE: Septic := V.Vec(1172155333, 1104895031, 391154212, 2088430172, 1856030072, 2118733695, 1347693402)
  const LINE2: Septic := V.Vec(1072383495, 1537149395, 107946424, 632388375, 459902515, 1199260328, 770488039)

  lemma Deltas()
    ensures Sub(ZERO_X, START_X) == DELTA_X && Sub(ZERO_Y, START_Y) == DELTA_Y
  {
  }

  lemma SumX()
    ensures Sub(Sub(LINE2, START_X), ZERO_X).c0 == 1027007396
  {
  }

  lemma LineThrough()
    ensures Mul(LINE, DELTA_X) == DELTA_Y && Mul(LINE, LINE) == LINE2
  {
    hide Mul;
    ProductIs(LINE, DELTA_X, DELTA_Y);
    ProductIs(LINE, LINE, LINE2);
  }

  lemma SumByLine(p: Point, q: Point, s: Septic, dx: Septic, dy: Septic, s2: Septic)
    requires p.x != q.x && Sub(q.x, p.x) == dx && Sub(q.y, p.y) == dy && Mul(s, dx) == dy && Mul(s, s) == s2
    requires Sub(Sub(s2, p.x), q.x).c0 != p.x.c0 && Sub(Sub(s2, p.x), q.x).c0 != q.x.c0
    ensures AddIncomplete(p, q).x != p.x && AddIncomplete(p, q).x != q.x
  {
    hide Mul, Sub, Slope;
    SlopeUnique(p, q, s);
  }

  lemma Coordinates()
    ensures Start == Point(START_X, START_Y) && Zero == Point(ZERO_X, ZERO_Y)
    ensures START_X.c0 == 24322128 && ZERO_X.c0 == 21053971
  {
  }

  lemma StartPlusZero()
    ensures Start.x != Zero.x
    ensures AddIncomplete(Start, Zero).x != Start.x && AddIncomplete(Start, Zero).x != Zero.x
  {
    hide *;
    Coordinates();
    Deltas();
    LineThrough();
    SumX();
    SumByLine(Start, Zero, LINE, DELTA_X, DELTA_Y, LINE2);
  }

  /** Adding the start point to d, removing the zero digest and adding it again meets no equal
      x-coordinates. */
  predicate Clear(d: Point) {
    && d.x != Start.x
    && var s := AddIncomplete(Start, d);
       && s.x != Start.x && s.x != Zero.x && AddIncomplete(s, NegPoint(Zero)).x != Zero.x
  }

  /** Exactly when adding the zero digest, on either side, succeeds; it then changes nothing. */
  lemma ZeroExact(d: Point)
    ensures CheckedAdd(Zero, d) == CheckedAdd(d, Zero) == if Clear(d) then Some(d) else None
  {
    hide AddIncomplete, Neg;
    StartPlusZero();
    Undo(Start, Zero);
    ZeroIsIdentity(d);
    if d.x != Start.x {
      var s := AddIncomplete(Start, d);
      if s.x != Zero.x {
        var b := AddIncomplete(s, NegPoint(Zero));
        Undo(s, Zero);
        if b.x != Zero.x { Undo(b, Zero); }
      }
    }
  }

  lemma ZeroIsClear()
    ensures Clear(Zero)
  {
    StartPlusZero();
    hide AddIncomplete, Neg;
    Undo(Start, Zero);
  }

  /** Sums do succeed: any number of zero digests adds up to the zero digest. */
  lemma {:induction false} ZerosAddUp(ds: seq<Point>)
    requires forall i :: 0 <= i < |ds| ==> ds[i] == Zero
    ensures Running(Zero, ds) == Some(Zero)
    decreases |ds|
  {
    hide CheckedAdd, Clear;
    if ds != [] {
      ZerosAddUp(ds[1..]);
      ZeroIsClear();
      ZeroExact(Zero);
    }
  }

  /** Checked addition keeps digests on the curve. */
  lemma CheckedAddOnCurve(a: Point, b: Point)
    requires OnCurve(a) && OnCurve(b)
    ensures CheckedAdd(a, b).Some? ==> OnCurve(CheckedAdd(a, b).value)
  {
    hide OnCurve, AddIncomplete, Neg;
    ZeroOnCurve(); StartOnCurve();
    NegOnCurve(Zero); NegOnCurve(Start);
    AbsorbOnCurve(Start, a);
    if Absorb(Start, a).Some? {
      AbsorbOnCurve(Absorb(Start, a).value, b);
      if Absorb(Absorb(Start, a).value, b).Some? {
        var s := Absorb(Absorb(Start, a).value, b).value;
        if s.x != Zero.x {
          AddOnCurve(s, Zero);
          var t := AddIncomplete(s, Zero);
          if t.x != Start.x { AddOnCurve(t, NegPoint(Start)); }
        }
      }
    }
  }

  lemma AbsorbOnCurve(acc: Point, d: Point)
    requires OnCurve(acc) && OnCurve(d)
    ensures Absorb(acc, d).Some? ==> OnCurve(Absorb(acc, d).value)
  {
    hide OnCurve, AddIncomplete, Neg;
    ZeroOnCurve();
    NegOnCurve(Zero);
    if acc.x != d.x {
      AddOnCurve(acc, d);
      var s := AddIncomplete(acc, d);
      if s.x != Zero.x { AddOnCurve(s, NegPoint(Zero)); }
    }
  }

  // ---------------------------------------------------------------- sums

  /** The fold of `Sum`, `None` where an addition would divide by zero. */
  function Fold(acc: Point, ds: seq<Point>): Option<Point>
    decreases |ds|
  {
    if ds == [] then Some(acc)
    else
      match Absorb(acc, ds[0])
      case None => None
      case Some(a) => Fold(a, ds[1..])
  }

  function SumOf(ds: seq<Point>): Option<Point> {
    match Fold(Start, ds)
    case None => None
    case Some(b) => Unblind(b)
  }

  /** `Sum::sum`: accumulate, then add the zero digest and subtract the start. `None` is the panic
      of a division by zero. */
  method Sum(ds: seq<Point>) returns (r: Option<Point>)
    ensures r == SumOf(ds)
  {
    hide AddIncomplete, Neg;
    var acc := Start;
    var i := 0;
    while i < |ds|
      invariant 0 <= i <= |ds|
      invariant Fold(Start, ds) == Fold(acc, ds[i..])
    {
      assert ds[i..][1..] == ds[i + 1..];
      if acc.x == ds[i].x { return None; }
      var sumOffset := AddIncomplete(acc, ds[i]);
      if sumOffset.x == Zero.x { return None; }
      acc := SubIncomplete(sumOffset, Zero);
      i := i + 1;
    }
    if acc.x == Zero.x { return None; }
    acc := AddIncomplete(acc, Zero);
    if acc.x == Start.x { return None; }
    acc := SubIncomplete(acc, Start);
    r := Some(acc);
  }

  /** `Add::add`, whose divisions by zero are exactly the cases that `checked_add` reports. */
  method AddDigests(a: Point, b: Point) returns (r: Option<Point>)
    ensures r == CheckedAdd(a, b)
  {
    hide AddIncomplete, Neg;
    if Start.x == a.x { return None; }
    var sumA := AddIncomplete(Start, a);
    if sumA.x == Zero.x { return None; }
    sumA := SubIncomplete(sumA, Zero);
    if sumA.x == b.x { return None; }
    var sumB := AddIncomplete(sumA, b);
    if sumB.x == Zero.x { return None; }
    sumB := SubIncomplete(sumB, Zero);
    var result := sumB;
    if result.x == Zero.x { return None; }
    result := AddIncomplete(result, Zero);
    if result.x == Start.x { return None; }
    result := SubIncomplete(result, Start);
    r := Some(result);
  }

  /** `checked_add` is the sum of two. */
  lemma CheckedAddIsSum(a: Point, b: Point)
    ensures CheckedAdd(a, b) == SumOf([a, b])
  {
    hide Absorb, Unblind;
    assert [a, b][1..] == [b] && [b][1..] == [];
    var first := Absorb(Start, a);
    if first.Some? {
      var second := Absorb(first.value, b);
      assert Fold(first.value, [b]) == second by { if second.Some? { assert Fold(second.value, []) == second; } }
    }
  }

  /** The verifier's running total: `checked_add` of each digest in turn. */
  function Running(total: Point, ds: seq<Point>): Option<Point>
    decreases |ds|
  {
    if ds == [] then Some(total)
    else
      match CheckedAdd(total, ds[0])
      case None => None
      case Some(t) => Running(t, ds[1..])
  }

  lemma {:induction false} RunningIsFold(total: Point, a: Point, ds: seq<Point>)
    requires ds != [] && Absorb(Start, total) == Some(a)
    requires Running(total, ds).Some?
    ensures Fold(a, ds).Some? && Unblind(Fold(a, ds).value) == Running(total, ds)
    decreases |ds|
  {
    hide Absorb, Unblind;
    var t := CheckedAdd(total, ds[0]).value;
    var b := Absorb(a, ds[0]).value;
    if |ds| == 1 {
      assert ds[1..] == [];
    } else {
      var b' := Absorb(Start, t).value;
      Reblind(b, t, b');
      RunningIsFold(t, b, ds[1..]);
    }
  }

  /** If every `checked_add` of the verifier's loop succeeds, the final total is the `sum` of the
      initial digest and all others, and that sum divides by zero nowhere. */
  lemma RunningIsSum(init: Point, ds: seq<Point>)
    requires ds != [] && Running(init, ds).Some?
    ensures Running(init, ds) == SumOf([init] + ds)
  {
    hide Absorb, Unblind;
    var a := Absorb(Start, init).value;
    assert ([init] + ds)[1..] == ds;
    RunningIsFold(init, a, ds);
  }

  lemma {:induction false} RunningAppend(init: Point, ds: seq<Point>, d: Point)
    ensures Running(init, ds + [d]) == match Running(init, ds) { case None => None case Some(t) => CheckedAdd(t, d) }
    decreases |ds|
  {
    hide CheckedAdd;
    if ds == [] {
      assert (ds + [d])[1..] == [];
    } else {
      assert (ds + [d])[0] == ds[0] && (ds + [d])[1..] == ds[1..] + [d];
      var t := CheckedAdd(init, ds[0]);
      if t.Some? { RunningAppend(t.value, ds[1..], d); }
    }
  }

  lemma {:induction false} FoldAppend(acc: Point, ds: seq<Point>, d: Point)
    ensures Fold(acc, ds + [d]) == match Fold(acc, ds) { case None => None case Some(a) => Absorb(a, d) }
    decreases |ds|
  {
    hide Absorb;
    if ds == [] {
      assert (ds + [d])[1..] == [];
      assert Absorb(acc, d).Some? ==> Fold(Absorb(acc, d).value, []) == Absorb(acc, d);
    } else {
      assert (ds + [d])[0] == ds[0] && (ds + [d])[1..] == ds[1..] + [d];
      var a := Absorb(acc, ds[0]);
      if a.Some? { FoldAppend(a.value, ds[1..], d); }
    }
  }

  /** The empty sum is the zero digest, and the sum of one digest is that digest. */
  lemma SumOfFew(d: Point)
    ensures SumOf([]) == Some(Zero)
    ensures SumOf([d]).Some? ==> SumOf([d]) == Some(d)
  {
    StartPlusZero();
    hide AddIncomplete, Neg;
    AddCommutes(Start, Zero);
    Undo(Zero, Start);
    assert [d][1..] == [];
    if SumOf([d]).Some? {
      var a := Absorb(Start, d).value;
      assert Fold(a, []) == Some(a);
      SingleDigest(d, a, Unblind(a).value);
    }
  }

  /** Taking the last digest away from a sum leaves the sum of the others: start + r - d is the blinded
      form of that sum, when unexceptional. */
  lemma SumWithoutLast(ds: seq<Point>, d: Point, r: Point, q: Point)
    requires SumOf(ds + [d]) == Some(r) && SumOf(ds) == Some(q) && r.x != Start.x
    ensures AddIncomplete(Start, r).x != d.x ==>
      && var acc := AddIncomplete(AddIncomplete(Start, r), NegPoint(d));
      && acc.x != Zero.x && AddIncomplete(acc, Zero).x != Start.x
      && AddIncomplete(AddIncomplete(acc, Zero), NegPoint(Start)) == q
  {
    hide AddIncomplete, Neg;
    FoldAppend(Start, ds, d);
    var acc := Fold(Start, ds).value;
    var b := Absorb(acc, d).value;
    AbsorbUndone(acc, d, b);
    UnblindIs(b, r);
  }

  /** The sum of init and the first k digests exists; if more follow, it can be blinded again. */
  ghost predicate PrefixFine(init: Point, ds: seq<Point>, k: nat)
    requires k <= |ds|
  {
    var sum := SumOf([init] + ds[..k]);
    sum.Some? && (k < |ds| ==> Absorb(Start, sum.value).Some?)
  }

  /** One more digest can be added to a sum exactly when the sum can be blinded again and the longer sum
      exists. */
  lemma AddToSum(init: Point, ds: seq<Point>, d: Point)
    requires SumOf([init] + ds).Some?
    ensures CheckedAdd(SumOf([init] + ds).value, d).Some? <==>
      Absorb(Start, SumOf([init] + ds).value).Some? && SumOf([init] + ds + [d]).Some?
  {
    hide Absorb, Unblind;
    FoldAppend(Start, [init] + ds, d);
    var b, c := Fold(Start, [init] + ds).value, SumOf([init] + ds).value;
    if Absorb(Start, c).Some? { Reblind(b, c, Absorb(Start, c).value); }
  }

  ghost predicate AllFine(init: Point, ds: seq<Point>) { forall k :: 1 <= k <= |ds| ==> PrefixFine(init, ds, k) }

  lemma AllFineStep(init: Point, ds: seq<Point>, d: Point)
    requires ds != []
    ensures AllFine(init, ds + [d]) <==>
      && AllFine(init, ds)
      && SumOf([init] + ds).Some? && Absorb(Start, SumOf([init] + ds).value).Some? && SumOf([init] + ds + [d]).Some?
  {
    hide Absorb, SumOf;
    var n, all := |ds|, ds + [d];
    assert all[..n] == ds && all[..n + 1] == all && ds[..n] == ds;
    assert [init] + ds + [d] == [init] + all;
    assert forall k :: 1 <= k <= n ==> ds[..k] == all[..k];
    if AllFine(init, all) {
      assert PrefixFine(init, all, n) && PrefixFine(init, all, n + 1);
      forall k | 1 <= k <= n ensures PrefixFine(init, ds, k) { assert PrefixFine(init, all, k); }
    }
    if AllFine(init, ds) && SumOf([init] + ds).Some? && Absorb(Start, SumOf([init] + ds).value).Some?
      && SumOf([init] + ds + [d]).Some? {
      forall k | 1 <= k <= n + 1 ensures PrefixFine(init, all, k) {
        if k <= n { assert PrefixFine(init, ds, k); }
      }
    }
  }

  /** Exactly when the verifier's loop succeeds: every prefix has a sum, and each but the last can be
      blinded again. */
  lemma {:induction false} RunningExact(init: Point, ds: seq<Point>)
    ensures Running(init, ds).Some? <==> AllFine(init, ds)
    decreases |ds|
  {
    hide Absorb, Unblind, CheckedAdd, SumOf;
    if ds != [] {
      var n := |ds| - 1;
      var prev, d := ds[..n], ds[n];
      assert ds == prev + [d];
      RunningAppend(init, prev, d);
      if n == 0 {
        CheckedAddIsSum(init, d);
        assert ds[..1] == ds && [init] + ds == [init, d];
        assert AllFine(init, ds) <==> PrefixFine(init, ds, 1);
      } else {
        RunningExact(init, prev);
        AllFineStep(init, prev, d);
        hide AllFine, Running;
        if Running(init, prev).Some? {
          RunningIsSum(init, prev);
          AddToSum(init, prev, d);
        }
      }
    }
  }
}
