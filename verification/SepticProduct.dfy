/** The loop nest of `Mul for SepticExtension`: thirteen schoolbook coefficients, then one pass
    that folds the top six back with z^7 = 3z + 5. */
module SepticProduct {
  import F = KoalaBear
  import V = SepticIntegers
  import opened SepticExtension

  /** Row i of the schoolbook table: x_i * y, moved up by i places. */
  ghost function Row(x: seq<int>, y: seq<int>, i: nat): (r: seq<int>)
    requires |x| == |y| == 7 && i < 7
    ensures |r| == 13
  {
    seq(13, k requires 0 <= k < 13 => if i <= k < i + 7 then x[i] * y[k - i] else 0)
  }

  /** The sum of the first i rows; with i == 7, the full product polynomial. */
  ghost function Rows(x: seq<int>, y: seq<int>, i: nat): (r: seq<int>)
    requires |x| == |y| == 7 && i <= 7
    ensures |r| == 13
  {
    if i == 0 then seq(13, _ => 0) else V.AddLists(Rows(x, y, i - 1), Row(x, y, i - 1))
  }

  ghost function FullProduct(a: V.Vec, b: V.Vec): (r: seq<int>)
    ensures |r| == 13
  {
    Rows(V.Coefs(a), V.Coefs(b), 7)
  }

  // ---------------------------------------------------------------- value of a coefficient list

  ghost function ZPow(k: nat, b: V.Vec): V.Vec {
    if k == 0 then b else ZPow(k - 1, V.TimesZ(b))
  }

  lemma {:induction false} EvalZPow(s: seq<int>, k: nat, b: V.Vec)
    ensures V.EvalAt(s, ZPow(k, b)) == ZPow(k, V.EvalAt(s, b))
  {
    hide V.TimesZ, V.EvalAt;
    if k > 0 {
      EvalZPow(s, k - 1, V.TimesZ(b));
      V.EvalTimesZ(s, b);
    }
  }

  lemma {:induction false} EvalAppend(s: seq<int>, t: seq<int>, b: V.Vec)
    ensures V.EvalAt(s + t, b) == V.Add(V.EvalAt(s, b), V.EvalAt(t, ZPow(|s|, b)))
  {
    hide V.Add, V.Scale, V.TimesZ;
    if s == [] {
      assert s + t == t;
      V.AddLaws(V.EvalAt(t, b), b, b, b);
    } else {
      assert (s + t)[1..] == s[1..] + t && (s + t)[0] == s[0];
      EvalAppend(s[1..], t, V.TimesZ(b));
      V.AddLaws(V.Scale(s[0], b), V.EvalAt(s[1..], V.TimesZ(b)), V.EvalAt(t, ZPow(|s|, b)), b);
    }
  }

  lemma {:induction false} EvalZeros(s: seq<int>, b: V.Vec)
    requires forall i :: 0 <= i < |s| ==> s[i] == 0
    ensures V.EvalAt(s, b) == V.ZERO
  {
    hide V.Add, V.Scale, V.TimesZ;
    if s != [] {
      EvalZeros(s[1..], V.TimesZ(b));
      V.AddLaws(b, b, b, b);
      V.AddLaws(V.ZERO, b, b, b);
    }
  }

  lemma EvalRow(x: seq<int>, y: seq<int>, i: nat, b: V.Vec)
    requires |x| == |y| == 7 && i < 7
    ensures V.EvalAt(Row(x, y, i), b) == V.Scale(x[i], V.EvalAt(y, ZPow(i, b)))
  {
    var r := Row(x, y, i);
    var lead, mid, tail := r[..i], r[i..i + 7], r[i + 7..];
    assert r == lead + mid + tail;
    V.EvalScaleLeft(y, mid, x[i], ZPow(i, b));
    hide Row;
    EvalPadded(lead, mid, tail, b);
  }

  /** Zeros on either side only move the list up. */
  lemma EvalPadded(lead: seq<int>, mid: seq<int>, tail: seq<int>, b: V.Vec)
    requires forall k :: 0 <= k < |lead| ==> lead[k] == 0
    requires forall k :: 0 <= k < |tail| ==> tail[k] == 0
    ensures V.EvalAt(lead + mid + tail, b) == V.EvalAt(mid, ZPow(|lead|, b))
  {
    hide V.Add, V.EvalAt, ZPow;
    var c := ZPow(|lead|, b);
    assert lead + mid + tail == lead + (mid + tail);
    EvalAppend(lead, mid + tail, b);
    EvalAppend(mid, tail, c);
    EvalZeros(lead, b);
    EvalZeros(tail, ZPow(|mid|, c));
    V.AddLaws(V.EvalAt(mid, c), b, b, b);
  }

  lemma {:induction false} EvalRows(x: seq<int>, y: seq<int>, i: nat)
    requires |x| == |y| == 7 && i <= 7
    ensures V.EvalAt(Rows(x, y, i), V.ONE) == V.EvalAt(x[..i], V.EvalAt(y, V.ONE))
  {
    hide V.Add, V.Scale, V.EvalAt, V.TimesZ, Row;
    if i == 0 {
      EvalZeros(Rows(x, y, 0), V.ONE);
      EvalZeros(x[..0], V.EvalAt(y, V.ONE));
    } else {
      var b := V.EvalAt(y, V.ONE);
      EvalRows(x, y, i - 1);
      V.EvalAddLeft(Rows(x, y, i - 1), Row(x, y, i - 1), V.ONE);
      EvalRow(x, y, i - 1, V.ONE);
      EvalZPow(y, i - 1, V.ONE);
      assert x[..i] == x[..i - 1] + [x[i - 1]];
      EvalAppend(x[..i - 1], [x[i - 1]], b);
      EvalSingle(x[i - 1], ZPow(i - 1, b));
    }
  }

  lemma EvalSingle(k: int, b: V.Vec)
    ensures V.EvalAt([k], b) == V.Scale(k, b)
  {
    hide V.Add, V.Scale, V.TimesZ;
    assert V.EvalAt([k][1..], V.TimesZ(b)) == V.ZERO;
    V.AddLaws(V.Scale(k, b), b, b, b);
  }

  /** The full product polynomial has the value a * b modulo z^7 - 3z - 5. */
  lemma FullProductValue(a: V.Vec, b: V.Vec)
    ensures V.EvalAt(FullProduct(a, b), V.ONE) == V.Mul(a, b)
  {
    hide V.EvalAt;
    EvalRows(V.Coefs(a), V.Coefs(b), 7);
    assert V.Coefs(a)[..7] == V.Coefs(a);
    V.MulOneRight(b);
  }

  // ---------------------------------------------------------------- the reduction pass

  /** The seven coefficients left by the reduction pass over thirteen. */
  ghost function Fold(w: seq<int>): V.Vec
    requires |w| == 13
  {
    V.Vec(w[0] + 5 * w[7], w[1] + 5 * w[8] + 3 * w[7], w[2] + 5 * w[9] + 3 * w[8], w[3] + 5 * w[10] + 3 * w[9],
          w[4] + 5 * w[11] + 3 * w[10], w[5] + 5 * w[12] + 3 * w[11], w[6] + 3 * w[12])
  }

  /** q times z^7 - 3z - 5, for six coefficients q. */
  ghost function TimesModulus(q: seq<int>): (r: seq<int>)
    requires |q| == 6
    ensures |r| == 13
  {
    var at := (k: int) => if 0 <= k < 6 then q[k] else 0;
    seq(13, k => at(k - 7) - 3 * at(k - 1) - 5 * at(k))
  }

  /** The reduction pass subtracts a multiple of z^7 - 3z - 5: the top coefficients times it. */
  lemma FoldIsRemainder(w: seq<int>, k: nat)
    requires |w| == 13 && k < 13
    ensures w[k] - TimesModulus(w[7..])[k] == if k < 7 then V.Coefs(Fold(w))[k] else 0
  {
  }

  lemma ZPowUnfold(k: nat, b: V.Vec)
    ensures ZPow(0, b) == b && ZPow(k + 1, b) == ZPow(k, V.TimesZ(b))
  {
  }

  lemma SevenShifts(k: nat, b: V.Vec)
    requires k == 7
    ensures ZPow(k, b) == V.Add(V.Scale(3, V.TimesZ(b)), V.Scale(5, b))
  {
    hide ZPow, V.TimesZ, V.Add, V.Scale;
    var b1 := V.TimesZ(b); var b2 := V.TimesZ(b1); var b3 := V.TimesZ(b2); var b4 := V.TimesZ(b3);
    var b5 := V.TimesZ(b4); var b6 := V.TimesZ(b5);
    ZPowUnfold(6, b); ZPowUnfold(5, b1); ZPowUnfold(4, b2); ZPowUnfold(3, b3); ZPowUnfold(2, b4); ZPowUnfold(1, b5);
    ZPowUnfold(0, b6); ZPowUnfold(0, V.TimesZ(b6));
    V.ZToTheSeventh(b);
  }

  ghost function Low(w: seq<int>): V.Vec
    requires |w| == 13
  {
    V.Vec(w[0], w[1], w[2], w[3], w[4], w[5], w[6])
  }

  ghost function High(w: seq<int>): V.Vec
    requires |w| == 13
  {
    V.Vec(w[7], w[8], w[9], w[10], w[11], w[12], 0)
  }

  lemma FoldParts(w: seq<int>)
    requires |w| == 13
    ensures Fold(w) == V.Add(Low(w), V.Mul(V.Vec(5, 3, 0, 0, 0, 0, 0), High(w)))
  {
    hide V.Mul;
    FoldHigh(High(w));
  }

  lemma SplitList(w: seq<int>)
    requires |w| == 13
    ensures w == V.Coefs(Low(w)) + w[7..] && V.Coefs(High(w)) == w[7..] + [0]
  {
  }

  /** The reduction pass keeps the value: low part plus (3z + 5) times the top part. */
  lemma FoldValue(w: seq<int>)
    requires |w| == 13
    ensures V.EvalAt(w, V.ONE) == Fold(w)
  {
    hide V.EvalAt, V.Add, V.Scale, V.TimesZ, V.Coefs, ZPow, Fold, Low, High;
    SplitList(w);
    FoldParts(w);
    FoldTop(w[7..], High(w));
    EvalAppend(V.Coefs(Low(w)), w[7..], V.ONE);
    SevenShifts(|V.Coefs(Low(w))|, V.ONE);
    assert V.Add(V.Scale(3, V.TimesZ(V.ONE)), V.Scale(5, V.ONE)) == V.Vec(5, 3, 0, 0, 0, 0, 0) by { ThreeZPlusFive(); }
    V.MulOneRight(Low(w));
  }

  lemma ThreeZPlusFive()
    ensures V.Add(V.Scale(3, V.TimesZ(V.ONE)), V.Scale(5, V.ONE)) == V.Vec(5, 3, 0, 0, 0, 0, 0)
  {
    var one := V.ONE;
    assert one.c0 == 1 && one.c1 == 0 && one.c2 == 0 && one.c3 == 0 && one.c4 == 0 && one.c5 == 0 && one.c6 == 0;
    hide V.Add, V.Scale, V.TimesZ;
    TimesThreeZPlusFive(one);
  }

  lemma TimesThreeZPlusFive(v: V.Vec)
    ensures V.Add(V.Scale(3, V.TimesZ(v)), V.Scale(5, v))
         == V.Vec(5 * v.c0 + 15 * v.c6, 5 * v.c1 + 3 * v.c0 + 9 * v.c6, 5 * v.c2 + 3 * v.c1, 5 * v.c3 + 3 * v.c2,
                  5 * v.c4 + 3 * v.c3, 5 * v.c5 + 3 * v.c4, 5 * v.c6 + 3 * v.c5)
  {
  }

  lemma FoldTop(t: seq<int>, high: V.Vec)
    requires |t| == 6 && V.Coefs(high) == t + [0]
    ensures V.EvalAt(t, V.Vec(5, 3, 0, 0, 0, 0, 0)) == V.Mul(V.Vec(5, 3, 0, 0, 0, 0, 0), high)
  {
    var z7 := V.Vec(5, 3, 0, 0, 0, 0, 0);
    hide V.EvalAt, V.Add, ZPow;
    V.MulComm(high, z7);
    EvalAppend(t, [0], z7);
    EvalZeros([0], ZPow(|t|, z7));
    V.AddLaws(V.EvalAt(t, z7), z7, z7, z7);
  }

  lemma FoldHigh(h: V.Vec)
    requires h.c6 == 0
    ensures V.Mul(V.Vec(5, 3, 0, 0, 0, 0, 0), h)
         == V.Vec(5 * h.c0, 5 * h.c1 + 3 * h.c0, 5 * h.c2 + 3 * h.c1, 5 * h.c3 + 3 * h.c2, 5 * h.c4 + 3 * h.c3,
             5 * h.c5 + 3 * h.c4, 3 * h.c5)
  {
    hide V.Mul;
    var b1 := V.TimesZ(h); var b2 := V.TimesZ(b1); var b3 := V.TimesZ(b2); var b4 := V.TimesZ(b3);
    var b5 := V.TimesZ(b4); var b6 := V.TimesZ(b5);
    V.MulTerms(V.Vec(5, 3, 0, 0, 0, 0, 0), h, b1, b2, b3, b4, b5, b6);
  }

  // ---------------------------------------------------------------- the loops

  lemma AddProduct(s: int, x: int, c: F.Fp)
    ensures F.Add(s % P, F.Mul(x % P, c)) == (s + x * c) % P
  {
    F.ModMul(x, c);
    var e := if s % P + (x * c) % P < P then 0 else 1;
    F.ModUnique(s + x * c, F.Add(s % P, (x * c) % P), s / P + (x * c) / P + e);
  }

  lemma RowsStep(x: seq<int>, y: seq<int>, i: nat, k: nat)
    requires |x| == |y| == 7 && i < 7 && k < 13
    ensures Rows(x, y, i + 1)[k] == Rows(x, y, i)[k] + (if i <= k < i + 7 then x[i] * y[k - i] else 0)
  {
    var rows, row := Rows(x, y, i), Row(x, y, i);
    assert Rows(x, y, i + 1) == V.AddLists(rows, row);
    assert row[k] == if i <= k < i + 7 then x[i] * y[k - i] else 0;
    hide Rows, Row;
    assert V.AddLists(rows, row)[k] == rows[k] + row[k];
  }

  /** The double loop. */
  method Schoolbook(x: seq<F.Fp>, y: seq<F.Fp>) returns (res: array<F.Fp>)
    requires |x| == |y| == 7
    ensures res.Length == 13
    ensures forall k :: 0 <= k < 13 ==> res[k] == Rows(x, y, 7)[k] % P
  {
    hide F.Add, F.Mul, Rows;
    res := new F.Fp[13](_ => 0);
    forall k | 0 <= k < 13 ensures Rows(x, y, 0)[k] % P == 0 { RowsStart(x, y, k); }
    for i := 0 to 7
      invariant forall k :: 0 <= k < 13 ==> res[k] == Rows(x, y, i)[k] % P
    {
      for j := 0 to 7
        invariant forall k :: 0 <= k < 13 ==> res[k] == Rows(x, y, if i <= k < i + j then i + 1 else i)[k] % P
      {
        AddProduct(Rows(x, y, i)[i + j], x[i], y[j]);
        RowsStep(x, y, i, i + j);
        assert x[i] % P == x[i] by { F.ModUnique(x[i], x[i], 0); }
        res[i + j] := F.Add(res[i + j], F.Mul(x[i], y[j]));
      }
      forall k | 0 <= k < 13 ensures res[k] == Rows(x, y, i + 1)[k] % P { RowsStep(x, y, i, k); }
    }
  }

  lemma RowsStart(x: seq<int>, y: seq<int>, k: nat)
    requires |x| == |y| == 7 && k < 13
    ensures Rows(x, y, 0)[k] % P == 0
  {
  }

  /** Coefficient k after the reduction pass has handled positions 7, ..., i - 1. */
  ghost function Folded(w: seq<int>, i: nat, k: nat): int
    requires |w| == 13 && i <= 13 && k < 7
  {
    w[k] + (if k + 7 < i then w[k + 7] * 5 else 0) + (if 1 <= k && k + 6 < i then w[k + 6] * 3 else 0)
  }

  lemma FoldedStep(w: seq<int>, i: nat, k: nat)
    requires |w| == 13 && 7 <= i < 13 && k < 7
    ensures Folded(w, i + 1, k)
         == Folded(w, i, k) + (if k == i - 7 then w[i] * 5 else if k == i - 6 then w[i] * 3 else 0)
    ensures Folded(w, 7, k) == w[k]
  {
  }

  lemma FoldedDone(w: seq<int>)
    requires |w| == 13
    ensures Fold(w) == V.Vec(Folded(w, 13, 0), Folded(w, 13, 1), Folded(w, 13, 2), Folded(w, 13, 3),
                             Folded(w, 13, 4), Folded(w, 13, 5), Folded(w, 13, 6))
  {
  }

  /** The single reduction loop, on a copy of the low seven coefficients. */
  method ReductionPass(res: array<F.Fp>, ghost w: seq<int>) returns (r: Septic)
    requires res.Length == |w| == 13
    requires forall k :: 0 <= k < 13 ==> res[k] == w[k] % P
    ensures r == Reduce(Fold(w))
  {
    hide F.Add, F.Mul, Folded, Fold;
    var ret := new F.Fp[7](i requires 0 <= i < 7 && res.Length == 13 reads res => res[i]);
    forall k | 0 <= k < 7 ensures ret[k] == Folded(w, 7, k) % P { FoldedStep(w, 7, k); }
    for i := 7 to 13
      invariant forall k :: 0 <= k < 13 ==> res[k] == w[k] % P
      invariant forall k :: 0 <= k < 7 ==> ret[k] == Folded(w, i, k) % P
    {
      AddProduct(Folded(w, i, i - 7), w[i], 5);
      AddProduct(Folded(w, i, i - 6), w[i], 3);
      ret[i - 7] := F.Add(ret[i - 7], F.Mul(res[i], 5));
      ret[i - 6] := F.Add(ret[i - 6], F.Mul(res[i], 3));
      forall k | 0 <= k < 7 ensures ret[k] == Folded(w, i + 1, k) % P { FoldedStep(w, i, k); }
    }
    r := V.Vec(ret[0], ret[1], ret[2], ret[3], ret[4], ret[5], ret[6]);
    FoldedDone(w);
  }

  /** `Mul::mul`. */
  method Multiply(a: Septic, b: Septic) returns (r: Septic)
    ensures r == Mul(a, b)
    ensures r == Reduce(Fold(FullProduct(a, b)))
  {
    hide Rows, V.Mul, V.EvalAt, Fold;
    var res := Schoolbook([a.c0, a.c1, a.c2, a.c3, a.c4, a.c5, a.c6], [b.c0, b.c1, b.c2, b.c3, b.c4, b.c5, b.c6]);
    ghost var w := FullProduct(a, b);
    assert V.Coefs(a) == [a.c0, a.c1, a.c2, a.c3, a.c4, a.c5, a.c6];
    assert V.Coefs(b) == [b.c0, b.c1, b.c2, b.c3, b.c4, b.c5, b.c6];
    r := ReductionPass(res, w);
    FullProductValue(a, b);
    FoldValue(w);
  }
}
