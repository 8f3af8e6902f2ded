/** `lift_x`, and the receive / send / exception ranges of a y-coordinate. */
module HashToCurve {
  import opened Basics
  import F = KoalaBear
  import V = SepticIntegers
  import opened SepticExtension
  import opened SepticField
  import opened SepticAlgebra
  import opened SepticCurve
  import opened SquareRoot

  const HALF_RANGE := 63 * 0x100_0000

  predicate IsReceive(y: Septic) { 1 <= y.c6 <= HALF_RANGE }
  predicate IsSend(y: Septic) { P - HALF_RANGE <= y.c6 <= P - 1 }
  predicate IsException(y: Septic) { y.c6 == 0 || HALF_RANGE < y.c6 < P - HALF_RANGE }

  /** The three ranges partition all y, and negation swaps receive with send. */
  lemma RangesPartition(y: Septic)
    ensures IsException(y) <==> !IsReceive(y) && !IsSend(y)
    ensures !(IsReceive(y) && IsSend(y))
    ensures IsReceive(Neg(y)) <==> IsSend(y)
    ensures IsSend(Neg(y)) <==> IsReceive(y)
    ensures IsException(Neg(y)) <==> IsException(y)
  {
  }

  type Message = s: seq<F.Fp> | |s| == 8 witness [0, 0, 0, 0, 0, 0, 0, 0]
  type Block = s: seq<F.Fp> | |s| == 16 witness [0, 0, 0, 0, 0, 0, 0, 0, 0, 0, 0, 0, 0, 0, 0, 0]

  /** The permutation input for one offset. */
  function Trial(m: Message, offset: nat): Block
    requires offset < 256
  {
    m[..7] + [F.Add(m[7], F.Mul(0x1_0000, offset))] + [0, 0, 0, 0, 0, 0, 0, 0]
  }

  /** The first trial is the message and eight zeros; each further offset adds 2^16 to word 7 and
      changes nothing else. */
  lemma TrialWords(m: Message, offset: nat)
    requires offset < 255
    ensures Trial(m, 0) == m + [0, 0, 0, 0, 0, 0, 0, 0]
    ensures Trial(m, offset + 1) == Trial(m, offset)[7 := F.Add(Trial(m, offset)[7], 0x1_0000)]
  {
    assert m == m[..7] + [m[7]];
    assert F.Mul(0x1_0000, offset) == 0x1_0000 * offset && F.Mul(0x1_0000, offset + 1) == 0x1_0000 * (offset + 1);
  }

  /** Different messages have different trials at every offset, and the 256 trials of a message differ. */
  lemma TrialInjective(m: Message, offset: nat, m': Message, offset': nat)
    requires offset < 256 && offset' < 256 && Trial(m, offset) == Trial(m', offset')
    ensures m == m' <==> offset == offset'
  {
    var t, t' := Trial(m, offset), Trial(m', offset');
    assert m == t[..7] + [m[7]] && m' == t'[..7] + [m'[7]];
    assert t[7] == t'[7];
    assert F.Mul(0x1_0000, offset) == 0x1_0000 * offset && F.Mul(0x1_0000, offset') == 0x1_0000 * offset';
  }

  /** The first seven words of a hash as an extension element. */
  function Head(h: Block): Septic {
    V.Vec(h[0], h[1], h[2], h[3], h[4], h[5], h[6])
  }

  function TrialX(m: Message, perm: Block -> Block, offset: nat): Septic
    requires offset < 256
  {
    Head(perm(Trial(m, offset)))
  }

  /** No root at this offset, or none outside the exceptional range. */
  ghost predicate Rejected(m: Message, perm: Block -> Block, offset: nat)
    requires offset < 256
  {
    forall y: Septic :: Square(y) == CurveFormula(TrialX(m, perm, offset)) ==> IsException(y)
  }

  lemma RootsUpToSign(y: Septic, r: Septic)
    requires Square(y) == Square(r)
    ensures y == r || y == Neg(r)
  {
    hide Mul, Sub, Add, Neg;
    DiffSquares(r, y);
    SubNonZero(Square(r), Square(y));
    NoZeroDivisors(Sub(r, y), Add(r, y));
    SubNonZero(r, y);
    NegFromSum(r, y);
  }

  datatype Lift = Lift(point: Point, offset: nat, trial: Block, hash: Block)

  /** What a successful lift at an offset is: the on-curve point over that x whose y is the only
      root in the receive range. */
  ghost predicate IsLift(m: Message, perm: Block -> Block, l: Lift) {
    && l.offset < 256
    && l.trial == Trial(m, l.offset) && l.hash == perm(l.trial) && l.point.x == Head(l.hash)
    && OnCurve(l.point) && IsReceive(l.point.y)
    && (forall y: Septic :: Square(y) == CurveFormula(l.point.x) && IsReceive(y) ==> y == l.point.y)
  }

  lemma LiftFromRoot(x: Septic, r: Septic, y: Septic)
    requires Square(r) == CurveFormula(x) && !IsException(r)
    requires y == if IsSend(r) then Neg(r) else r
    ensures OnCurve(Point(x, y)) && IsReceive(y)
    ensures forall y': Septic :: Square(y') == CurveFormula(x) && IsReceive(y') ==> y' == y
  {
    hide Mul, CurveFormula, Neg;
    RangesPartition(r);
    NegSquare(r);
    forall y': Septic | Square(y') == CurveFormula(x) && IsReceive(y') ensures y' == y {
      RootsUpToSign(y', r);
      RangesPartition(y');
    }
  }

  lemma RejectRoot(m: Message, perm: Block -> Block, offset: nat, r: Septic)
    requires offset < 256
    requires Square(r) == CurveFormula(TrialX(m, perm, offset)) && IsException(r)
    ensures Rejected(m, perm, offset)
  {
    hide Mul, CurveFormula, Neg, TrialX, IsException;
    forall y: Septic | Square(y) == CurveFormula(TrialX(m, perm, offset)) ensures IsException(y) {
      RootsUpToSign(y, r);
      RangesPartition(r);
    }
  }

  /** `lift_x`, for any permutation; `None` is the panic after 256 attempts. */
  method LiftX(m: Message, perm: Block -> Block) returns (r: Option<Lift>)
    ensures r.Some? ==> IsLift(m, perm, r.value)
    ensures r.Some? ==> V.Coefs(r.value.point.x) == r.value.hash[..7] && 1 <= r.value.point.y.c6 <= 63 * 0x100_0000
    ensures r.Some? ==> forall o :: 0 <= o < r.value.offset ==> Rejected(m, perm, o)
    ensures r.None? ==> forall o :: 0 <= o < 256 ==> Rejected(m, perm, o)
  {
    hide Mul, CurveFormula, Neg, Trial, IsException;
    for offset := 0 to 256
      invariant forall o :: 0 <= o < offset ==> Rejected(m, perm, o)
    {
      var trial := Trial(m, offset);
      var hash := perm(trial);
      var x := Head(hash);
      var root := Sqrt(CurveFormula(x));
      if root.Some? {
        var y := root.value;
        if IsException(y) {
          RejectRoot(m, perm, offset, y);
          continue;
        }
        LiftFromRoot(x, y, if IsSend(y) then Neg(y) else y);
        if IsSend(y) {
          return Some(Lift(Point(x, Neg(y)), offset, trial, hash));
        }
        return Some(Lift(Point(x, y), offset, trial, hash));
      }
    }
    r := None;
  }
}
