/** `polynomial.rs`: dense polynomials over a commutative ring, evaluated in an extension of it. */
module Polynomials {
  import opened Rings

  /** A ring, a ring over it, and the embedding of the one in the other. */
  datatype Extension<!T, !S> = Extension(base: Ring<T>, over: Ring<S>, embed: T -> S)

  ghost predicate HomAt<T, S>(E: Extension<T, S>, a: T, b: T) {
    && E.embed(E.base.add(a, b)) == E.over.add(E.embed(a), E.embed(b))
    && E.embed(E.base.mul(a, b)) == E.over.mul(E.embed(a), E.embed(b))
    && E.embed(E.base.zero) == E.over.zero
    && E.embed(E.base.one) == E.over.one
  }

  ghost predicate IsExtension<T(!new), S(!new)>(E: Extension<T, S>) {
    IsRing(E.base) && IsRing(E.over) && forall a, b :: HomAt(E, a, b)
  }

  function Coefficient<T>(R: Ring<T>, p: seq<T>, i: nat): T { if i < |p| then p[i] else R.zero }

  /** The first n terms of the sum of powers of x times coefficients. */
  ghost function EvalTo<T, S>(E: Extension<T, S>, p: seq<T>, x: S, n: nat): S {
    if n == 0 then E.over.zero
    else E.over.add(EvalTo(E, p, x, n - 1),
                    E.over.mul(Pow(E.over, x, n - 1), E.embed(Coefficient(E.base, p, n - 1))))
  }

  /** `eval`. */
  ghost function Eval<T, S>(E: Extension<T, S>, p: seq<T>, x: S): S { EvalTo(E, p, x, |p|) }

  lemma {:induction false} EvalPad<T(!new), S(!new)>(E: Extension<T, S>, p: seq<T>, x: S, n: nat)
    requires IsExtension(E) && n >= |p|
    ensures EvalTo(E, p, x, n) == Eval(E, p, x)
  {
    if n > |p| {
      EvalPad(E, p, x, n - 1);
      assert HomAt(E, E.base.zero, E.base.zero);
      ZeroTimes(E.over, Pow(E.over, x, n - 1));
      AddZero(E.over, Eval(E, p, x));
    }
  }

  lemma AddZero<T(!new)>(R: Ring<T>, a: T)
    requires IsRing(R)
    ensures R.add(a, R.zero) == a && R.add(R.zero, a) == a
  {
    assert LawsAt(R, a, R.zero, a);
  }

  /** A constant has its own value everywhere, and X has the value x at x. With sums and products, these
      determine all values. */
  lemma EvalGenerators<T(!new), S(!new)>(E: Extension<T, S>, c: T, x: S)
    requires IsExtension(E)
    ensures Eval(E, [c], x) == E.embed(c)
    ensures Eval(E, [E.base.zero, E.base.one], x) == x
  {
    var R, p := E.over, [E.base.zero, E.base.one];
    assert HomAt(E, c, c) && LawsAt(R, E.embed(c), R.zero, R.zero) && LawsAt(R, x, R.one, R.zero);
    assert EvalTo(E, [c], x, 1) == R.add(R.zero, R.mul(R.one, E.embed(c)));
    assert EvalTo(E, p, x, 1) == R.add(R.zero, R.mul(R.one, R.zero));
    assert Pow(R, x, 1) == R.mul(x, Pow(R, x, 0)) == x;
    AddZero(R, R.mul(R.one, R.zero));
    assert LawsAt(R, R.zero, R.one, R.one) && LawsAt(R, R.one, x, x);
    AddZero(R, R.mul(x, R.one));
  }

  // ---------------------------------------------------------------- equality

  /** The same coefficients, where a missing one counts as zero. */
  ghost predicate Same<T>(R: Ring<T>, p: seq<T>, q: seq<T>) {
    forall i: nat :: Coefficient(R, p, i) == Coefficient(R, q, i)
  }

  /** `PartialEq::eq`. */
  method Equals<T(==)>(R: Ring<T>, p: seq<T>, q: seq<T>) returns (same: bool)
    ensures same <==> Same(R, p, q)
  {
    if |p| != |q| {
      var shorter, longer := if |p| < |q| then p else q, if |p| < |q| then q else p;
      for i := 0 to |longer|
        invariant forall k: nat :: k < i ==> Coefficient(R, p, k) == Coefficient(R, q, k)
      {
        if (i < |shorter| && shorter[i] != longer[i]) || (i >= |shorter| && longer[i] != R.zero) {
          assert Coefficient(R, p, i) != Coefficient(R, q, i);
          return false;
        }
      }
      return true;
    }
    if Same(R, p, q) {
      forall i | 0 <= i < |p| ensures p[i] == q[i] { assert Coefficient(R, p, i) == Coefficient(R, q, i); }
    }
    return p == q;
  }

  lemma {:induction false} SameTo<T, S>(E: Extension<T, S>, p: seq<T>, q: seq<T>, x: S, n: nat)
    requires forall i: nat :: i < n ==> Coefficient(E.base, p, i) == Coefficient(E.base, q, i)
    ensures EvalTo(E, p, x, n) == EvalTo(E, q, x, n)
  {
    if n > 0 { SameTo(E, p, q, x, n - 1); }
  }

  lemma SameEval<T(!new), S(!new)>(E: Extension<T, S>, p: seq<T>, q: seq<T>, x: S)
    requires IsExtension(E) && Same(E.base, p, q)
    ensures Eval(E, p, x) == Eval(E, q, x)
  {
    var n := |p| + |q|;
    EvalPad(E, p, x, n);
    EvalPad(E, q, x, n);
    SameTo(E, p, q, x, n);
  }

  // ---------------------------------------------------------------- sum and difference

  /** `Add`: pairs while both last, then the rest of the longer one. */
  function Plus<T>(R: Ring<T>, p: seq<T>, q: seq<T>): seq<T> {
    seq(if |p| > |q| then |p| else |q|, i requires 0 <= i =>
      if i < |p| && i < |q| then R.add(p[i], q[i]) else if i < |p| then p[i] else Coefficient(R, q, i))
  }

  /** `Sub`. */
  function Minus<T>(R: Ring<T>, p: seq<T>, q: seq<T>): seq<T> {
    seq(if |p| > |q| then |p| else |q|, i requires 0 <= i =>
      if i < |p| && i < |q| then R.add(p[i], R.neg(q[i]))
      else if i < |p| then p[i] else R.neg(Coefficient(R, q, i)))
  }

  lemma PlusAt<T(!new)>(R: Ring<T>, p: seq<T>, q: seq<T>, i: nat)
    requires IsRing(R)
    ensures Coefficient(R, Plus(R, p, q), i) == R.add(Coefficient(R, p, i), Coefficient(R, q, i))
  {
    AddZero(R, Coefficient(R, p, i));
    AddZero(R, Coefficient(R, q, i));
  }

  lemma MinusAt<T(!new)>(R: Ring<T>, p: seq<T>, q: seq<T>, i: nat)
    requires IsRing(R)
    ensures Coefficient(R, Minus(R, p, q), i) == R.add(Coefficient(R, p, i), R.neg(Coefficient(R, q, i)))
  {
    AddZero(R, Coefficient(R, p, i));
    AddZero(R, R.neg(Coefficient(R, q, i)));
    AddZero(R, R.neg(R.zero));
    assert LawsAt(R, R.zero, R.zero, R.zero);
  }

  /** If coefficients add up, so do the values. */
  lemma {:induction false} SumTo<T(!new), S(!new)>(E: Extension<T, S>, s: seq<T>, p: seq<T>, q: seq<T>, x: S, n: nat)
    requires IsExtension(E)
    requires forall i: nat :: i < n ==>
      Coefficient(E.base, s, i) == E.base.add(Coefficient(E.base, p, i), Coefficient(E.base, q, i))
    ensures EvalTo(E, s, x, n) == E.over.add(EvalTo(E, p, x, n), EvalTo(E, q, x, n))
  {
    if n == 0 {
      AddZero(E.over, E.over.zero);
    } else {
      SumTo(E, s, p, q, x, n - 1);
      var a, b := Coefficient(E.base, p, n - 1), Coefficient(E.base, q, n - 1);
      var w := Pow(E.over, x, n - 1);
      assert HomAt(E, a, b) && LawsAt(E.over, w, E.embed(a), E.embed(b));
      AddCross(E.over, EvalTo(E, p, x, n - 1), EvalTo(E, q, x, n - 1),
        E.over.mul(w, E.embed(a)), E.over.mul(w, E.embed(b)));
    }
  }

  lemma EvalPlus<T(!new), S(!new)>(E: Extension<T, S>, p: seq<T>, q: seq<T>, x: S)
    requires IsExtension(E)
    ensures Eval(E, Plus(E.base, p, q), x) == E.over.add(Eval(E, p, x), Eval(E, q, x))
  {
    var s := Plus(E.base, p, q);
    forall i: nat
      ensures Coefficient(E.base, s, i) == E.base.add(Coefficient(E.base, p, i), Coefficient(E.base, q, i))
    {
      PlusAt(E.base, p, q, i);
    }
    SumTo(E, s, p, q, x, |s|);
    EvalPad(E, p, x, |s|);
    EvalPad(E, q, x, |s|);
  }

  lemma EvalMinus<T(!new), S(!new)>(E: Extension<T, S>, p: seq<T>, q: seq<T>, x: S)
    requires IsExtension(E)
    ensures Eval(E, Minus(E.base, p, q), x) == E.over.add(Eval(E, p, x), E.over.neg(Eval(E, q, x)))
  {
    var d := Minus(E.base, p, q);
    forall i: nat
      ensures Coefficient(E.base, p, i) == E.base.add(Coefficient(E.base, d, i), Coefficient(E.base, q, i))
    {
      MinusAt(E.base, p, q, i);
      Undo(E.base, Coefficient(E.base, p, i), Coefficient(E.base, q, i));
    }
    SumTo(E, p, d, q, x, |d|);
    EvalPad(E, p, x, |d|);
    EvalPad(E, q, x, |d|);
    Redo(E.over, Eval(E, d, x), Eval(E, q, x));
  }

  lemma Undo<T(!new)>(R: Ring<T>, a: T, b: T)
    requires IsRing(R)
    ensures R.add(R.add(a, R.neg(b)), b) == a
  {
    assert LawsAt(R, a, R.neg(b), b) && LawsAt(R, b, R.neg(b), b);
    AddZero(R, a);
  }

  lemma Redo<T(!new)>(R: Ring<T>, a: T, b: T)
    requires IsRing(R)
    ensures R.add(R.add(a, b), R.neg(b)) == a
  {
    assert LawsAt(R, a, b, R.neg(b)) && LawsAt(R, b, a, a);
    AddZero(R, a);
  }

  // ---------------------------------------------------------------- product

  /** Coefficient k of the product, from the first i rows. */
  ghost function Conv<T>(R: Ring<T>, p: seq<T>, q: seq<T>, k: nat, i: nat): T
    requires i <= |p|
  {
    if i == 0 then R.zero
    else
      var c := Conv(R, p, q, k, i - 1);
      if i - 1 <= k < i - 1 + |q| then R.add(c, R.mul(p[i - 1], q[k - (i - 1)])) else c
  }

  /** The product of polynomials: coefficient k is the sum of p[i] * q[k - i]. */
  ghost function Product<T>(R: Ring<T>, p: seq<T>, q: seq<T>): (r: seq<T>)
    requires |p| + |q| >= 1
    ensures |r| == |p| + |q| - 1
  {
    seq(|p| + |q| - 1, k requires 0 <= k => Conv(R, p, q, k, |p|))
  }

  /** Coefficient k once i rows and j entries of the next row are in. */
  ghost function Partial<T>(R: Ring<T>, p: seq<T>, q: seq<T>, i: nat, j: nat, k: nat): T
    requires i <= |p| && j <= |q| && (j > 0 ==> i < |p|)
  {
    if i <= k < i + j then R.add(Conv(R, p, q, k, i), R.mul(p[i], q[k - i])) else Conv(R, p, q, k, i)
  }

  lemma RowDone<T>(R: Ring<T>, p: seq<T>, q: seq<T>, i: nat, k: nat)
    requires i < |p|
    ensures Partial(R, p, q, i, |q|, k) == Conv(R, p, q, k, i + 1)
  {
  }

  /** `Mul`: both loops update one buffer in place. */
  method Multiply<T>(R: Ring<T>, p: seq<T>, q: seq<T>) returns (r: seq<T>)
    requires |p| + |q| >= 1
    ensures r == Product(R, p, q)
  {
    var result := new T[|p| + |q| - 1](_ => R.zero);
    assert forall k: nat :: Conv(R, p, q, k, 0) == R.zero;
    hide Conv;
    for i := 0 to |p|
      invariant forall k :: 0 <= k < result.Length ==> result[k] == Conv(R, p, q, k, i)
    {
      AddRow(R, p, q, i, result);
    }
    r := result[..];
  }

  /** The inner loop of `Mul`. */
  method AddRow<T>(R: Ring<T>, p: seq<T>, q: seq<T>, i: nat, result: array<T>)
    requires i < |p| && result.Length == |p| + |q| - 1
    requires forall k :: 0 <= k < result.Length ==> result[k] == Conv(R, p, q, k, i)
    modifies result
    ensures forall k :: 0 <= k < result.Length ==> result[k] == Conv(R, p, q, k, i + 1)
  {
    hide Conv;
    for j := 0 to |q|
      invariant forall k :: 0 <= k < result.Length ==> result[k] == Partial(R, p, q, i, j, k)
    {
      result[i + j] := R.add(result[i + j], R.mul(p[i], q[j]));
    }
    forall k | 0 <= k < result.Length ensures result[k] == Conv(R, p, q, k, i + 1) { RowDone(R, p, q, i, k); }
  }

  ghost function Stage<T>(R: Ring<T>, p: seq<T>, q: seq<T>, i: nat, j: nat): (r: seq<T>)
    requires i < |p| && j <= |q|
    ensures |r| == |p| + |q| - 1
  {
    seq(|p| + |q| - 1, k requires 0 <= k => Partial(R, p, q, i, j, k))
  }

  lemma {:induction false} EvalZeros<T(!new), S(!new)>(E: Extension<T, S>, p: seq<T>, x: S, n: nat)
    requires IsExtension(E) && forall i :: 0 <= i < |p| ==> p[i] == E.base.zero
    ensures EvalTo(E, p, x, n) == E.over.zero
  {
    if n > 0 {
      EvalZeros(E, p, x, n - 1);
      assert HomAt(E, E.base.zero, E.base.zero);
      ZeroTimes(E.over, Pow(E.over, x, n - 1));
      AddZero(E.over, E.over.zero);
    }
  }

  lemma EvalStep<T, S>(E: Extension<T, S>, p: seq<T>, x: S, n: nat)
    requires n > 0
    ensures EvalTo(E, p, x, n) == E.over.add(EvalTo(E, p, x, n - 1),
              E.over.mul(Pow(E.over, x, n - 1), E.embed(Coefficient(E.base, p, n - 1))))
  {
  }

  lemma AddSwap<T(!new)>(R: Ring<T>, a: T, m: T, d: T)
    requires IsRing(R)
    ensures R.add(R.add(a, d), m) == R.add(R.add(a, m), d) == R.add(a, R.add(m, d))
  {
    assert LawsAt(R, a, d, m) && LawsAt(R, a, m, d) && LawsAt(R, d, m, d);
  }

  /** Adding v to coefficient k adds x^k * v to the value. */
  lemma {:induction false} EvalUpdate<T(!new), S(!new)>(E: Extension<T, S>, p: seq<T>, x: S, n: nat, k: nat, v: T)
    requires IsExtension(E) && k < n <= |p|
    ensures EvalTo(E, p[k := E.base.add(p[k], v)], x, n)
         == E.over.add(EvalTo(E, p, x, n), E.over.mul(Pow(E.over, x, k), E.embed(v)))
  {
    hide EvalTo, Pow;
    var u := p[k := E.base.add(p[k], v)];
    var w, e := Pow(E.over, x, n - 1), E.embed(p[n - 1]);
    EvalStep(E, p, x, n);
    EvalStep(E, u, x, n);
    AddSwap(E.over, EvalTo(E, p, x, n - 1), E.over.mul(w, e), E.over.mul(Pow(E.over, x, k), E.embed(v)));
    if k == n - 1 {
      SameTo(E, u, p, x, n - 1);
      assert HomAt(E, p[k], v) && LawsAt(E.over, w, e, E.embed(v));
    } else {
      EvalUpdate(E, p, x, n - 1, k, v);
    }
  }

  /** One more entry of row i. */
  lemma StageGrows<T(!new)>(R: Ring<T>, p: seq<T>, q: seq<T>, i: nat, j: nat)
    requires i < |p| && 0 < j <= |q|
    ensures var prev := Stage(R, p, q, i, j - 1);
      Stage(R, p, q, i, j) == prev[i + j - 1 := R.add(prev[i + j - 1], R.mul(p[i], q[j - 1]))]
  {
    hide Conv;
  }

  lemma StageTerm<T(!new), S(!new)>(E: Extension<T, S>, x: S, i: nat, j: nat, a: T, b: T)
    requires IsExtension(E)
    ensures E.over.mul(Pow(E.over, x, i + j), E.embed(E.base.mul(a, b)))
         == E.over.mul(E.over.mul(Pow(E.over, x, i), E.embed(a)), E.over.mul(Pow(E.over, x, j), E.embed(b)))
  {
    PowAdd(E.over, x, i, j);
    assert HomAt(E, a, b);
    MulCross(E.over, Pow(E.over, x, i), Pow(E.over, x, j), E.embed(a), E.embed(b));
  }

  ghost function StageValue<T, S>(E: Extension<T, S>, p: seq<T>, q: seq<T>, x: S, i: nat, j: nat): S
    requires i < |p| && j <= |q|
  {
    E.over.add(E.over.mul(EvalTo(E, p, x, i), Eval(E, q, x)),
               E.over.mul(E.over.mul(Pow(E.over, x, i), E.embed(p[i])), EvalTo(E, q, x, j)))
  }

  lemma StageValueStep<T(!new), S(!new)>(E: Extension<T, S>, p: seq<T>, q: seq<T>, x: S, i: nat, j: nat)
    requires IsExtension(E) && i < |p| && 0 < j <= |q|
    ensures StageValue(E, p, q, x, i, j) == E.over.add(StageValue(E, p, q, x, i, j - 1),
              E.over.mul(Pow(E.over, x, i + j - 1), E.embed(E.base.mul(p[i], q[j - 1]))))
  {
    hide EvalTo, Pow, Eval;
    var S := E.over;
    var row, term := S.mul(Pow(S, x, i), E.embed(p[i])), S.mul(Pow(S, x, j - 1), E.embed(q[j - 1]));
    EvalStep(E, q, x, j);
    StageTerm(E, x, i, j - 1, p[i], q[j - 1]);
    assert LawsAt(S, row, EvalTo(E, q, x, j - 1), term);
    AddSwap(S, S.mul(EvalTo(E, p, x, i), Eval(E, q, x)), S.mul(row, EvalTo(E, q, x, j - 1)), S.mul(row, term));
  }

  /** The next row starts where the last one ended. */
  lemma StageTurn<T(!new), S(!new)>(E: Extension<T, S>, p: seq<T>, q: seq<T>, x: S, i: nat)
    requires IsExtension(E) && i < |p|
    ensures StageValue(E, p, q, x, i, 0) == if i == 0 then E.over.zero else StageValue(E, p, q, x, i - 1, |q|)
    ensures i > 0 ==> Stage(E.base, p, q, i, 0) == Stage(E.base, p, q, i - 1, |q|)
  {
    var S := E.over;
    var base := S.mul(EvalTo(E, p, x, i), Eval(E, q, x));
    ZeroTimes(S, S.mul(Pow(S, x, i), E.embed(p[i])));
    AddZero(S, base);
    ZeroTimes(S, Eval(E, q, x));
    if i > 0 { PrefixTimes(E, p, q, x, i); }
  }

  lemma {:induction false} StageEval<T(!new), S(!new)>(E: Extension<T, S>, p: seq<T>, q: seq<T>, x: S, i: nat, j: nat)
    requires IsExtension(E) && i < |p| && j <= |q|
    ensures Eval(E, Stage(E.base, p, q, i, j), x) == StageValue(E, p, q, x, i, j)
    decreases i, j
  {
    hide EvalTo, Pow, Conv, StageValue;
    var now := Stage(E.base, p, q, i, j);
    if j > 0 {
      StageEval(E, p, q, x, i, j - 1);
      StageGrows(E.base, p, q, i, j);
      var prev := Stage(E.base, p, q, i, j - 1);
      EvalUpdate(E, prev, x, |prev|, i + j - 1, E.base.mul(p[i], q[j - 1]));
      StageValueStep(E, p, q, x, i, j);
    } else {
      StageTurn(E, p, q, x, i);
      if i == 0 { StageZero(E, p, q, x); } else { StageEval(E, p, q, x, i - 1, |q|); }
    }
  }

  lemma StageZero<T(!new), S(!new)>(E: Extension<T, S>, p: seq<T>, q: seq<T>, x: S)
    requires IsExtension(E) && |p| > 0
    ensures Eval(E, Stage(E.base, p, q, 0, 0), x) == E.over.zero
  {
    EvalZeros(E, Stage(E.base, p, q, 0, 0), x, |p| + |q| - 1);
  }

  lemma PrefixTimes<T(!new), S(!new)>(E: Extension<T, S>, p: seq<T>, q: seq<T>, x: S, i: nat)
    requires IsExtension(E) && 0 < i <= |p|
    ensures E.over.mul(EvalTo(E, p, x, i), Eval(E, q, x))
         == E.over.add(E.over.mul(EvalTo(E, p, x, i - 1), Eval(E, q, x)),
                       E.over.mul(E.over.mul(Pow(E.over, x, i - 1), E.embed(p[i - 1])), Eval(E, q, x)))
  {
    var S := E.over;
    var a, b, c := EvalTo(E, p, x, i - 1), S.mul(Pow(S, x, i - 1), E.embed(p[i - 1])), Eval(E, q, x);
    assert LawsAt(S, c, a, b) && LawsAt(S, c, S.add(a, b), a) && LawsAt(S, a, c, c) && LawsAt(S, b, c, c);
  }

  lemma LastStage<T>(R: Ring<T>, p: seq<T>, q: seq<T>)
    requires |p| > 0
    ensures Product(R, p, q) == Stage(R, p, q, |p| - 1, |q|)
  {
    forall k: nat | k < |p| + |q| - 1 ensures Product(R, p, q)[k] == Stage(R, p, q, |p| - 1, |q|)[k] {
      assert Conv(R, p, q, k, |p|) == Partial(R, p, q, |p| - 1, |q|, k);
    }
  }

  /** The value of a product is the product of the values. */
  lemma EvalProduct<T(!new), S(!new)>(E: Extension<T, S>, p: seq<T>, q: seq<T>, x: S)
    requires IsExtension(E) && |p| + |q| >= 1
    ensures Eval(E, Product(E.base, p, q), x) == E.over.mul(Eval(E, p, x), Eval(E, q, x))
  {
    hide Pow, Stage;
    if |p| == 0 {
      EvalZeros(E, Product(E.base, p, q), x, |q| - 1);
      ZeroTimes(E.over, Eval(E, q, x));
    } else {
      hide EvalTo, Conv, Product;
      LastStage(E.base, p, q);
      StageEval(E, p, q, x, |p| - 1, |q|);
      PrefixTimes(E, p, q, x, |p|);
    }
  }

  // ---------------------------------------------------------------- synthetic division

  ghost function Itself<T>(R: Ring<T>): Extension<T, T> { Extension(R, R, a => a) }

  /** -r * q[0] is p[0], and q[i - 1] - r * q[i] is p[i]. */
  ghost predicate IsQuotient<T>(R: Ring<T>, p: seq<T>, r: T, q: seq<T>) {
    && |p| >= 1 && |q| == (if |p| >= 2 then |p| - 1 else 1)
    && R.mul(R.neg(r), q[0]) == p[0]
    && forall i :: 1 <= i < |q| ==> R.add(R.mul(R.neg(r), q[i]), q[i - 1]) == p[i]
  }

  lemma NegTimes<T(!new)>(R: Ring<T>, a: T, b: T)
    requires IsRing(R)
    ensures R.mul(R.neg(a), b) == R.neg(R.mul(a, b))
  {
    var ab, nab := R.mul(a, b), R.mul(R.neg(a), b);
    assert LawsAt(R, b, a, R.neg(a)) && LawsAt(R, a, b, b) && LawsAt(R, R.neg(a), b, b) && LawsAt(R, ab, ab, ab);
    ZeroTimes(R, b);
    AddCancel(R, ab, nab, R.neg(ab));
  }

  /** The entry (b - c) / r of the quotient solves b - r * entry == c. */
  lemma Shifted<T(!new)>(R: Ring<T>, r: T, rInv: T, c: T, b: T)
    requires IsRing(R) && R.mul(r, rInv) == R.one
    ensures R.add(R.mul(R.neg(r), R.mul(R.add(b, R.neg(c)), rInv)), b) == c
  {
    var x := R.add(b, R.neg(c));
    var y := R.mul(R.neg(r), R.mul(x, rInv));
    assert y == R.neg(x) by {
      assert LawsAt(R, x, rInv, x) && LawsAt(R, R.neg(r), rInv, x) && LawsAt(R, x, x, x);
      NegTimes(R, r, rInv);
      NegTimes(R, R.one, x);
    }
    Undo(R, b, c);
    assert LawsAt(R, y, x, c) && LawsAt(R, x, c, c);
    AddZero(R, c);
  }

  lemma LinearTimes<T(!new)>(R: Ring<T>, r: T, q: seq<T>, k: nat)
    requires IsRing(R) && |q| >= 1 && k <= |q|
    ensures Product(R, [R.neg(r), R.one], q)[k] ==
      if k == 0 then R.mul(R.neg(r), q[0])
      else if k < |q| then R.add(R.mul(R.neg(r), q[k]), q[k - 1])
      else q[k - 1]
  {
    var p := [R.neg(r), R.one];
    if k < |q| { AddZero(R, R.mul(R.neg(r), q[k])); }
    if k > 0 { assert LawsAt(R, q[k - 1], q[k - 1], q[k - 1]); }
    var c := Conv(R, p, q, k, 1);
    assert Conv(R, p, q, k, 0) == R.zero;
    assert c == if k < |q| then R.add(R.zero, R.mul(p[0], q[k])) else R.zero;
    assert Conv(R, p, q, k, 2) == if 1 <= k then R.add(c, R.mul(p[1], q[k - 1])) else c;
    if k == |q| { AddZero(R, q[k - 1]); }
  }

  /** X - r vanishes at r. */
  lemma LinearAtRoot<T(!new)>(R: Ring<T>, r: T)
    requires IsRing(R)
    ensures Eval(Itself(R), [R.neg(r), R.one], r) == R.zero
  {
    var E, p := Itself(R), [R.neg(r), R.one];
    assert EvalTo(E, p, r, 1) == R.add(R.zero, R.mul(R.one, R.neg(r)));
    assert LawsAt(R, R.neg(r), r, r) && LawsAt(R, r, R.one, r) && LawsAt(R, R.one, r, r);
    assert Pow(R, r, 1) == R.mul(r, Pow(R, r, 0)) == r;
  }

  lemma {:induction false} PowCancel<T(!new)>(R: Ring<T>, r: T, rInv: T, n: nat, d: T)
    requires IsRing(R) && R.mul(r, rInv) == R.one
    ensures R.mul(Pow(R, r, n), d) == R.zero ==> d == R.zero
  {
    if n == 0 {
      assert LawsAt(R, d, d, d);
    } else {
      var y := R.mul(Pow(R, r, n - 1), d);
      assert LawsAt(R, r, Pow(R, r, n - 1), d) && LawsAt(R, rInv, r, y) && LawsAt(R, y, y, y);
      ZeroTimes(R, rInv);
      PowCancel(R, r, rInv, n - 1, d);
    }
  }

  /** Dividing by X - r is exact, as the polynomials compare, exactly when r is a root. */
  lemma QuotientExact<T(!new)>(R: Ring<T>, p: seq<T>, r: T, rInv: T, q: seq<T>)
    requires IsRing(R) && R.mul(r, rInv) == R.one && IsQuotient(R, p, r, q)
    ensures Same(R, Product(R, [R.neg(r), R.one], q), p) <==> Eval(Itself(R), p, r) == R.zero
  {
    var E, top := Itself(R), |q|;
    var prod := Product(R, [R.neg(r), R.one], q);
    var d := R.add(Coefficient(R, p, top), R.neg(prod[top]));
    forall k: nat | k != top ensures Coefficient(R, prod, k) == Coefficient(R, p, k) {
      if k < top { LinearTimes(R, r, q, k); }
    }
    Remainder(R, p, r, prod, top);
    assert Eval(E, prod, r) == R.zero by {
      EvalProduct(E, [R.neg(r), R.one], q, r);
      LinearAtRoot(R, r);
      ZeroTimes(R, Eval(E, q, r));
    }
    var w := Pow(R, r, top);
    AddZero(R, R.mul(w, d));
    PowCancel(R, r, rInv, top, d);
    ZeroTimes(R, w);
    ZeroDifference(R, Coefficient(R, p, top), prod[top]);
    assert Same(R, prod, p) <==> Coefficient(R, prod, top) == Coefficient(R, p, top);
  }

  lemma ZeroDifference<T(!new)>(R: Ring<T>, a: T, b: T)
    requires IsRing(R)
    ensures R.add(a, R.neg(b)) == R.zero <==> a == b
  {
    Undo(R, a, b);
    AddZero(R, b);
    assert LawsAt(R, a, b, b);
  }

  /** Polynomials that differ only in coefficient k differ in value by x^k times the difference. */
  lemma Remainder<T(!new)>(R: Ring<T>, p: seq<T>, x: T, s: seq<T>, k: nat)
    requires IsRing(R) && k < |s| && forall i: nat :: i != k ==> Coefficient(R, s, i) == Coefficient(R, p, i)
    ensures Eval(Itself(R), p, x) == R.add(Eval(Itself(R), s, x),
              R.mul(Pow(R, x, k), R.add(Coefficient(R, p, k), R.neg(s[k]))))
  {
    var E, d := Itself(R), R.add(Coefficient(R, p, k), R.neg(s[k]));
    var u := s[k := R.add(s[k], d)];
    assert u[k] == Coefficient(R, p, k) by {
      Undo(R, Coefficient(R, p, k), s[k]);
      assert LawsAt(R, s[k], d, d);
    }
    forall i: nat ensures Coefficient(R, u, i) == Coefficient(R, p, i) {
      if i != k { assert Coefficient(R, s, i) == Coefficient(R, p, i); }
    }
    EvalUpdate(E, s, x, |s|, k, d);
    SameEval(E, u, p, x);
  }

  /** `root_quotient`; `rInv` is `r.inverse()`. The source indexes coefficient 0 and so needs one. */
  method RootQuotient<T(!new)>(R: Ring<T>, p: seq<T>, r: T, rInv: T) returns (result: seq<T>)
    requires IsRing(R) && R.mul(r, rInv) == R.one && |p| >= 1
    ensures IsQuotient(R, p, r, result)
    ensures Same(R, Product(R, [R.neg(r), R.one], result), p) <==> Eval(Itself(R), p, r) == R.zero
  {
    Shifted(R, r, rInv, p[0], R.zero);
    AddZero(R, R.neg(p[0]));
    AddZero(R, R.mul(R.neg(r), R.mul(R.neg(p[0]), rInv)));
    result := [R.mul(R.neg(p[0]), rInv)];
    var i := 1;
    while i < |p| - 1
      invariant 1 <= i && |result| == i && (i <= |p| - 1 || i == 1)
      invariant R.mul(R.neg(r), result[0]) == p[0]
      invariant forall k :: 1 <= k < i ==> R.add(R.mul(R.neg(r), result[k]), result[k - 1]) == p[k]
    {
      var element := R.add(result[i - 1], R.neg(p[i]));
      Shifted(R, r, rInv, p[i], result[i - 1]);
      result := result + [R.mul(element, rInv)];
      i := i + 1;
    }
    QuotientExact(R, p, r, rInv, result);
  }
}
