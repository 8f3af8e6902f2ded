/** Constraint folding and lookup digests of `folder.rs`. The verifier folds constraints by Horner's
    rule, the sumcheck prover by a table of powers; the public values folder sums fractions, its debug
    twin records the interactions. */
module Folders {
  import opened Basics
  import opened Rings
  import Polynomials

  // ---------------------------------------------------------------- folding constraints

  ghost function Horner<T>(R: Ring<T>, alpha: T, xs: seq<T>): T {
    if xs == [] then R.zero
    else R.add(R.mul(Horner(R, alpha, xs[..|xs| - 1]), alpha), xs[|xs| - 1])
  }

  ghost function Indexed<T>(R: Ring<T>, table: seq<T>, xs: seq<T>): T
    requires |xs| <= |table|
  {
    if xs == [] then R.zero
    else R.add(Indexed(R, table, xs[..|xs| - 1]), R.mul(table[|xs| - 1], xs[|xs| - 1]))
  }

  /** `GenericVerifierConstraintFolder`; `asserted` remembers the constraints. */
  class VerifierFolder<T> {
    const R: Ring<T>
    const alpha: T
    var accumulator: T
    ghost var asserted: seq<T>

    ghost predicate Valid()
      reads this
    {
      accumulator == Horner(R, alpha, asserted)
    }

    constructor (R: Ring<T>, alpha: T)
      ensures Valid() && asserted == [] && this.R == R && this.alpha == alpha
    {
      this.R, this.alpha, accumulator, asserted := R, alpha, R.zero, [];
    }

    method AssertZero(x: T)
      requires Valid()
      modifies this
      ensures Valid() && asserted == old(asserted) + [x]
    {
      accumulator := R.mul(accumulator, alpha);
      accumulator := R.add(accumulator, x);
      asserted := asserted + [x];
      assert asserted[..|asserted| - 1] == old(asserted);
    }
  }

  /** `ConstraintSumcheckFolder`. It indexes past the table, and panics, on one constraint too many. */
  class SumcheckFolder<T> {
    const R: Ring<T>
    const powersOfAlpha: seq<T>
    var accumulator: T
    var constraintIndex: nat
    ghost var asserted: seq<T>

    ghost predicate Valid()
      reads this
    {
      && constraintIndex == |asserted| <= |powersOfAlpha|
      && accumulator == Indexed(R, powersOfAlpha, asserted)
    }

    constructor (R: Ring<T>, powersOfAlpha: seq<T>)
      ensures Valid() && asserted == [] && this.R == R && this.powersOfAlpha == powersOfAlpha
    {
      this.R, this.powersOfAlpha, accumulator, constraintIndex, asserted := R, powersOfAlpha, R.zero, 0, [];
    }

    method AssertZero(x: T)
      requires Valid() && constraintIndex < |powersOfAlpha|
      modifies this
      ensures Valid() && asserted == old(asserted) + [x]
    {
      accumulator := R.add(accumulator, R.mul(powersOfAlpha[constraintIndex], x));
      constraintIndex := constraintIndex + 1;
      asserted := asserted + [x];
      assert asserted[..|asserted| - 1] == old(asserted);
    }
  }

  /** The last of n entries is one, and each is alpha times the next. */
  ghost predicate Descending<T>(R: Ring<T>, alpha: T, table: seq<T>, n: nat)
    requires n <= |table|
  {
    forall i :: 0 <= i < n ==> table[i] == Pow(R, alpha, n - 1 - i)
  }

  lemma {:induction false} PrefixFold<T(!new)>(R: Ring<T>, alpha: T, table: seq<T>, xs: seq<T>, n: nat)
    requires IsRing(R) && |xs| <= n <= |table| && Descending(R, alpha, table, n)
    ensures Indexed(R, table, xs) == R.mul(Pow(R, alpha, n - |xs|), Horner(R, alpha, xs))
    decreases |xs|
  {
    var m := |xs|;
    if m == 0 {
      ZeroTimes(R, Pow(R, alpha, n));
    } else {
      hide Horner, Indexed;
      PrefixFold(R, alpha, table, xs[..m - 1], n);
      var w, h, x := Pow(R, alpha, n - m), Horner(R, alpha, xs[..m - 1]), xs[m - 1];
      IndexedStep(R, table, xs);
      assert Indexed(R, table, xs) == R.add(Indexed(R, table, xs[..m - 1]), R.mul(w, x));
      assert R.mul(Pow(R, alpha, n - m + 1), h) == R.mul(w, R.mul(h, alpha)) by {
        assert LawsAt(R, alpha, w, h) && LawsAt(R, w, alpha, h) && LawsAt(R, alpha, h, h);
      }
      HornerStep(R, alpha, xs);
      assert LawsAt(R, w, R.mul(h, alpha), x);
    }
  }

  lemma IndexedStep<T>(R: Ring<T>, table: seq<T>, xs: seq<T>)
    requires 0 < |xs| <= |table|
    ensures Indexed(R, table, xs) == R.add(Indexed(R, table, xs[..|xs| - 1]), R.mul(table[|xs| - 1], xs[|xs| - 1]))
  {
  }

  lemma HornerStep<T>(R: Ring<T>, alpha: T, xs: seq<T>)
    requires 0 < |xs|
    ensures Horner(R, alpha, xs) == R.add(R.mul(Horner(R, alpha, xs[..|xs| - 1]), alpha), xs[|xs| - 1])
  {
  }

  ghost function UnitVector<T>(R: Ring<T>, n: nat, i: nat): (r: seq<T>)
    ensures |r| == n
  {
    seq(n, j => if j == i then R.one else R.zero)
  }

  lemma {:induction false} UnitFold<T(!new)>(R: Ring<T>, alpha: T, table: seq<T>, n: nat, i: nat)
    requires IsRing(R) && n <= |table|
    ensures Indexed(R, table, UnitVector(R, n, i)) == if i < n then table[i] else R.zero
    ensures Horner(R, alpha, UnitVector(R, n, i)) == if i < n then Pow(R, alpha, n - 1 - i) else R.zero
  {
    if n > 0 {
      hide Horner, Indexed;
      var u := UnitVector(R, n, i);
      assert u[..n - 1] == UnitVector(R, n - 1, i);
      UnitFold(R, alpha, table, n - 1, i);
      IndexedStep(R, table, u);
      HornerStep(R, alpha, u);
      var h := Horner(R, alpha, UnitVector(R, n - 1, i));
      assert LawsAt(R, table[n - 1], R.one, R.one) && LawsAt(R, h, alpha, h);
      ZeroTimes(R, table[n - 1]);
      ZeroTimes(R, alpha);
      Polynomials.AddZero(R, table[n - 1]);
      Polynomials.AddZero(R, R.mul(h, alpha));
      Polynomials.AddZero(R, Indexed(R, table, UnitVector(R, n - 1, i)));
      Polynomials.AddZero(R, R.one);
    }
  }

  /** The two folders agree on all n constraints exactly when the table holds the powers in descending
      order. */
  lemma FoldersAgree<T(!new)>(R: Ring<T>, alpha: T, table: seq<T>, n: nat)
    requires IsRing(R) && n <= |table|
    ensures (forall xs :: |xs| == n ==> Indexed(R, table, xs) == Horner(R, alpha, xs))
       <==> Descending(R, alpha, table, n)
  {
    if Descending(R, alpha, table, n) {
      forall xs | |xs| == n ensures Indexed(R, table, xs) == Horner(R, alpha, xs) {
        PrefixFold(R, alpha, table, xs, n);
        assert LawsAt(R, Horner(R, alpha, xs), alpha, alpha);
      }
    }
    if forall xs :: |xs| == n ==> Indexed(R, table, xs) == Horner(R, alpha, xs) {
      forall i | 0 <= i < n ensures table[i] == Pow(R, alpha, n - 1 - i) { UnitFold(R, alpha, table, n, i); }
    }
  }

  // ---------------------------------------------------------------- lookup digests

  /** What an interaction says. */
  datatype Key<T> = Key(kind: nat, values: seq<T>)

  /** An interaction without its scope, which neither digest reads. */
  datatype Message<T> = Message(key: Key<T>, multiplicity: T)

  /** `perm_challenges`, the inverse of the field, which panics on zero, and its image of an interaction
      kind. */
  datatype Challenge<!T> = Challenge(R: Ring<T>, inverse: T -> Option<T>, kind: nat -> T, alpha: T, betas: seq<T>)

  datatype Event<T> = Send(m: Message<T>) | Receive(m: Message<T>)

  function DenominatorTo<T>(c: Challenge<T>, k: Key<T>, n: nat): T
    requires n <= |k.values| < |c.betas|
  {
    if n == 0 then c.R.add(c.alpha, c.R.mul(c.betas[0], c.kind(k.kind)))
    else c.R.add(DenominatorTo(c, k, n - 1), c.R.mul(k.values[n - 1], c.betas[n]))
  }

  /** There are enough betas, and the denominator has an inverse. */
  predicate Fits<T>(c: Challenge<T>, k: Key<T>) {
    |k.values| < |c.betas| && c.inverse(DenominatorTo(c, k, |k.values|)).Some?
  }

  function Inverse<T>(c: Challenge<T>, k: Key<T>): T
    requires Fits(c, k)
  {
    c.inverse(DenominatorTo(c, k, |k.values|)).value
  }

  /** The fraction of a message. */
  function Fraction<T>(c: Challenge<T>, m: Message<T>): T
    requires Fits(c, m.key)
  {
    c.R.mul(m.multiplicity, Inverse(c, m.key))
  }

  /** The fraction, or none where the source panics. */
  function Quotient<T>(c: Challenge<T>, m: Message<T>): Option<T> {
    if Fits(c, m.key) then Some(Fraction(c, m)) else None
  }

  /** The denominator is linear in the values: raising value j by d adds d * betas[j + 1]. */
  lemma {:induction false} DenominatorLinear<T(!new)>(c: Challenge<T>, k: Key<T>, j: nat, d: T, n: nat)
    requires IsRing(c.R) && j < |k.values| && n <= |k.values| < |c.betas|
    ensures var raised := k.(values := k.values[j := c.R.add(k.values[j], d)]);
      DenominatorTo(c, raised, n)
      == if n <= j then DenominatorTo(c, k, n) else c.R.add(DenominatorTo(c, k, n), c.R.mul(d, c.betas[j + 1]))
  {
    if n > 0 {
      DenominatorLinear(c, k, j, d, n - 1);
      var R, before, b, v := c.R, DenominatorTo(c, k, n - 1), c.betas[n], k.values[n - 1];
      if n == j + 1 {
        assert LawsAt(R, b, v, d) && LawsAt(R, b, R.add(v, d), d) && LawsAt(R, v, b, d) && LawsAt(R, d, b, d);
        assert LawsAt(R, before, R.mul(v, b), R.mul(d, b));
      } else if n > j {
        Polynomials.AddSwap(R, before, R.mul(d, c.betas[j + 1]), R.mul(v, b));
      }
    }
  }

  /** With all values zero it is alpha + betas[0] * kind. */
  lemma {:induction false} DenominatorOfZeros<T(!new)>(c: Challenge<T>, k: Key<T>, n: nat)
    requires IsRing(c.R) && n <= |k.values| < |c.betas|
    requires forall i :: 0 <= i < |k.values| ==> k.values[i] == c.R.zero
    ensures DenominatorTo(c, k, n) == c.R.add(c.alpha, c.R.mul(c.betas[0], c.kind(k.kind)))
  {
    if n > 0 {
      DenominatorOfZeros(c, k, n - 1);
      ZeroTimes(c.R, c.betas[n]);
      Polynomials.AddZero(c.R, DenominatorTo(c, k, n - 1));
    }
  }

  /** What one interaction adds to the digest, as a function of its values: the multiplicity over
      alpha + betas[0] * kind if they are zero, and over a denominator larger by d * betas[j + 1] if value
      j is raised by d. */
  lemma FractionOfValues<T(!new)>(c: Challenge<T>, m: Message<T>, j: nat, d: T)
    requires IsRing(c.R) && |m.key.values| < |c.betas|
    ensures (forall i :: 0 <= i < |m.key.values| ==> m.key.values[i] == c.R.zero) ==>
      var inverse := c.inverse(c.R.add(c.alpha, c.R.mul(c.betas[0], c.kind(m.key.kind))));
      Quotient(c, m) == (if inverse.None? then None else Some(c.R.mul(m.multiplicity, inverse.value)))
    ensures j < |m.key.values| ==>
      var raised := m.(key := m.key.(values := m.key.values[j := c.R.add(m.key.values[j], d)]));
      var denominator := DenominatorTo(c, m.key, |m.key.values|);
      var inverse := c.inverse(c.R.add(denominator, c.R.mul(d, c.betas[j + 1])));
      Quotient(c, raised) == (if inverse.None? then None else Some(c.R.mul(m.multiplicity, inverse.value)))
  {
    var k := m.key;
    if forall i :: 0 <= i < |k.values| ==> k.values[i] == c.R.zero { DenominatorOfZeros(c, k, |k.values|); }
    if j < |k.values| { DenominatorLinear(c, k, j, d, |k.values|); }
  }

  /** Times its denominator, a fraction is the multiplicity. */
  lemma FractionTimes<T(!new)>(c: Challenge<T>, m: Message<T>)
    requires IsRing(c.R) && Fits(c, m.key)
    requires forall x :: c.inverse(x).Some? ==> c.R.mul(x, c.inverse(x).value) == c.R.one
    ensures c.R.mul(Fraction(c, m), DenominatorTo(c, m.key, |m.key.values|)) == m.multiplicity
  {
    var R, x, i, y := c.R, m.multiplicity, Inverse(c, m.key), DenominatorTo(c, m.key, |m.key.values|);
    assert R.mul(y, i) == R.one;
    assert LawsAt(R, x, i, y) && LawsAt(R, i, y, x) && LawsAt(R, x, R.one, y);
  }

  ghost predicate AllFit<T>(c: Challenge<T>, es: seq<Event<T>>) { forall i :: 0 <= i < |es| ==> Fits(c, es[i].m.key) }

  ghost function Digest<T>(c: Challenge<T>, es: seq<Event<T>>): T
    requires AllFit(c, es)
  {
    if es == [] then c.R.zero
    else
      var d, e := Digest(c, es[..|es| - 1]), es[|es| - 1];
      if e.Send? then c.R.add(d, Fraction(c, e.m)) else c.R.add(d, c.R.neg(Fraction(c, e.m)))
  }

  /** `GenericVerifierPublicValuesConstraintFolder`. */
  class PublicValuesFolder<T> {
    const c: Challenge<T>
    var localInteractionDigest: T
    ghost var trace: seq<Event<T>>

    ghost predicate Valid()
      reads this
    {
      AllFit(c, trace) && localInteractionDigest == Digest(c, trace)
    }

    constructor (c: Challenge<T>)
      ensures Valid() && trace == [] && this.c == c
    {
      this.c, localInteractionDigest, trace := c, c.R.zero, [];
    }

    /** The shared part of both methods: none where the source panics, because it runs out of betas or
        divides by zero. */
    method LocalDigest(message: Message<T>) returns (digest: Option<T>)
      ensures digest == Quotient(c, message)
    {
      var values := message.key.values;
      if |c.betas| == 0 { return None; }
      var denominator := c.R.add(c.alpha, c.R.mul(c.betas[0], c.kind(message.key.kind)));
      for i := 0 to |values|
        invariant i < |c.betas|
        invariant |values| < |c.betas| ==> denominator == DenominatorTo(c, message.key, i)
      {
        if i + 1 >= |c.betas| { return None; }
        denominator := c.R.add(denominator, c.R.mul(values[i], c.betas[i + 1]));
      }
      var inverse := c.inverse(denominator);
      if inverse.None? { return None; }
      digest := Some(c.R.mul(message.multiplicity, inverse.value));
    }

    /** `send`; it returns false where the source panics. */
    method Send(message: Message<T>) returns (ok: bool)
      requires Valid()
      modifies this
      ensures Valid() && (ok <==> Fits(c, message.key))
      ensures trace == if ok then old(trace) + [Event.Send(message)] else old(trace)
      ensures ok ==> localInteractionDigest == c.R.add(old(localInteractionDigest), Quotient(c, message).value)
    {
      var digest := LocalDigest(message);
      if digest.None? { return false; }
      localInteractionDigest := c.R.add(localInteractionDigest, digest.value);
      trace := trace + [Event.Send(message)];
      assert trace[..|trace| - 1] == old(trace);
      return true;
    }

    /** `receive`; it returns false where the source panics. */
    method Receive(message: Message<T>) returns (ok: bool)
      requires Valid()
      modifies this
      ensures Valid() && (ok <==> Fits(c, message.key))
      ensures trace == if ok then old(trace) + [Event.Receive(message)] else old(trace)
      ensures ok ==> localInteractionDigest == c.R.add(old(localInteractionDigest), c.R.neg(Quotient(c, message).value))
    {
      var digest := LocalDigest(message);
      if digest.None? { return false; }
      localInteractionDigest := c.R.add(localInteractionDigest, c.R.neg(digest.value));
      trace := trace + [Event.Receive(message)];
      assert trace[..|trace| - 1] == old(trace);
      return true;
    }
  }

  ghost function Record<T>(R: Ring<T>, e: Event<T>): Message<T> {
    if e.Send? then e.m else e.m.(multiplicity := R.neg(e.m.multiplicity))
  }

  /** What the debug folder holds after a trace. */
  ghost function Records<T>(R: Ring<T>, es: seq<Event<T>>): (r: seq<Message<T>>)
    ensures |r| == |es|
  {
    seq(|es|, i requires 0 <= i < |es| => Record(R, es[i]))
  }

  /** `GenericDebugPublicValuesConstraintFolder`. */
  class DebugFolder<T> {
    const R: Ring<T>
    var interactions: seq<Message<T>>
    ghost var trace: seq<Event<T>>

    ghost predicate Valid()
      reads this
    {
      interactions == Records(R, trace)
    }

    constructor (R: Ring<T>)
      ensures Valid() && trace == [] && this.R == R
    {
      this.R, interactions, trace := R, [], [];
    }

    method Send(message: Message<T>)
      requires Valid()
      modifies this
      ensures Valid() && trace == old(trace) + [Event.Send(message)]
    {
      interactions := interactions + [message];
      trace := trace + [Event.Send(message)];
    }

    method Receive(message: Message<T>)
      requires Valid()
      modifies this
      ensures Valid() && trace == old(trace) + [Event.Receive(message)]
    {
      interactions := interactions + [Message(message.key, R.neg(message.multiplicity))];
      trace := trace + [Event.Receive(message)];
    }
  }

  ghost predicate FitAll<T>(c: Challenge<T>, ms: seq<Message<T>>) { forall i :: 0 <= i < |ms| ==> Fits(c, ms[i].key) }

  /** The sum of the fractions of a list of messages. */
  ghost function Total<T>(c: Challenge<T>, ms: seq<Message<T>>): T
    requires FitAll(c, ms)
  {
    if ms == [] then c.R.zero else c.R.add(Total(c, ms[..|ms| - 1]), Fraction(c, ms[|ms| - 1]))
  }

  /** The digest is the sum over the debug folder's records. */
  lemma {:induction false} DigestFromRecords<T(!new)>(c: Challenge<T>, es: seq<Event<T>>)
    requires IsRing(c.R) && AllFit(c, es)
    ensures FitAll(c, Records(c.R, es)) && Digest(c, es) == Total(c, Records(c.R, es))
  {
    if es != [] {
      var init, e := es[..|es| - 1], es[|es| - 1];
      DigestFromRecords(c, init);
      assert Records(c.R, es)[..|es| - 1] == Records(c.R, init);
      if e.Receive? { Polynomials.NegTimes(c.R, e.m.multiplicity, Inverse(c, e.m.key)); }
    }
  }

  // ---------------------------------------------------------------- balance

  ghost function Sent<T>(es: seq<Event<T>>): seq<Message<T>> {
    if es == [] then [] else
      var before, e := Sent(es[..|es| - 1]), es[|es| - 1];
      if e.Send? then before + [e.m] else before
  }

  ghost function Received<T>(es: seq<Event<T>>): seq<Message<T>> {
    if es == [] then [] else
      var before, e := Received(es[..|es| - 1]), es[|es| - 1];
      if e.Receive? then before + [e.m] else before
  }

  lemma TotalStep<T>(c: Challenge<T>, ms: seq<Message<T>>, m: Message<T>)
    requires FitAll(c, ms) && Fits(c, m.key)
    ensures Total(c, ms + [m]) == c.R.add(Total(c, ms), Fraction(c, m))
  {
    assert (ms + [m])[..|ms|] == ms;
  }

  lemma {:induction false} TotalWithout<T(!new)>(c: Challenge<T>, ms: seq<Message<T>>, k: nat)
    requires IsRing(c.R) && FitAll(c, ms) && k < |ms|
    ensures Total(c, ms) == c.R.add(Total(c, ms[..k] + ms[k + 1..]), Fraction(c, ms[k]))
    decreases |ms|
  {
    hide Total, Fits, Fraction;
    var init, last := ms[..|ms| - 1], ms[|ms| - 1];
    assert ms == init + [last];
    TotalStep(c, init, last);
    if k == |ms| - 1 {
      assert ms[..k] + ms[k + 1..] == init;
    } else {
      TotalWithout(c, init, k);
      var rest := init[..k] + init[k + 1..];
      assert ms[..k] + ms[k + 1..] == rest + [last];
      TotalStep(c, rest, last);
      Polynomials.AddSwap(c.R, Total(c, rest), Fraction(c, last), Fraction(c, ms[k]));
    }
  }

  lemma DropOne<M>(b: seq<M>, k: nat)
    requires k < |b|
    ensures multiset(b[..k] + b[k + 1..]) == multiset(b) - multiset{b[k]}
  {
    var rest := b[..k] + b[k + 1..];
    assert b == b[..k] + [b[k]] + b[k + 1..];
    assert multiset(b) == multiset(rest) + multiset{b[k]};
  }

  /** Equal multisets stay equal without one common element. */
  lemma TakeOne<M>(a: seq<M>, b: seq<M>) returns (k: nat)
    requires multiset(a) == multiset(b) && a != []
    ensures k < |b| && b[k] == a[|a| - 1] && multiset(a[..|a| - 1]) == multiset(b[..k] + b[k + 1..])
  {
    var n := |a| - 1;
    assert a[n] in multiset(b);
    k :| k < |b| && b[k] == a[n];
    DropOne(a, n);
    DropOne(b, k);
    assert a[..n] + a[n + 1..] == a[..n];
  }

  /** The total does not depend on the order. */
  lemma {:induction false} TotalPermutes<T(!new)>(c: Challenge<T>, a: seq<Message<T>>, b: seq<Message<T>>)
    requires IsRing(c.R) && FitAll(c, a) && FitAll(c, b) && multiset(a) == multiset(b)
    ensures Total(c, a) == Total(c, b)
    decreases |a|
  {
    if a == [] {
      assert |multiset(b)| == |b|;
    } else {
      hide Total, Fits, Fraction;
      var k := TakeOne(a, b);
      var init, x := a[..|a| - 1], a[|a| - 1];
      assert a == init + [x];
      TotalPermutes(c, init, b[..k] + b[k + 1..]);
      TotalStep(c, init, x);
      TotalWithout(c, b, k);
    }
  }

  lemma DigestStep<T>(c: Challenge<T>, es: seq<Event<T>>)
    requires AllFit(c, es) && es != []
    ensures
      var (e, before) := (es[|es| - 1], Digest(c, es[..|es| - 1]));
      Digest(c, es) == c.R.add(before, if e.Send? then Fraction(c, e.m) else c.R.neg(Fraction(c, e.m)))
  {
  }

  lemma {:induction false} PartsFit<T>(c: Challenge<T>, es: seq<Event<T>>)
    requires AllFit(c, es)
    ensures FitAll(c, Sent(es)) && FitAll(c, Received(es))
  {
    if es != [] { PartsFit(c, es[..|es| - 1]); }
  }

  lemma PartsStep<T>(es: seq<Event<T>>)
    requires es != []
    ensures var init, e := es[..|es| - 1], es[|es| - 1];
      && Sent(es) == (if e.Send? then Sent(init) + [e.m] else Sent(init))
      && Received(es) == (if e.Receive? then Received(init) + [e.m] else Received(init))
  {
  }

  /** The digest is what was sent less what was received. */
  lemma {:induction false} DigestBalance<T(!new)>(c: Challenge<T>, es: seq<Event<T>>)
    requires IsRing(c.R) && AllFit(c, es)
    ensures FitAll(c, Sent(es)) && FitAll(c, Received(es))
    ensures Digest(c, es) == c.R.add(Total(c, Sent(es)), c.R.neg(Total(c, Received(es))))
  {
    var R := c.R;
    PartsFit(c, es);
    if es == [] {
      assert LawsAt(R, R.zero, R.zero, R.zero);
    } else {
      hide Total, Digest, Sent, Received, Fraction, Fits;
      var init, e := es[..|es| - 1], es[|es| - 1];
      DigestBalance(c, init);
      DigestStep(c, es);
      PartsStep(es);
      var s, r, f := Total(c, Sent(init)), Total(c, Received(init)), Fraction(c, e.m);
      if e.Send? {
        TotalStep(c, Sent(init), e.m);
        Polynomials.AddSwap(R, s, R.neg(r), f);
      } else {
        TotalStep(c, Received(init), e.m);
        NegSum(R, r, f);
        assert LawsAt(R, s, R.neg(r), R.neg(f));
      }
    }
  }

  lemma NegSum<T(!new)>(R: Ring<T>, a: T, b: T)
    requires IsRing(R)
    ensures R.neg(R.add(a, b)) == R.add(R.neg(a), R.neg(b))
  {
    var n := R.add(R.neg(a), R.neg(b));
    AddCross(R, a, b, R.neg(a), R.neg(b));
    assert LawsAt(R, a, a, a) && LawsAt(R, b, b, b) && LawsAt(R, R.zero, R.zero, R.zero)
        && LawsAt(R, R.add(a, b), a, a);
    AddCancel(R, R.add(a, b), n, R.neg(R.add(a, b)));
  }

  lemma {:induction false} DigestAppend<T(!new)>(c: Challenge<T>, before: seq<Event<T>>, es: seq<Event<T>>)
    requires IsRing(c.R) && AllFit(c, before) && AllFit(c, es)
    ensures Digest(c, before + es) == c.R.add(Digest(c, before), Digest(c, es))
    decreases |es|
  {
    hide Fits, Fraction;
    var R := c.R;
    assert AllFit(c, before + es);
    if es == [] {
      assert before + es == before;
      Polynomials.AddZero(R, Digest(c, before));
    } else {
      hide Digest;
      var init, e, all := es[..|es| - 1], es[|es| - 1], before + es;
      assert all[..|all| - 1] == before + init && all[|all| - 1] == e;
      DigestAppend(c, before, init);
      hide AllFit;
      DigestStep(c, es);
      DigestStep(c, all);
      var f := if e.Send? then Fraction(c, e.m) else R.neg(Fraction(c, e.m));
      assert LawsAt(R, Digest(c, before), Digest(c, init), f);
    }
  }

  /** Interactions whose sends and receives are the same messages leave the digest as it was. */
  lemma BalancedUnchanged<T(!new)>(c: Challenge<T>, before: seq<Event<T>>, es: seq<Event<T>>)
    requires IsRing(c.R) && AllFit(c, before) && AllFit(c, es)
    requires multiset(Sent(es)) == multiset(Received(es))
    ensures Digest(c, before + es) == Digest(c, before)
  {
    hide Digest, Total;
    DigestBalance(c, es);
    TotalPermutes(c, Sent(es), Received(es));
    var t := Total(c, Sent(es));
    assert LawsAt(c.R, t, t, t);
    DigestAppend(c, before, es);
    Polynomials.AddZero(c.R, Digest(c, before));
  }

  // ---------------------------------------------------------------- net multiplicities

  /** The sum of the multiplicities with which a list mentions a key. */
  ghost function Net<T>(R: Ring<T>, ms: seq<Message<T>>, k: Key<T>): T {
    if ms == [] then R.zero
    else
      var n, m := Net(R, ms[..|ms| - 1], k), ms[|ms| - 1];
      if m.key == k then R.add(n, m.multiplicity) else n
  }

  /** The messages about other keys. */
  ghost function Others<T>(ms: seq<Message<T>>, k: Key<T>): (r: seq<Message<T>>)
    ensures |r| <= |ms|
    ensures ms != [] && ms[|ms| - 1].key == k ==> |r| < |ms|
  {
    if ms == [] then []
    else
      var r, m := Others(ms[..|ms| - 1], k), ms[|ms| - 1];
      if m.key == k then r else r + [m]
  }

  lemma {:induction false} OthersNet<T>(c: Challenge<T>, ms: seq<Message<T>>, k: Key<T>, j: Key<T>)
    requires FitAll(c, ms)
    ensures FitAll(c, Others(ms, k))
    ensures Net(c.R, Others(ms, k), j) == if j == k then c.R.zero else Net(c.R, ms, j)
  {
    if ms != [] {
      var init, m := ms[..|ms| - 1], ms[|ms| - 1];
      OthersNet(c, init, k, j);
      if m.key != k { assert (Others(init, k) + [m])[..|Others(init, k)|] == Others(init, k); }
    }
  }

  /** Messages about one key count as one, with their net multiplicity. */
  lemma {:induction false} TotalByKey<T(!new)>(c: Challenge<T>, ms: seq<Message<T>>, k: Key<T>)
    requires IsRing(c.R) && FitAll(c, ms) && Fits(c, k)
    ensures FitAll(c, Others(ms, k))
    ensures Total(c, ms) == c.R.add(Total(c, Others(ms, k)), c.R.mul(Net(c.R, ms, k), Inverse(c, k)))
  {
    var R, i := c.R, Inverse(c, k);
    OthersNet(c, ms, k, k);
    if ms == [] {
      ZeroTimes(R, i);
      Polynomials.AddZero(R, R.zero);
    } else {
      var init, m := ms[..|ms| - 1], ms[|ms| - 1];
      TotalByKey(c, init, k);
      hide Total, Fits, Inverse;
      assert ms == init + [m];
      TotalStep(c, init, m);
      var rest, n := Total(c, Others(init, k)), Net(R, init, k);
      if m.key == k {
        assert LawsAt(R, i, n, m.multiplicity) && LawsAt(R, i, R.add(n, m.multiplicity), n);
        assert LawsAt(R, n, i, n) && LawsAt(R, m.multiplicity, i, n);
        assert LawsAt(R, rest, R.mul(n, i), R.mul(m.multiplicity, i));
      } else {
        TotalStep(c, Others(init, k), m);
        Polynomials.AddSwap(R, rest, Fraction(c, m), R.mul(n, i));
      }
    }
  }

  lemma {:induction false} NetZeroTotal<T(!new)>(c: Challenge<T>, ms: seq<Message<T>>)
    requires IsRing(c.R) && FitAll(c, ms) && forall k :: Net(c.R, ms, k) == c.R.zero
    ensures Total(c, ms) == c.R.zero
    decreases |ms|
  {
    if ms != [] {
      hide Total, Net;
      var k := ms[|ms| - 1].key;
      TotalByKey(c, ms, k);
      forall j ensures Net(c.R, Others(ms, k), j) == c.R.zero { OthersNet(c, ms, k, j); }
      NetZeroTotal(c, Others(ms, k));
      ZeroTimes(c.R, Inverse(c, k));
      Polynomials.AddZero(c.R, c.R.zero);
    }
  }

  lemma NetStep<T>(R: Ring<T>, ms: seq<Message<T>>, m: Message<T>, k: Key<T>)
    ensures Net(R, ms + [m], k) == if m.key == k then R.add(Net(R, ms, k), m.multiplicity) else Net(R, ms, k)
  {
    assert (ms + [m])[..|ms|] == ms;
  }

  lemma {:induction false} NetOfRecords<T(!new)>(R: Ring<T>, es: seq<Event<T>>, k: Key<T>)
    requires IsRing(R)
    ensures Net(R, Records(R, es), k) == R.add(Net(R, Sent(es), k), R.neg(Net(R, Received(es), k)))
  {
    if es == [] {
      assert LawsAt(R, R.zero, R.zero, R.zero);
    } else {
      var init, e := es[..|es| - 1], es[|es| - 1];
      NetOfRecords(R, init, k);
      PartsStep(es);
      hide Net, Sent, Received;
      assert Records(R, es) == Records(R, init) + [Record(R, e)];
      NetStep(R, Records(R, init), Record(R, e), k);
      NetStep(R, Sent(init), e.m, k);
      NetStep(R, Received(init), e.m, k);
      var s, r, x := Net(R, Sent(init), k), Net(R, Received(init), k), e.m.multiplicity;
      Polynomials.AddSwap(R, s, R.neg(r), x);
      NegSum(R, r, x);
      assert LawsAt(R, s, R.neg(r), R.neg(x));
    }
  }

  /** Interactions that for every key receive with the same total multiplicity as they send leave the
      digest as it was. */
  lemma NetUnchanged<T(!new)>(c: Challenge<T>, before: seq<Event<T>>, es: seq<Event<T>>)
    requires IsRing(c.R) && AllFit(c, before) && AllFit(c, es)
    requires forall k :: Net(c.R, Sent(es), k) == Net(c.R, Received(es), k)
    ensures Digest(c, before + es) == Digest(c, before)
  {
    hide Digest, Total, Net;
    DigestFromRecords(c, es);
    forall k ensures Net(c.R, Records(c.R, es), k) == c.R.zero {
      NetOfRecords(c.R, es, k);
      var n := Net(c.R, Sent(es), k);
      assert LawsAt(c.R, n, n, n);
    }
    NetZeroTotal(c, Records(c.R, es));
    DigestAppend(c, before, es);
    Polynomials.AddZero(c.R, Digest(c, before));
  }
}
