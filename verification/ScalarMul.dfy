/** Double-and-add of `curves/src/scalar_mul.rs` and of the Weierstrass curves, over any partial
    addition of points, and the little-endian bits of `curves/src/utils.rs` that drive it. */
module ScalarMul {

  import opened Basics

  type Byte = x: int | 0 <= x < 256

  function Digit(b: bool): nat { if b then 1 else 0 }

  /** The number that little-endian bits stand for. */
  function Value(bits: seq<bool>): nat {
    if bits == [] then 0 else Digit(bits[0]) + 2 * Value(bits[1..])
  }

  /** `BigUint::to_bytes_le`: no trailing zero, except that zero is one byte. */
  function ToBytes(n: nat): (r: seq<Byte>)
    ensures |r| >= 1
  {
    if n < 256 then [n] else [n % 256] + ToBytes(n / 256)
  }

  function FromBytes(bs: seq<Byte>): nat {
    if bs == [] then 0 else bs[0] + 256 * FromBytes(bs[1..])
  }

  lemma {:induction false} BytesRoundTrip(n: nat)
    ensures FromBytes(ToBytes(n)) == n
  {
    if n >= 256 {
      BytesRoundTrip(n / 256);
      assert ToBytes(n)[1..] == ToBytes(n / 256);
    }
  }

  lemma {:induction false} BitsAppend(bits: seq<bool>, b: bool)
    ensures Value(bits + [b]) == Value(bits) + Two(|bits|) * Digit(b)
  {
    if bits == [] {
      assert ([] + [b])[1..] == [];
    } else {
      assert (bits + [b])[1..] == bits[1..] + [b];
      BitsAppend(bits[1..], b);
    }
  }

  lemma {:induction false} BytesAppend(bs: seq<Byte>, b: Byte)
    ensures FromBytes(bs + [b]) == FromBytes(bs) + Two(8 * |bs|) * b
  {
    if bs == [] {
      assert (bs + [b])[1..] == [];
    } else {
      assert (bs + [b])[1..] == bs[1..] + [b];
      BytesAppend(bs[1..], b);
      TwoAdd(8, 8 * (|bs| - 1));
      TwoTo8();
      Regroup(256, Two(8 * (|bs| - 1)), b);
    }
  }

  lemma {:induction false} ValueBound(bits: seq<bool>)
    ensures Value(bits) < Two(|bits|)
  {
    if bits != [] { ValueBound(bits[1..]); }
  }

  lemma {:induction false} ValueSplit(bits: seq<bool>, n: nat)
    requires n <= |bits|
    ensures Value(bits) == Two(n) * Value(bits[n..]) + Value(bits[..n])
  {
    if n == 0 {
      assert bits[0..] == bits;
    } else {
      ValueSplit(bits[1..], n - 1);
      assert bits[1..][n - 1..] == bits[n..] && bits[1..][..n - 1] == bits[..n][1..];
      Regroup(2, Two(n - 1), Value(bits[n..]));
    }
  }

  /** Cutting the bits reduces the number modulo a power of two. */
  lemma ValuePrefix(bits: seq<bool>, n: nat)
    requires n <= |bits|
    ensures Value(bits[..n]) == Value(bits) % Two(n)
  {
    ValueBound(bits[..n]);
    ValueSplit(bits, n);
    Remainder(Value(bits), Two(n), Value(bits[n..]), Value(bits[..n]));
  }

  /** One more binary digit of a remainder. */
  lemma DigitStep(x: nat, t: nat)
    requires t > 0
    ensures x % (2 * t) == x % t + t * ((x / t) % 2)
  {
    var q, r := x / t, x % t;
    assert x == t * q + r;
    var h, e := q / 2, q % 2;
    assert t * q == (2 * t) * h + t * e by { assert q == 2 * h + e; }
    assert t * e <= t by { assert e == 0 || e == 1; }
    Remainder(x, 2 * t, h, r + t * e);
  }

  /** `biguint_to_bits_le`: eight bits per byte, then cut or padded to `numBits`. */
  method BitsLe(integer: nat, numBits: nat) returns (bits: seq<bool>)
    ensures |bits| == numBits && Value(bits) == integer % Two(numBits)
  {
    var bytes := ToBytes(integer);
    bits := [];
    for k := 0 to |bytes|
      invariant |bits| == 8 * k && Value(bits) == FromBytes(bytes[..k])
    {
      bits := PushByte(bits, bytes[k]);
      assert bytes[..k + 1] == bytes[..k] + [bytes[k]];
      BytesAppend(bytes[..k], bytes[k]);
    }
    assert bytes[..|bytes|] == bytes;
    BytesRoundTrip(integer);
    bits := Resize(bits, numBits);
  }

  method PushByte(before: seq<bool>, byte: Byte) returns (bits: seq<bool>)
    ensures |bits| == |before| + 8 && Value(bits) == Value(before) + Two(|before|) * byte
  {
    bits := before;
    for i := 0 to 8
      invariant |bits| == |before| + i
      invariant Value(bits) == Value(before) + Two(|before|) * (byte % Two(i))
    {
      BitPushed(before, bits, byte, i);
      bits := bits + [(byte / Two(i)) % 2 != 0];
    }
    TwoTo8();
  }

  lemma BitPushed(before: seq<bool>, bits: seq<bool>, byte: Byte, i: nat)
    requires |bits| == |before| + i && Value(bits) == Value(before) + Two(|before|) * (byte % Two(i))
    ensures Value(bits + [(byte / Two(i)) % 2 != 0]) == Value(before) + Two(|before|) * (byte % Two(i + 1))
  {
    hide Two, Value;
    var bit := (byte / Two(i)) % 2 != 0;
    BitsAppend(bits, bit);
    TwoAdd(|before|, i);
    TwoAdd(1, i);
    assert Two(1) == 2 by { TwoTo8(); }
    DigitStep(byte, Two(i));
    Distribute(Two(|before|), byte % Two(i), Two(i), Digit(bit));
  }

  lemma TwoTo8()
    ensures Two(8) == 256 && Two(1) == 2
  {
    assert Two(4) == 16;
    TwoAdd(4, 4);
  }

  lemma Distribute(a: int, b: int, c: int, d: int)
    ensures a * (b + c * d) == a * b + (a * c) * d
  {
  }

  /** `Vec::resize` with `false`. */
  method Resize(before: seq<bool>, n: nat) returns (bits: seq<bool>)
    ensures |bits| == n && Value(bits) == Value(before) % Two(n)
  {
    if n <= |before| {
      ValuePrefix(before, n);
      return before[..n];
    }
    bits := before;
    while |bits| < n
      invariant |before| <= |bits| <= n && Value(bits) == Value(before)
      decreases n - |bits|
    {
      BitsAppend(bits, false);
      bits := bits + [false];
    }
    ValueBound(bits);
    Remainder(Value(before), Two(n), 0, Value(before));
  }

  /** The debug assertion of `biguint_to_bits_le` counts whole bytes: for a width of whole bytes it
      holds exactly for the numbers that fit. */
  lemma {:induction false} BytesFit(n: nat, m: nat)
    requires m >= 1
    ensures 8 * |ToBytes(n)| <= 8 * m <==> n < Two(8 * m)
  {
    TwoTo8();
    if m > 1 {
      TwoAdd(8, 8 * (m - 1));
      if n >= 256 { BytesFit(n / 256, m - 1); }
    }
  }

  // ---------------------------------------------------------------- points

  /** Bit i of k. */
  predicate BitSet(k: nat, i: nat) { (k / Two(i)) % 2 == 1 }

  /** The bits of k below bit i. */
  function Low(k: nat, i: nat): nat { k % Two(i) }

  lemma LowStep(k: nat, i: nat)
    ensures Two(i + 1) == Two(i) + Two(i)
    ensures Low(k, i + 1) == if BitSet(k, i) then Low(k, i) + Two(i) else Low(k, i)
  {
    DigitStep(k, Two(i));
    assert (k / Two(i)) % 2 == 0 || (k / Two(i)) % 2 == 1;
  }

  lemma NextBit(bits: seq<bool>, i: nat)
    requires i < |bits|
    ensures bits[i] <==> BitSet(Value(bits), i)
  {
    var k := Value(bits);
    ValuePrefix(bits, i);
    ValuePrefix(bits, i + 1);
    assert bits[..i + 1] == bits[..i] + [bits[i]];
    BitsAppend(bits[..i], bits[i]);
    LowStep(k, i);
  }

  lemma LowAll(bits: seq<bool>)
    ensures Low(Value(bits), |bits|) == Value(bits)
  {
    ValueBound(bits);
    Remainder(Value(bits), Two(|bits|), 0, Value(bits));
  }

  /** The addition of a curve, with none where it panics, and the doubling it is used with. */
  datatype Curve<!P> = Curve(add: (P, P) -> Option<P>, double: P -> Option<P>, neutral: Option<P>)

  /** Doubling 2^i times the point. */
  ghost function DoubleAt<P>(c: Curve<P>, m: nat -> Option<P>, i: nat): Option<P> {
    if m(Two(i)).Some? then c.double(m(Two(i)).value) else None
  }

  /** Adding 2^i times the point to the sum of the lower bits of k. Without a neutral element the
      first addend is taken as it is. */
  ghost function AddAt<P>(c: Curve<P>, m: nat -> Option<P>, k: nat, i: nat): Option<P> {
    var low, high := m(Low(k, i)), m(Two(i));
    if high.None? then None else if low.None? then high else c.add(low.value, high.value)
  }

  /** Where the operations that the loop meets are defined, they are those of the multiples m(j) of the
      point; m(0) is the neutral element. Nothing is asked of other arguments. */
  ghost predicate Agrees<P>(c: Curve<P>, point: P, m: nat -> Option<P>, k: nat, n: nat) {
    && m(0) == c.neutral && m(1) == Some(point)
    && (forall i :: 0 <= i < n && DoubleAt(c, m, i).Some? ==> DoubleAt(c, m, i) == m(Two(i + 1)))
    && (forall i :: 0 <= i < n && BitSet(k, i) && AddAt(c, m, k, i).Some? ==> AddAt(c, m, k, i) == m(Low(k, i + 1)))
  }

  /** Doubling i is defined, and so is accumulation i if it takes place. */
  ghost predicate StepDefined<P>(c: Curve<P>, m: nat -> Option<P>, k: nat, i: nat) {
    DoubleAt(c, m, i).Some? && (BitSet(k, i) ==> AddAt(c, m, k, i).Some?)
  }

  /** All n doublings and all accumulations are defined, and so is the sum of no bits if k is zero. */
  ghost predicate Defined<P>(c: Curve<P>, m: nat -> Option<P>, k: nat, n: nat) {
    (forall i :: 0 <= i < n ==> StepDefined(c, m, k, i)) && (k == 0 ==> c.neutral.Some?)
  }

  /** The loop shared by `scalar_mul` and `sw_scalar_mul`. It fails exactly when an operation it meets
      is undefined, the last doubling included, and otherwise gives the multiple of the point. */
  method DoubleAndAdd<P>(c: Curve<P>, point: P, bits: seq<bool>, ghost m: nat -> Option<P>) returns (result: Option<P>)
    ensures
      var (k, n) := (Value(bits), |bits|);
      Agrees(c, point, m, k, n) ==> (result.Some? <==> Defined(c, m, k, n)) && (result.Some? ==> result == m(k))
    ensures |bits| >= 1 && c.double(point).None? ==> result.None?
  {
    ghost var k, n := Value(bits), |bits|;
    ghost var agrees := Agrees(c, point, m, k, n);
    assert Low(k, 0) == 0 && Two(0) == 1;
    hide Value, Two, BitSet, Low;
    var acc, temp := c.neutral, point;
    for i := 0 to |bits|
      invariant if i == 0 then temp == point else c.double(point).Some?
      invariant agrees ==> acc == m(Low(k, i)) && m(Two(i)) == Some(temp)
      invariant agrees && acc.None? ==> c.neutral.None? && Low(k, i) == 0
      invariant agrees ==> forall j :: 0 <= j < i ==> StepDefined(c, m, k, j)
    {
      NextBit(bits, i);
      LowStep(k, i);
      if bits[i] {
        var sum := if acc.None? then Some(temp) else c.add(acc.value, temp);
        assert agrees ==> sum == AddAt(c, m, k, i);
        if sum.None? {
          assert agrees ==> !StepDefined(c, m, k, i);
          return None;
        }
        acc := sum;
      }
      var twice := c.double(temp);
      assert agrees ==> twice == DoubleAt(c, m, i);
      if twice.None? {
        assert agrees ==> !StepDefined(c, m, k, i);
        return None;
      }
      temp := twice.value;
      assert agrees ==> StepDefined(c, m, k, i);
    }
    LowAll(bits);
    result := acc;
  }

  /** A curve whose doubling is its addition. */
  function SelfDoubling<P>(add: (P, P) -> Option<P>, neutral: Option<P>): Curve<P> {
    Curve(add, p => add(p, p), neutral)
  }

  /** `scalar_mul`. An addition that panics on equal points makes every call panic. */
  method ScalarMultiply<P(!new)>(add: (P, P) -> Option<P>, neutral: Option<P>, point: P, scalar: nat, numBits: nat,
                                 ghost m: nat -> Option<P>)
    returns (result: Option<P>)
    ensures
      var (c, k) := (SelfDoubling(add, neutral), scalar % Two(numBits));
      Agrees(c, point, m, k, numBits) ==>
        (result.Some? <==> Defined(c, m, k, numBits)) && (result.Some? ==> result == m(k))
    ensures numBits >= 1 && (forall p :: add(p, p).None?) ==> result.None?
  {
    var reduced := scalar % Two(numBits);
    var bits := BitsLe(reduced, numBits);
    Remainder(reduced, Two(numBits), 0, reduced);
    result := DoubleAndAdd(SelfDoubling(add, neutral), point, bits, m);
  }

  /** `sw_scalar_mul`, with the doubling formula of the curve. */
  method SwScalarMultiply<P>(add: (P, P) -> Option<P>, double: P -> Option<P>, point: P, scalar: nat, numBits: nat,
                             ghost m: nat -> Option<P>)
    returns (result: Option<P>)
    ensures
      var (c, k) := (Curve(add, double, None), scalar % Two(numBits));
      Agrees(c, point, m, k, numBits) ==>
        (result.Some? <==> Defined(c, m, k, numBits)) && (result.Some? ==> result == m(k))
  {
    var bits := BitsLe(scalar, numBits);
    result := DoubleAndAdd(Curve(add, double, None), point, bits, m);
  }

  // ---------------------------------------------------------------- total additions

  ghost predicate AssocAt<P>(add: (P, P) -> P, a: P, b: P, c: P) { add(add(a, b), c) == add(a, add(b, c)) }

  ghost predicate Associative<P(!new)>(add: (P, P) -> P) { forall a, b, c :: AssocAt(add, a, b, c) }

  /** k-fold sum of a point. */
  ghost function Times<P>(add: (P, P) -> P, p: P, k: nat): P
    requires k >= 1
  {
    if k == 1 then p else add(Times(add, p, k - 1), p)
  }

  lemma {:induction false} TimesAdd<P(!new)>(add: (P, P) -> P, p: P, a: nat, b: nat)
    requires Associative(add) && a >= 1 && b >= 1
    ensures Times(add, p, a + b) == add(Times(add, p, a), Times(add, p, b))
    decreases b
  {
    if b > 1 {
      TimesAdd(add, p, a, b - 1);
      assert AssocAt(add, Times(add, p, a), Times(add, p, b - 1), p);
    }
  }

  ghost function Multiples<P>(add: (P, P) -> P, neutral: Option<P>, p: P): nat -> Option<P> {
    (k: nat) => if k == 0 then neutral else Some(Times(add, p, k))
  }

  ghost function Total<P>(add: (P, P) -> P, neutral: Option<P>): Curve<P> {
    SelfDoubling((a, b) => Some(add(a, b)), neutral)
  }

  /** A total associative addition, as of the Edwards curve, agrees with its multiples and is defined
      throughout: the call then gives the k-fold sum, and fails only for k = 0 without a neutral element. */
  lemma TotalAgrees<P(!new)>(add: (P, P) -> P, neutral: Option<P>, p: P, k: nat, n: nat)
    requires Associative(add) && (neutral.Some? ==> forall a :: add(neutral.value, a) == a)
    ensures Agrees(Total(add, neutral), p, Multiples(add, neutral, p), k, n)
    ensures Defined(Total(add, neutral), Multiples(add, neutral, p), k, n) <==> k == 0 ==> neutral.Some?
  {
    var c, m := Total(add, neutral), Multiples(add, neutral, p);
    forall i: nat ensures DoubleAt(c, m, i).Some? && DoubleAt(c, m, i) == m(Two(i + 1)) {
      TimesAdd(add, p, Two(i), Two(i));
    }
    forall i: nat | BitSet(k, i) ensures AddAt(c, m, k, i).Some? && AddAt(c, m, k, i) == m(Low(k, i + 1)) {
      LowStep(k, i);
      if Low(k, i) > 0 { TimesAdd(add, p, Low(k, i), Two(i)); }
    }
  }

  // ---------------------------------------------------------------- points of finite order

  /** The multiples of a point of order q as residues, with no affine point for zero. */
  function Residue(q: nat, j: nat): Option<nat>
    requires q > 1
  {
    if j % q == 0 then None else Some(j % q)
  }

  /** Addition that also doubles, but panics where the sum is the point at infinity. */
  function Cyclic(q: nat): Curve<nat>
    requires q > 1
  {
    SelfDoubling((a: nat, b: nat) => Residue(q, a + b), None)
  }

  lemma ModSum(a: nat, b: nat, q: nat)
    requires q > 0
    ensures (a % q + b % q) % q == (a + b) % q
  {
    var x, y := a / q, b / q;
    assert a + b == q * (x + y) + (a % q + b % q) by { assert a == q * x + a % q && b == q * y + b % q; }
    var s := a % q + b % q;
    var e := s / q;
    assert q * (x + y) + q * e == q * (x + y + e);
    Remainder(a + b, q, x + y + e, s % q);
  }

  ghost function Residues(q: nat): nat -> Option<nat>
    requires q > 1
  {
    (j: nat) => Residue(q, j)
  }

  /** Adding residues: a vanishing one may be left out. */
  lemma ResidueSum(q: nat, a: nat, b: nat)
    requires q > 1
    ensures Residue(q, a).Some? && Residue(q, b).Some? ==>
      Residue(q, Residue(q, a).value + Residue(q, b).value) == Residue(q, a + b)
    ensures Residue(q, a).None? ==> Residue(q, a + b) == Residue(q, b)
  {
    ModSum(a, b, q);
    if a % q == 0 { Remainder(b % q, q, 0, b % q); }
  }

  lemma CyclicStep(q: nat, k: nat, i: nat)
    requires q > 1
    ensures DoubleAt(Cyclic(q), Residues(q), i) == if Residue(q, Two(i)).None? then None else Residue(q, Two(i + 1))
    ensures BitSet(k, i) ==>
      AddAt(Cyclic(q), Residues(q), k, i) == if Residue(q, Two(i)).None? then None else Residue(q, Low(k, i + 1))
  {
    hide Residue, Two, BitSet, Low;
    LowStep(k, i);
    ResidueSum(q, Two(i), Two(i));
    ResidueSum(q, Low(k, i), Two(i));
  }

  lemma ResidueBase(q: nat)
    requires q > 1
    ensures Two(0) == 1 && Residue(q, 0) == None && Residue(q, 1) == Some(1)
  {
    Remainder(1, q, 0, 1);
    Remainder(0, q, 0, 0);
  }

  lemma CyclicStepDefined(q: nat, k: nat, i: nat)
    requires q > 1
    ensures StepDefined(Cyclic(q), Residues(q), k, i) <==>
      && Residue(q, Two(i)).Some? && Residue(q, Two(i + 1)).Some?
      && (BitSet(k, i) ==> Residue(q, Low(k, i + 1)).Some?)
  {
    hide Residue, DoubleAt, AddAt, BitSet, Two, Low, Cyclic, Residues;
    CyclicStep(q, k, i);
  }

  /** Where the residues are defined, they are the multiples of the point. */
  lemma CyclicAgrees(q: nat, k: nat, n: nat)
    requires q > 1
    ensures Agrees(Cyclic(q), 1, Residues(q), k, n)
  {
    var c, m := Cyclic(q), Residues(q);
    hide Residue, DoubleAt, AddAt, BitSet, Two, Low;
    ResidueBase(q);
    forall i | 0 <= i < n && DoubleAt(c, m, i).Some? ensures DoubleAt(c, m, i) == m(Two(i + 1)) { CyclicStep(q, k, i); }
    forall i | 0 <= i < n && BitSet(k, i) && AddAt(c, m, k, i).Some? ensures AddAt(c, m, k, i) == m(Low(k, i + 1)) {
      CyclicStep(q, k, i);
    }
  }

  ghost predicate NeverInfinity(q: nat, k: nat, n: nat)
    requires q > 1
  {
    && (forall i :: 0 <= i <= n ==> Residue(q, Two(i)).Some?)
    && (forall i :: 0 <= i < n && BitSet(k, i) ==> Residue(q, Low(k, i + 1)).Some?)
  }

  /** For a point of order q, as on secp256k1: the call succeeds exactly when k is not zero and neither a
      power of two up to 2^n nor the sum of the bits up to a set one is a multiple of q. */
  lemma CyclicDefined(q: nat, k: nat, n: nat)
    requires q > 1
    ensures Defined(Cyclic(q), Residues(q), k, n) <==> k > 0 && NeverInfinity(q, k, n)
  {
    var c, m := Cyclic(q), Residues(q);
    assert c.neutral.None?;
    hide Residue, StepDefined, BitSet, Two, Low, Cyclic, Residues;
    ResidueBase(q);
    if Defined(c, m, k, n) {
      forall i | 0 <= i <= n ensures Residue(q, Two(i)).Some? {
        if i > 0 { CyclicStepDefined(q, k, i - 1); }
      }
      forall i | 0 <= i < n && BitSet(k, i) ensures Residue(q, Low(k, i + 1)).Some? { CyclicStepDefined(q, k, i); }
    }
    if k > 0 && NeverInfinity(q, k, n) {
      forall i | 0 <= i < n ensures StepDefined(c, m, k, i) { CyclicStepDefined(q, k, i); }
    }
  }
}
