/** The enumeration of recursion program shapes in `shapes.rs`. A chip cluster is represented by a
    number. */
module Shapes {

  type Cluster = nat

  /** `SP1RecursionProgramShape`, with `CoreProofShape` unfolded. */
  datatype Shape =
    | Normalize(cluster: Cluster, preArea: nat, mainArea: nat, prePad: nat, mainPad: nat)
    | Compose(arity: nat)
    | Deferred
    | Shrink

  const STACK := 0x20_0000                                   // 1 << CORE_LOG_STACKING_HEIGHT
  const ROWS := 0x40_0000                                    // 1 << CORE_MAX_LOG_ROW_COUNT
  const ELEMENT_THRESHOLD := 0x1000_0000 + 0x800_0000
  const PADDED_ELEMENT_THRESHOLD := ELEMENT_THRESHOLD + STACK
  const PROGRAM_COLS := 16
  const RANGE_COLS := 2
  const BYTE_COLS := 7

  function DivCeil(a: nat, b: nat): (r: nat)
    requires b > 0
    ensures r * b >= a && (r > 0 ==> (r - 1) * b < a)
  {
    var q := (a + b - 1) / b;
    DivCeilBounds(a, b, q);
    q
  }

  lemma DivCeilBounds(a: nat, b: nat, q: int)
    requires b > 0 && q == (a + b - 1) / b
    ensures q >= 0 && q * b >= a && (q > 0 ==> (q - 1) * b < a)
  {
    var r := (a + b - 1) % b;
    assert a + b - 1 == q * b + r;
    assert (q - 1) * b == q * b - b;
  }

  /** `normalize_program_parameter_space().0`. */
  function MaxPreprocessed(): nat {
    DivCeil(0x40_0000 * PROGRAM_COLS + 0x2_0000 * RANGE_COLS + 0x1_0000 * BYTE_COLS, STACK)
  }

  function MaxPadding(): nat { DivCeil(STACK, ROWS) }

  /** `max_main_multiple_for_preprocessed_multiple`; the subtraction must not underflow. */
  function MaxMain(pre: nat): nat
    requires pre * STACK <= PADDED_ELEMENT_THRESHOLD
  {
    DivCeil(PADDED_ELEMENT_THRESHOLD - pre * STACK, STACK)
  }

  lemma Limits(pre: nat)
    ensures MaxPreprocessed() == 33 && MaxPadding() == 1
    ensures pre <= 193 ==> pre * STACK <= PADDED_ELEMENT_THRESHOLD && MaxMain(pre) == 193 - pre
  {
    var m := MaxPreprocessed();
    assert m * STACK >= 67829760 && (m > 0 ==> (m - 1) * STACK < 67829760);
    var d := MaxPadding();
    assert d * ROWS >= STACK && (d > 0 ==> (d - 1) * ROWS < STACK);
    if pre <= 193 {
      var r := MaxMain(pre);
      assert r * STACK >= (193 - pre) * STACK && (r > 0 ==> (r - 1) * STACK < (193 - pre) * STACK);
    }
  }

  // ---------------------------------------------------------------- concatenated blocks

  /** f(1) + f(2) + ... + f(n). */
  ghost function Blocks<T>(f: nat -> seq<T>, n: nat): seq<T> {
    if n == 0 then [] else Blocks(f, n - 1) + f(n)
  }

  ghost predicate Distinct<T(!new)>(s: seq<T>) {
    forall i, j :: 0 <= i < j < |s| ==> s[i] != s[j]
  }

  ghost predicate InBlock<T>(f: nat -> seq<T>, i: nat, x: T) { x in f(i) }

  lemma {:induction false} BlocksMember<T(!new)>(f: nat -> seq<T>, n: nat, x: T)
    ensures x in Blocks(f, n) <==> exists i: nat :: 1 <= i <= n && InBlock(f, i, x)
  {
    if n > 0 {
      BlocksMember(f, n - 1, x);
      if x in f(n) { assert InBlock(f, n, x); }
    }
  }

  lemma DistinctAppend<T(!new)>(s: seq<T>, t: seq<T>)
    requires Distinct(s) && Distinct(t) && forall x :: x in s ==> x !in t
    ensures Distinct(s + t)
  {
    forall i, j | 0 <= i < j < |s + t| ensures (s + t)[i] != (s + t)[j] {
      if i < |s| <= j { assert s[i] in s && t[j - |s|] in t; }
    }
  }

  /** Blocks with different tags have no element in common. */
  lemma {:induction false} BlocksDistinct<T(!new)>(f: nat -> seq<T>, tag: T -> nat, n: nat)
    requires forall i: nat :: 1 <= i <= n ==> Distinct(f(i))
    requires forall i: nat, x :: 1 <= i <= n && x in f(i) ==> tag(x) == i
    ensures Distinct(Blocks(f, n))
  {
    if n > 0 {
      BlocksDistinct(f, tag, n - 1);
      forall x | x in Blocks(f, n - 1) ensures x !in f(n) {
        BlocksMember(f, n - 1, x);
        var i: nat :| 1 <= i <= n - 1 && InBlock(f, i, x);
        assert tag(x) == i;
      }
      DistinctAppend(Blocks(f, n - 1), f(n));
    }
  }

  // ---------------------------------------------------------------- the loop nest, innermost first

  function Entry(c: Cluster, pre: nat, main: nat, mainPad: nat, prePad: nat): Shape {
    Normalize(c, pre * STACK, main * STACK, prePad, mainPad)
  }

  ghost function ForClusters(cs: seq<Cluster>, pre: nat, main: nat, mainPad: nat, prePad: nat): (r: seq<Shape>)
    ensures |r| == |cs|
  {
    seq(|cs|, i requires 0 <= i < |cs| => Entry(cs[i], pre, main, mainPad, prePad))
  }

  ghost function PrePadRow(cs: seq<Cluster>, pre: nat, main: nat, mainPad: nat): nat -> seq<Shape> {
    (prePad: nat) => ForClusters(cs, pre, main, mainPad, prePad)
  }

  ghost function MainPadRow(cs: seq<Cluster>, pre: nat, main: nat): nat -> seq<Shape> {
    (mainPad: nat) => Blocks(PrePadRow(cs, pre, main, mainPad), 1)
  }

  ghost function MainRow(cs: seq<Cluster>, pre: nat): nat -> seq<Shape> {
    (main: nat) => Blocks(MainPadRow(cs, pre, main), 1)
  }

  ghost function PreRow(cs: seq<Cluster>): nat -> seq<Shape> {
    (pre: nat) => if pre <= 193 then Blocks(MainRow(cs, pre), 193 - pre) else []
  }

  ghost function Normalized(cs: seq<Cluster>): seq<Shape> { Blocks(PreRow(cs), 33) }

  ghost function Composed(): nat -> seq<Shape> { (arity: nat) => [Compose(arity)] }

  /** All shapes, in the order of the source. */
  ghost function AllShapes(cs: seq<Cluster>, maxArity: nat): seq<Shape> {
    Normalized(cs) + Blocks(Composed(), maxArity) + [Deferred, Shrink]
  }

  lemma BlocksStep<T>(f: nat -> seq<T>, n: nat)
    ensures Blocks(f, 0) == [] && Blocks(f, n + 1) == Blocks(f, n) + f(n + 1)
  {
  }

  /** `create_all_input_shapes`. */
  method CreateAllInputShapes(clusters: seq<Cluster>, maxArity: nat) returns (result: seq<Shape>)
    ensures result == AllShapes(clusters, maxArity)
  {
    hide DivCeil, MaxPreprocessed, MaxPadding, MaxMain, PreRow, Blocks, Composed;
    result := [];
    Limits(0);
    BlocksStep(PreRow(clusters), 0);
    BlocksStep(Composed(), 0);
    for pre: nat := 1 to MaxPreprocessed() + 1
      invariant result == Blocks(PreRow(clusters), pre - 1)
    {
      result := AddMain(clusters, pre, result);
      BlocksStep(PreRow(clusters), pre - 1);
    }
    ghost var normalized := result;
    for arity: nat := 1 to maxArity + 1
      invariant result == normalized + Blocks(Composed(), arity - 1)
    {
      ComposedIs(arity);
      BlocksStep(Composed(), arity - 1);
      result := result + [Compose(arity)];
    }
    result := result + [Deferred];
    result := result + [Shrink];
  }

  lemma ComposedIs(arity: nat)
    ensures Composed()(arity) == [Compose(arity)]
  {
  }

  /** The loop over the main multiple. */
  method AddMain(clusters: seq<Cluster>, pre: nat, before: seq<Shape>) returns (result: seq<Shape>)
    requires 1 <= pre <= 33
    ensures result == before + PreRow(clusters)(pre)
  {
    hide DivCeil, MaxPadding, MaxMain, MainRow;
    result := before;
    Limits(pre);
    for main: nat := 1 to MaxMain(pre) + 1
      invariant result == before + Blocks(MainRow(clusters, pre), main - 1)
    {
      result := AddPaddings(clusters, pre, main, result);
    }
  }

  /** The loops over both paddings. */
  method AddPaddings(clusters: seq<Cluster>, pre: nat, main: nat, before: seq<Shape>) returns (result: seq<Shape>)
    ensures result == before + MainRow(clusters, pre)(main)
  {
    hide DivCeil, MaxPadding, ForClusters;
    result := before;
    Limits(0);
    for mainPad: nat := 1 to MaxPadding() + 1
      invariant result == before + Blocks(MainPadRow(clusters, pre, main), mainPad - 1)
    {
      ghost var r := result;
      for prePad: nat := 1 to MaxPadding() + 1
        invariant result == r + Blocks(PrePadRow(clusters, pre, main, mainPad), prePad - 1)
      {
        result := AddClusters(clusters, pre, main, mainPad, prePad, result);
      }
    }
  }

  /** The innermost loop, over the chip clusters. */
  method AddClusters(clusters: seq<Cluster>, pre: nat, main: nat, mainPad: nat, prePad: nat, before: seq<Shape>)
    returns (result: seq<Shape>)
    ensures result == before + ForClusters(clusters, pre, main, mainPad, prePad)
  {
    result := before;
    ghost var all := ForClusters(clusters, pre, main, mainPad, prePad);
    for i := 0 to |clusters|
      invariant result == before + all[..i]
    {
      result := result + [Entry(clusters[i], pre, main, mainPad, prePad)];
    }
    assert all[..|clusters|] == all;
  }

  // ---------------------------------------------------------------- what is enumerated

  /** The normalize shapes on the list: both multiples positive, the preprocessed one within its
      maximum and their sum within the padded threshold, with one padding column each. */
  predicate Enumerated(cs: seq<Cluster>, x: Shape) {
    && x.Normalize? && x.cluster in cs
    && x.preArea % STACK == 0 && x.mainArea % STACK == 0
    && 1 <= x.preArea / STACK <= 33 && 1 <= x.mainArea / STACK
    && x.preArea / STACK + x.mainArea / STACK <= 193
    && x.prePad == 1 && x.mainPad == 1
  }

  lemma ClusterBlock(cs: seq<Cluster>, pre: nat, main: nat, mainPad: nat, prePad: nat, x: Shape)
    ensures x in ForClusters(cs, pre, main, mainPad, prePad)
       <==> exists c :: c in cs && x == Entry(c, pre, main, mainPad, prePad)
  {
    var r := ForClusters(cs, pre, main, mainPad, prePad);
    if c :| c in cs && x == Entry(c, pre, main, mainPad, prePad) {
      var i :| 0 <= i < |cs| && cs[i] == c;
      assert r[i] == x;
    }
  }

  lemma MainRowIs(cs: seq<Cluster>, pre: nat, main: nat)
    ensures MainRow(cs, pre)(main) == ForClusters(cs, pre, main, 1, 1)
  {
    var inner := PrePadRow(cs, pre, main, 1);
    assert Blocks(inner, 1) == Blocks(inner, 0) + inner(1) == inner(1);
    var outer := MainPadRow(cs, pre, main);
    assert Blocks(outer, 1) == Blocks(outer, 0) + outer(1) == outer(1);
  }

  lemma MainBlock(cs: seq<Cluster>, pre: nat, main: nat, x: Shape)
    ensures x in MainRow(cs, pre)(main) <==> exists c :: c in cs && x == Entry(c, pre, main, 1, 1)
  {
    MainRowIs(cs, pre, main);
    ClusterBlock(cs, pre, main, 1, 1, x);
  }

  lemma NormalizedMember(cs: seq<Cluster>, x: Shape)
    ensures x in Normalized(cs) <==> Enumerated(cs, x)
  {
    hide MainRow, Blocks, Entry;
    BlocksMember(PreRow(cs), 33, x);
    if x in Normalized(cs) {
      var pre: nat :| 1 <= pre <= 33 && InBlock(PreRow(cs), pre, x);
      BlocksMember(MainRow(cs, pre), 193 - pre, x);
      var main: nat :| 1 <= main <= 193 - pre && InBlock(MainRow(cs, pre), main, x);
      MainBlock(cs, pre, main, x);
      var c :| c in cs && x == Entry(c, pre, main, 1, 1);
      EntryIs(c, pre, main, 1, 1);
    }
    if Enumerated(cs, x) {
      var pre, main := x.preArea / STACK, x.mainArea / STACK;
      EntryIs(x.cluster, pre, main, 1, 1);
      assert x == Entry(x.cluster, pre, main, 1, 1);
      MainBlock(cs, pre, main, x);
      assert InBlock(MainRow(cs, pre), main, x);
      BlocksMember(MainRow(cs, pre), 193 - pre, x);
      assert InBlock(PreRow(cs), pre, x);
    }
  }

  lemma EntryIs(c: Cluster, pre: nat, main: nat, mainPad: nat, prePad: nat)
    ensures Entry(c, pre, main, mainPad, prePad) == Normalize(c, pre * STACK, main * STACK, prePad, mainPad)
    ensures Entry(c, pre, main, mainPad, prePad).preArea / STACK == pre
    ensures Entry(c, pre, main, mainPad, prePad).mainArea / STACK == main
    ensures Entry(c, pre, main, mainPad, prePad).preArea % STACK == 0
    ensures Entry(c, pre, main, mainPad, prePad).mainArea % STACK == 0
  {
  }

  /** Membership in the whole list, exactly. */
  lemma ShapeEnumerated(cs: seq<Cluster>, maxArity: nat, x: Shape)
    ensures x in AllShapes(cs, maxArity) <==>
      || Enumerated(cs, x)
      || (x.Compose? && 1 <= x.arity <= maxArity)
      || x == Deferred || x == Shrink
  {
    hide Blocks, Normalized;
    NormalizedMember(cs, x);
    BlocksMember(Composed(), maxArity, x);
    if x.Compose? && 1 <= x.arity <= maxArity { assert InBlock(Composed(), x.arity, x); }
  }

  lemma CeilPositive(a: nat, b: nat)
    requires a >= 1 && b >= 1
    ensures DivCeil(a, b) >= 1
  {
    hide DivCeil;
    var q := DivCeil(a, b);
    assert q == 0 ==> q * b == 0;
  }

  lemma CeilSum(a: nat, b: nat)
    requires a >= 1 && b >= 1 && a + b <= ELEMENT_THRESHOLD
    ensures 1 <= DivCeil(a, STACK) && 1 <= DivCeil(b, STACK)
    ensures DivCeil(a, STACK) + DivCeil(b, STACK) <= 193
  {
    hide DivCeil;
    var p, q := DivCeil(a, STACK), DivCeil(b, STACK);
    if p > 0 && q > 0 {
      assert (p - 1) * STACK < a && (q - 1) * STACK < b;
    }
  }

  // ---------------------------------------------------------------- no duplicates

  lemma ClustersDistinct(cs: seq<Cluster>, pre: nat, main: nat, mainPad: nat, prePad: nat)
    requires Distinct(cs)
    ensures Distinct(ForClusters(cs, pre, main, mainPad, prePad))
  {
    var r := ForClusters(cs, pre, main, mainPad, prePad);
    forall i, j | 0 <= i < j < |r| ensures r[i] != r[j] { assert r[i].cluster == cs[i] && r[j].cluster == cs[j]; }
  }

  lemma MainRowDistinct(cs: seq<Cluster>, pre: nat, main: nat)
    requires Distinct(cs)
    ensures Distinct(MainRow(cs, pre)(main))
  {
    MainRowIs(cs, pre, main);
    ClustersDistinct(cs, pre, main, 1, 1);
  }

  function MainOf(x: Shape): nat { if x.Normalize? then x.mainArea / STACK else 0 }
  function PreOf(x: Shape): nat { if x.Normalize? then x.preArea / STACK else 0 }
  function ArityOf(x: Shape): nat { if x.Compose? then x.arity else 0 }

  lemma PreRowDistinct(cs: seq<Cluster>, pre: nat)
    requires Distinct(cs) && pre <= 193
    ensures Distinct(PreRow(cs)(pre))
    ensures forall x :: x in PreRow(cs)(pre) ==> PreOf(x) == pre
  {
    hide MainRow, Blocks, Entry;
    var f := MainRow(cs, pre);
    forall main: nat | 1 <= main <= 193 - pre ensures Distinct(f(main)) { MainRowDistinct(cs, pre, main); }
    forall main: nat, x | 1 <= main <= 193 - pre && x in f(main) ensures MainOf(x) == main {
      MainBlock(cs, pre, main, x);
      var c :| c in cs && x == Entry(c, pre, main, 1, 1);
      EntryIs(c, pre, main, 1, 1);
    }
    BlocksDistinct(f, MainOf, 193 - pre);
    forall x | x in PreRow(cs)(pre) ensures PreOf(x) == pre {
      BlocksMember(f, 193 - pre, x);
      var main: nat :| 1 <= main <= 193 - pre && InBlock(f, main, x);
      MainBlock(cs, pre, main, x);
      var c :| c in cs && x == Entry(c, pre, main, 1, 1);
      EntryIs(c, pre, main, 1, 1);
    }
  }

  /** No shape is listed twice exactly when no cluster is. */
  lemma NoDuplicates(cs: seq<Cluster>, maxArity: nat)
    ensures Distinct(AllShapes(cs, maxArity)) <==> Distinct(cs)
  {
    if Distinct(cs) {
      DistinctIfClusters(cs, maxArity);
    } else {
      var all, first := AllShapes(cs, maxArity), ForClusters(cs, 1, 1, 1, 1);
      FirstBlock(cs, maxArity);
      var i, j :| 0 <= i < j < |cs| && cs[i] == cs[j];
      assert all[i] == first[i] == first[j] == all[j];
    }
  }

  lemma {:induction false} BlocksPrefix<T>(f: nat -> seq<T>, n: nat)
    requires n >= 1
    ensures f(1) <= Blocks(f, n)
  {
    if n == 1 { assert Blocks(f, 1) == Blocks(f, 0) + f(1) == f(1); } else { BlocksPrefix(f, n - 1); }
  }

  lemma FirstBlock(cs: seq<Cluster>, maxArity: nat)
    ensures ForClusters(cs, 1, 1, 1, 1) <= AllShapes(cs, maxArity)
  {
    hide Blocks, ForClusters, Composed;
    BlocksPrefix(PrePadRow(cs, 1, 1, 1), 1);
    BlocksPrefix(MainPadRow(cs, 1, 1), 1);
    BlocksPrefix(MainRow(cs, 1), 192);
    BlocksPrefix(PreRow(cs), 33);
  }

  lemma DistinctIfClusters(cs: seq<Cluster>, maxArity: nat)
    requires Distinct(cs)
    ensures Distinct(AllShapes(cs, maxArity))
  {
    hide Blocks, Composed, PreRow;
    forall pre: nat | 1 <= pre <= 33
      ensures Distinct(PreRow(cs)(pre)) && forall x :: x in PreRow(cs)(pre) ==> PreOf(x) == pre
    {
      PreRowDistinct(cs, pre);
    }
    BlocksDistinct(PreRow(cs), PreOf, 33);
    ComposedDistinct(maxArity);
    var n, m := Normalized(cs), Blocks(Composed(), maxArity);
    forall x | x in n ensures x !in m && x.Normalize? { NormalizedMember(cs, x); }
    DistinctAppend(n, m);
    DistinctAppend(n + m, [Deferred, Shrink]);
  }

  lemma ComposedDistinct(maxArity: nat)
    ensures Distinct(Blocks(Composed(), maxArity))
    ensures forall x :: x in Blocks(Composed(), maxArity) ==> x.Compose?
  {
    BlocksDistinct(Composed(), ArityOf, maxArity);
    forall x | x in Blocks(Composed(), maxArity) ensures x.Compose? {
      BlocksMember(Composed(), maxArity, x);
      var i: nat :| 1 <= i <= maxArity && InBlock(Composed(), i, x);
    }
  }

  // ---------------------------------------------------------------- positions

  lemma {:induction false} BlockAt<T>(f: nat -> seq<T>, n: nat, i: nat, k: nat)
    requires 1 <= i <= n && k < |f(i)|
    ensures |Blocks(f, i - 1)| + k < |Blocks(f, n)| && Blocks(f, n)[|Blocks(f, i - 1)| + k] == f(i)[k]
  {
    BlocksStep(f, n - 1);
    if i < n { BlockAt(f, n - 1, i, k); }
  }

  lemma {:induction false} UniformLength<T>(f: nat -> seq<T>, n: nat, size: nat)
    requires forall i: nat :: 1 <= i <= n ==> |f(i)| == size
    ensures |Blocks(f, n)| == n * size
  {
    if n > 0 {
      UniformLength(f, n - 1, size);
      assert (n - 1) * size + size == n * size;
    }
  }

  /** The number of pairs of multiples whose preprocessed one is smaller. */
  function PairsBefore(pre: nat): nat
    requires 1 <= pre <= 194
    ensures 2 * PairsBefore(pre) == (pre - 1) * (386 - pre)
  {
    if pre == 1 then 0 else PairsBefore(pre - 1) + (194 - pre)
  }

  lemma RowLength(cs: seq<Cluster>, pre: nat, main: nat)
    requires pre <= 193
    ensures |Blocks(MainRow(cs, pre), main)| == main * |cs|
  {
    hide Blocks, MainRow;
    forall i: nat ensures |MainRow(cs, pre)(i)| == |cs| { MainRowIs(cs, pre, i); }
    UniformLength(MainRow(cs, pre), main, |cs|);
  }

  lemma {:induction false} RowsLength(cs: seq<Cluster>, pre: nat)
    requires 1 <= pre <= 194
    ensures |Blocks(PreRow(cs), pre - 1)| == PairsBefore(pre) * |cs|
  {
    hide MainRow;
    if pre > 1 {
      RowsLength(cs, pre - 1);
      RowLength(cs, pre - 1, 194 - pre);
      BlocksStep(PreRow(cs), pre - 2);
      Expand(PairsBefore(pre - 1), 194 - pre, |cs|);
    }
  }

  lemma Expand(a: nat, b: nat, n: nat)
    ensures (a + b) * n == a * n + b * n
  {
  }

  function Position(pre: nat, main: nat, clusters: nat, k: nat): nat
    requires 1 <= pre <= 33 && main >= 1
  {
    var pairs: nat := PairsBefore(pre) + main - 1;
    pairs * clusters + k
  }

  lemma NormalizedAt(cs: seq<Cluster>, pre: nat, main: nat, k: nat)
    requires 1 <= pre <= 33 && 1 <= main <= 193 - pre && k < |cs|
    ensures Position(pre, main, |cs|, k) < |Normalized(cs)|
    ensures Normalized(cs)[Position(pre, main, |cs|, k)] == Entry(cs[k], pre, main, 1, 1)
  {
    hide Blocks, MainRow, Entry;
    RowsLength(cs, 34);
    RowsLength(cs, pre);
    RowLength(cs, pre, main - 1);
    MainRowIs(cs, pre, main);
    BlockAt(MainRow(cs, pre), 193 - pre, main, k);
    BlockAt(PreRow(cs), 33, pre, (main - 1) * |cs| + k);
    Expand(PairsBefore(pre), main - 1, |cs|);
  }

  lemma ComposedAt(maxArity: nat, arity: nat)
    ensures |Blocks(Composed(), maxArity)| == maxArity
    ensures 1 <= arity <= maxArity ==> Blocks(Composed(), maxArity)[arity - 1] == Compose(arity)
  {
    hide Blocks, Composed;
    forall i: nat ensures Composed()(i) == [Compose(i)] { ComposedIs(i); }
    UniformLength(Composed(), maxArity, 1);
    if 1 <= arity <= maxArity {
      UniformLength(Composed(), arity - 1, 1);
      BlockAt(Composed(), maxArity, arity, 0);
    }
  }

  lemma NormalizedLength(cs: seq<Cluster>)
    ensures |Normalized(cs)| == 5808 * |cs|
  {
    assert PairsBefore(34) == 5808;
    RowsLength(cs, 34);
  }

  lemma AllShapesIs(cs: seq<Cluster>, maxArity: nat)
    ensures AllShapes(cs, maxArity) == Normalized(cs) + Blocks(Composed(), maxArity) + [Deferred, Shrink]
  {
  }

  lemma Joined(n: seq<Shape>, m: seq<Shape>, i: nat, j: nat)
    ensures var all := n + m + [Deferred, Shrink];
      && |all| == |n| + |m| + 2 && all[|n| + |m|] == Deferred && all[|n| + |m| + 1] == Shrink
      && (i < |n| ==> all[i] == n[i]) && (j < |m| ==> all[|n| + j] == m[j])
  {
  }

  /** Where each shape stands: ordered by the preprocessed multiple, then the main multiple, then the
      cluster; then the arities; then the two single shapes. There are 5808 pairs of multiples. */
  lemma ShapeAt(cs: seq<Cluster>, maxArity: nat, pre: nat, main: nat, k: nat, arity: nat)
    ensures
      var (all, single) := (AllShapes(cs, maxArity), 5808 * |cs|);
      && |all| == single + maxArity + 2
      && (1 <= pre <= 33 && 1 <= main <= 193 - pre && k < |cs| ==>
            && Position(pre, main, |cs|, k) < single
            && all[Position(pre, main, |cs|, k)] == Normalize(cs[k], pre * STACK, main * STACK, 1, 1))
      && (1 <= arity <= maxArity ==> all[single + arity - 1] == Compose(arity))
      && all[single + maxArity] == Deferred && all[single + maxArity + 1] == Shrink
  {
    hide *;
    var n, m := Normalized(cs), Blocks(Composed(), maxArity);
    NormalizedLength(cs);
    ComposedAt(maxArity, arity);
    AllShapesIs(cs, maxArity);
    Joined(n, m, 0, if 1 <= arity <= maxArity then arity - 1 else 0);
    if 1 <= pre <= 33 && 1 <= main <= 193 - pre && k < |cs| {
      NormalizedAt(cs, pre, main, k);
      EntryIs(cs[k], pre, main, 1, 1);
      Joined(n, m, Position(pre, main, |cs|, k), 0);
    }
  }

  // ---------------------------------------------------------------- padding of dummy_input

  /** `dummy_input`: the columns that round an area up to a multiple of the stacking height. */
  function PaddingCols(area: nat, stack: nat, rows: nat): nat
    requires stack > 0 && rows > 0
  {
    var multiple := DivCeil(area, stack);
    var cols := DivCeil(multiple * stack - area, rows);
    if cols >= 1 then cols else 1
  }

  lemma {:induction false} DivCeilMonotone(a: nat, a': nat, b: nat)
    requires b > 0 && a <= a'
    ensures DivCeil(a, b) <= DivCeil(a', b)
  {
    hide DivCeil;
    var p, q := DivCeil(a, b), DivCeil(a', b);
    if p > q {
      assert (p - 1) * b >= q * b by { MulMonotone(q, p - 1, b); }
    }
  }

  lemma MulMonotone(x: int, y: int, b: int)
    requires x <= y && b > 0
    ensures x * b <= y * b
  {
  }

  /** The padding stays within the enumerated range, and the padded area reaches the next multiple of
      the stacking height. With one column fewer it would not, unless the area is a multiple already. */
  lemma PaddingInRange(area: nat, stack: nat, rows: nat)
    requires stack > 0 && rows > 0
    ensures 1 <= PaddingCols(area, stack, rows) <= DivCeil(stack, rows)
    ensures
      var (cols, goal) := (PaddingCols(area, stack, rows), DivCeil(area, stack) * stack);
      area + cols * rows >= goal && (area < goal ==> area + (cols - 1) * rows < goal)
  {
    hide DivCeil;
    var m := DivCeil(area, stack);
    var gap := m * stack - area;
    assert m > 0 ==> (m - 1) * stack == m * stack - stack;
    assert gap < stack by { if m == 0 { assert m * stack == 0; } }
    DivCeilMonotone(gap, stack, rows);
    CeilPositive(stack, rows);
    var k := DivCeil(gap, rows);
    if k == 0 { assert k * rows == 0; }
  }

  /** Every pair of areas that fits the element threshold rounds up, with the padding of `dummy_input`, to
      an enumerated shape, for every cluster. */
  lemma EveryAreaCovered(cs: seq<Cluster>, maxArity: nat, c: Cluster, preArea: nat, mainArea: nat)
    requires c in cs && preArea >= 1 && mainArea >= 1 && preArea + mainArea <= ELEMENT_THRESHOLD
    requires DivCeil(preArea, STACK) <= MaxPreprocessed()
    ensures
      var (pre, main) := (DivCeil(preArea, STACK) * STACK, DivCeil(mainArea, STACK) * STACK);
      Normalize(c, pre, main, PaddingCols(preArea, STACK, ROWS), PaddingCols(mainArea, STACK, ROWS))
        in AllShapes(cs, maxArity)
  {
    hide DivCeil, MaxPreprocessed, AllShapes, PaddingCols;
    CeilSum(preArea, mainArea);
    Limits(0);
    PaddingInRange(preArea, STACK, ROWS);
    PaddingInRange(mainArea, STACK, ROWS);
    var p, q := DivCeil(preArea, STACK), DivCeil(mainArea, STACK);
    var x := Normalize(c, p * STACK, q * STACK, 1, 1);
    EntryIs(c, p, q, 1, 1);
    ShapeEnumerated(cs, maxArity, x);
  }
}
