/** The two-way index of `artifacts.rs` between proofs and their live artifacts. */
module ProofIndex {

  type Id = string

  /** `ProofArtifactsInner`. */
  datatype Index = Index(byProof: map<Id, set<Id>>, ofArtifact: map<Id, Id>)

  const EMPTY := Index(map[], map[])

  function Track(s: Index, p: Id, a: Id): Index {
    var set' := (if p in s.byProof then s.byProof[p] else {}) + {a};
    Index(s.byProof[p := set'], s.ofArtifact[a := p])
  }

  function Untrack(s: Index, a: Id): Index {
    if a !in s.ofArtifact then s
    else
      var p := s.ofArtifact[a];
      var of' := s.ofArtifact - {a};
      if p !in s.byProof then Index(s.byProof, of')
      else
        var rest := s.byProof[p] - {a};
        Index(if rest == {} then s.byProof - {p} else s.byProof[p := rest], of')
  }

  function Taken(s: Index, p: Id): set<Id> { if p in s.byProof then s.byProof[p] else {} }

  function Take(s: Index, p: Id): Index { Index(s.byProof - {p}, s.ofArtifact - Taken(s, p)) }

  /** The two maps are inverse to each other, and no proof is kept with an empty set. */
  ghost predicate Inverse(s: Index) {
    && (forall p, a :: p in s.byProof && a in s.byProof[p] ==> a in s.ofArtifact && s.ofArtifact[a] == p)
    && (forall a :: a in s.ofArtifact ==> s.ofArtifact[a] in s.byProof && a in s.byProof[s.ofArtifact[a]])
    && (forall p :: p in s.byProof ==> s.byProof[p] != {})
  }

  /** The condition under which `track` is sound: the artifact is new, or already this proof's. */
  predicate Trackable(s: Index, p: Id, a: Id) {
    a in s.ofArtifact ==> s.ofArtifact[a] == p
  }

  /** `track` keeps the maps inverse exactly when the artifact is not tracked for another proof. */
  lemma TrackExact(s: Index, p: Id, a: Id)
    requires Inverse(s)
    ensures Inverse(Track(s, p, a)) <==> Trackable(s, p, a)
  {
    var t := Track(s, p, a);
    if Trackable(s, p, a) {
      forall q, b | q in t.byProof && b in t.byProof[q] ensures b in t.ofArtifact && t.ofArtifact[b] == q {
        if q != p { assert q in s.byProof && b in s.byProof[q]; }
      }
      forall b | b in t.ofArtifact ensures t.ofArtifact[b] in t.byProof && b in t.byProof[t.ofArtifact[b]] {
        if b != a { assert b in s.ofArtifact; }
      }
    } else {
      var q := s.ofArtifact[a];
      assert q in t.byProof && a in t.byProof[q] && t.ofArtifact[a] == p;
    }
  }

  /** Tracking one artifact for two proofs leaves it in both sets. */
  lemma TrackTwiceBreaks()
    ensures !Inverse(Track(Track(EMPTY, "p", "a"), "q", "a"))
  {
    var s := Track(EMPTY, "p", "a");
    assert "p" in s.byProof && s.byProof["p"] == {"a"};
    assert "p" != "q";
    var t := Track(s, "q", "a");
    assert "p" in t.byProof && "a" in t.byProof["p"] && t.ofArtifact["a"] == "q";
  }

  lemma UntrackKeeps(s: Index, a: Id)
    requires Inverse(s)
    ensures Inverse(Untrack(s, a))
    ensures Untrack(s, a).ofArtifact == s.ofArtifact - {a}
  {
    if a in s.ofArtifact {
      var p := s.ofArtifact[a];
      var t := Untrack(s, a);
      forall b | b in t.ofArtifact ensures t.ofArtifact[b] in t.byProof && b in t.byProof[t.ofArtifact[b]] {
        assert b in s.ofArtifact;
        if s.ofArtifact[b] == p { assert b in s.byProof[p] - {a}; }
      }
    }
  }

  lemma TakeKeeps(s: Index, p: Id)
    requires Inverse(s)
    ensures Inverse(Take(s, p))
    ensures Taken(s, p) == set a | a in s.ofArtifact && s.ofArtifact[a] == p
    ensures forall a :: a in Take(s, p).ofArtifact <==> a in s.ofArtifact && s.ofArtifact[a] != p
    ensures forall a :: a in Take(s, p).ofArtifact ==> Take(s, p).ofArtifact[a] == s.ofArtifact[a]
  {
    var t := Take(s, p);
    TakenIs(s, p);
    forall q, a | q in t.byProof && a in t.byProof[q] ensures a in t.ofArtifact && t.ofArtifact[a] == q {
      assert q in s.byProof && a in s.byProof[q];
    }
  }

  lemma TakenIs(s: Index, p: Id)
    requires Inverse(s)
    ensures Taken(s, p) == set a | a in s.ofArtifact && s.ofArtifact[a] == p
  {
  }

  // ---------------------------------------------------------------- runs

  datatype Op = DoTrack(proof: Id, artifact: Id) | DoUntrack(artifact: Id) | DoTake(proof: Id)

  function Apply(s: Index, op: Op): Index {
    match op
    case DoTrack(p, a) => Track(s, p, a)
    case DoUntrack(a) => Untrack(s, a)
    case DoTake(p) => Take(s, p)
  }

  function After(ops: seq<Op>): Index {
    if ops == [] then EMPTY else Apply(After(ops[..|ops| - 1]), ops[|ops| - 1])
  }

  /** Whether `op` ends the life of artifact a of proof p. */
  predicate Ends(op: Op, p: Id, a: Id) {
    (op.DoUntrack? && op.artifact == a) || (op.DoTake? && op.proof == p)
  }

  /** Tracked for p at step i, and neither untracked nor taken since. */
  ghost predicate LiveFrom(ops: seq<Op>, p: Id, a: Id, i: nat) {
    i < |ops| && ops[i] == DoTrack(p, a) && forall j :: i < j < |ops| ==> !Ends(ops[j], p, a)
  }

  ghost predicate Live(ops: seq<Op>, p: Id, a: Id) {
    exists i: nat :: LiveFrom(ops, p, a, i)
  }

  /** No artifact is tracked for a proof while it is live for another. */
  ghost predicate Disciplined(ops: seq<Op>) {
    forall k, p :: 0 <= k < |ops| && ops[k].DoTrack? && Live(ops[..k], p, ops[k].artifact) ==> p == ops[k].proof
  }

  lemma LiveStep(ops: seq<Op>, p: Id, a: Id)
    requires ops != []
    ensures
      var prev, op := ops[..|ops| - 1], ops[|ops| - 1];
      Live(ops, p, a) <==> op == DoTrack(p, a) || (Live(prev, p, a) && !Ends(op, p, a))
  {
    var n := |ops| - 1;
    var prev, op := ops[..n], ops[n];
    if Live(ops, p, a) {
      var i: nat :| LiveFrom(ops, p, a, i);
      if i < n {
        assert !Ends(ops[n], p, a);
        assert LiveFrom(prev, p, a, i);
      }
    }
    if op == DoTrack(p, a) { assert LiveFrom(ops, p, a, n); }
    if Live(prev, p, a) && !Ends(op, p, a) {
      var i: nat :| LiveFrom(prev, p, a, i);
      assert LiveFrom(ops, p, a, i);
    }
  }

  /** After every disciplined run the maps are inverse, and an artifact belongs to a proof exactly
      when it was tracked for it and neither untracked nor taken since. */
  lemma {:induction false} RunMeaning(ops: seq<Op>)
    requires Disciplined(ops)
    ensures Inverse(After(ops))
    ensures forall p, a :: Live(ops, p, a) <==> a in After(ops).ofArtifact && After(ops).ofArtifact[a] == p
  {
    var s' := After(ops);
    if ops == [] {
      forall p, a ensures !Live(ops, p, a) {}
    } else {
      var n := |ops| - 1;
      var prev, op := ops[..n], ops[n];
      DisciplinedPrefix(ops);
      RunMeaning(prev);
      var s := After(prev);
      match op {
        case DoTrack(p, a) =>
          assert Trackable(s, p, a) by {
            if a in s.ofArtifact { assert Live(prev, s.ofArtifact[a], ops[n].artifact); }
          }
          TrackExact(s, p, a);
        case DoUntrack(a) => UntrackKeeps(s, a);
        case DoTake(p) => TakeKeeps(s, p);
      }
      forall p, a ensures Live(ops, p, a) <==> a in s'.ofArtifact && s'.ofArtifact[a] == p {
        LiveStep(ops, p, a);
        assert Live(prev, p, a) <==> a in s.ofArtifact && s.ofArtifact[a] == p;
      }
    }
  }

  lemma DisciplinedPrefix(ops: seq<Op>)
    requires Disciplined(ops) && ops != []
    ensures Disciplined(ops[..|ops| - 1])
  {
    var prev := ops[..|ops| - 1];
    forall k, p | 0 <= k < |prev| && prev[k].DoTrack? && Live(prev[..k], p, prev[k].artifact)
      ensures p == prev[k].proof
    {
      assert prev[..k] == ops[..k];
      assert Live(ops[..k], p, ops[k].artifact);
    }
  }

  lemma Undisciplined(ops: seq<Op>)
    requires ops != [] && Disciplined(ops[..|ops| - 1]) && !Disciplined(ops)
    ensures var s, op := After(ops[..|ops| - 1]), ops[|ops| - 1]; op.DoTrack? && !Trackable(s, op.proof, op.artifact)
  {
    var n := |ops| - 1;
    var prev := ops[..n];
    RunMeaning(prev);
    hide Inverse;
    assert forall k :: 0 <= k < n ==> prev[k] == ops[k] && prev[..k] == ops[..k];
    var k, p :| 0 <= k < |ops| && ops[k].DoTrack? && Live(ops[..k], p, ops[k].artifact) && p != ops[k].proof;
    assert k == n;
  }

  /** The maps are inverse at every point of a run. */
  ghost predicate AlwaysInverse(ops: seq<Op>) { forall k :: 0 <= k <= |ops| ==> Inverse(After(ops[..k])) }

  lemma AlwaysStep(ops: seq<Op>)
    requires ops != []
    ensures AlwaysInverse(ops) <==> AlwaysInverse(ops[..|ops| - 1]) && Inverse(After(ops))
  {
    hide Inverse, After;
    var n := |ops| - 1;
    var prev := ops[..n];
    assert ops[..n + 1] == ops;
    if AlwaysInverse(ops) {
      forall k | 0 <= k <= n ensures Inverse(After(prev[..k])) {
        assert prev[..k] == ops[..k];
        assert Inverse(After(ops[..k]));
      }
      assert Inverse(After(ops[..n + 1]));
    }
    if AlwaysInverse(prev) && Inverse(After(ops)) {
      forall k | 0 <= k <= n + 1 ensures Inverse(After(ops[..k])) {
        if k <= n {
          assert prev[..k] == ops[..k];
          assert Inverse(After(prev[..k]));
        }
      }
    }
  }

  /** They are so exactly in the disciplined runs. */
  lemma {:induction false} RunExact(ops: seq<Op>)
    ensures AlwaysInverse(ops) <==> Disciplined(ops)
  {
    if ops == [] {
      assert After(ops[..0]) == EMPTY;
    } else {
      hide AlwaysInverse, Disciplined, Inverse, Live, Track, Untrack, Take;
      var prev, op := ops[..|ops| - 1], ops[|ops| - 1];
      RunExact(prev);
      AlwaysStep(ops);
      if Disciplined(ops) {
        DisciplinedPrefix(ops);
        RunMeaning(ops);
      } else if Disciplined(prev) {
        Undisciplined(ops);
        RunMeaning(prev);
        TrackExact(After(prev), op.proof, op.artifact);
      }
    }
  }

  /** `take` returns exactly the artifacts that the proof leaked. */
  lemma TakeReturnsLeaked(ops: seq<Op>, p: Id)
    requires Disciplined(ops)
    ensures forall a :: a in Taken(After(ops), p) <==> Live(ops, p, a)
  {
    RunMeaning(ops);
    TakeKeeps(After(ops), p);
  }

  // ---------------------------------------------------------------- len

  /** Sum of the set sizes over a set of proofs. */
  ghost function Total(s: Index, ps: set<Id>): nat
    requires ps <= s.byProof.Keys
  {
    if ps == {} then 0 else var p :| p in ps; |s.byProof[p]| + Total(s, ps - {p})
  }

  /** The artifacts tracked for any of the given proofs. */
  ghost function Covered(s: Index, ps: set<Id>): set<Id> {
    set a | a in s.ofArtifact && s.ofArtifact[a] in ps
  }

  lemma {:induction false} TotalIsCovered(s: Index, ps: set<Id>)
    requires Inverse(s) && ps <= s.byProof.Keys
    ensures Total(s, ps) == |Covered(s, ps)|
  {
    if ps == {} {
      assert Covered(s, ps) == {};
    } else {
      var p :| p in ps && Total(s, ps) == |s.byProof[p]| + Total(s, ps - {p});
      TotalIsCovered(s, ps - {p});
      hide Covered, Inverse;
      CoveredSplit(s, ps, p);
    }
  }

  lemma CoveredSplit(s: Index, ps: set<Id>, p: Id)
    requires Inverse(s) && ps <= s.byProof.Keys && p in ps
    ensures Covered(s, ps) == s.byProof[p] + Covered(s, ps - {p})
    ensures s.byProof[p] !! Covered(s, ps - {p})
  {
  }

  /** `len` counts every proof's artifacts once. */
  lemma LenIsSumOfSets(s: Index)
    requires Inverse(s)
    ensures |s.ofArtifact| == Total(s, s.byProof.Keys)
  {
    TotalIsCovered(s, s.byProof.Keys);
    assert Covered(s, s.byProof.Keys) == s.ofArtifact.Keys;
  }

  // ---------------------------------------------------------------- the shared object

  /** `ProofArtifacts`: every method runs under the mutex. */
  class ProofArtifacts {
    var byProof: map<Id, set<Id>>
    var ofArtifact: map<Id, Id>

    function View(): Index
      reads this
    {
      Index(byProof, ofArtifact)
    }

    constructor ()
      ensures View() == EMPTY
    {
      byProof, ofArtifact := map[], map[];
    }

    method TrackArtifact(p: Id, a: Id)
      modifies this
      ensures View() == Track(old(View()), p, a)
    {
      var entry := if p in byProof then byProof[p] else {};
      byProof := byProof[p := entry + {a}];
      ofArtifact := ofArtifact[a := p];
    }

    method UntrackArtifact(a: Id)
      modifies this
      ensures View() == Untrack(old(View()), a)
    {
      if a in ofArtifact {
        var p := ofArtifact[a];
        ofArtifact := ofArtifact - {a};
        if p in byProof {
          byProof := byProof[p := byProof[p] - {a}];
          if byProof[p] == {} {
            byProof := byProof - {p};
          }
        }
        assert View() == Untrack(old(View()), a);
      }
    }

    method TakeProof(p: Id) returns (ids: set<Id>)
      modifies this
      ensures ids == Taken(old(View()), p)
      ensures View() == Take(old(View()), p)
    {
      ids := if p in byProof then byProof[p] else {};
      byProof := byProof - {p};
      var todo := ids;
      while todo != {}
        invariant todo <= ids
        invariant byProof == old(byProof) - {p}
        invariant ofArtifact == old(ofArtifact) - (ids - todo)
        decreases |todo|
      {
        var id :| id in todo;
        ofArtifact := ofArtifact - {id};
        todo := todo - {id};
      }
    }

    method Len() returns (n: nat)
      ensures n == |ofArtifact|
      ensures Inverse(View()) ==> n == Total(View(), byProof.Keys)
    {
      n := |ofArtifact|;
      if Inverse(View()) { LenIsSumOfSets(View()); }
    }
  }
}
