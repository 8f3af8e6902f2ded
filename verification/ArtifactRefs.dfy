/** Reference counting of `InMemoryArtifactClient`: the lock sections of `add_ref` and
    `remove_ref` for one artifact, in every interleaving of any number of calls. */
module ArtifactRefs {
  import opened Basics

  type Task = nat
  type Call = nat

  /** Progress of one `remove_ref` call. */
  datatype Phase =
    | SawZero          // counted zero references; the refs lock is free again
    | Dropped          // the refs entry is removed
    | Untracking       // the bytes are removed; the index is not pruned yet
    | Returned(last: bool)

  /** `refs` is the set in the refs map, if the artifact has an entry. `held` are the tasks that have
      added a reference and not removed it since. */
  datatype State = State(refs: Option<set<Task>>, stored: bool, calls: map<Call, Phase>, held: set<Task>)

  datatype Event =
    | AddRef(t: Task)
    | Remove(t: Task, c: Call)
    | DropEntry(c: Call) | DeleteBytes(c: Call) | Finish(c: Call)

  ghost predicate At(s: State, c: Call, phase: Phase) { c in s.calls && s.calls[c] == phase }

  /** One lock section. */
  ghost predicate Next(s: State, e: Event, s': State) {
    match e
    case AddRef(t) =>
      s' == s.(refs := Some((if s.refs.Some? then s.refs.value else {}) + {t}), held := s.held + {t})
    case Remove(t, c) =>
      && c !in s.calls
      && var refs' := if s.refs.Some? then Some(s.refs.value - {t}) else None;
         var count := if refs'.Some? then |refs'.value| else 0;
         s' == State(refs', s.stored, s.calls[c := if count == 0 then SawZero else Returned(false)], s.held - {t})
    case DropEntry(c) => At(s, c, SawZero) && s' == s.(refs := None, calls := s.calls[c := Dropped])
    case DeleteBytes(c) => At(s, c, Dropped) && s' == s.(stored := false, calls := s.calls[c := Untracking])
    case Finish(c) => At(s, c, Untracking) && s' == s.(calls := s.calls[c := Returned(true)])
  }

  /** The call has counted zero and goes on to delete. */
  predicate Late(p: Phase) { p != Returned(false) }

  ghost predicate NoLate(s: State) { forall c :: c in s.calls ==> !Late(s.calls[c]) }

  predicate Deleting(p: Phase) { p.Untracking? || p == Returned(true) }

  /** Nobody has referred to the artifact yet. */
  ghost predicate Fresh(s: State) { s.calls == map[] && s.held == {} && s.refs.None? && s.stored }

  /** The entry is the non-empty set of holders. */
  ghost predicate Counted(s: State) { s.held != {} && s.refs == Some(s.held) && s.stored }

  /** A run of any steps, from before the first reference or with some references already counted. */
  ghost predicate IsRun(run: seq<State>, events: seq<Event>) {
    && |run| == |events| + 1
    && run[0].calls == map[] && (Fresh(run[0]) || Counted(run[0]))
    && forall i :: 0 <= i < |events| ==> Next(run[i], events[i], run[i + 1])
  }

  // ---------------------------------------------------------------- every run

  /** Until a call counts zero the entry is exact, and the bytes are there until a call deletes them. */
  ghost predicate Sound(s: State) {
    && (NoLate(s) ==> Fresh(s) || Counted(s))
    && (s.stored <==> forall c :: c in s.calls ==> !Deleting(s.calls[c]))
  }

  lemma NoLateBefore(s: State, e: Event, s': State)
    requires Next(s, e, s') && NoLate(s')
    ensures NoLate(s)
  {
    forall c | c in s.calls ensures !Late(s.calls[c]) {
      assert c in s'.calls && !Late(s'.calls[c]);
    }
  }

  lemma StoredStep(s: State, e: Event, s': State)
    requires Sound(s) && Next(s, e, s')
    ensures s'.stored <==> forall c :: c in s'.calls ==> !Deleting(s'.calls[c])
  {
    if c :| c in s.calls && Deleting(s.calls[c]) { assert c in s'.calls && Deleting(s'.calls[c]); }
    if e.DeleteBytes? { assert Deleting(s'.calls[e.c]); }
  }

  lemma SoundStep(s: State, e: Event, s': State)
    requires Sound(s) && Next(s, e, s')
    ensures Sound(s')
  {
    StoredStep(s, e, s');
    if NoLate(s') {
      NoLateBefore(s, e, s');
      if e.Remove? {
        assert !Late(s'.calls[e.c]);
        assert Counted(s) && s'.held == s'.refs.value;
      }
    }
  }

  lemma {:induction false} SoundAlways(run: seq<State>, events: seq<Event>, i: nat)
    requires IsRun(run, events) && i < |run|
    ensures Sound(run[i])
  {
    if i > 0 {
      SoundAlways(run, events, i - 1);
      SoundStep(run[i - 1], events[i - 1], run[i]);
    }
  }

  /** In every run the artifact disappears exactly at the deletion of a call that will return true. */
  lemma StoredUntilLast(run: seq<State>, events: seq<Event>, i: nat)
    requires IsRun(run, events) && i < |run|
    ensures run[i].stored <==> forall c :: c in run[i].calls ==> !Deleting(run[i].calls[c])
  {
    SoundAlways(run, events, i);
  }

  // ---------------------------------------------------------------- runs of careful callers

  /** The artifact's entry in the refs map names some task. */
  predicate Referenced(s: State) { s.refs.Some? && s.refs.value != {} }

  /** No removal has been started yet, or the refs map names a task. */
  ghost predicate Open(s: State) { s.calls == map[] || Referenced(s) }

  /** Every reference added in the first n steps met an open artifact. */
  ghost predicate OpenUpTo(run: seq<State>, events: seq<Event>, n: nat)
    requires |run| == |events| + 1 && n <= |events|
  {
    forall i :: 0 <= i < n && events[i].AddRef? ==> Open(run[i])
  }

  /** Once a call has counted zero nobody holds a reference and the entry names nobody. */
  ghost predicate Inv(s: State) {
    Sound(s) && (!NoLate(s) ==> s.held == {} && !Referenced(s))
  }

  lemma InvStep(s: State, e: Event, s': State)
    requires Inv(s) && Next(s, e, s') && (e.AddRef? ==> Open(s))
    ensures Inv(s')
  {
    SoundStep(s, e, s');
    if NoLate(s) && e.Remove? && !NoLate(s') {
      var c :| c in s'.calls && Late(s'.calls[c]);
      assert c == e.c;
      assert s.refs.Some? ==> s.refs.value - {e.t} == {};
    }
  }

  lemma {:induction false} InvAlways(run: seq<State>, events: seq<Event>, i: nat)
    requires IsRun(run, events) && i < |run| && OpenUpTo(run, events, i)
    ensures Inv(run[i])
  {
    if i > 0 {
      InvAlways(run, events, i - 1);
      InvStep(run[i - 1], events[i - 1], run[i]);
    }
  }

  /** If all references met an open artifact, a held reference keeps it stored. */
  lemma StoredWhileHeld(run: seq<State>, events: seq<Event>, i: nat)
    requires IsRun(run, events) && i < |run| && OpenUpTo(run, events, i) && run[i].held != {}
    ensures run[i].stored
  {
    InvAlways(run, events, i);
  }

  /** In the first n steps references are removed only by tasks that hold one. */
  ghost predicate HoldersRemove(run: seq<State>, events: seq<Event>, n: nat)
    requires |run| == |events| + 1 && n <= |events|
  {
    forall i :: 0 <= i < n && events[i].Remove? ==> events[i].t in run[i].held
  }

  ghost predicate OneLate(s: State) {
    forall c, d :: c in s.calls && d in s.calls && Late(s.calls[c]) && Late(s.calls[d]) ==> c == d
  }

  lemma OneLateStep(s: State, e: Event, s': State)
    requires Inv(s) && OneLate(s) && Next(s, e, s') && (e.Remove? ==> e.t in s.held)
    ensures OneLate(s')
  {
    forall c, d | c in s'.calls && d in s'.calls && Late(s'.calls[c]) && Late(s'.calls[d]) ensures c == d {
      if e.Remove? { assert NoLate(s); }
    }
  }

  lemma {:induction false} OneLateAlways(run: seq<State>, events: seq<Event>, i: nat)
    requires IsRun(run, events) && i < |run| && OpenUpTo(run, events, i) && HoldersRemove(run, events, i)
    ensures OneLate(run[i])
  {
    if i > 0 {
      OneLateAlways(run, events, i - 1);
      InvAlways(run, events, i - 1);
      OneLateStep(run[i - 1], events[i - 1], run[i]);
    }
  }

  ghost predicate AllReturned(s: State) {
    s.held == {} && forall c :: c in s.calls ==> s.calls[c].Returned?
  }

  /** When every reference has been removed by its holder and every call has returned, exactly one call
      returned true and the artifact is gone, unless it was never referred to. */
  lemma ExactlyOneTrue(run: seq<State>, events: seq<Event>, i: nat)
    requires IsRun(run, events) && i < |run| && OpenUpTo(run, events, i) && HoldersRemove(run, events, i)
    requires AllReturned(run[i])
    ensures run[i].stored <==> run[i].calls == map[]
    ensures run[i].calls != map[] ==>
      exists c :: At(run[i], c, Returned(true)) && forall d :: At(run[i], d, Returned(true)) ==> d == c
  {
    InvAlways(run, events, i);
    OneLateAlways(run, events, i);
    var s := run[i];
    if s.calls != map[] {
      assert !NoLate(s);
      var c :| c in s.calls && Late(s.calls[c]);
      assert At(s, c, Returned(true)) && Deleting(s.calls[c]);
    }
  }

  // ---------------------------------------------------------------- when a reference protects

  /** Steps other than `add_ref`. */
  ghost predicate Continues(s: State, events: seq<Event>, s': State)
    decreases |events|
  {
    if events == [] then s == s'
    else !events[0].AddRef? && exists m :: Next(s, events[0], m) && Continues(m, events[1..], s')
  }

  /** In whatever order calls go on, a held reference keeps the artifact stored. */
  ghost predicate Protected(s: State) {
    forall events, s' :: Continues(s, events, s') && s'.held != {} ==> s'.stored
  }

  lemma {:induction false} InvProtects(s: State, events: seq<Event>, s': State)
    requires Inv(s) && Continues(s, events, s')
    ensures Inv(s')
    decreases |events|
  {
    if events != [] {
      var m :| Next(s, events[0], m) && Continues(m, events[1..], s');
      InvStep(s, events[0], m);
      InvProtects(m, events[1..], s');
    }
  }

  lemma ContinueOne(s: State, e: Event, m: State, rest: seq<Event>, s': State)
    requires Next(s, e, m) && !e.AddRef? && Continues(m, rest, s')
    ensures Continues(s, [e] + rest, s')
  {
    assert ([e] + rest)[0] == e && ([e] + rest)[1..] == rest;
  }

  /** From a call that has counted zero, its remaining steps delete the bytes. */
  lemma LateCallDeletes(s: State, c: Call) returns (events: seq<Event>, s': State)
    requires c in s.calls && Late(s.calls[c]) && (Deleting(s.calls[c]) ==> !s.stored)
    ensures Continues(s, events, s') && s'.held == s.held && !s'.stored
  {
    if At(s, c, SawZero) {
      var m1 := s.(refs := None, calls := s.calls[c := Dropped]);
      var m2 := m1.(stored := false, calls := m1.calls[c := Untracking]);
      assert Continues(m2, [], m2);
      ContinueOne(m1, DeleteBytes(c), m2, [], m2);
      ContinueOne(s, DropEntry(c), m1, [DeleteBytes(c)] + [], m2);
      return [DropEntry(c)] + ([DeleteBytes(c)] + []), m2;
    }
    if At(s, c, Dropped) {
      var m := s.(stored := false, calls := s.calls[c := Untracking]);
      assert Continues(m, [], m);
      ContinueOne(s, DeleteBytes(c), m, [], m);
      return [DeleteBytes(c)] + [], m;
    }
    assert Continues(s, [], s);
    return [], s;
  }

  lemma ProtectedWhenSound(s: State, t: Task, s': State)
    requires Sound(s) && Next(s, AddRef(t), s')
    ensures Protected(s') <==> NoLate(s)
  {
    if NoLate(s) {
      InvStep(s, AddRef(t), s');
      forall events, e | Continues(s', events, e) && e.held != {} ensures e.stored {
        InvProtects(s', events, e);
      }
    } else {
      var c :| c in s.calls && Late(s.calls[c]);
      var events, e := LateCallDeletes(s', c);
      assert t in e.held;
      assert Continues(s', events, e) && e.held != {} && !e.stored;
    }
  }

  lemma OpenMeansNoLate(s: State)
    requires Inv(s)
    ensures Open(s) <==> NoLate(s)
  {
  }

  /** In every run, a reference protects the artifact exactly when no removal has counted zero before. If
      all earlier references met an open artifact, the caller can see this: it is so exactly when no
      removal has been started or the refs map names a task. */
  lemma AddRefExact(run: seq<State>, events: seq<Event>, i: nat)
    requires IsRun(run, events) && i < |events| && events[i].AddRef?
    ensures Protected(run[i + 1]) <==> NoLate(run[i])
    ensures OpenUpTo(run, events, i) ==> (Protected(run[i + 1]) <==> Open(run[i]))
  {
    SoundAlways(run, events, i);
    ProtectedWhenSound(run[i], events[i].t, run[i + 1]);
    if OpenUpTo(run, events, i) {
      InvAlways(run, events, i);
      OpenMeansNoLate(run[i]);
    }
  }

  /** In every run, all references so far protected the artifact exactly when all met an open one. */
  lemma {:induction false} RunExact(run: seq<State>, events: seq<Event>, n: nat)
    requires IsRun(run, events) && n <= |events|
    ensures (forall i :: 0 <= i < n && events[i].AddRef? ==> Protected(run[i + 1])) <==> OpenUpTo(run, events, n)
  {
    hide Protected, Open;
    if n > 0 {
      RunExact(run, events, n - 1);
      if events[n - 1].AddRef? { AddRefExact(run, events, n - 1); }
    }
  }

  // ---------------------------------------------------------------- references added too late

  /** Task 0 is the first to refer to the artifact, removes its reference and counts zero. */
  const COUNTED_ZERO := State(Some({}), true, map[0 := SawZero], {})

  /** Then task 1 adds a reference. */
  const LATE := State(Some({1}), true, map[0 := SawZero], {1})

  lemma LateRun()
    ensures
      var (fresh0, s0) := (State(None, true, map[], {}), State(Some({0}), true, map[], {0}));
      && IsRun([fresh0, s0, COUNTED_ZERO, LATE], [AddRef(0), Remove(0, 0), AddRef(1)])
      && !Open(COUNTED_ZERO)
  {
    var empty: set<Task> := {};
    assert {0} - {0} == empty && |empty| == 0 && empty + {0} == {0} && empty + {1} == {1};
    var calls: map<Call, Phase> := map[];
    assert calls[0 := SawZero] == map[0 := SawZero];
    var (fresh0, s0) := (State(None, true, map[], {}), State(Some({0}), true, map[], {0}));
    assert Next(fresh0, AddRef(0), s0) && Next(s0, Remove(0, 0), COUNTED_ZERO) && Next(COUNTED_ZERO, AddRef(1), LATE);
    assert 0 in COUNTED_ZERO.calls;
  }

  /** The run that loses an artifact: task 0 goes on and deletes what task 1 refers to. */
  lemma LateReferenceLost()
    ensures
      var s3 := State(None, true, map[0 := Dropped], {1});
      var s4 := State(None, false, map[0 := Untracking], {1});
      Next(LATE, DropEntry(0), s3) && Next(s3, DeleteBytes(0), s4) && s4.held == {1} && !s4.stored
  {
    assert map[0 := SawZero][0 := Dropped] == map[0 := Dropped];
    assert map[0 := Dropped][0 := Untracking] == map[0 := Untracking];
  }

  /** After a late reference the refs map misleads: it names task 1, and a reference of task 2 is lost too. */
  lemma EntryMisleads()
    ensures
      var s' := State(Some({1, 2}), true, map[0 := SawZero], {1, 2});
      Open(LATE) && Next(LATE, AddRef(2), s') && !Protected(s')
  {
    var s' := State(Some({1, 2}), true, map[0 := SawZero], {1, 2});
    assert {1} + {2} == {1, 2} && 1 in LATE.refs.value;
    var events, e := LateCallDeletes(s', 0);
    assert 1 in e.held;
  }
}
