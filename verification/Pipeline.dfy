/** The worker pipeline of `build_vk_map`: a producer feeds shape indices through a bounded channel to
    compile workers, which feed a second bounded channel read by setup workers. Every worker loops on
    `rx.lock().await.recv().await` in the head of a `while let`, so the guard of the mutex lives until
    the end of the loop body and is released only when the worker asks for the next item. */
module Pipeline {
  import opened Basics

  /** `Holding`: has the lock, waits in `recv`. `Busy`: received i and works on it. `Sending`: waits
      for room in the program channel. `Gone`: left the loop. */
  datatype Worker = Idle | Holding | Busy(i: nat) | Sending(i: nat) | Gone

  /** `todo` is what the producer has not sent; `closed` says it dropped its senders. Each channel has
      room for as many items as it has readers. `vks` and `panics` are the two unbounded channels. */
  datatype State = State(
    todo: seq<nat>, closed: bool,
    shapes: seq<nat>, compilers: seq<Worker>, shapeLock: Option<nat>,
    programs: seq<nat>, setups: seq<Worker>, programLock: Option<nat>,
    vks: seq<nat>, panics: seq<nat>)

  datatype Event =
    | SendShape | Close
    | Lock(w: nat) | Recv(w: nat) | RecvNone(w: nat)
    | CompileOk(w: nat) | CompilePanic(w: nat) | Push(w: nat)
    | LockSetup(w: nat) | RecvProgram(w: nat) | RecvProgramNone(w: nat) | Setup(w: nat)

  function Repeat(n: nat, x: Worker): (r: seq<Worker>)
    ensures |r| == n && forall i :: 0 <= i < n ==> r[i] == x
  {
    seq(n, _ => x)
  }

  function Init(selected: seq<nat>, compilers: nat, setups: nat): State {
    State(selected, false, [], Repeat(compilers, Idle), None, [], Repeat(setups, Idle), None, [], [])
  }

  predicate AllGone(ws: seq<Worker>) { forall w :: 0 <= w < |ws| ==> ws[w].Gone? }

  /** Every sender of the program channel is dropped: the producer's, and one per compile worker. */
  predicate ProgramsClosed(s: State) { s.closed && AllGone(s.compilers) }

  predicate Compiler(s: State, w: nat) { w < |s.compilers| }

  predicate SetupWorker(s: State, w: nat) { w < |s.setups| }

  predicate Enabled(s: State, e: Event) {
    match e
    case SendShape => s.todo != [] && |s.shapes| < |s.compilers|
    case Close => s.todo == [] && !s.closed
    case Lock(w) => Compiler(s, w) && s.compilers[w].Idle? && s.shapeLock.None?
    case Recv(w) => Compiler(s, w) && s.compilers[w].Holding? && s.shapes != []
    case RecvNone(w) => Compiler(s, w) && s.compilers[w].Holding? && s.shapes == [] && s.closed
    case CompileOk(w) => Compiler(s, w) && s.compilers[w].Busy?
    case CompilePanic(w) => Compiler(s, w) && s.compilers[w].Busy?
    case Push(w) => Compiler(s, w) && s.compilers[w].Sending? && |s.programs| < |s.setups|
    case LockSetup(w) => SetupWorker(s, w) && s.setups[w].Idle? && s.programLock.None?
    case RecvProgram(w) => SetupWorker(s, w) && s.setups[w].Holding? && s.programs != []
    case RecvProgramNone(w) => SetupWorker(s, w) && s.setups[w].Holding? && s.programs == [] && ProgramsClosed(s)
    case Setup(w) => SetupWorker(s, w) && s.setups[w].Busy?
  }

  function After(s: State, e: Event): State
    requires Enabled(s, e)
  {
    match e
    case SendShape => s.(todo := s.todo[1..], shapes := s.shapes + [s.todo[0]])
    case Close => s.(closed := true)
    case Lock(w) => s.(compilers := s.compilers[w := Holding], shapeLock := Some(w))
    case Recv(w) => s.(compilers := s.compilers[w := Busy(s.shapes[0])], shapes := s.shapes[1..])
    case RecvNone(w) => s.(compilers := s.compilers[w := Gone], shapeLock := None)
    case CompileOk(w) => s.(compilers := s.compilers[w := Sending(s.compilers[w].i)])
    case CompilePanic(w) =>
      s.(compilers := s.compilers[w := Idle], shapeLock := None, panics := s.panics + [s.compilers[w].i])
    case Push(w) =>
      s.(compilers := s.compilers[w := Idle], shapeLock := None, programs := s.programs + [s.compilers[w].i])
    case LockSetup(w) => s.(setups := s.setups[w := Holding], programLock := Some(w))
    case RecvProgram(w) => s.(setups := s.setups[w := Busy(s.programs[0])], programs := s.programs[1..])
    case RecvProgramNone(w) => s.(setups := s.setups[w := Gone], programLock := None)
    case Setup(w) =>
      s.(setups := s.setups[w := Idle], programLock := None, vks := s.vks + [s.setups[w].i])
  }

  // ---------------------------------------------------------------- invariant

  predicate Working(x: Worker) { x.Holding? || x.Busy? || x.Sending? }

  /** The lock is held by exactly the worker that is inside its loop body. */
  predicate Guarded(ws: seq<Worker>, l: Option<nat>) {
    && (l.Some? ==> l.value < |ws|)
    && forall w :: 0 <= w < |ws| ==> (Working(ws[w]) <==> l == Some(w))
  }

  predicate AnyGone(ws: seq<Worker>) { exists w :: 0 <= w < |ws| && ws[w].Gone? }

  /** How often a worker carries x. */
  function Load(y: Worker, x: nat): nat { if y == Busy(x) || y == Sending(x) then 1 else 0 }

  /** How often the worker that holds the lock carries x. */
  function Carried(ws: seq<Worker>, l: Option<nat>, x: nat): nat
    requires Guarded(ws, l)
  {
    if l.Some? then Load(ws[l.value], x) else 0
  }

  lemma CarriedUpdate(ws: seq<Worker>, l: Option<nat>, w: nat, y: Worker, l': Option<nat>, x: nat)
    requires w < |ws| && Guarded(ws, l) && Guarded(ws[w := y], l') && !ws[w].Gone?
    requires ws[w].Idle? ==> l.None?
    ensures Carried(ws[w := y], l', x) - Carried(ws, l, x) == Load(y, x) - Load(ws[w], x)
  {
    assert Working(ws[w]) <==> l == Some(w);
    assert Working(ws[w := y][w]) <==> l' == Some(w);
    if l'.Some? { assert Working(ws[w := y][l'.value]); }
  }

  predicate Valid(s: State) {
    && |s.compilers| >= 1 && |s.setups| >= 1
    && Guarded(s.compilers, s.shapeLock) && Guarded(s.setups, s.programLock)
    && (forall w :: 0 <= w < |s.setups| ==> !s.setups[w].Sending?)
    && |s.shapes| <= |s.compilers| && |s.programs| <= |s.setups|
    && (s.closed ==> s.todo == [])
    && (AnyGone(s.compilers) ==> s.closed && s.shapes == [])
    && (AnyGone(s.setups) ==> ProgramsClosed(s) && s.programs == [])
  }

  function Count(q: seq<nat>, x: nat): nat { multiset(q)[x] }

  function Unit(y: nat, x: nat): nat { if y == x then 1 else 0 }

  /** How often index x occurs anywhere in the pipeline. */
  function Occurrences(s: State, x: nat): nat
    requires Valid(s)
  {
    Count(s.todo, x) + Count(s.shapes, x) + Carried(s.compilers, s.shapeLock, x)
    + Count(s.programs, x) + Carried(s.setups, s.programLock, x) + Count(s.vks, x) + Count(s.panics, x)
  }

  lemma Popped(q: seq<nat>, x: nat)
    requires q != []
    ensures Count(q, x) == Count(q[1..], x) + Unit(q[0], x)
  {
    assert q == [q[0]] + q[1..];
  }

  lemma Pushed(q: seq<nat>, y: nat, x: nat)
    ensures Count(q + [y], x) == Count(q, x) + Unit(y, x)
  {
  }

  lemma StaysGone(ws: seq<Worker>, w: nat, x: Worker)
    requires w < |ws| && !ws[w].Gone? && !x.Gone?
    ensures AnyGone(ws[w := x]) <==> AnyGone(ws)
    ensures !AllGone(ws) && !AllGone(ws[w := x])
  {
    var us := ws[w := x];
    if v :| 0 <= v < |ws| && ws[v].Gone? { assert us[v].Gone?; }
    if v :| 0 <= v < |us| && us[v].Gone? { assert ws[v].Gone?; }
    assert !us[w].Gone?;
  }

  /** The steps of the producer and the compile workers. */
  predicate Upstream(e: Event) {
    e.SendShape? || e.Close? || e.Lock? || e.Recv? || e.RecvNone? || e.CompileOk? || e.CompilePanic? || e.Push?
  }

  lemma UpstreamValid(s: State, e: Event)
    requires Valid(s) && Enabled(s, e) && Upstream(e)
    ensures Valid(After(s, e))
  {
    if e.RecvNone? {
      assert !AllGone(s.compilers) && !AnyGone(s.setups);
    } else if !e.SendShape? && !e.Close? {
      StaysGone(s.compilers, e.w, After(s, e).compilers[e.w]);
    }
  }

  lemma DownstreamValid(s: State, e: Event)
    requires Valid(s) && Enabled(s, e) && !Upstream(e)
    ensures Valid(After(s, e))
  {
    if !e.RecvProgramNone? { StaysGone(s.setups, e.w, After(s, e).setups[e.w]); }
  }

  lemma ValidStep(s: State, e: Event)
    requires Valid(s) && Enabled(s, e)
    ensures Valid(After(s, e))
  {
    if Upstream(e) { UpstreamValid(s, e); } else { DownstreamValid(s, e); }
  }

  /** No step loses or duplicates an index. */
  lemma OccurrencesStep(s: State, e: Event, x: nat)
    requires Valid(s) && Enabled(s, e) && Valid(After(s, e))
    ensures Occurrences(After(s, e), x) == Occurrences(s, x)
  {
    hide AnyGone, AllGone, Guarded, Carried, Count;
    var t := After(s, e);
    match e
    case SendShape => Popped(s.todo, x); Pushed(s.shapes, s.todo[0], x);
    case Close =>
    case Lock(w) => CarriedUpdate(s.compilers, s.shapeLock, w, Holding, t.shapeLock, x);
    case Recv(w) =>
      Popped(s.shapes, x);
      CarriedUpdate(s.compilers, s.shapeLock, w, Busy(s.shapes[0]), t.shapeLock, x);
    case RecvNone(w) => CarriedUpdate(s.compilers, s.shapeLock, w, Gone, t.shapeLock, x);
    case CompileOk(w) => CarriedUpdate(s.compilers, s.shapeLock, w, t.compilers[w], t.shapeLock, x);
    case CompilePanic(w) =>
      Pushed(s.panics, s.compilers[w].i, x);
      CarriedUpdate(s.compilers, s.shapeLock, w, Idle, t.shapeLock, x);
    case Push(w) =>
      Pushed(s.programs, s.compilers[w].i, x);
      CarriedUpdate(s.compilers, s.shapeLock, w, Idle, t.shapeLock, x);
    case LockSetup(w) => CarriedUpdate(s.setups, s.programLock, w, Holding, t.programLock, x);
    case RecvProgram(w) =>
      Popped(s.programs, x);
      CarriedUpdate(s.setups, s.programLock, w, Busy(s.programs[0]), t.programLock, x);
    case RecvProgramNone(w) => CarriedUpdate(s.setups, s.programLock, w, Gone, t.programLock, x);
    case Setup(w) =>
      Pushed(s.vks, s.setups[w].i, x);
      CarriedUpdate(s.setups, s.programLock, w, Idle, t.programLock, x);
  }

  // ---------------------------------------------------------------- order

  datatype Outcome = Tried | Compiled | Panicked | KeyMade

  /** The index for which a step has an outcome, as a list of at most one. */
  function Handled(s: State, e: Event, o: Outcome): seq<nat>
    requires Enabled(s, e)
  {
    if (e.CompileOk? && (o.Tried? || o.Compiled?)) || (e.CompilePanic? && (o.Tried? || o.Panicked?))
      then [s.compilers[e.w].i]
    else if o.KeyMade? && e.Setup? then [s.setups[e.w].i]
    else []
  }

  /** The index that the worker with the lock works on, and the one it is sending. */
  function InWork(ws: seq<Worker>, l: Option<nat>): seq<nat> {
    if l.Some? && l.value < |ws| && ws[l.value].Busy? then [ws[l.value].i] else []
  }

  function InSend(ws: seq<Worker>, l: Option<nat>): seq<nat> {
    if l.Some? && l.value < |ws| && ws[l.value].Sending? then [ws[l.value].i] else []
  }

  /** What is still to be compiled, and what has been compiled, each in the order of the channels. */
  function Ahead(s: State): seq<nat> { InWork(s.compilers, s.shapeLock) + (s.shapes + s.todo) }

  function Behind(s: State): seq<nat> {
    (s.vks + InWork(s.setups, s.programLock)) + (s.programs + InSend(s.compilers, s.shapeLock))
  }

  lemma AheadStep(s: State, e: Event)
    requires Guarded(s.compilers, s.shapeLock) && Enabled(s, e)
    ensures Handled(s, e, Tried) + Ahead(After(s, e)) == Ahead(s)
  {
    var t := After(s, e);
    if e.SendShape? {
      assert (s.shapes + [s.todo[0]]) + s.todo[1..] == s.shapes + s.todo;
    } else if e.Recv? {
      HolderIs(s.compilers, s.shapeLock, e.w);
      assert [s.shapes[0]] + (s.shapes[1..] + s.todo) == s.shapes + s.todo;
    } else if !e.Close? && Upstream(e) {
      HolderIs(s.compilers, s.shapeLock, e.w);
    }
  }

  lemma HolderIs(ws: seq<Worker>, l: Option<nat>, w: nat)
    requires Guarded(ws, l) && w < |ws|
    ensures Working(ws[w]) <==> l == Some(w)
  {
  }

  /** The compile workers add to the end. */
  lemma BehindUpstream(s: State, e: Event)
    requires Guarded(s.compilers, s.shapeLock) && Enabled(s, e) && Upstream(e)
    ensures Behind(After(s, e)) == Behind(s) + Handled(s, e, Compiled)
  {
    var front := s.vks + InWork(s.setups, s.programLock);
    if !e.SendShape? && !e.Close? { HolderIs(s.compilers, s.shapeLock, e.w); }
    if e.CompileOk? { Associate(front, s.programs, [s.compilers[e.w].i]); }
  }

  /** The setup workers move items within. */
  lemma BehindDownstream(s: State, e: Event)
    requires Guarded(s.setups, s.programLock) && Enabled(s, e) && !Upstream(e)
    ensures Behind(After(s, e)) == Behind(s) + Handled(s, e, Compiled)
  {
    var back := InSend(s.compilers, s.shapeLock);
    HolderIs(s.setups, s.programLock, e.w);
    if e.RecvProgram? {
      assert (s.vks + [s.programs[0]]) + (s.programs[1..] + back) == s.vks + (s.programs + back);
    }
  }

  lemma BehindStep(s: State, e: Event)
    requires Valid(s) && Enabled(s, e)
    ensures Behind(After(s, e)) == Behind(s) + Handled(s, e, Compiled)
  {
    hide Behind, After, Enabled;
    if Upstream(e) { BehindUpstream(s, e); } else { BehindDownstream(s, e); }
  }

  lemma Associate(p: seq<nat>, q: seq<nat>, r: seq<nat>)
    ensures (p + q) + r == p + (q + r)
  {
  }

  // ---------------------------------------------------------------- progress

  predicate Finished(s: State) { ProgramsClosed(s) && AllGone(s.setups) }

  lemma AllIsAny(ws: seq<Worker>)
    requires |ws| >= 1
    ensures AllGone(ws) ==> AnyGone(ws)
  {
    assert ws[0] == ws[0];
  }

  lemma CompilersMove(s: State) returns (e: Event)
    requires Valid(s) && !ProgramsClosed(s) && s.programs == []
    ensures Enabled(s, e)
  {
    if s.shapeLock.Some? {
      var w := s.shapeLock.value;
      assert Working(s.compilers[w]);
      if s.compilers[w].Busy? { e := CompileOk(w); }
      else if s.compilers[w].Sending? { e := Push(w); }
      else if s.shapes != [] { e := Recv(w); }
      else if s.closed { e := RecvNone(w); }
      else if s.todo == [] { e := Close; }
      else { e := SendShape; }
    } else {
      AllIsAny(s.compilers);
      var w: nat :| w < |s.compilers| && !s.compilers[w].Gone?;
      e := Lock(w);
    }
  }

  /** No deadlock: until the work is finished some step is enabled. */
  lemma Progress(s: State) returns (e: Event)
    requires Valid(s) && !Finished(s)
    ensures Enabled(s, e)
  {
    if s.programLock.Some? {
      var w := s.programLock.value;
      assert Working(s.setups[w]);
      if s.setups[w].Busy? { e := Setup(w); }
      else if s.programs != [] { e := RecvProgram(w); }
      else if ProgramsClosed(s) { e := RecvProgramNone(w); }
      else { e := CompilersMove(s); }
    } else {
      AllIsAny(s.setups);
      var w: nat :| w < |s.setups| && !s.setups[w].Gone?;
      e := LockSetup(w);
    }
  }

  function Cost(x: Worker, busy: nat): nat {
    match x
    case Gone => 0
    case Holding => 1
    case Idle => 2
    case Sending(_) => 6
    case Busy(_) => busy
  }

  function TotalCost(ws: seq<Worker>, busy: nat): nat {
    if ws == [] then 0 else Cost(ws[0], busy) + TotalCost(ws[1..], busy)
  }

  lemma {:induction false} CostUpdate(ws: seq<Worker>, busy: nat, w: nat, x: Worker)
    requires w < |ws|
    ensures TotalCost(ws[w := x], busy) == TotalCost(ws, busy) - Cost(ws[w], busy) + Cost(x, busy)
  {
    if w == 0 {
      assert ws[0 := x][1..] == ws[1..];
    } else {
      assert ws[w := x][1..] == ws[1..][w - 1 := x];
      CostUpdate(ws[1..], busy, w - 1, x);
    }
  }

  /** The number of steps still possible is at most this. */
  function Rank(s: State): nat {
    8 * |s.todo| + (if s.closed then 0 else 1) + 7 * |s.shapes| + TotalCost(s.compilers, 7)
    + 3 * |s.programs| + TotalCost(s.setups, 3)
  }

  lemma RankStep(s: State, e: Event)
    requires Valid(s) && Enabled(s, e)
    ensures Rank(After(s, e)) < Rank(s)
  {
    hide TotalCost, Valid;
    if e.SendShape? || e.Close? {
    } else if Upstream(e) {
      CostUpdate(s.compilers, 7, e.w, After(s, e).compilers[e.w]);
    } else {
      CostUpdate(s.setups, 3, e.w, After(s, e).setups[e.w]);
    }
  }

  // ---------------------------------------------------------------- whole runs

  predicate IsRun(s: State, es: seq<Event>)
    decreases |es|
  {
    es == [] || (Enabled(s, es[0]) && IsRun(After(s, es[0]), es[1..]))
  }

  function Final(s: State, es: seq<Event>): State
    requires IsRun(s, es)
    decreases |es|
  {
    if es == [] then s else Final(After(s, es[0]), es[1..])
  }

  lemma {:induction false} RunKeeps(s: State, es: seq<Event>, x: nat)
    requires Valid(s) && IsRun(s, es)
    ensures Valid(Final(s, es)) && Occurrences(Final(s, es), x) == Occurrences(s, x)
    ensures |es| + Rank(Final(s, es)) <= Rank(s)
    decreases |es|
  {
    if es != [] {
      ValidStep(s, es[0]);
      OccurrencesStep(s, es[0], x);
      RankStep(s, es[0]);
      RunKeeps(After(s, es[0]), es[1..], x);
    }
  }

  /** The indices for which the steps of a run have an outcome. */
  function Outcomes(s: State, es: seq<Event>, o: Outcome): seq<nat>
    requires IsRun(s, es)
    decreases |es|
  {
    if es == [] then [] else Handled(s, es[0], o) + Outcomes(After(s, es[0]), es[1..], o)
  }

  /** The panic list grows exactly by the indices whose compilation panics, and the key list by those
      that are set up, in the order of the run. */
  lemma {:induction false} ListsGrow(s: State, es: seq<Event>)
    requires IsRun(s, es)
    ensures Final(s, es).panics == s.panics + Outcomes(s, es, Panicked)
    ensures Final(s, es).vks == s.vks + Outcomes(s, es, KeyMade)
    decreases |es|
  {
    if es != [] {
      var t := After(s, es[0]);
      StepLists(s, es[0]);
      hide Enabled, After, Handled;
      ListsGrow(t, es[1..]);
      Associate(s.panics, Handled(s, es[0], Panicked), Outcomes(t, es[1..], Panicked));
      Associate(s.vks, Handled(s, es[0], KeyMade), Outcomes(t, es[1..], KeyMade));
    }
  }

  lemma StepLists(s: State, e: Event)
    requires Enabled(s, e)
    ensures After(s, e).panics == s.panics + Handled(s, e, Panicked)
    ensures After(s, e).vks == s.vks + Handled(s, e, KeyMade)
  {
  }

  /** Shapes are compiled in the order in which they were selected, and programs are set up in the order
      in which they were compiled. */
  lemma {:induction false} RunInOrder(s: State, es: seq<Event>)
    requires Valid(s) && IsRun(s, es)
    ensures Outcomes(s, es, Tried) + Ahead(Final(s, es)) == Ahead(s)
    ensures Behind(Final(s, es)) == Behind(s) + Outcomes(s, es, Compiled)
    ensures Valid(Final(s, es))
    decreases |es|
  {
    if es != [] {
      var e, t := es[0], After(s, es[0]);
      ValidStep(s, e);
      AheadStep(s, e);
      BehindStep(s, e);
      hide Enabled, After, Handled, Valid, Ahead, Behind;
      RunInOrder(t, es[1..]);
      Associate(Handled(s, e, Tried), Outcomes(t, es[1..], Tried), Ahead(Final(t, es[1..])));
      Associate(Behind(s), Handled(s, e, Compiled), Outcomes(t, es[1..], Compiled));
    }
  }

  lemma {:induction false} NoPanics(s: State, es: seq<Event>)
    requires IsRun(s, es) && forall i :: 0 <= i < |es| ==> !es[i].CompilePanic?
    ensures Outcomes(s, es, Panicked) == [] && Outcomes(s, es, Compiled) == Outcomes(s, es, Tried)
    decreases |es|
  {
    if es != [] { NoPanics(After(s, es[0]), es[1..]); }
  }

  /** In every run the panic list holds exactly the indices whose compilation panicked, and the key list
      exactly those that were set up, a part of those compiled, in their order. A finished run has tried to
      compile exactly the selected indices, in their order, and made a key for each that did not panic. */
  lemma AnswersFollowEvents(selected: seq<nat>, compilers: nat, setups: nat, es: seq<Event>)
    requires compilers >= 1 && setups >= 1 && IsRun(Init(selected, compilers, setups), es)
    ensures var s0 := Init(selected, compilers, setups);
      var s := Final(s0, es);
      && s.panics == Outcomes(s0, es, Panicked) && s.vks == Outcomes(s0, es, KeyMade)
      && s.vks <= Outcomes(s0, es, Compiled) && Outcomes(s0, es, Tried) <= selected
      && (Finished(s) ==> s.vks == Outcomes(s0, es, Compiled) && Outcomes(s0, es, Tried) == selected)
      && ((forall i :: 0 <= i < |es| ==> !es[i].CompilePanic?) ==>
            s.panics == [] && (Finished(s) ==> s.vks == selected))
  {
    hide *;
    var s0 := Init(selected, compilers, setups);
    var s := Final(s0, es);
    InitValid(selected, compilers, setups, 0);
    InitLists(selected, compilers, setups);
    ListsGrow(s0, es);
    RunInOrder(s0, es);
    KeysFirst(s);
    assert Outcomes(s0, es, Tried) <= Outcomes(s0, es, Tried) + Ahead(s);
    if forall i :: 0 <= i < |es| ==> !es[i].CompilePanic? { NoPanics(s0, es); }
    if Finished(s) { NothingLeft(s); }
  }

  lemma InitLists(selected: seq<nat>, compilers: nat, setups: nat)
    ensures var s := Init(selected, compilers, setups);
      s.panics == s.vks == [] && Ahead(s) == selected && Behind(s) == []
  {
  }

  lemma KeysFirst(s: State)
    ensures s.vks <= Behind(s)
  {
  }

  lemma NothingLeft(s: State)
    requires Valid(s) && Finished(s)
    ensures Ahead(s) == [] && Behind(s) == s.vks
  {
    AllIsAny(s.compilers);
    AllIsAny(s.setups);
  }

  lemma InitValid(selected: seq<nat>, compilers: nat, setups: nat, x: nat)
    requires compilers >= 1 && setups >= 1
    ensures Valid(Init(selected, compilers, setups))
    ensures Occurrences(Init(selected, compilers, setups), x) == multiset(selected)[x]
    ensures Rank(Init(selected, compilers, setups)) == 8 * |selected| + 1 + 2 * (compilers + setups)
  {
    IdleCost(Repeat(compilers, Idle), 7);
    IdleCost(Repeat(setups, Idle), 3);
  }

  lemma {:induction false} IdleCost(ws: seq<Worker>, busy: nat)
    requires forall w :: 0 <= w < |ws| ==> ws[w].Idle?
    ensures TotalCost(ws, busy) == 2 * |ws|
  {
    if ws != [] { IdleCost(ws[1..], busy); }
  }

  /** Every schedule of at least one compile and one setup worker: it ends within a fixed number of
      steps, it can only stop when all workers have left, and then each index has been answered exactly
      as often as it was selected, by a key or by a panic. */
  lemma EveryScheduleCompletes(selected: seq<nat>, compilers: nat, setups: nat, es: seq<Event>)
    requires compilers >= 1 && setups >= 1 && IsRun(Init(selected, compilers, setups), es)
    ensures |es| <= 8 * |selected| + 1 + 2 * (compilers + setups)
    ensures var s := Final(Init(selected, compilers, setups), es);
      && ((forall e :: !Enabled(s, e)) <==> Finished(s))
      && (Finished(s) ==> multiset(s.vks) + multiset(s.panics) == multiset(selected))
  {
    hide *;
    var s0 := Init(selected, compilers, setups);
    var s := Final(s0, es);
    InitValid(selected, compilers, setups, 0);
    RunKeeps(s0, es, 0);
    forall x: nat ensures Occurrences(s, x) == multiset(selected)[x] {
      InitValid(selected, compilers, setups, x);
      RunKeeps(s0, es, x);
    }
    if Finished(s) { AtRest(s, selected); } else { var e := Progress(s); }
  }

  lemma AtRest(s: State, selected: seq<nat>)
    requires Valid(s) && Finished(s) && forall x: nat :: Occurrences(s, x) == multiset(selected)[x]
    ensures forall e :: !Enabled(s, e)
    ensures multiset(s.vks) + multiset(s.panics) == multiset(selected)
  {
    AllIsAny(s.compilers);
    AllIsAny(s.setups);
    forall x: nat ensures (multiset(s.vks) + multiset(s.panics))[x] == multiset(selected)[x] {
      assert Occurrences(s, x) == multiset(selected)[x];
    }
  }

  /** Both mutexes are held through the loop body: at no point do two workers of a kind work at once. */
  lemma OneAtATime(selected: seq<nat>, compilers: nat, setups: nat, es: seq<Event>, v: nat, w: nat)
    requires compilers >= 1 && setups >= 1 && IsRun(Init(selected, compilers, setups), es)
    ensures var s := Final(Init(selected, compilers, setups), es);
      && (Compiler(s, v) && Compiler(s, w) && Working(s.compilers[v]) && Working(s.compilers[w]) ==> v == w)
      && (SetupWorker(s, v) && SetupWorker(s, w) && Working(s.setups[v]) && Working(s.setups[w]) ==> v == w)
  {
    InitValid(selected, compilers, setups, 0);
    RunKeeps(Init(selected, compilers, setups), es, 0);
  }

  // ---------------------------------------------------------------- what the caller gets

  /** The indices that pass the optional filter, in order. */
  function Selected(shapes: nat, indices: Option<set<nat>>): seq<nat> {
    if shapes == 0 then [] else
      var before := Selected(shapes - 1, indices);
      if indices.None? || shapes - 1 in indices.value then before + [shapes - 1] else before
  }

  lemma {:induction false} SelectedOnce(shapes: nat, indices: Option<set<nat>>, x: nat)
    ensures multiset(Selected(shapes, indices))[x]
         == if x < shapes && (indices.None? || x in indices.value) then 1 else 0
  {
    if shapes > 0 { SelectedOnce(shapes - 1, indices, x); }
  }

  ghost predicate Ascending(q: seq<nat>) { forall i, j :: 0 <= i < j < |q| ==> q[i] < q[j] }

  lemma {:induction false} SelectedAscends(shapes: nat, indices: Option<set<nat>>)
    ensures Ascending(Selected(shapes, indices)) && forall x :: x in Selected(shapes, indices) ==> x < shapes
  {
    if shapes > 0 {
      SelectedAscends(shapes - 1, indices);
      var before := Selected(shapes - 1, indices);
      assert forall i :: 0 <= i < |before| ==> before[i] in before;
    }
  }

  /** What is compiled is a part of what is tried, in the same order. */
  lemma {:induction false} CompiledAscends(s: State, es: seq<Event>)
    requires IsRun(s, es) && Ascending(Outcomes(s, es, Tried))
    ensures Ascending(Outcomes(s, es, Compiled))
    ensures forall x :: x in Outcomes(s, es, Compiled) ==> x in Outcomes(s, es, Tried)
    decreases |es|
  {
    if es != [] {
      var h, rest := Handled(s, es[0], Tried), Outcomes(After(s, es[0]), es[1..], Tried);
      var c := Outcomes(After(s, es[0]), es[1..], Compiled);
      assert Handled(s, es[0], Compiled) == h || Handled(s, es[0], Compiled) == [];
      hide Handled, After, Enabled;
      TailAscends(h, rest);
      CompiledAscends(After(s, es[0]), es[1..]);
      PartAscends(h, rest, c);
    }
  }

  lemma TailAscends(h: seq<nat>, rest: seq<nat>)
    requires Ascending(h + rest)
    ensures Ascending(rest)
  {
    assert forall i :: 0 <= i < |rest| ==> rest[i] == (h + rest)[|h| + i];
  }

  lemma PartAscends(h: seq<nat>, rest: seq<nat>, c: seq<nat>)
    requires Ascending(h + rest) && Ascending(c) && forall x :: x in c ==> x in rest
    ensures Ascending(h + c)
  {
    forall i, j | 0 <= i < j < |h + c| ensures (h + c)[i] < (h + c)[j] {
      if j < |h| {
        assert (h + rest)[i] < (h + rest)[j];
      } else if i < |h| {
        assert c[j - |h|] in rest;
        var k :| 0 <= k < |rest| && rest[k] == c[j - |h|];
        assert (h + rest)[i] < (h + rest)[|h| + k];
      }
    }
  }

  /** At every point of every run the keys arrive in ascending order, whatever the number of workers. */
  lemma KeysAscend(shapes: nat, indices: Option<set<nat>>, compilers: nat, setups: nat, es: seq<Event>)
    requires compilers >= 1 && setups >= 1
    requires IsRun(Init(Selected(shapes, indices), compilers, setups), es)
    ensures Ascending(Final(Init(Selected(shapes, indices), compilers, setups), es).vks)
  {
    hide IsRun, Final, Init, Selected, Outcomes;
    var all := Selected(shapes, indices);
    AnswersFollowEvents(all, compilers, setups, es);
    SelectedAscends(shapes, indices);
    CompiledAscends(Init(all, compilers, setups), es);
  }

  /** The final loop over the key channel: `insert` for every message. */
  method CollectKeys(vks: seq<nat>, digest: nat -> nat) returns (keys: map<nat, nat>)
    ensures keys.Keys == set i | i in vks
    ensures forall i :: i in keys ==> keys[i] == digest(i)
  {
    keys := map[];
    for k := 0 to |vks|
      invariant keys.Keys == set i | i in vks[..k]
      invariant forall i :: i in keys ==> keys[i] == digest(i)
    {
      assert vks[..k + 1] == vks[..k] + [vks[k]];
      keys := keys[vks[k] := digest(vks[k])];
    }
    assert vks[..|vks|] == vks;
  }

  /** When a schedule has finished, every selected index is either a key or in the panic list, not in
      both, and never twice; no other index is. Which one is decided by its compilation. */
  lemma AnsweredOnce(shapes: nat, indices: Option<set<nat>>, compilers: nat, setups: nat, es: seq<Event>, x: nat)
    requires compilers >= 1 && setups >= 1
    requires IsRun(Init(Selected(shapes, indices), compilers, setups), es)
    requires Finished(Final(Init(Selected(shapes, indices), compilers, setups), es))
    ensures var s := Final(Init(Selected(shapes, indices), compilers, setups), es);
      && (x in s.vks || x in s.panics <==> x < shapes && (indices.None? || x in indices.value))
      && !(x in s.vks && x in s.panics)
      && multiset(s.vks)[x] <= 1 && multiset(s.panics)[x] <= 1
      && (x in s.vks <==> x in Outcomes(Init(Selected(shapes, indices), compilers, setups), es, Compiled))
      && (x in s.panics <==> x in Outcomes(Init(Selected(shapes, indices), compilers, setups), es, Panicked))
  {
    var all: seq<nat> := Selected(shapes, indices);
    EveryScheduleCompletes(all, compilers, setups, es);
    AnswersFollowEvents(all, compilers, setups, es);
    SelectedOnce(shapes, indices, x);
    var s := Final(Init(all, compilers, setups), es);
    assert (multiset(s.vks) + multiset(s.panics))[x] == multiset(all)[x];
    assert x in s.vks <==> multiset(s.vks)[x] > 0;
    assert x in s.panics <==> multiset(s.panics)[x] > 0;
    var compiled: seq<nat> := Outcomes(Init(all, compilers, setups), es, Compiled);
    assert x in compiled <==> multiset(compiled)[x] > 0;
  }
}
