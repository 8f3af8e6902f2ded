/** `install_circuit_artifacts` and `publish_circuit_artifacts` of `build.rs`: any number of
    installers share one build directory. Each step below is one file system call of one
    installer; calls may fail, and an installer may crash between any two of them. */
module ArtifactInstaller {
  import opened Basics

  type File = nat

  /** A directory: the artifact files in it and whether the completion marker is among them. */
  datatype Dir = Dir(files: set<File>, marked: bool)

  /** Where an installer is in its code. */
  datatype Phase =
    | Downloading      // `download_circuit_artifacts` into the staging directory
    | Downloaded       // extraction succeeded; the marker is not written yet
    | Waiting          // marker written; opening and waiting for the install lock
    | Locked           // lock held; about to look for the marker
    | Checked          // no marker found; about to remove what is there
    | Cleared          // build directory absent; about to rename
    | Published        // renamed into place; lock still held
    | RenameFailed     // rename failed; about to remove the staging directory
    | Swept            // staging removed after a failed rename; about to look again
    | Finished(ok: bool)
    | Crashed

  datatype Installer = Installer(phase: Phase, staging: Option<Dir>)

  datatype State = State(build: Option<Dir>, lock: Option<nat>, installers: map<nat, Installer>)

  datatype Event =
    | Begin(p: nat)                          // `tempdir_in` claims a fresh staging directory
    | Extract(p: nat, file: File)            // one more file arrives in staging
    | DownloadOk(p: nat) | DownloadErr(p: nat)
    | MarkOk(p: nat) | MarkErr(p: nat)
    | Acquire(p: nat) | LockErr(p: nat)
    | Check(p: nat)
    | RemoveSome(p: nat, file: File)         // `remove_dir_all` deletes one file at a time
    | RemoveOk(p: nat) | RemoveErr(p: nat)
    | RenameOk(p: nat) | RenameErr(p: nat) | Return(p: nat)
    | SweepOk(p: nat) | SweepErr(p: nat)
    | Recheck(p: nat)
    | Crash(p: nat)

  // ---------------------------------------------------------------- the steps

  ghost predicate At(s: State, p: nat, phase: Phase) {
    p in s.installers && s.installers[p].phase == phase
  }

  function Move(s: State, p: nat, phase: Phase): State
    requires p in s.installers
  {
    s.(installers := s.installers[p := s.installers[p].(phase := phase)])
  }

  /** Leaving: the lock guard and the handle of the staging directory are dropped, which deletes it. */
  function Leave(s: State, p: nat, ok: bool): State
    requires p in s.installers
  {
    State(s.build, if s.lock == Some(p) then None else s.lock, s.installers[p := Installer(Finished(ok), None)])
  }

  /** `circuit_artifacts_installed`. */
  predicate Installed(s: State) { s.build.Some? && s.build.value.marked }

  function SetStaging(s: State, p: nat, d: Dir): State
    requires p in s.installers
  {
    s.(installers := s.installers[p := s.installers[p].(staging := Some(d))])
  }

  ghost predicate HasStaging(s: State, p: nat) { p in s.installers && s.installers[p].staging.Some? }

  /** `full` is the set of files in the tarball. */
  ghost predicate Next(full: set<File>, s: State, e: Event, s': State) {
    match e
    case Begin(p) =>
      && p !in s.installers
      && s' == s.(installers := s.installers[p := Installer(Downloading, Some(Dir({}, false)))])
    case Extract(p, f) =>
      && At(s, p, Downloading) && HasStaging(s, p) && f in full - s.installers[p].staging.value.files
      && s' == SetStaging(s, p, Dir(s.installers[p].staging.value.files + {f}, false))
    case DownloadOk(p) =>
      && At(s, p, Downloading) && HasStaging(s, p) && s.installers[p].staging.value.files == full
      && s' == Move(s, p, Downloaded)
    case DownloadErr(p) => At(s, p, Downloading) && s' == Leave(s, p, false)
    case MarkOk(p) =>
      && At(s, p, Downloaded) && HasStaging(s, p)
      && s' == Move(SetStaging(s, p, Dir(s.installers[p].staging.value.files, true)), p, Waiting)
    case MarkErr(p) => At(s, p, Downloaded) && s' == Leave(s, p, false)
    case Acquire(p) => At(s, p, Waiting) && s.lock.None? && s' == Move(s, p, Locked).(lock := Some(p))
    case LockErr(p) => At(s, p, Waiting) && s' == Leave(s, p, false)
    case Check(p) => At(s, p, Locked) && s' == (if Installed(s) then Leave(s, p, true) else Move(s, p, Checked))
    case RemoveSome(p, f) =>
      && At(s, p, Checked) && s.build.Some? && f in s.build.value.files
      && s' == s.(build := Some(Dir(s.build.value.files - {f}, s.build.value.marked)))
    case RemoveOk(p) => At(s, p, Checked) && s' == Move(s, p, Cleared).(build := None)
    case RemoveErr(p) => At(s, p, Checked) && s' == Leave(s, p, false)
    case RenameOk(p) =>
      && At(s, p, Cleared) && HasStaging(s, p) && s.build.None?
      && s' == State(s.installers[p].staging, s.lock, s.installers[p := Installer(Published, None)])
    case Return(p) => At(s, p, Published) && s' == Leave(s, p, true)
    case RenameErr(p) => At(s, p, Cleared) && s' == Move(s, p, RenameFailed)
    case SweepOk(p) =>
      && At(s, p, RenameFailed)
      && s' == Move(s.(installers := s.installers[p := s.installers[p].(staging := None)]), p, Swept)
    case SweepErr(p) =>
      // The handle was given up before the rename, so nothing deletes the directory.
      && At(s, p, RenameFailed)
      && s' == State(s.build, if s.lock == Some(p) then None else s.lock,
                     s.installers[p := s.installers[p].(phase := Finished(false))])
    case Recheck(p) => At(s, p, Swept) && s' == Leave(s, p, Installed(s))
    case Crash(p) =>
      && p in s.installers && !s.installers[p].phase.Finished?
      && s' == State(s.build, if s.lock == Some(p) then None else s.lock,
                     s.installers[p := s.installers[p].(phase := Crashed)])
  }

  /** Before the first installer: an old directory may be there; if it is marked it is complete. */
  ghost predicate Init(full: set<File>, s: State) {
    && s.installers == map[] && s.lock.None?
    && (Installed(s) ==> s.build.value.files == full)
  }

  // ---------------------------------------------------------------- the invariant

  predicate HoldsLock(phase: Phase) {
    phase.Locked? || phase.Checked? || phase.Cleared? || phase.Published? || phase.RenameFailed? || phase.Swept?
  }

  ghost predicate InstallerOk(full: set<File>, s: State, p: nat)
    requires p in s.installers
  {
    var i := s.installers[p];
    && (HoldsLock(i.phase) <==> s.lock == Some(p))
    && (i.phase.Downloaded? ==> i.staging.Some? && i.staging.value.files == full)
    && (i.phase.Waiting? || i.phase.Locked? || i.phase.Checked? || i.phase.Cleared?
        ==> i.staging == Some(Dir(full, true)))
    && (i.phase.Downloading? ==> i.staging.Some? && i.staging.value.files <= full)
    && (i.phase.Checked? || i.phase.Cleared? || i.phase.RenameFailed? || i.phase.Swept? ==> !Installed(s))
    && (i.phase.Cleared? ==> s.build.None?)
    && (i.phase.RenameFailed? ==> i.staging.Some?)
    && (i.phase == Finished(true) ==> i.staging.None?)
    && (i.phase == Finished(true) || i.phase.Published? ==> Installed(s))
  }

  ghost predicate Inv(full: set<File>, s: State) {
    && (Installed(s) ==> s.build.value.files == full)
    && (s.lock.Some? ==> s.lock.value in s.installers)
    && (forall p :: p in s.installers ==> InstallerOk(full, s, p))
  }

  /** Only the lock holder touches the build directory, and never a marked one. */
  lemma BuildStable(full: set<File>, s: State, e: Event, s': State)
    requires Inv(full, s) && Next(full, s, e, s')
    ensures Installed(s) ==> s'.build == s.build
    ensures s'.build != s.build ==> s.lock == Some(e.p) && (Installed(s') ==> s'.build == Some(Dir(full, true)))
    ensures Installed(s') ==> s'.build.value.files == full
  {
    if e.p in s.installers { assert InstallerOk(full, s, e.p); }
  }

  lemma OthersKeep(full: set<File>, s: State, e: Event, s': State, p: nat)
    requires Inv(full, s) && Next(full, s, e, s')
    requires p in s'.installers && p != e.p
    ensures InstallerOk(full, s', p)
  {
    assert p in s.installers && s'.installers[p] == s.installers[p];
    assert InstallerOk(full, s, p);
    if e.p in s.installers { assert InstallerOk(full, s, e.p); }
    BuildStable(full, s, e, s');
    if s'.build != s.build {
      assert !HoldsLock(s.installers[p].phase);
    }
  }

  /** The steps up to taking the lock. */
  predicate Early(e: Event) {
    e.Begin? || e.Extract? || e.DownloadOk? || e.DownloadErr? || e.MarkOk? || e.MarkErr? || e.Acquire? || e.LockErr?
  }

  lemma EarlyKeeps(full: set<File>, s: State, e: Event, s': State)
    requires Inv(full, s) && Next(full, s, e, s') && Early(e)
    ensures e.p in s'.installers && InstallerOk(full, s', e.p)
  {
    if e.p in s.installers { assert InstallerOk(full, s, e.p); }
  }

  lemma LateKeeps(full: set<File>, s: State, e: Event, s': State)
    requires Inv(full, s) && Next(full, s, e, s') && !Early(e)
    ensures e.p in s'.installers && InstallerOk(full, s', e.p)
  {
    assert InstallerOk(full, s, e.p);
  }

  lemma ActorKeeps(full: set<File>, s: State, e: Event, s': State)
    requires Inv(full, s) && Next(full, s, e, s')
    ensures e.p in s'.installers && InstallerOk(full, s', e.p)
  {
    if Early(e) { EarlyKeeps(full, s, e, s'); } else { LateKeeps(full, s, e, s'); }
  }

  lemma InvStep(full: set<File>, s: State, e: Event, s': State)
    requires Inv(full, s) && Next(full, s, e, s')
    ensures Inv(full, s')
  {
    BuildStable(full, s, e, s');
    ActorKeeps(full, s, e, s');
    forall p | p in s'.installers ensures InstallerOk(full, s', p) {
      if p != e.p { OthersKeep(full, s, e, s', p); }
    }
    assert s'.lock == s.lock || s'.lock.None? || s'.lock == Some(e.p);
    assert forall p :: p in s.installers ==> p in s'.installers;
  }

  // ---------------------------------------------------------------- whole runs

  /** A run: states linked by events, from an initial state. */
  ghost predicate IsRun(full: set<File>, run: seq<State>, events: seq<Event>) {
    && |run| == |events| + 1
    && Init(full, run[0])
    && forall i :: 0 <= i < |events| ==> Next(full, run[i], events[i], run[i + 1])
  }

  lemma InitInv(full: set<File>, s: State)
    requires Init(full, s)
    ensures Inv(full, s)
  {
  }

  lemma {:induction false} InvAlways(full: set<File>, run: seq<State>, events: seq<Event>, i: nat)
    requires IsRun(full, run, events) && i < |run|
    ensures Inv(full, run[i])
  {
    hide Next, Inv;
    if i == 0 {
      InitInv(full, run[0]);
    } else {
      InvAlways(full, run, events, i - 1);
      InvStep(full, run[i - 1], events[i - 1], run[i]);
    }
  }

  /** At every point of every run, a marked build directory holds exactly one full extraction. */
  lemma MarkedIsComplete(full: set<File>, run: seq<State>, events: seq<Event>, i: nat)
    requires IsRun(full, run, events) && i < |run|
    ensures Installed(run[i]) ==> run[i].build == Some(Dir(full, true))
  {
    InvAlways(full, run, events, i);
  }

  /** Once marked, the build directory never changes again. */
  lemma {:induction false} MarkedIsForever(full: set<File>, run: seq<State>, events: seq<Event>, i: nat, j: nat)
    requires IsRun(full, run, events) && i <= j < |run| && Installed(run[i])
    ensures run[j].build == run[i].build
  {
    hide Next, Inv;
    if i < j {
      MarkedIsForever(full, run, events, i, j - 1);
      InvAlways(full, run, events, j - 1);
      BuildStable(full, run[j - 1], events[j - 1], run[j]);
    }
  }

  /** A publish that returned Ok left the directory marked, from then on. */
  lemma OkMeansInstalled(full: set<File>, run: seq<State>, events: seq<Event>, i: nat, p: nat)
    requires IsRun(full, run, events) && i < |run|
    requires At(run[i], p, Finished(true))
    ensures Installed(run[i]) && run[i].build == Some(Dir(full, true))
  {
    InvAlways(full, run, events, i);
    assert InstallerOk(full, run[i], p);
  }

  /** After a failed rename the marker is never there: the lock already kept every other installer
      out, so the last look at it always reports the failure. */
  lemma FallbackIsDead(full: set<File>, run: seq<State>, events: seq<Event>, i: nat, p: nat)
    requires IsRun(full, run, events) && i < |run| && At(run[i], p, Swept)
    ensures !Installed(run[i])
  {
    InvAlways(full, run, events, i);
    assert InstallerOk(full, run[i], p);
  }

  /** Whether installer p has failed to remove its staging directory. */
  ghost predicate SweepFailed(events: seq<Event>, p: nat) { exists j :: 0 <= j < |events| && events[j] == SweepErr(p) }

  ghost predicate StagingOk(s: State, events: seq<Event>, p: nat) {
    if p in s.installers && s.installers[p].phase.Finished?
      then s.installers[p].staging.Some? <==> SweepFailed(events, p)
      else !SweepFailed(events, p)
  }

  lemma StagingStep(full: set<File>, s: State, e: Event, s': State, events: seq<Event>, p: nat)
    requires Inv(full, s) && Next(full, s, e, s') && StagingOk(s, events, p)
    ensures StagingOk(s', events + [e], p)
  {
    if e.p in s.installers { assert InstallerOk(full, s, e.p); }
    SweepAppend(events, e, p);
    hide SweepFailed, Inv;
  }

  lemma SweepAppend(events: seq<Event>, e: Event, p: nat)
    ensures SweepFailed(events + [e], p) <==> SweepFailed(events, p) || e == SweepErr(p)
  {
    var all := events + [e];
    if SweepFailed(events, p) {
      var j :| 0 <= j < |events| && events[j] == SweepErr(p);
      assert all[j] == SweepErr(p);
    }
    assert all[|events|] == e;
  }

  lemma {:induction false} StagingAlways(full: set<File>, run: seq<State>, events: seq<Event>, i: nat, p: nat)
    requires IsRun(full, run, events) && i < |run|
    ensures StagingOk(run[i], events[..i], p)
  {
    hide Next, Inv;
    if i > 0 {
      StagingAlways(full, run, events, i - 1, p);
      InvAlways(full, run, events, i - 1);
      assert events[..i] == events[..i - 1] + [events[i - 1]];
      StagingStep(full, run[i - 1], events[i - 1], run[i], events[..i - 1], p);
    }
  }

  /** An installer that returned has left a staging directory behind exactly when removing it after a
      failed rename failed too; then it reported the failure. */
  lemma StagingLeftBehind(full: set<File>, run: seq<State>, events: seq<Event>, i: nat, p: nat)
    requires IsRun(full, run, events) && i < |run|
    requires p in run[i].installers && run[i].installers[p].phase.Finished?
    ensures run[i].installers[p].staging.Some? <==> exists j :: 0 <= j < i && events[j] == SweepErr(p)
    ensures run[i].installers[p].staging.Some? ==> !run[i].installers[p].phase.ok
  {
    hide Next;
    StagingAlways(full, run, events, i, p);
    InvAlways(full, run, events, i);
    assert InstallerOk(full, run[i], p);
    if j :| 0 <= j < i && events[j] == SweepErr(p) { assert events[..i][j] == SweepErr(p); }
  }

  /** At most one installer is between taking and dropping the lock. */
  lemma MutualExclusion(full: set<File>, run: seq<State>, events: seq<Event>, i: nat, p: nat, q: nat)
    requires IsRun(full, run, events) && i < |run|
    requires p in run[i].installers && q in run[i].installers
    requires HoldsLock(run[i].installers[p].phase) && HoldsLock(run[i].installers[q].phase)
    ensures p == q
  {
    InvAlways(full, run, events, i);
    assert InstallerOk(full, run[i], p) && InstallerOk(full, run[i], q);
  }

  predicate Active(i: Installer) { !i.phase.Finished? && !i.phase.Crashed? }

  predicate Failure(e: Event) {
    e.Crash? || e.DownloadErr? || e.MarkErr? || e.LockErr? || e.RemoveErr? || e.RenameErr? || e.SweepErr?
  }

  /** A step of a running installer in which no call fails. */
  predicate Good(e: Event) { !Failure(e) && !e.Begin? }

  /** The step that installer q can take without any call failing. */
  ghost function GoodStep(full: set<File>, s: State, q: nat): Event
    requires q in s.installers
  {
    match s.installers[q].phase
    case Downloading =>
      var missing := if HasStaging(s, q) then full - s.installers[q].staging.value.files else {};
      if missing == {} then DownloadOk(q) else var f :| f in missing; Extract(q, f)
    case Downloaded => MarkOk(q)
    case Waiting => Acquire(q)
    case Locked => Check(q)
    case Checked => RemoveOk(q)
    case Cleared => RenameOk(q)
    case Published => Return(q)
    case RenameFailed => SweepOk(q)
    case _ => Recheck(q)
  }

  /** No deadlock: while some installer is active, it or the lock holder can take a step in which
      no call fails. */
  lemma NoDeadlock(full: set<File>, s: State, p: nat)
    requires Inv(full, s) && p in s.installers && Active(s.installers[p])
    ensures exists q, s' ::
      && (q == p || s.lock == Some(q)) && q in s.installers
      && Next(full, s, GoodStep(full, s, q), s') && Good(GoodStep(full, s, q))
  {
    assert InstallerOk(full, s, p);
    var q := if s.installers[p].phase.Waiting? && s.lock.Some? then s.lock.value else p;
    assert InstallerOk(full, s, q);
    var s' := Successor(full, s, q);
    assert Next(full, s, GoodStep(full, s, q), s');
  }

  lemma Successor(full: set<File>, s: State, q: nat) returns (s': State)
    requires q in s.installers && InstallerOk(full, s, q) && Active(s.installers[q])
    requires s.installers[q].phase.Waiting? ==> s.lock.None?
    ensures Next(full, s, GoodStep(full, s, q), s') && Good(GoodStep(full, s, q))
  {
    match s.installers[q].phase {
      case Downloading =>
        var files := s.installers[q].staging.value.files;
        var e := GoodStep(full, s, q);
        if e.Extract? {
          s' := SetStaging(s, q, Dir(files + {e.file}, false));
        } else {
          assert full == files + (full - files);
          s' := Move(s, q, Downloaded);
        }
      case Downloaded => s' := Move(SetStaging(s, q, Dir(s.installers[q].staging.value.files, true)), q, Waiting);
      case Waiting => s' := Move(s, q, Locked).(lock := Some(q));
      case Locked => s' := if Installed(s) then Leave(s, q, true) else Move(s, q, Checked);
      case Checked => s' := Move(s, q, Cleared).(build := None);
      case Cleared => s' := State(s.installers[q].staging, s.lock, s.installers[q := Installer(Published, None)]);
      case Published => s' := Leave(s, q, true);
      case RenameFailed => s' := Move(s.(installers := s.installers[q := s.installers[q].(staging := None)]), q, Swept);
      case Swept => s' := Leave(s, q, Installed(s));
    }
  }

  // ---------------------------------------------------------------- runs without failures

  /** How many steps an installer has left, with one more for every file it will put in place. */
  ghost function Cost(full: set<File>, i: Installer): nat {
    match i.phase
    case Downloading => |full| + 7 + (if i.staging.Some? then |full - i.staging.value.files| else 0)
    case Downloaded => |full| + 6
    case Waiting => |full| + 5
    case Locked => |full| + 4
    case Checked => |full| + 3
    case Cleared => |full| + 2
    case RenameFailed => 2
    case Published => 1
    case Swept => 1
    case Finished(_) => 0
    case Crashed => 0
  }

  ghost function TotalCost(full: set<File>, m: map<nat, Installer>): nat
    decreases |m|
  {
    if m == map[] then 0 else var p :| p in m; Cost(full, m[p]) + TotalCost(full, m - {p})
  }

  lemma {:induction false} CostOf(full: set<File>, m: map<nat, Installer>, q: nat)
    requires q in m
    ensures TotalCost(full, m) == Cost(full, m[q]) + TotalCost(full, m - {q})
    decreases |m|
  {
    var p :| p in m && TotalCost(full, m) == Cost(full, m[p]) + TotalCost(full, m - {p});
    if p != q {
      CostOf(full, m - {p}, q);
      CostOf(full, m - {q}, p);
      assert m - {p} - {q} == m - {q} - {p};
    }
  }

  lemma CostUpdate(full: set<File>, m: map<nat, Installer>, q: nat, i: Installer)
    requires q in m
    ensures TotalCost(full, m[q := i]) == TotalCost(full, m) - Cost(full, m[q]) + Cost(full, i)
  {
    CostOf(full, m, q);
    CostOf(full, m[q := i], q);
    assert m[q := i] - {q} == m - {q};
  }

  function BuildSize(s: State): nat { if s.build.Some? then |s.build.value.files| else 0 }

  ghost function Rank(full: set<File>, s: State): nat { BuildSize(s) + TotalCost(full, s.installers) }

  /** Only its own entry changes, and what it adds to the build directory it has paid for. */
  ghost predicate Pays(full: set<File>, s: State, p: nat, s': State) {
    && p in s.installers && p in s'.installers && s'.installers == s.installers[p := s'.installers[p]]
    && BuildSize(s') + Cost(full, s'.installers[p]) < BuildSize(s) + Cost(full, s.installers[p])
  }

  lemma EarlyPays(full: set<File>, s: State, e: Event, s': State)
    requires e.p in s.installers && InstallerOk(full, s, e.p) && Next(full, s, e, s') && Good(e) && Early(e)
    ensures Pays(full, s, e.p, s')
  {
    if e.Extract? {
      var files := s.installers[e.p].staging.value.files;
      assert full - (files + {e.file}) == full - files - {e.file};
    }
  }

  lemma LatePays(full: set<File>, s: State, e: Event, s': State)
    requires e.p in s.installers && InstallerOk(full, s, e.p) && Next(full, s, e, s') && Good(e) && !Early(e)
    ensures Pays(full, s, e.p, s')
  {
  }

  lemma RankStep(full: set<File>, s: State, e: Event, s': State)
    requires Inv(full, s) && Next(full, s, e, s') && Good(e)
    ensures Rank(full, s') < Rank(full, s)
  {
    assert e.p in s.installers;
    InvAt(full, s, e.p);
    hide Next, Inv, InstallerOk, TotalCost, Cost, Early, Good;
    if Early(e) { EarlyPays(full, s, e, s'); } else { LatePays(full, s, e, s'); }
    CostUpdate(full, s.installers, e.p, s'.installers[e.p]);
  }

  lemma InvAt(full: set<File>, s: State, p: nat)
    requires Inv(full, s) && p in s.installers
    ensures InstallerOk(full, s, p)
  {
  }

  ghost predicate GoodRun(full: set<File>, run: seq<State>, events: seq<Event>) {
    && |run| == |events| + 1
    && forall i :: 0 <= i < |events| ==> Next(full, run[i], events[i], run[i + 1]) && Good(events[i])
  }

  /** No call of this installer has failed so far. */
  predicate OnTrack(i: Installer) {
    !i.phase.RenameFailed? && !i.phase.Swept? && !i.phase.Crashed? && i.phase != Finished(false)
  }

  lemma OnTrackStep(full: set<File>, s: State, e: Event, s': State, p: nat)
    requires Inv(full, s) && Next(full, s, e, s') && Good(e) && p in s.installers && OnTrack(s.installers[p])
    ensures p in s'.installers && OnTrack(s'.installers[p])
  {
    if e.p != p { assert s'.installers[p] == s.installers[p]; }
  }

  lemma {:induction false} GoodRunKeeps(full: set<File>, run: seq<State>, events: seq<Event>, p: nat)
    requires GoodRun(full, run, events) && Inv(full, run[0]) && p in run[0].installers && OnTrack(run[0].installers[p])
    ensures
      var last := run[|events|];
      && Inv(full, last) && p in last.installers && OnTrack(last.installers[p])
      && |events| + Rank(full, last) <= Rank(full, run[0])
    decreases |events|
  {
    if events != [] {
      var n := |events| - 1;
      assert GoodRun(full, run[..n + 1], events[..n]);
      GoodRunKeeps(full, run[..n + 1], events[..n], p);
      hide Inv, Rank, OnTrack, Next;
      InvStep(full, run[n], events[n], run[n + 1]);
      RankStep(full, run[n], events[n], run[n + 1]);
      OnTrackStep(full, run[n], events[n], run[n + 1], p);
    }
  }

  /** From any state on, steps in which no call fails are bounded in number, and when none is left every
      installer that had not failed has returned Ok and the artifacts are installed. */
  lemma GoodRunInstalls(full: set<File>, run: seq<State>, events: seq<Event>, p: nat)
    requires GoodRun(full, run, events) && Inv(full, run[0]) && p in run[0].installers && OnTrack(run[0].installers[p])
    ensures |events| <= Rank(full, run[0])
    ensures
      var last := run[|events|];
      (forall e, s' :: Next(full, last, e, s') ==> !Good(e)) ==> At(last, p, Finished(true)) && Installed(last)
  {
    GoodRunKeeps(full, run, events, p);
    var last := run[|events|];
    InvAt(full, last, p);
    hide Rank, Next, Inv, GoodRun;
    if Active(last.installers[p]) {
      NoDeadlock(full, last, p);
      var q, s' :| (q == p || last.lock == Some(q)) && q in last.installers
        && Next(full, last, GoodStep(full, last, q), s') && Good(GoodStep(full, last, q));
    }
  }
}
