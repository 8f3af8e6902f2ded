/** `SP1Verifier::verify` of `verify.rs`: its separate passes over the shard list, and the single
    left-to-right machine they amount to. Field elements and curve digests are those of the other
    modules; verifying one shard proof is an arbitrary predicate. */
module CoreVerifier {
  import opened Basics
  import F = KoalaBear
  import SC = SepticCurve
  import SD = SepticDigest

  type Fp = F.Fp
  type W3 = s: seq<Fp> | |s| == 3 witness [0, 0, 0]
  type W4 = s: seq<Fp> | |s| == 4 witness [0, 0, 0, 0]
  type W8 = s: seq<Fp> | |s| == 8 witness [0, 0, 0, 0, 0, 0, 0, 0]

  const ZERO4: W4 := [0, 0, 0, 0]

  /** Eight words of four bytes. */
  type Words = s: seq<W4> | |s| == 8 witness [ZERO4, ZERO4, ZERO4, ZERO4, ZERO4, ZERO4, ZERO4, ZERO4]

  /** The public values that `verify` reads. */
  datatype Values = Values(
    prevCommittedValueDigest: Words, committedValueDigest: Words,
    prevDeferredProofsDigest: W8, deferredProofsDigest: W8,
    pcStart: W3, nextPc: W3,
    prevExitCode: Fp, exitCode: Fp,
    isExecutionShard: Fp,
    previousInitAddr: W3, lastInitAddr: W3, previousFinalizeAddr: W3, lastFinalizeAddr: W3,
    previousInitPageIdx: W3, lastInitPageIdx: W3, previousFinalizePageIdx: W3, lastFinalizePageIdx: W3,
    initialTimestamp: W4, lastTimestamp: W4,
    globalCumulativeSum: SC.Point,
    prevCommitSyscall: Fp, commitSyscall: Fp, prevCommitDeferredSyscall: Fp, commitDeferredSyscall: Fp,
    isFirstExecutionShard: Fp, isUntrustedProgramsEnabled: Fp,
    proofNonce: W4)

  /** A shard proof: the length of its public value vector, the values read from it, and the rest. */
  datatype Shard = Shard(numPublicValues: nat, values: Values, body: seq<Fp>)

  datatype Key = Key(pcStart: W3, initialSum: SC.Point, enableUntrustedPrograms: Fp)

  const PROOF_MAX_NUM_PVS := 187
  const MAX_SHARDS := 0x100_0000
  const ZERO3: W3 := [0, 0, 0]
  const HALT_PC: W3 := [1, 0, 0]
  const START_TIME: W4 := [0, 0, 0, 1]
  const ZERO_COMMITTED: Words := [ZERO4, ZERO4, ZERO4, ZERO4, ZERO4, ZERO4, ZERO4, ZERO4]
  const ZERO_DEFERRED: W8 := [0, 0, 0, 0, 0, 0, 0, 0]

  datatype Error =
    | EmptyProof | PublicValuesLength
    | FirstShardTwice | FirstShardNotBoolean | FirstShardUnset
    | InitialTimestamp | TimestampMustChange | TimestampMustNotChange
    | PcStartKey | PcStartChain | PcNonExecution | NotHalted
    | ExitCodeChain | ExitCodeNonExecution | ExitCodeTwice
    | ProofNonce
    | InitAddr | FinalizeAddr | InitPageIdx | FinalizePageIdx | UntrustedPrograms | NeverInitialized | NeverFinalized
    | CommittedDigest | DeferredDigest | CommitSyscall | CommitDeferredSyscall | NoCommit | NoCommitDeferred
    | TooManyShards | ExceptionalSum | NonZeroSum | InvalidShardProof

  datatype Result<+T> = Ok(value: T) | Err(error: Error)

  // ---------------------------------------------------------------- the steps of the passes

  function FlagStep(seen: bool, v: Values): Result<bool> {
    if v.isFirstExecutionShard == 1 then
      if seen then Err(FirstShardTwice) else Ok(true)
    else if v.isFirstExecutionShard == 0 then Ok(seen)
    else Err(FirstShardNotBoolean)
  }

  function TimeStep(prev: W4, v: Values): Result<W4> {
    if v.initialTimestamp != prev then Err(InitialTimestamp)
    else if v.isExecutionShard != 0 && v.initialTimestamp == v.lastTimestamp then Err(TimestampMustChange)
    else if v.isExecutionShard != 1 && v.initialTimestamp != v.lastTimestamp then Err(TimestampMustNotChange)
    else Ok(v.lastTimestamp)
  }

  /** The program counter, and whether this is the first shard. */
  datatype Pc = Pc(pc: W3, first: bool)

  function PcStep(prev: Pc, v: Values): Result<Pc> {
    if v.pcStart != prev.pc then Err(if prev.first then PcStartKey else PcStartChain)
    else if v.isExecutionShard != 1 && v.pcStart != v.nextPc then Err(PcNonExecution)
    else Ok(Pc(v.nextPc, false))
  }

  function ExitStep(prev: Fp, v: Values): Result<Fp> {
    if v.prevExitCode != prev then Err(ExitCodeChain)
    else if v.isExecutionShard != 1 && v.prevExitCode != v.exitCode then Err(ExitCodeNonExecution)
    else if v.prevExitCode != 0 && v.prevExitCode != v.exitCode then Err(ExitCodeTwice)
    else Ok(v.exitCode)
  }

  datatype Memory = Memory(initAddr: W3, finalizeAddr: W3, initPage: W3, finalizePage: W3)

  function MemoryStep(m: Memory, v: Values, vk: Key): Result<Memory> {
    if v.previousInitAddr != m.initAddr then Err(InitAddr)
    else if v.previousFinalizeAddr != m.finalizeAddr then Err(FinalizeAddr)
    else if v.previousInitPageIdx != m.initPage then Err(InitPageIdx)
    else if v.previousFinalizePageIdx != m.finalizePage then Err(FinalizePageIdx)
    else if v.isUntrustedProgramsEnabled != vk.enableUntrustedPrograms then Err(UntrustedPrograms)
    else Ok(Memory(v.lastInitAddr, v.lastFinalizeAddr, v.lastInitPageIdx, v.lastFinalizePageIdx))
  }

  datatype Digests = Digests(committed: Words, deferred: W8, commit: Fp, commitDeferred: Fp)

  function DigestStep(d: Digests, v: Values): Result<Digests> {
    if v.prevCommittedValueDigest != d.committed then Err(CommittedDigest)
    else if v.prevDeferredProofsDigest != d.deferred then Err(DeferredDigest)
    else if v.prevCommitSyscall != d.commit then Err(CommitSyscall)
    else if v.prevCommitDeferredSyscall != d.commitDeferred then Err(CommitDeferredSyscall)
    else Ok(Digests(v.committedValueDigest, v.deferredProofsDigest, v.commitSyscall, v.commitDeferredSyscall))
  }

  function SumStep(total: SC.Point, v: Values): Result<SC.Point> {
    match SD.CheckedAdd(total, v.globalCumulativeSum)
    case None => Err(ExceptionalSum)
    case Some(t) => Ok(t)
  }

  // ---------------------------------------------------------------- the passes

  /** A pass: one step per shard, up to the first error. */
  function Fold<S>(step: (S, Values) -> Result<S>, s: S, vs: seq<Values>): Result<S>
    decreases |vs|
  {
    if vs == [] then Ok(s)
    else
      match step(s, vs[0])
      case Err(e) => Err(e)
      case Ok(t) => Fold(step, t, vs[1..])
  }

  method Pass<S>(step: (S, Values) -> Result<S>, s0: S, vs: seq<Values>) returns (r: Result<S>)
    ensures r == Fold(step, s0, vs)
  {
    var s := s0;
    for i := 0 to |vs|
      invariant Fold(step, s0, vs) == Fold(step, s, vs[i..])
    {
      assert vs[i..][0] == vs[i] && vs[i..][1..] == vs[i + 1..];
      var next := step(s, vs[i]);
      if next.Err? { return Err(next.error); }
      s := next.value;
    }
    r := Ok(s);
  }

  /** The step of the memory pass under a key. */
  function MemoryStepFor(vk: Key): (Memory, Values) -> Result<Memory> { (m: Memory, v: Values) => MemoryStep(m, v, vk) }

  function FlagRun(s: bool, vs: seq<Values>): Result<bool> { Fold(FlagStep, s, vs) }
  function TimeRun(s: W4, vs: seq<Values>): Result<W4> { Fold(TimeStep, s, vs) }
  function PcRun(s: Pc, vs: seq<Values>): Result<Pc> { Fold(PcStep, s, vs) }
  function ExitRun(s: Fp, vs: seq<Values>): Result<Fp> { Fold(ExitStep, s, vs) }
  function MemoryRun(s: Memory, vs: seq<Values>, vk: Key): Result<Memory> { Fold(MemoryStepFor(vk), s, vs) }
  function DigestRun(s: Digests, vs: seq<Values>): Result<Digests> { Fold(DigestStep, s, vs) }
  function SumRun(s: SC.Point, vs: seq<Values>): Result<SC.Point> { Fold(SumStep, s, vs) }

  const NO_MEMORY := Memory(ZERO3, ZERO3, ZERO3, ZERO3)
  const NO_DIGESTS := Digests(ZERO_COMMITTED, ZERO_DEFERRED, 0, 0)

  ghost function ValuesOf(proof: seq<Shard>): (vs: seq<Values>)
    ensures |vs| == |proof|
    ensures forall i :: 0 <= i < |proof| ==> vs[i] == proof[i].values
  {
    seq(|proof|, i requires 0 <= i < |proof| => proof[i].values)
  }

  ghost predicate SameNonce(vs: seq<Values>) {
    forall i :: 0 <= i < |vs| ==> vs[i].proofNonce == vs[0].proofNonce
  }

  /** The verdict, pass by pass in the source's order. */
  ghost function Verdict(proof: seq<Shard>, vk: Key, verifyShard: (Key, Shard) -> bool): Result<()> {
    var vs := ValuesOf(proof);
    if proof == [] then Err(EmptyProof)
    else if exists i :: 0 <= i < |proof| && proof[i].numPublicValues != PROOF_MAX_NUM_PVS then Err(PublicValuesLength)
    else
      var flag := FlagRun(false, vs);
      if flag.Err? then Err(flag.error) else if !flag.value then Err(FirstShardUnset)
      else
        var time := TimeRun(START_TIME, vs);
        if time.Err? then Err(time.error)
        else
          var pc := PcRun(Pc(vk.pcStart, true), vs);
          if pc.Err? then Err(pc.error) else if pc.value.pc != HALT_PC then Err(NotHalted)
          else
            var exit := ExitRun(0, vs);
            if exit.Err? then Err(exit.error)
            else if !SameNonce(vs) then Err(ProofNonce)
            else VerdictTail(proof, vs, vk, verifyShard)
  }

  ghost function VerdictTail(proof: seq<Shard>, vs: seq<Values>, vk: Key, verifyShard: (Key, Shard) -> bool)
    : Result<()>
  {
    var memory := MemoryRun(NO_MEMORY, vs, vk);
    if memory.Err? then Err(memory.error)
    else if memory.value.initAddr == ZERO3 then Err(NeverInitialized)
    else if memory.value.finalizeAddr == ZERO3 then Err(NeverFinalized)
    else
      var digests := DigestRun(NO_DIGESTS, vs);
      if digests.Err? then Err(digests.error)
      else if digests.value.commit != 1 then Err(NoCommit)
      else if digests.value.commitDeferred != 1 then Err(NoCommitDeferred)
      else if |proof| >= MAX_SHARDS then Err(TooManyShards)
      else
        var sum := SumRun(vk.initialSum, vs);
        if sum.Err? then Err(sum.error)
        else if sum.value != SD.Zero then Err(NonZeroSum)
        else if exists i :: 0 <= i < |proof| && !verifyShard(vk, proof[i]) then Err(InvalidShardProof)
        else Ok(())
  }

  /** `SP1Verifier::verify`. */
  method Verify(proof: seq<Shard>, vk: Key, verifyShard: (Key, Shard) -> bool) returns (r: Result<()>)
    ensures r == Verdict(proof, vk, verifyShard)
  {
    hide Fold, VerdictTail;
    if |proof| == 0 { return Err(EmptyProof); }
    var vs: seq<Values> := [];
    for i := 0 to |proof|
      invariant vs == ValuesOf(proof[..i])
      invariant forall j :: 0 <= j < i ==> proof[j].numPublicValues == PROOF_MAX_NUM_PVS
    {
      if proof[i].numPublicValues != PROOF_MAX_NUM_PVS { return Err(PublicValuesLength); }
      vs := vs + [proof[i].values];
    }
    assert vs == ValuesOf(proof);
    var flag := Pass(FlagStep, false, vs);
    if flag.Err? { return Err(flag.error); }
    if !flag.value { return Err(FirstShardUnset); }
    var time := Pass(TimeStep, START_TIME, vs);
    if time.Err? { return Err(time.error); }
    var pc := Pass(PcStep, Pc(vk.pcStart, true), vs);
    if pc.Err? { return Err(pc.error); }
    if pc.value.pc != HALT_PC { return Err(NotHalted); }
    var exit := Pass(ExitStep, 0, vs);
    if exit.Err? { return Err(exit.error); }
    for i := 1 to |vs|
      invariant forall j :: 0 <= j < i ==> vs[j].proofNonce == vs[0].proofNonce
    {
      if vs[i].proofNonce != vs[0].proofNonce { return Err(ProofNonce); }
    }
    r := VerifyTail(proof, vs, vk, verifyShard);
  }

  method VerifyTail(proof: seq<Shard>, vs: seq<Values>, vk: Key, verifyShard: (Key, Shard) -> bool)
    returns (r: Result<()>)
    requires vs == ValuesOf(proof)
    ensures r == VerdictTail(proof, vs, vk, verifyShard)
  {
    hide Fold;
    var memory := Pass(MemoryStepFor(vk), NO_MEMORY, vs);
    if memory.Err? { return Err(memory.error); }
    if memory.value.initAddr == ZERO3 { return Err(NeverInitialized); }
    if memory.value.finalizeAddr == ZERO3 { return Err(NeverFinalized); }
    var digests := Pass(DigestStep, NO_DIGESTS, vs);
    if digests.Err? { return Err(digests.error); }
    if digests.value.commit != 1 { return Err(NoCommit); }
    if digests.value.commitDeferred != 1 { return Err(NoCommitDeferred); }
    if |proof| >= MAX_SHARDS { return Err(TooManyShards); }
    var sum := Pass(SumStep, vk.initialSum, vs);
    if sum.Err? { return Err(sum.error); }
    if sum.value != SD.Zero { return Err(NonZeroSum); }
    for i := 0 to |proof|
      invariant forall j :: 0 <= j < i ==> verifyShard(vk, proof[j])
    {
      if !verifyShard(vk, proof[i]) { return Err(InvalidShardProof); }
    }
    r := Ok(());
  }

  // ---------------------------------------------------------------- one machine

  /** What the verifier has to remember between shards. */
  datatype State = State(seen: bool, time: W4, pc: Pc, exit: Fp, memory: Memory, digests: Digests, total: SC.Point)

  function Step(s: State, v: Values, vk: Key): Option<State> {
    var flag := FlagStep(s.seen, v);
    var time := TimeStep(s.time, v);
    var pc := PcStep(s.pc, v);
    var exit := ExitStep(s.exit, v);
    var memory := MemoryStep(s.memory, v, vk);
    var digests := DigestStep(s.digests, v);
    var total := SumStep(s.total, v);
    if flag.Ok? && time.Ok? && pc.Ok? && exit.Ok? && memory.Ok? && digests.Ok? && total.Ok? then
      Some(State(flag.value, time.value, pc.value, exit.value, memory.value, digests.value, total.value))
    else None
  }

  function Run(s: State, vs: seq<Values>, vk: Key): Option<State>
    decreases |vs|
  {
    if vs == [] then Some(s)
    else
      match Step(s, vs[0], vk)
      case None => None
      case Some(t) => Run(t, vs[1..], vk)
  }

  function Initial(vk: Key): State {
    State(false, START_TIME, Pc(vk.pcStart, true), 0, NO_MEMORY, NO_DIGESTS, vk.initialSum)
  }

  predicate Final(s: State) {
    && s.seen && s.pc.pc == HALT_PC
    && s.memory.initAddr != ZERO3 && s.memory.finalizeAddr != ZERO3
    && s.digests.commit == 1 && s.digests.commitDeferred == 1
    && s.total == SD.Zero
  }

  ghost predicate MachineAccepts(vs: seq<Values>, vk: Key) {
    var end := Run(Initial(vk), vs, vk);
    end.Some? && Final(end.value)
  }

  /** The separate passes advance in step. */
  lemma {:induction false} RunIsProduct(s: State, vs: seq<Values>, vk: Key)
    ensures
      var (f, t, p, e) := (FlagRun(s.seen, vs), TimeRun(s.time, vs), PcRun(s.pc, vs), ExitRun(s.exit, vs));
      var (m, d, c) := (MemoryRun(s.memory, vs, vk), DigestRun(s.digests, vs), SumRun(s.total, vs));
      && (Run(s, vs, vk).Some? <==> f.Ok? && t.Ok? && p.Ok? && e.Ok? && m.Ok? && d.Ok? && c.Ok?)
      && (Run(s, vs, vk).Some? ==>
            Run(s, vs, vk).value == State(f.value, t.value, p.value, e.value, m.value, d.value, c.value))
    decreases |vs|
  {
    hide FlagStep, TimeStep, PcStep, ExitStep, MemoryStep, DigestStep, SumStep;
    if vs != [] {
      var t := Step(s, vs[0], vk);
      if t.Some? { RunIsProduct(t.value, vs[1..], vk); }
    }
  }

  /** The passes accept exactly when the single machine does. */
  lemma PassesAreOneRun(proof: seq<Shard>, vk: Key, verifyShard: (Key, Shard) -> bool)
    ensures Verdict(proof, vk, verifyShard).Ok? <==>
      && 0 < |proof| < MAX_SHARDS
      && (forall i :: 0 <= i < |proof| ==> proof[i].numPublicValues == PROOF_MAX_NUM_PVS && verifyShard(vk, proof[i]))
      && SameNonce(ValuesOf(proof))
      && MachineAccepts(ValuesOf(proof), vk)
  {
    hide FlagRun, TimeRun, PcRun, ExitRun, MemoryRun, DigestRun, SumRun, Run;
    RunIsProduct(Initial(vk), ValuesOf(proof), vk);
  }

  /** Runs compose: a longer proof is verified by continuing from where a prefix ended. */
  lemma {:induction false} RunAppend(s: State, a: seq<Values>, b: seq<Values>, vk: Key)
    ensures Run(s, a + b, vk) ==
      match Run(s, a, vk) { case None => None case Some(t) => Run(t, b, vk) }
    decreases |a|
  {
    hide Step;
    if a == [] {
      assert a + b == b;
    } else {
      assert (a + b)[0] == a[0] && (a + b)[1..] == a[1..] + b;
      var t := Step(s, a[0], vk);
      if t.Some? { RunAppend(t.value, a[1..], b, vk); }
    }
  }

  // ---------------------------------------------------------------- what acceptance means

  /** What a shard hands to the next one. */
  datatype Link = Link(time: W4, pc: W3, exit: Fp, memory: Memory, digests: Digests)

  function After(v: Values): Link {
    Link(v.lastTimestamp, v.nextPc, v.exitCode,
         Memory(v.lastInitAddr, v.lastFinalizeAddr, v.lastInitPageIdx, v.lastFinalizePageIdx),
         Digests(v.committedValueDigest, v.deferredProofsDigest, v.commitSyscall, v.commitDeferredSyscall))
  }

  function Before(v: Values): Link {
    Link(v.initialTimestamp, v.pcStart, v.prevExitCode,
         Memory(v.previousInitAddr, v.previousFinalizeAddr, v.previousInitPageIdx, v.previousFinalizePageIdx),
         Digests(v.prevCommittedValueDigest, v.prevDeferredProofsDigest, v.prevCommitSyscall,
                 v.prevCommitDeferredSyscall))
  }

  function Start(vk: Key): Link { Link(START_TIME, vk.pcStart, 0, NO_MEMORY, NO_DIGESTS) }

  /** The conditions on one shard alone: it executes exactly when its timestamp moves, an idle
      shard moves neither the program counter nor the exit code, and a non-zero exit code stays. */
  predicate Local(v: Values, vk: Key) {
    && v.isExecutionShard == (if v.initialTimestamp == v.lastTimestamp then 0 else 1)
    && (v.isExecutionShard == 0 ==> v.nextPc == v.pcStart && v.exitCode == v.prevExitCode)
    && (v.prevExitCode != 0 ==> v.exitCode == v.prevExitCode)
    && v.isUntrustedProgramsEnabled == vk.enableUntrustedPrograms
  }

  /** Every shard begins where the one before it ended. */
  ghost predicate Contiguous(from: Link, vs: seq<Values>, vk: Key) {
    && (forall i :: 0 <= i < |vs| ==> Local(vs[i], vk))
    && (|vs| > 0 ==> Before(vs[0]) == from)
    && (forall i :: 1 <= i < |vs| ==> Before(vs[i]) == After(vs[i - 1]))
  }

  function End(from: Link, vs: seq<Values>): Link {
    if vs == [] then from else After(vs[|vs| - 1])
  }

  ghost predicate NoneFirst(vs: seq<Values>) {
    forall i :: 0 <= i < |vs| ==> vs[i].isFirstExecutionShard == 0
  }

  /** Exactly one shard carries the first-execution flag, and all others carry zero. */
  ghost predicate OneFirst(vs: seq<Values>) {
    exists k :: 0 <= k < |vs| && vs[k].isFirstExecutionShard == 1
      && forall i :: 0 <= i < |vs| && i != k ==> vs[i].isFirstExecutionShard == 0
  }

  function Sums(vs: seq<Values>): (ds: seq<SC.Point>)
    ensures |ds| == |vs|
  {
    if vs == [] then [] else [vs[0].globalCumulativeSum] + Sums(vs[1..])
  }

  lemma {:induction false} FlagMeaning(seen: bool, vs: seq<Values>)
    ensures FlagRun(seen, vs) == Ok(true) <==> (if seen then NoneFirst(vs) else OneFirst(vs))
    ensures FlagRun(seen, vs) == Ok(false) <==> !seen && NoneFirst(vs)
    decreases |vs|
  {
    if vs != [] {
      var v, rest := vs[0], vs[1..];
      FlagMeaning(true, rest);
      FlagMeaning(false, rest);
      assert NoneFirst(vs) <==> v.isFirstExecutionShard == 0 && NoneFirst(rest) by {
        assert forall i :: 0 < i < |vs| ==> vs[i] == rest[i - 1];
        assert forall i :: 0 <= i < |rest| ==> rest[i] == vs[i + 1];
      }
      OneFirstStep(vs);
    }
  }

  lemma OneFirstStep(vs: seq<Values>)
    requires vs != []
    ensures OneFirst(vs) <==>
      || (vs[0].isFirstExecutionShard == 1 && NoneFirst(vs[1..]))
      || (vs[0].isFirstExecutionShard == 0 && OneFirst(vs[1..]))
  {
    var rest := vs[1..];
    assert forall i :: 0 < i < |vs| ==> vs[i] == rest[i - 1];
    if OneFirst(vs) {
      var k :| 0 <= k < |vs| && vs[k].isFirstExecutionShard == 1
        && forall i :: 0 <= i < |vs| && i != k ==> vs[i].isFirstExecutionShard == 0;
      if k > 0 { assert rest[k - 1].isFirstExecutionShard == 1; }
    }
    if OneFirst(rest) && vs[0].isFirstExecutionShard == 0 { OneFirstBack(vs); }
  }

  lemma OneFirstBack(vs: seq<Values>)
    requires vs != [] && OneFirst(vs[1..]) && vs[0].isFirstExecutionShard == 0
    ensures OneFirst(vs)
  {
    var rest := vs[1..];
    var k :| 0 <= k < |rest| && rest[k].isFirstExecutionShard == 1
      && forall i :: 0 <= i < |rest| && i != k ==> rest[i].isFirstExecutionShard == 0;
    assert vs[k + 1].isFirstExecutionShard == 1;
    forall i | 0 <= i < |vs| && i != k + 1 ensures vs[i].isFirstExecutionShard == 0 {
      if i > 0 { assert vs[i] == rest[i - 1]; }
    }
  }

  lemma {:induction false} SumMeaning(total: SC.Point, vs: seq<Values>)
    ensures SumRun(total, vs).Ok? <==> SD.Running(total, Sums(vs)).Some?
    ensures SumRun(total, vs).Ok? ==> SD.Running(total, Sums(vs)) == Some(SumRun(total, vs).value)
    decreases |vs|
  {
    hide SD.CheckedAdd;
    if vs != [] {
      assert Sums(vs)[0] == vs[0].globalCumulativeSum && Sums(vs)[1..] == Sums(vs[1..]);
      var t := SD.CheckedAdd(total, vs[0].globalCumulativeSum);
      if t.Some? { SumMeaning(t.value, vs[1..]); }
    }
  }

  lemma {:induction false} ChainMeaning(from: Link, first: bool, vs: seq<Values>, vk: Key)
    ensures
      var (t, p, e) := (TimeRun(from.time, vs), PcRun(Pc(from.pc, first), vs), ExitRun(from.exit, vs));
      var (m, d) := (MemoryRun(from.memory, vs, vk), DigestRun(from.digests, vs));
      && (Contiguous(from, vs, vk) <==> t.Ok? && p.Ok? && e.Ok? && m.Ok? && d.Ok?)
      && (Contiguous(from, vs, vk) ==> End(from, vs) == Link(t.value, p.value.pc, e.value, m.value, d.value))
    decreases |vs|
  {
    if vs != [] {
      ChainMeaning(After(vs[0]), false, vs[1..], vk);
      ContiguousStep(from, vs, vk);
      StepMeaning(from, first, vs[0], vk);
      hide TimeStep, PcStep, ExitStep, MemoryStep, DigestStep, Local, Contiguous, Before;
    }
  }

  lemma ContiguousStep(from: Link, vs: seq<Values>, vk: Key)
    requires vs != []
    ensures Contiguous(from, vs, vk) <==>
      Local(vs[0], vk) && Before(vs[0]) == from && Contiguous(After(vs[0]), vs[1..], vk)
    ensures End(from, vs) == End(After(vs[0]), vs[1..])
  {
    hide Local, Before, After;
    var rest := vs[1..];
    assert forall i :: 0 < i < |vs| ==> vs[i] == rest[i - 1];
    assert forall i :: 0 <= i < |rest| ==> rest[i] == vs[i + 1];
    if Contiguous(After(vs[0]), rest, vk) && Before(vs[0]) == from && Local(vs[0], vk) {
      forall i | 1 <= i < |vs| ensures Before(vs[i]) == After(vs[i - 1]) {
        if i > 1 { assert Before(rest[i - 1]) == After(rest[i - 2]); }
      }
    }
    if Contiguous(from, vs, vk) {
      forall i | 1 <= i < |rest| ensures Before(rest[i]) == After(rest[i - 1]) {
        assert Before(vs[i + 1]) == After(vs[i]);
      }
    }
  }

  lemma StepMeaning(from: Link, first: bool, v: Values, vk: Key)
    ensures
      var (t, p, e) := (TimeStep(from.time, v), PcStep(Pc(from.pc, first), v), ExitStep(from.exit, v));
      var (m, d) := (MemoryStep(from.memory, v, vk), DigestStep(from.digests, v));
      && (t.Ok? && p.Ok? && e.Ok? && m.Ok? && d.Ok? <==> Local(v, vk) && Before(v) == from)
      && (t.Ok? ==> t.value == After(v).time) && (p.Ok? ==> p.value == Pc(After(v).pc, false))
      && (e.Ok? ==> e.value == After(v).exit) && (m.Ok? ==> m.value == After(v).memory)
      && (d.Ok? ==> d.value == After(v).digests)
  {
  }

  /** `verify` accepts exactly the non-empty, not too long lists of valid shard proofs that form
      one contiguous halted execution with a single first shard, one nonce, and a global sum of
      zero. */
  lemma VerifyExact(proof: seq<Shard>, vk: Key, verifyShard: (Key, Shard) -> bool)
    ensures Verdict(proof, vk, verifyShard).Ok? <==>
      var vs := ValuesOf(proof);
      var end := End(Start(vk), vs);
      && 0 < |proof| < MAX_SHARDS
      && (forall i :: 0 <= i < |proof| ==> proof[i].numPublicValues == PROOF_MAX_NUM_PVS && verifyShard(vk, proof[i]))
      && SameNonce(vs) && OneFirst(vs) && Contiguous(Start(vk), vs, vk)
      && end.pc == HALT_PC && end.memory.initAddr != ZERO3 && end.memory.finalizeAddr != ZERO3
      && end.digests.commit == 1 && end.digests.commitDeferred == 1
      && SD.Running(vk.initialSum, Sums(vs)) == Some(SD.Zero)
  {
    hide FlagRun, TimeRun, PcRun, ExitRun, MemoryRun, DigestRun, SumRun, Run, Contiguous, OneFirst, End, SD.Running;
    var vs := ValuesOf(proof);
    PassesAreOneRun(proof, vk, verifyShard);
    RunIsProduct(Initial(vk), vs, vk);
    FlagMeaning(false, vs);
    ChainMeaning(Start(vk), true, vs, vk);
    SumMeaning(vk.initialSum, vs);
  }

  // ---------------------------------------------------------------- consequences

  /** In an accepted list a non-zero exit code never changes again. */
  lemma {:induction false} ExitCodePersists(from: Link, vs: seq<Values>, vk: Key, i: nat, j: nat)
    requires Contiguous(from, vs, vk) && i <= j < |vs| && vs[i].exitCode != 0
    ensures vs[j].exitCode == vs[i].exitCode
  {
    if i < j {
      ExitCodePersists(from, vs, vk, i, j - 1);
      assert Before(vs[j]) == After(vs[j - 1]);
      assert Local(vs[j], vk);
    }
  }

  /** The execution shards alone. */
  function Executing(vs: seq<Values>): seq<Values> {
    if vs == [] then []
    else if vs[0].isExecutionShard == 1 then [vs[0]] + Executing(vs[1..])
    else Executing(vs[1..])
  }

  /** Timestamp, program counter and exit code lead from one triple to another. */
  ghost predicate Thread(t: W4, p: W3, e: Fp, vs: seq<Values>, t': W4, p': W3, e': Fp)
    decreases |vs|
  {
    if vs == [] then t == t' && p == p' && e == e'
    else
      var v := vs[0];
      && v.initialTimestamp == t && v.pcStart == p && v.prevExitCode == e
      && v.isExecutionShard == (if v.initialTimestamp == v.lastTimestamp then 0 else 1)
      && (v.prevExitCode != 0 ==> v.exitCode == v.prevExitCode)
      && Thread(v.lastTimestamp, v.nextPc, v.exitCode, vs[1..], t', p', e')
  }

  /** Dropping all idle shards of a contiguous list leaves a contiguous execution between the same
      end points. */
  lemma {:induction false} IdleShardsDrop(from: Link, vs: seq<Values>, vk: Key)
    requires Contiguous(from, vs, vk)
    ensures
      var end := End(from, vs);
      Thread(from.time, from.pc, from.exit, Executing(vs), end.time, end.pc, end.exit)
    decreases |vs|
  {
    if vs != [] {
      var v := vs[0];
      ContiguousStep(from, vs, vk);
      IdleShardsDrop(After(v), vs[1..], vk);
      if v.isExecutionShard == 1 {
        assert Executing(vs)[0] == v && Executing(vs)[1..] == Executing(vs[1..]);
      }
    }
  }

  /** What every accepted proof satisfies. */
  lemma Accepted(proof: seq<Shard>, vk: Key, verifyShard: (Key, Shard) -> bool)
    requires Verdict(proof, vk, verifyShard).Ok?
    ensures
      var vs := ValuesOf(proof);
      var end := End(Start(vk), vs);
      && (forall v :: v in vs ==>
            (v.isExecutionShard == 0 || v.isExecutionShard == 1)
            && (v.isExecutionShard == 1 <==> v.initialTimestamp != v.lastTimestamp))
      && (forall i, j :: 0 <= i <= j < |vs| && vs[i].exitCode != 0 ==> vs[j].exitCode == vs[i].exitCode)
      && Thread(START_TIME, vk.pcStart, 0, Executing(vs), end.time, HALT_PC, end.exit)
      && SD.SumOf([vk.initialSum] + Sums(vs)) == Some(SD.Zero)
  {
    hide SD.Running, SD.SumOf, End, Thread, Verdict;
    var vs := ValuesOf(proof);
    VerifyExact(proof, vk, verifyShard);
    forall v | v in vs
      ensures v.isExecutionShard == 0 || v.isExecutionShard == 1
      ensures v.isExecutionShard == 1 <==> v.initialTimestamp != v.lastTimestamp
    {
      var i :| 0 <= i < |vs| && vs[i] == v;
      assert Local(vs[i], vk);
    }
    forall i, j | 0 <= i <= j < |vs| && vs[i].exitCode != 0 ensures vs[j].exitCode == vs[i].exitCode {
      ExitCodePersists(Start(vk), vs, vk, i, j);
    }
    IdleShardsDrop(Start(vk), vs, vk);
    SD.RunningIsSum(vk.initialSum, Sums(vs));
  }

  // ---------------------------------------------------------------- what a shard proof enforces

  predicate Bit(x: Fp) { x == 0 || x == 1 }

  predicate U16Limbs(w: W3) { w[0] < 0x1_0000 && w[1] < 0x1_0000 && w[2] < 0x1_0000 }

  /** The limbs of a timestamp; the lowest is 1 modulo 8. */
  predicate TimeLimbs(t: W4) {
    t[0] < 0x1_0000 && t[1] < 0x100 && t[2] < 0x100 && t[3] < 0x1_0000 && t[3] % 8 == 1
  }

  ghost predicate AllBytes(d: Words) {
    forall i, j :: 0 <= i < 8 && 0 <= j < 4 ==> d[i][j] < 0x100
  }

  /** `eval_state`. */
  predicate StateChecked(v: Values) {
    && TimeLimbs(v.initialTimestamp) && TimeLimbs(v.lastTimestamp) && U16Limbs(v.pcStart) && U16Limbs(v.nextPc)
    && v.isExecutionShard == (if v.initialTimestamp == v.lastTimestamp then 0 else 1)
    && (v.isExecutionShard == 0 ==> v.pcStart == v.nextPc)
    && (v.isExecutionShard == 1 ==> v.lastTimestamp != START_TIME)
  }

  /** `eval_first_execution_shard`. */
  predicate FlagChecked(v: Values) {
    && Bit(v.isFirstExecutionShard)
    && (v.isFirstExecutionShard == 1 ==>
          && v.initialTimestamp == START_TIME && v.isExecutionShard == 1 && v.prevExitCode == 0
          && Before(v).memory == NO_MEMORY && Before(v).digests == NO_DIGESTS)
  }

  /** `eval_exit_code`. */
  predicate ExitChecked(v: Values) {
    && (v.prevExitCode != 0 ==> v.exitCode == v.prevExitCode)
    && (v.isExecutionShard == 0 ==> v.exitCode == v.prevExitCode)
  }

  /** `eval_committed_value_digest` and `eval_deferred_proofs_digest`. */
  ghost predicate DigestChecked(v: Values) {
    && AllBytes(v.prevCommittedValueDigest) && AllBytes(v.committedValueDigest)
    && Bit(v.prevCommitSyscall) && Bit(v.commitSyscall)
    && Bit(v.prevCommitDeferredSyscall) && Bit(v.commitDeferredSyscall)
    && (v.prevCommitSyscall == 1 ==> v.commitSyscall == 1)
    && (v.prevCommitDeferredSyscall == 1 ==> v.commitDeferredSyscall == 1)
    && (v.isExecutionShard == 0 ==>
          v.commitSyscall == v.prevCommitSyscall && v.commitDeferredSyscall == v.prevCommitDeferredSyscall)
    && (v.isExecutionShard == 0 || v.prevCommitSyscall == 1 || v.prevCommittedValueDigest != ZERO_COMMITTED ==>
          v.committedValueDigest == v.prevCommittedValueDigest)
    && (v.isExecutionShard == 0 || v.prevCommitDeferredSyscall == 1 || v.prevDeferredProofsDigest != ZERO_DEFERRED ==>
          v.deferredProofsDigest == v.prevDeferredProofsDigest)
  }

  /** What `eval_public_values`, a part of the shard proof, demands of one shard's public values alone. */
  ghost predicate ShardChecked(v: Values) {
    && StateChecked(v) && FlagChecked(v) && ExitChecked(v) && DigestChecked(v)
    && U16Limbs(v.previousInitAddr) && U16Limbs(v.lastInitAddr)
    && U16Limbs(v.previousFinalizeAddr) && U16Limbs(v.lastFinalizeAddr)
    && Bit(v.isUntrustedProgramsEnabled)
  }

  /** Shard proofs that verify meet these demands. */
  ghost predicate Enforces(verifyShard: (Key, Shard) -> bool, vk: Key) {
    forall s :: verifyShard(vk, s) ==> ShardChecked(s.values)
  }

  ghost predicate AllChecked(vs: seq<Values>) { forall i :: 0 <= i < |vs| ==> ShardChecked(vs[i]) }

  lemma AcceptedChecked(proof: seq<Shard>, vk: Key, verifyShard: (Key, Shard) -> bool)
    requires Verdict(proof, vk, verifyShard).Ok? && Enforces(verifyShard, vk)
    ensures AllChecked(ValuesOf(proof))
    ensures OneFirst(ValuesOf(proof)) && Contiguous(Start(vk), ValuesOf(proof), vk)
  {
    hide Verdict, ShardChecked, SD.Running, End, OneFirst, Contiguous;
    VerifyExact(proof, vk, verifyShard);
    forall i | 0 <= i < |proof| ensures ShardChecked(ValuesOf(proof)[i]) { assert verifyShard(vk, proof[i]); }
  }

  ghost predicate IdleUpTo(vs: seq<Values>, k: nat)
    requires k <= |vs|
  {
    forall i :: 0 <= i < k ==> vs[i].isExecutionShard == 0
  }

  /** A shard begins at the first timestamp exactly when all earlier ones are idle. */
  lemma {:induction false} StartsAtOne(vs: seq<Values>, vk: Key, k: nat)
    requires Contiguous(Start(vk), vs, vk) && AllChecked(vs) && k < |vs|
    ensures vs[k].initialTimestamp == START_TIME <==> IdleUpTo(vs, k)
  {
    if k == 0 {
      assert Before(vs[0]) == Start(vk);
    } else {
      StartsAtOne(vs, vk, k - 1);
      var v := vs[k - 1];
      assert Before(vs[k]) == After(v);
      assert Local(v, vk) && ShardChecked(v);
      assert vs[k].initialTimestamp == v.lastTimestamp;
      assert IdleUpTo(vs, k) <==> IdleUpTo(vs, k - 1) && v.isExecutionShard == 0;
    }
  }

  lemma FlaggedIsFirst(vs: seq<Values>, vk: Key, k: nat)
    requires OneFirst(vs) && Contiguous(Start(vk), vs, vk) && AllChecked(vs) && k < |vs|
    ensures vs[k].isFirstExecutionShard == 1 <==> vs[k].isExecutionShard == 1 && IdleUpTo(vs, k)
  {
    hide Contiguous, ShardChecked;
    var f: nat :| f < |vs| && vs[f].isFirstExecutionShard == 1
      && forall i :: 0 <= i < |vs| && i != f ==> vs[i].isFirstExecutionShard == 0;
    assert vs[f].isExecutionShard == 1 && vs[f].initialTimestamp == START_TIME by { FlagDemands(vs[f]); }
    StartsAtOne(vs, vk, f);
    if vs[k].isExecutionShard == 1 && IdleUpTo(vs, k) { assert !(k < f) && !(f < k); }
  }

  lemma FlagDemands(v: Values)
    requires ShardChecked(v) && v.isFirstExecutionShard == 1
    ensures v.isExecutionShard == 1 && v.initialTimestamp == START_TIME
  {
  }

  /** In every accepted list a shard carries the flag exactly when it is the first that executes. So the
      first shard of the list executes exactly when it carries the flag, which is when it leaves the
      first timestamp. */
  lemma FlagMarksFirstExecution(proof: seq<Shard>, vk: Key, verifyShard: (Key, Shard) -> bool, k: nat)
    requires Verdict(proof, vk, verifyShard).Ok? && Enforces(verifyShard, vk) && k < |proof|
    ensures
      var vs := ValuesOf(proof);
      && (vs[k].isFirstExecutionShard == 1 <==> vs[k].isExecutionShard == 1 && IdleUpTo(vs, k))
      && vs[0].initialTimestamp == START_TIME
      && (vs[0].isExecutionShard == 1 <==> vs[0].isFirstExecutionShard == 1)
      && (vs[0].isExecutionShard == 1 <==> vs[0].lastTimestamp != START_TIME)
  {
    hide Verdict;
    AcceptedChecked(proof, vk, verifyShard);
    var vs := ValuesOf(proof);
    FlaggedIsFirst(vs, vk, k);
    FlaggedIsFirst(vs, vk, 0);
    StartsAtOne(vs, vk, 0);
    assert Local(vs[0], vk);
  }

  /** Once committed, or once not zero, neither digest changes again: the last shard carries it. */
  lemma {:induction false} DigestsPersist(vs: seq<Values>, vk: Key, i: nat, j: nat)
    requires Contiguous(Start(vk), vs, vk) && AllChecked(vs) && i <= j < |vs|
    ensures vs[i].commitSyscall == 1 ==> vs[j].commitSyscall == 1
    ensures vs[i].commitDeferredSyscall == 1 ==> vs[j].commitDeferredSyscall == 1
    ensures vs[i].commitSyscall == 1 || vs[i].committedValueDigest != ZERO_COMMITTED ==>
      vs[j].committedValueDigest == vs[i].committedValueDigest
    ensures vs[i].commitDeferredSyscall == 1 || vs[i].deferredProofsDigest != ZERO_DEFERRED ==>
      vs[j].deferredProofsDigest == vs[i].deferredProofsDigest
  {
    if i < j {
      DigestsPersist(vs, vk, i, j - 1);
      assert Before(vs[j]) == After(vs[j - 1]);
      assert DigestChecked(vs[j]) by { assert ShardChecked(vs[j]); }
    }
  }

  /** In every accepted list the digests that any shard has committed are those of the last shard. */
  lemma CommittedDigestsAreFinal(proof: seq<Shard>, vk: Key, verifyShard: (Key, Shard) -> bool, i: nat)
    requires Verdict(proof, vk, verifyShard).Ok? && Enforces(verifyShard, vk) && i < |proof|
    ensures
      var (v, last) := (ValuesOf(proof)[i], ValuesOf(proof)[|proof| - 1]);
      && (v.commitSyscall == 1 || v.committedValueDigest != ZERO_COMMITTED ==>
            v.committedValueDigest == last.committedValueDigest)
      && (v.commitDeferredSyscall == 1 || v.deferredProofsDigest != ZERO_DEFERRED ==>
            v.deferredProofsDigest == last.deferredProofsDigest)
  {
    hide Verdict, Contiguous, AllChecked, Enforces, OneFirst, ZERO_COMMITTED, ZERO_DEFERRED;
    AcceptedChecked(proof, vk, verifyShard);
    DigestsPersist(ValuesOf(proof), vk, i, |proof| - 1);
  }

  // ---------------------------------------------------------------- an accepted proof

  const END_TIME: W4 := [0, 0, 0, 9]

  const ONE_SHARD := Values(
    ZERO_COMMITTED, ZERO_COMMITTED, ZERO_DEFERRED, ZERO_DEFERRED,
    ZERO3, HALT_PC, 0, 0, 1,
    ZERO3, HALT_PC, ZERO3, HALT_PC, ZERO3, ZERO3, ZERO3, ZERO3,
    START_TIME, END_TIME, SD.Zero, 0, 1, 0, 1, 1, 0, ZERO4)

  /** A list of zero digests is accepted when it meets the other conditions. */
  lemma AcceptZeros(proof: seq<Shard>, vk: Key, verifyShard: (Key, Shard) -> bool)
    requires 0 < |proof| < MAX_SHARDS
    requires forall i :: 0 <= i < |proof| ==>
      proof[i].numPublicValues == PROOF_MAX_NUM_PVS && verifyShard(vk, proof[i])
    requires SameNonce(ValuesOf(proof)) && OneFirst(ValuesOf(proof)) && Contiguous(Start(vk), ValuesOf(proof), vk)
    requires
      var end := End(Start(vk), ValuesOf(proof));
      && end.pc == HALT_PC && end.memory.initAddr != ZERO3 && end.memory.finalizeAddr != ZERO3
      && end.digests.commit == 1 && end.digests.commitDeferred == 1
    requires vk.initialSum == SD.Zero && AllZero(ValuesOf(proof))
    ensures Verdict(proof, vk, verifyShard).Ok?
  {
    hide *;
    ZeroSums(ValuesOf(proof));
    SD.ZerosAddUp(Sums(ValuesOf(proof)));
    VerifyExact(proof, vk, verifyShard);
  }

  ghost predicate AllZero(vs: seq<Values>) { forall i :: 0 <= i < |vs| ==> vs[i].globalCumulativeSum == SD.Zero }

  lemma {:induction false} ZeroSums(vs: seq<Values>)
    requires AllZero(vs)
    ensures forall i :: 0 <= i < |vs| ==> Sums(vs)[i] == SD.Zero
  {
    if vs != [] { ZeroSums(vs[1..]); }
  }

  const ZERO_KEY := Key(ZERO3, SD.Zero, 0)

  function Proved(v: Values): Shard { Shard(PROOF_MAX_NUM_PVS, v, []) }

  lemma OneShardMeets()
    ensures
      var vs := [ONE_SHARD];
      SameNonce(vs) && OneFirst(vs) && Contiguous(Start(ZERO_KEY), vs, ZERO_KEY) && AllZero(vs)
    ensures ValuesOf([Proved(ONE_SHARD)]) == [ONE_SHARD]
  {
    assert START_TIME[3] != END_TIME[3];
    assert [ONE_SHARD][0].isFirstExecutionShard == 1;
  }

  lemma LastMeets(vs: seq<Values>, v: Values)
    requires vs != [] && vs[|vs| - 1] == v && v.nextPc == HALT_PC && v.lastInitAddr == v.lastFinalizeAddr == HALT_PC
    requires v.commitSyscall == 1 == v.commitDeferredSyscall
    ensures
      var end := End(Start(ZERO_KEY), vs);
      && end.pc == HALT_PC && end.memory.initAddr != ZERO3 && end.memory.finalizeAddr != ZERO3
      && end.digests.commit == 1 && end.digests.commitDeferred == 1
  {
    assert HALT_PC[0] != ZERO3[0];
  }

  /** The conditions can be met: this shard, whose public values its own proof allows, is accepted
      alone if that proof is. */
  lemma SomeProofAccepted(verifyShard: (Key, Shard) -> bool)
    requires verifyShard(ZERO_KEY, Proved(ONE_SHARD))
    ensures Verdict([Proved(ONE_SHARD)], ZERO_KEY, verifyShard).Ok? && ShardChecked(ONE_SHARD)
  {
    OneShardChecked();
    hide Verdict, Contiguous, OneFirst, SameNonce, ValuesOf, End, AllZero;
    OneShardMeets();
    LastMeets([ONE_SHARD], ONE_SHARD);
    AcceptZeros([Proved(ONE_SHARD)], ZERO_KEY, verifyShard);
  }

  lemma ZerosAreBytes()
    ensures AllBytes(ZERO_COMMITTED)
  {
    forall i | 0 <= i < |ZERO_COMMITTED| ensures ZERO_COMMITTED[i] == ZERO4 {}
  }

  lemma OneShardChecked()
    ensures ShardChecked(ONE_SHARD)
  {
    assert START_TIME[3] != END_TIME[3];
    ZerosAreBytes();
  }

  // ---------------------------------------------------------------- an idle first shard

  /** A shard that does nothing. */
  const IDLE_SHARD := ONE_SHARD.(nextPc := ZERO3, isExecutionShard := 0, lastInitAddr := ZERO3,
    lastFinalizeAddr := ZERO3, lastTimestamp := START_TIME, commitSyscall := 0, commitDeferredSyscall := 0,
    isFirstExecutionShard := 0)

  lemma IdleFirstMeets()
    ensures
      var vs := [IDLE_SHARD, ONE_SHARD];
      SameNonce(vs) && OneFirst(vs) && Contiguous(Start(ZERO_KEY), vs, ZERO_KEY) && AllZero(vs)
    ensures ValuesOf([Proved(IDLE_SHARD), Proved(ONE_SHARD)]) == [IDLE_SHARD, ONE_SHARD]
  {
    var vs := [IDLE_SHARD, ONE_SHARD];
    assert START_TIME[3] != END_TIME[3];
    assert vs[0].isFirstExecutionShard == 0 && vs[1].isFirstExecutionShard == 1;
    assert Local(vs[0], ZERO_KEY) && Local(vs[1], ZERO_KEY);
    assert Before(vs[0]) == Start(ZERO_KEY) && Before(vs[1]) == After(vs[0]);
  }

  lemma IdleShardChecked()
    ensures ShardChecked(IDLE_SHARD)
  {
    ZerosAreBytes();
  }

  /** The first shard of an accepted list need not execute: an idle one may come before the flagged one.
      The shard proofs allow the public values of both. */
  lemma IdleFirstAccepted(verifyShard: (Key, Shard) -> bool)
    requires verifyShard(ZERO_KEY, Proved(IDLE_SHARD)) && verifyShard(ZERO_KEY, Proved(ONE_SHARD))
    ensures Verdict([Proved(IDLE_SHARD), Proved(ONE_SHARD)], ZERO_KEY, verifyShard).Ok?
    ensures ShardChecked(IDLE_SHARD) && ShardChecked(ONE_SHARD)
    ensures IDLE_SHARD.isExecutionShard == 0 && IDLE_SHARD.isFirstExecutionShard == 0
  {
    IdleShardChecked();
    OneShardChecked();
    hide Verdict, Contiguous, OneFirst, SameNonce, ValuesOf, End, AllZero, ShardChecked;
    IdleFirstMeets();
    LastMeets([IDLE_SHARD, ONE_SHARD], ONE_SHARD);
    AcceptZeros([Proved(IDLE_SHARD), Proved(ONE_SHARD)], ZERO_KEY, verifyShard);
  }
}
