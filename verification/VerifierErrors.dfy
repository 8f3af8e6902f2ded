/** Which error `SP1Verifier::verify` reports: the first fault of the shard list, in the order of its
    passes, then of the shards, then of the checks on one shard. A fault is a condition on the public
    values alone. */
module VerifierErrors {
  import opened Basics
  import opened CoreVerifier
  import SC = SepticCurve
  import SD = SepticDigest

  /** What is being verified. */
  datatype Input = Input(proof: seq<Shard>, vk: Key, verifyShard: (Key, Shard) -> bool)

  /** What shard i should begin with. */
  function LinkAt(vs: seq<Values>, i: nat, vk: Key): Link
    requires i <= |vs|
  {
    if i == 0 then Start(vk) else After(vs[i - 1])
  }

  ghost predicate FlagFault(e: Error, vs: seq<Values>, i: nat)
    requires i < |vs|
  {
    match e
    case FirstShardTwice => vs[i].isFirstExecutionShard == 1 && exists j :: 0 <= j < i && Flagged(vs[j])
    case FirstShardNotBoolean => vs[i].isFirstExecutionShard != 0 && vs[i].isFirstExecutionShard != 1
    case _ => false
  }

  predicate Flagged(v: Values) { v.isFirstExecutionShard == 1 }

  /** The faults of one shard that should begin with a given link. */
  predicate LinkFault(e: Error, from: Link, first: bool, v: Values, vk: Key) {
    match e
    case InitialTimestamp => v.initialTimestamp != from.time
    case TimestampMustChange => v.isExecutionShard != 0 && v.lastTimestamp == v.initialTimestamp
    case TimestampMustNotChange => v.isExecutionShard != 1 && v.lastTimestamp != v.initialTimestamp
    case PcStartKey => first && v.pcStart != from.pc
    case PcStartChain => !first && v.pcStart != from.pc
    case PcNonExecution => v.isExecutionShard != 1 && v.nextPc != v.pcStart
    case ExitCodeChain => v.prevExitCode != from.exit
    case ExitCodeNonExecution => v.isExecutionShard != 1 && v.exitCode != v.prevExitCode
    case ExitCodeTwice => v.prevExitCode != 0 && v.exitCode != v.prevExitCode
    case InitAddr => v.previousInitAddr != from.memory.initAddr
    case FinalizeAddr => v.previousFinalizeAddr != from.memory.finalizeAddr
    case InitPageIdx => v.previousInitPageIdx != from.memory.initPage
    case FinalizePageIdx => v.previousFinalizePageIdx != from.memory.finalizePage
    case UntrustedPrograms => v.isUntrustedProgramsEnabled != vk.enableUntrustedPrograms
    case CommittedDigest => v.prevCommittedValueDigest != from.digests.committed
    case DeferredDigest => v.prevDeferredProofsDigest != from.digests.deferred
    case CommitSyscall => v.prevCommitSyscall != from.digests.commit
    case CommitDeferredSyscall => v.prevCommitDeferredSyscall != from.digests.commitDeferred
    case _ => false
  }

  /** The faults of shard i. */
  ghost predicate ShardFault(e: Error, c: Input, i: nat)
    requires i < |c.proof|
  {
    var vs := ValuesOf(c.proof);
    match e
    case PublicValuesLength => c.proof[i].numPublicValues != PROOF_MAX_NUM_PVS
    case ProofNonce => vs[i].proofNonce != vs[0].proofNonce
    case ExceptionalSum =>
      var total := SD.Running(c.vk.initialSum, Sums(vs[..i]));
      total.Some? && SD.CheckedAdd(total.value, vs[i].globalCumulativeSum).None?
    case InvalidShardProof => !c.verifyShard(c.vk, c.proof[i])
    case _ => FlagFault(e, vs, i) || LinkFault(e, LinkAt(vs, i, c.vk), i == 0, vs[i], c.vk)
  }

  /** The faults of the whole list. */
  ghost predicate ListFault(e: Error, c: Input) {
    var vs := ValuesOf(c.proof);
    var end := End(Start(c.vk), vs);
    match e
    case EmptyProof => c.proof == []
    case FirstShardUnset => forall i :: 0 <= i < |vs| ==> !Flagged(vs[i])
    case NotHalted => end.pc != HALT_PC
    case NeverInitialized => end.memory.initAddr == ZERO3
    case NeverFinalized => end.memory.finalizeAddr == ZERO3
    case NoCommit => end.digests.commit != 1
    case NoCommitDeferred => end.digests.commitDeferred != 1
    case TooManyShards => |vs| >= MAX_SHARDS
    case NonZeroSum =>
      var total := SD.Running(c.vk.initialSum, Sums(vs));
      total.Some? && total.value != SD.Zero
    case _ => false
  }

  /** Faults of the whole list come after those of its shards. */
  ghost predicate Fault(e: Error, c: Input, i: nat) {
    if i < |c.proof| then ShardFault(e, c, i) else i == |c.proof| && ListFault(e, c)
  }

  /** The pass that reports an error, and the position of its check within the pass. */
  function Phase(e: Error): nat {
    match e
    case EmptyProof => 0
    case PublicValuesLength => 1
    case FirstShardTwice | FirstShardNotBoolean | FirstShardUnset => 2
    case InitialTimestamp | TimestampMustChange | TimestampMustNotChange => 3
    case PcStartKey | PcStartChain | PcNonExecution | NotHalted => 4
    case ExitCodeChain | ExitCodeNonExecution | ExitCodeTwice => 5
    case ProofNonce => 6
    case InitAddr | FinalizeAddr | InitPageIdx | FinalizePageIdx | UntrustedPrograms => 7
    case NeverInitialized | NeverFinalized => 7
    case CommittedDigest | DeferredDigest | CommitSyscall | CommitDeferredSyscall | NoCommit | NoCommitDeferred => 8
    case TooManyShards => 9
    case ExceptionalSum | NonZeroSum => 10
    case InvalidShardProof => 11
  }

  function Check(e: Error): nat {
    match e
    case EmptyProof | PublicValuesLength | ProofNonce | TooManyShards | InvalidShardProof => 0
    case FirstShardTwice | InitialTimestamp | PcStartKey | ExitCodeChain | InitAddr | CommittedDigest => 0
    case ExceptionalSum => 0
    case FirstShardNotBoolean | TimestampMustChange | PcStartChain | ExitCodeNonExecution => 1
    case FinalizeAddr | DeferredDigest | NonZeroSum => 1
    case FirstShardUnset | TimestampMustNotChange | PcNonExecution | ExitCodeTwice | InitPageIdx | CommitSyscall => 2
    case NotHalted | FinalizePageIdx | CommitDeferredSyscall => 3
    case UntrustedPrograms | NoCommit => 4
    case NeverInitialized | NoCommitDeferred => 5
    case NeverFinalized => 6
  }

  /** The order in which faults are found: by pass, then by shard, then by check. */
  predicate Earlier(e: Error, i: nat, e': Error, i': nat) {
    || Phase(e) < Phase(e')
    || (Phase(e) == Phase(e') && (i < i' || (i == i' && Check(e) < Check(e'))))
  }

  /** A fault that no other precedes. */
  ghost predicate First(e: Error, c: Input, i: nat) {
    Fault(e, c, i) && forall e', i' :: Fault(e', c, i') ==> !Earlier(e', i', e, i)
  }

  // ---------------------------------------------------------------- one pass

  ghost predicate Clear(k: nat, c: Input) { forall e, i :: Fault(e, c, i) ==> Phase(e) != k }

  /** No fault of pass k at a shard before i. */
  ghost predicate ClearTo(k: nat, c: Input, i: nat)
    requires i <= |c.proof|
  {
    forall e, j :: 0 <= j < i && ShardFault(e, c, j) ==> Phase(e) != k
  }

  /** The first of its pass. */
  ghost predicate FirstInPass(e: Error, c: Input, i: nat) {
    Fault(e, c, i) && forall e', i' :: Fault(e', c, i') && Phase(e') == Phase(e) ==> !Earlier(e', i', e, i)
  }

  /** What a pass reports. */
  ghost predicate Reports<S>(k: nat, c: Input, r: Result<S>) {
    if r.Ok? then ClearTo(k, c, |c.proof|) else Phase(r.error) == k && exists i :: FirstInPass(r.error, c, i)
  }

  /** The outcome of one step of pass k at shard i: the first of its faults there, or none. */
  ghost predicate StepReports<S>(k: nat, c: Input, i: nat, r: Result<S>)
    requires i < |c.proof|
  {
    match r
    case Ok(_) => forall e :: ShardFault(e, c, i) ==> Phase(e) != k
    case Err(e) =>
      && Phase(e) == k && ShardFault(e, c, i)
      && forall e' :: ShardFault(e', c, i) && Phase(e') == k ==> Check(e) <= Check(e')
  }

  /** A pass that stops at shard i. */
  lemma StopsAt(e: Error, c: Input, i: nat)
    requires i < |c.proof| && ClearTo(Phase(e), c, i) && ShardFault(e, c, i)
    requires forall e' :: ShardFault(e', c, i) && Phase(e') == Phase(e) ==> Check(e) <= Check(e')
    ensures FirstInPass(e, c, i)
  {
    hide ShardFault, ListFault, Phase, Check;
  }

  /** The states of a pass before each shard, up to the one where it stops. */
  ghost predicate IsTrace<S>(step: (S, Values) -> Result<S>, vs: seq<Values>, states: seq<S>) {
    && 0 < |states| <= |vs| + 1
    && (forall j :: 0 <= j < |states| - 1 ==> step(states[j], vs[j]) == Ok(states[j + 1]))
    && (|states| <= |vs| ==> step(states[|states| - 1], vs[|states| - 1]).Err?)
  }

  /** The result of a pass with this trace. */
  function LastOf<S>(step: (S, Values) -> Result<S>, vs: seq<Values>, states: seq<S>): Result<S>
    requires 0 < |states| <= |vs| + 1
  {
    if |states| <= |vs| then step(states[|states| - 1], vs[|states| - 1]) else Ok(states[|states| - 1])
  }

  lemma {:induction false} FoldTrace<S>(step: (S, Values) -> Result<S>, s: S, vs: seq<Values>) returns (states: seq<S>)
    ensures IsTrace(step, vs, states) && states[0] == s && Fold(step, s, vs) == LastOf(step, vs, states)
    decreases |vs|
  {
    if vs == [] || step(s, vs[0]).Err? {
      states := [s];
    } else {
      var rest := FoldTrace(step, step(s, vs[0]).value, vs[1..]);
      states := [s] + rest;
      forall j | 0 <= j < |states| - 1 ensures step(states[j], vs[j]) == Ok(states[j + 1]) {
        if j > 0 { assert step(rest[j - 1], vs[1..][j - 1]) == Ok(rest[j]); }
      }
    }
  }

  /** A pass reports the first fault if each of its steps does. */
  lemma PassReports<S>(k: nat, c: Input, step: (S, Values) -> Result<S>, states: seq<S>)
    requires IsTrace(step, ValuesOf(c.proof), states)
    requires forall j :: 0 <= j < |states| && j < |c.proof| ==>
      StepReports(k, c, j, step(states[j], ValuesOf(c.proof)[j]))
    ensures Reports(k, c, LastOf(step, ValuesOf(c.proof), states))
  {
    hide ShardFault, ListFault, Phase, Check, ValuesOf, FirstInPass;
    var i := |states| - 1;
    forall e, j | 0 <= j < i && ShardFault(e, c, j) ensures Phase(e) != k {
      assert StepReports(k, c, j, step(states[j], ValuesOf(c.proof)[j]));
      assert step(states[j], ValuesOf(c.proof)[j]) == Ok(states[j + 1]);
    }
    if i < |c.proof| {
      var r := step(states[i], ValuesOf(c.proof)[i]);
      assert StepReports(k, c, i, r);
      StopsAt(r.error, c, i);
    }
  }

  // ---------------------------------------------------------------- the passes over the links

  /** The outcome of a step on one shard: its first fault of pass k, or none and the next state. */
  ghost predicate LinkReports<S>(k: nat, r: Result<S>, next: S, from: Link, first: bool, v: Values, vk: Key) {
    match r
    case Ok(t) => t == next && forall e :: LinkFault(e, from, first, v, vk) ==> Phase(e) != k
    case Err(e) =>
      && Phase(e) == k && LinkFault(e, from, first, v, vk)
      && forall e' :: LinkFault(e', from, first, v, vk) && Phase(e') == k ==> Check(e) <= Check(e')
  }

  /** The same for all shards, where the state of the pass is a part of the link. */
  ghost predicate Describes<S>(k: nat, step: (S, Values) -> Result<S>, part: (Link, bool) -> S, vk: Key) {
    forall from, first, v :: LinkReports(k, step(part(from, first), v), part(After(v), false), from, first, v, vk)
  }

  /** The passes that only look at links. */
  predicate OnLinks(k: nat) { k == 3 || k == 4 || k == 5 || k == 7 || k == 8 }

  lemma FaultOnLink(e: Error, c: Input, i: nat)
    requires OnLinks(Phase(e)) && i < |c.proof|
    ensures var vs := ValuesOf(c.proof);
      ShardFault(e, c, i) <==> LinkFault(e, LinkAt(vs, i, c.vk), i == 0, vs[i], c.vk)
  {
    hide SD.CheckedAdd, SD.Running, Sums, LinkAt;
  }

  lemma LinkStep<S>(k: nat, c: Input, step: (S, Values) -> Result<S>, part: (Link, bool) -> S, i: nat)
    requires OnLinks(k) && Describes(k, step, part, c.vk) && i < |c.proof|
    ensures var vs := ValuesOf(c.proof);
      var r := step(part(LinkAt(vs, i, c.vk), i == 0), vs[i]);
      StepReports(k, c, i, r) && (r.Ok? ==> r.value == part(LinkAt(vs, i + 1, c.vk), false))
  {
    hide ShardFault, LinkFault, Phase, Check, ValuesOf, Start, After, OnLinks;
    var vs := ValuesOf(c.proof);
    var from := LinkAt(vs, i, c.vk);
    assert LinkReports(k, step(part(from, i == 0), vs[i]), part(After(vs[i]), false), from, i == 0, vs[i], c.vk);
    forall e | Phase(e) == k ensures ShardFault(e, c, i) <==> LinkFault(e, from, i == 0, vs[i], c.vk) {
      FaultOnLink(e, c, i);
    }
  }

  lemma LinkPass<S>(k: nat, c: Input, step: (S, Values) -> Result<S>, part: (Link, bool) -> S)
    requires OnLinks(k) && Describes(k, step, part, c.vk)
    ensures var r := Fold(step, part(Start(c.vk), true), ValuesOf(c.proof));
      Reports(k, c, r) && (r.Ok? && c.proof != [] ==> r.value == part(End(Start(c.vk), ValuesOf(c.proof)), false))
  {
    hide *;
    var vs := ValuesOf(c.proof);
    var states := FoldTrace(step, part(Start(c.vk), true), vs);
    TraceSize(step, vs, states);
    forall j | 0 <= j < |states| ensures states[j] == part(LinkAt(vs, j, c.vk), j == 0) {
      StateIsPart(k, c, step, part, states, j);
    }
    forall j | 0 <= j < |states| && j < |vs| ensures StepReports(k, c, j, step(states[j], vs[j])) {
      LinkStep(k, c, step, part, j);
    }
    PassReports(k, c, step, states);
    EndsWithTrace(step, c, states);
  }

  lemma TraceSize<S>(step: (S, Values) -> Result<S>, vs: seq<Values>, states: seq<S>)
    requires IsTrace(step, vs, states)
    ensures 0 < |states| <= |vs| + 1
  {
  }

  lemma EndsWithTrace<S>(step: (S, Values) -> Result<S>, c: Input, states: seq<S>)
    requires IsTrace(step, ValuesOf(c.proof), states)
    ensures var vs := ValuesOf(c.proof);
      LastOf(step, vs, states).Ok? ==>
        |states| == |vs| + 1 && LastOf(step, vs, states).value == states[|vs|]
        && LinkAt(vs, |vs|, c.vk) == End(Start(c.vk), vs)
  {
  }

  lemma {:induction false} StateIsPart<S>(k: nat, c: Input, step: (S, Values) -> Result<S>, part: (Link, bool) -> S,
                                          states: seq<S>, j: nat)
    requires OnLinks(k) && Describes(k, step, part, c.vk)
    requires j < |states| && IsTrace(step, ValuesOf(c.proof), states) && states[0] == part(Start(c.vk), true)
    ensures states[j] == part(LinkAt(ValuesOf(c.proof), j, c.vk), j == 0)
  {
    hide ValuesOf, Start, After, OnLinks, StepReports, Describes;
    if j > 0 {
      StateIsPart(k, c, step, part, states, j - 1);
      LinkStep(k, c, step, part, j - 1);
      assert step(states[j - 1], ValuesOf(c.proof)[j - 1]) == Ok(states[j]);
    }
  }

  function TimePart(l: Link, first: bool): W4 { l.time }
  function PcPart(l: Link, first: bool): Pc { Pc(l.pc, first) }
  function ExitPart(l: Link, first: bool): Fp { l.exit }
  function MemoryPart(l: Link, first: bool): Memory { l.memory }
  function DigestPart(l: Link, first: bool): Digests { l.digests }

  lemma TimeDescribed(vk: Key)
    ensures Describes(3, TimeStep, TimePart, vk)
  {
  }

  lemma PcDescribed(vk: Key)
    ensures Describes(4, PcStep, PcPart, vk)
  {
  }

  lemma ExitDescribed(vk: Key)
    ensures Describes(5, ExitStep, ExitPart, vk)
  {
  }

  lemma MemoryDescribed(vk: Key)
    ensures Describes(7, MemoryStepFor(vk), MemoryPart, vk)
  {
  }

  lemma DigestDescribed(vk: Key)
    ensures Describes(8, DigestStep, DigestPart, vk)
  {
  }

  // ---------------------------------------------------------------- the flag and the sum

  ghost predicate FlaggedBefore(vs: seq<Values>, j: nat)
    requires j <= |vs|
  {
    exists i :: 0 <= i < j && Flagged(vs[i])
  }

  lemma FlagStepReports(c: Input, i: nat)
    requires i < |c.proof|
    ensures var vs := ValuesOf(c.proof);
      var r := FlagStep(FlaggedBefore(vs, i), vs[i]);
      StepReports(2, c, i, r) && (r.Ok? ==> r.value == FlaggedBefore(vs, i + 1))
  {
    var vs := ValuesOf(c.proof);
    if Flagged(vs[i]) { assert FlaggedBefore(vs, i + 1); }
    forall e | Phase(e) == 2 ensures ShardFault(e, c, i) <==> FlagFault(e, vs, i) { FaultOfFlag(e, c, i); }
    hide ShardFault;
  }

  lemma FaultOfFlag(e: Error, c: Input, i: nat)
    requires Phase(e) == 2 && i < |c.proof|
    ensures ShardFault(e, c, i) <==> FlagFault(e, ValuesOf(c.proof), i)
  {
    hide SD.CheckedAdd, SD.Running, Sums, LinkAt;
  }

  lemma {:induction false} StateIsFlag(c: Input, states: seq<bool>, j: nat)
    requires j < |states| && IsTrace(FlagStep, ValuesOf(c.proof), states) && states[0] == false
    ensures states[j] == FlaggedBefore(ValuesOf(c.proof), j)
  {
    hide ValuesOf, StepReports, FlagStep;
    if j > 0 {
      StateIsFlag(c, states, j - 1);
      FlagStepReports(c, j - 1);
      assert FlagStep(states[j - 1], ValuesOf(c.proof)[j - 1]) == Ok(states[j]);
    }
  }

  lemma FlagPass(c: Input)
    ensures var r := FlagRun(false, ValuesOf(c.proof));
      Reports(2, c, r) && (r.Ok? ==> r.value == FlaggedBefore(ValuesOf(c.proof), |c.proof|))
  {
    hide Fold, ValuesOf, StepReports, FlagStep, IsTrace, LastOf, FlaggedBefore, Reports;
    var vs := ValuesOf(c.proof);
    var states := FoldTrace(FlagStep, false, vs);
    TraceSize(FlagStep, vs, states);
    forall j | 0 <= j < |states| ensures states[j] == FlaggedBefore(vs, j) { StateIsFlag(c, states, j); }
    forall j | 0 <= j < |states| && j < |vs| ensures StepReports(2, c, j, FlagStep(states[j], vs[j])) {
      FlagStepReports(c, j);
    }
    PassReports(2, c, FlagStep, states);
    EndsWithTrace(FlagStep, c, states);
  }

  lemma {:induction false} SumsAppend(vs: seq<Values>, v: Values)
    ensures Sums(vs + [v]) == Sums(vs) + [v.globalCumulativeSum]
  {
    if vs == [] {
      assert ([v])[1..] == [];
    } else {
      assert (vs + [v])[0] == vs[0] && (vs + [v])[1..] == vs[1..] + [v];
      SumsAppend(vs[1..], v);
    }
  }

  /** The total over the first i shards. */
  ghost function TotalTo(c: Input, i: nat): Option<SC.Point>
    requires i <= |c.proof|
  {
    SD.Running(c.vk.initialSum, Sums(ValuesOf(c.proof)[..i]))
  }

  lemma FaultOfSum(e: Error, c: Input, i: nat)
    requires Phase(e) == 10 && i < |c.proof|
    ensures ShardFault(e, c, i) <==>
      e == ExceptionalSum && TotalTo(c, i).Some?
      && SD.CheckedAdd(TotalTo(c, i).value, ValuesOf(c.proof)[i].globalCumulativeSum).None?
  {
    hide SD.CheckedAdd, SD.Running, Sums;
  }

  lemma SumStepReports(c: Input, i: nat, total: SC.Point)
    requires i < |c.proof| && TotalTo(c, i) == Some(total)
    ensures var r := SumStep(total, ValuesOf(c.proof)[i]);
      StepReports(10, c, i, r) && (r.Ok? ==> TotalTo(c, i + 1) == Some(r.value))
  {
    hide SD.CheckedAdd, SD.Running, Sums, ShardFault;
    var vs := ValuesOf(c.proof);
    assert vs[..i + 1] == vs[..i] + [vs[i]];
    SumsAppend(vs[..i], vs[i]);
    SD.RunningAppend(c.vk.initialSum, Sums(vs[..i]), vs[i].globalCumulativeSum);
    forall e | Phase(e) == 10
      ensures ShardFault(e, c, i) <==>
        e == ExceptionalSum && SD.CheckedAdd(total, vs[i].globalCumulativeSum).None?
    {
      FaultOfSum(e, c, i);
    }
  }

  lemma TotalStart(c: Input)
    ensures TotalTo(c, 0) == Some(c.vk.initialSum)
  {
    assert ValuesOf(c.proof)[..0] == [];
  }

  lemma {:induction false} StateIsTotal(c: Input, states: seq<SC.Point>, j: nat)
    requires j < |states| && IsTrace(SumStep, ValuesOf(c.proof), states) && states[0] == c.vk.initialSum
    ensures TotalTo(c, j) == Some(states[j])
  {
    TotalStart(c);
    hide ValuesOf, StepReports, SumStep, TotalTo;
    if j > 0 {
      StateIsTotal(c, states, j - 1);
      SumStepReports(c, j - 1, states[j - 1]);
      assert SumStep(states[j - 1], ValuesOf(c.proof)[j - 1]) == Ok(states[j]);
    }
  }

  lemma SumPass(c: Input)
    ensures var r := SumRun(c.vk.initialSum, ValuesOf(c.proof));
      Reports(10, c, r) && (r.Ok? ==> TotalTo(c, |c.proof|) == Some(r.value))
  {
    hide Fold, ValuesOf, StepReports, SumStep, IsTrace, LastOf, TotalTo, Reports;
    var vs := ValuesOf(c.proof);
    var states := FoldTrace(SumStep, c.vk.initialSum, vs);
    TraceSize(SumStep, vs, states);
    forall j | 0 <= j < |states| ensures TotalTo(c, j) == Some(states[j]) { StateIsTotal(c, states, j); }
    forall j | 0 <= j < |states| && j < |vs| ensures StepReports(10, c, j, SumStep(states[j], vs[j])) {
      SumStepReports(c, j, states[j]);
    }
    PassReports(10, c, SumStep, states);
    EndsWithTrace(SumStep, c, states);
  }

  // ---------------------------------------------------------------- the whole verdict

  function ErrorOf<S>(r: Result<S>): Option<Error> { if r.Ok? then None else Some(r.error) }

  /** The error with which pass k would end the verification, if any. */
  ghost function PhaseError(k: nat, c: Input): Option<Error> {
    var vs := ValuesOf(c.proof);
    match k
    case 0 => if c.proof == [] then Some(EmptyProof) else None
    case 1 =>
      if exists i :: 0 <= i < |c.proof| && c.proof[i].numPublicValues != PROOF_MAX_NUM_PVS then Some(PublicValuesLength)
      else None
    case 2 =>
      var r := FlagRun(false, vs);
      if r == Ok(false) then Some(FirstShardUnset) else ErrorOf(r)
    case 3 => ErrorOf(TimeRun(START_TIME, vs))
    case 4 =>
      var r := PcRun(Pc(c.vk.pcStart, true), vs);
      if r.Ok? && r.value.pc != HALT_PC then Some(NotHalted) else ErrorOf(r)
    case 5 => ErrorOf(ExitRun(0, vs))
    case 6 => if SameNonce(vs) then None else Some(ProofNonce)
    case 7 =>
      var r := MemoryRun(NO_MEMORY, vs, c.vk);
      if r.Ok? && r.value.initAddr == ZERO3 then Some(NeverInitialized)
      else if r.Ok? && r.value.finalizeAddr == ZERO3 then Some(NeverFinalized)
      else ErrorOf(r)
    case 8 =>
      var r := DigestRun(NO_DIGESTS, vs);
      if r.Ok? && r.value.commit != 1 then Some(NoCommit)
      else if r.Ok? && r.value.commitDeferred != 1 then Some(NoCommitDeferred)
      else ErrorOf(r)
    case 9 => if |c.proof| >= MAX_SHARDS then Some(TooManyShards) else None
    case 10 =>
      var r := SumRun(c.vk.initialSum, vs);
      if r.Ok? && r.value != SD.Zero then Some(NonZeroSum) else ErrorOf(r)
    case 11 =>
      if exists i :: 0 <= i < |c.proof| && !c.verifyShard(c.vk, c.proof[i]) then Some(InvalidShardProof) else None
    case _ => None
  }

  /** The verification ends with the error of the first pass that has one. */
  lemma VerdictByPhase(c: Input, k: nat)
    requires k <= 12 && (forall j :: 0 <= j < k ==> PhaseError(j, c).None?) && (k < 12 ==> PhaseError(k, c).Some?)
    ensures ErrorOf(Verdict(c.proof, c.vk, c.verifyShard)) == PhaseError(k, c)
  {
    hide FlagRun, TimeRun, PcRun, ExitRun, MemoryRun, DigestRun, SumRun, ValuesOf, SameNonce;
    // All twelve passes, for the case distinction.
    var errors := [PhaseError(0, c), PhaseError(1, c), PhaseError(2, c), PhaseError(3, c), PhaseError(4, c),
                   PhaseError(5, c), PhaseError(6, c), PhaseError(7, c), PhaseError(8, c), PhaseError(9, c),
                   PhaseError(10, c), PhaseError(11, c)];
  }

  /** A pass ends with the first fault it looks for, or there is none. */
  ghost predicate Settles(k: nat, c: Input, o: Option<Error>) {
    if o.None? then Clear(k, c) else Phase(o.value) == k && exists i :: FirstInPass(o.value, c, i)
  }

  /** A pass over all shards that then finds the first fault of the whole list. */
  lemma EndsWith(e: Error, c: Input)
    requires ClearTo(Phase(e), c, |c.proof|) && ListFault(e, c)
    requires forall e' :: ListFault(e', c) && Phase(e') == Phase(e) ==> Check(e) <= Check(e')
    ensures FirstInPass(e, c, |c.proof|)
  {
    hide ShardFault, ListFault, Phase, Check;
  }

  lemma ClearAll(k: nat, c: Input)
    requires ClearTo(k, c, |c.proof|) && forall e :: ListFault(e, c) ==> Phase(e) != k
    ensures Clear(k, c)
  {
    hide ShardFault, ListFault, Phase, Check;
  }

  /** From the shards to the whole list: e is the first fault of the list in this pass, if there is one. */
  lemma SettleList<S>(k: nat, c: Input, r: Result<S>, o: Option<Error>)
    requires Reports(k, c, r)
    requires r.Err? ==> o == Some(r.error)
    requires r.Ok? && o.None? ==> forall e :: ListFault(e, c) ==> Phase(e) != k
    requires r.Ok? && o.Some? ==>
      && Phase(o.value) == k && ListFault(o.value, c)
      && forall e :: ListFault(e, c) && Phase(e) == k ==> Check(o.value) <= Check(e)
    ensures Settles(k, c, o)
  {
    hide ShardFault, ListFault, Phase, Check, Clear, ClearTo, FirstInPass;
    if r.Ok? { if o.Some? { EndsWith(o.value, c); } else { ClearAll(k, c); } }
  }

  /** The list faults of the passes that have any. */
  lemma ListFaults(e: Error, c: Input)
    requires c.proof != [] && ListFault(e, c)
    ensures var end := End(Start(c.vk), ValuesOf(c.proof));
      match Phase(e)
      case 2 => e == FirstShardUnset && !FlaggedBefore(ValuesOf(c.proof), |c.proof|)
      case 4 => e == NotHalted && end.pc != HALT_PC
      case 7 => (e == NeverInitialized && end.memory.initAddr == ZERO3)
             || (e == NeverFinalized && end.memory.finalizeAddr == ZERO3)
      case 8 => (e == NoCommit && end.digests.commit != 1)
             || (e == NoCommitDeferred && end.digests.commitDeferred != 1)
      case 9 => e == TooManyShards && |c.proof| >= MAX_SHARDS
      case 10 => e == NonZeroSum && TotalTo(c, |c.proof|).Some? && TotalTo(c, |c.proof|).value != SD.Zero
      case _ => false
  {
    assert ValuesOf(c.proof)[..|c.proof|] == ValuesOf(c.proof);
  }

  lemma SettlePc(c: Input)
    requires c.proof != []
    ensures Settles(4, c, PhaseError(4, c))
  {
    PcDescribed(c.vk);
    hide ShardFault, Describes, Reports, Settles, Fold, PcStep, ValuesOf;
    LinkPass(4, c, PcStep, PcPart);
    forall e | ListFault(e, c) && Phase(e) == 4 ensures e == NotHalted { ListFaults(e, c); }
    SettleList(4, c, PcRun(Pc(c.vk.pcStart, true), ValuesOf(c.proof)), PhaseError(4, c));
  }

  lemma SettleMemory(c: Input)
    requires c.proof != []
    ensures Settles(7, c, PhaseError(7, c))
  {
    MemoryDescribed(c.vk);
    hide ShardFault, Describes, Reports, Settles, Fold, MemoryStep, MemoryStepFor, ValuesOf;
    LinkPass(7, c, MemoryStepFor(c.vk), MemoryPart);
    forall e | ListFault(e, c) && Phase(e) == 7
      ensures e == NeverInitialized || e == NeverFinalized
    {
      ListFaults(e, c);
    }
    SettleList(7, c, MemoryRun(NO_MEMORY, ValuesOf(c.proof), c.vk), PhaseError(7, c));
  }

  lemma SettleDigests(c: Input)
    requires c.proof != []
    ensures Settles(8, c, PhaseError(8, c))
  {
    DigestDescribed(c.vk);
    hide ShardFault, Describes, Reports, Settles, Fold, DigestStep, ValuesOf;
    LinkPass(8, c, DigestStep, DigestPart);
    forall e | ListFault(e, c) && Phase(e) == 8 ensures e == NoCommit || e == NoCommitDeferred { ListFaults(e, c); }
    SettleList(8, c, DigestRun(NO_DIGESTS, ValuesOf(c.proof)), PhaseError(8, c));
  }

  lemma SettleTime(c: Input)
    requires c.proof != []
    ensures Settles(3, c, PhaseError(3, c))
  {
    TimeDescribed(c.vk);
    hide ShardFault, ListFault, Describes, Reports, Settles, Fold, TimeStep, ValuesOf;
    LinkPass(3, c, TimeStep, TimePart);
    forall e | ListFault(e, c) ensures Phase(e) != 3 { ListFaults(e, c); }
    SettleList(3, c, TimeRun(START_TIME, ValuesOf(c.proof)), PhaseError(3, c));
  }

  lemma SettleExit(c: Input)
    requires c.proof != []
    ensures Settles(5, c, PhaseError(5, c))
  {
    ExitDescribed(c.vk);
    hide ShardFault, ListFault, Describes, Reports, Settles, Fold, ExitStep, ValuesOf;
    LinkPass(5, c, ExitStep, ExitPart);
    forall e | ListFault(e, c) ensures Phase(e) != 5 { ListFaults(e, c); }
    SettleList(5, c, ExitRun(0, ValuesOf(c.proof)), PhaseError(5, c));
  }

  lemma SettleFlag(c: Input)
    requires c.proof != []
    ensures Settles(2, c, PhaseError(2, c))
  {
    hide ShardFault, Reports, Settles, FlagRun, ValuesOf;
    FlagPass(c);
    forall e | ListFault(e, c) && Phase(e) == 2
      ensures e == FirstShardUnset && !FlaggedBefore(ValuesOf(c.proof), |c.proof|)
    {
      ListFaults(e, c);
    }
    SettleList(2, c, FlagRun(false, ValuesOf(c.proof)), PhaseError(2, c));
  }

  lemma SettleSum(c: Input)
    requires c.proof != []
    ensures Settles(10, c, PhaseError(10, c))
  {
    hide ShardFault, Reports, Settles, SumRun, SD.Running, Sums;
    SumPass(c);
    assert ValuesOf(c.proof)[..|c.proof|] == ValuesOf(c.proof);
    forall e | ListFault(e, c) && Phase(e) == 10
      ensures e == NonZeroSum && TotalTo(c, |c.proof|).Some? && TotalTo(c, |c.proof|).value != SD.Zero
    {
      ListFaults(e, c);
    }
    SettleList(10, c, SumRun(c.vk.initialSum, ValuesOf(c.proof)), PhaseError(10, c));
  }

  /** The first shard with a given fault. */
  lemma {:induction false} FirstShardWith(e: Error, c: Input, i: nat) returns (j: nat)
    requires i < |c.proof| && ShardFault(e, c, i)
    ensures j <= i && ShardFault(e, c, j) && forall n :: 0 <= n < j ==> !ShardFault(e, c, n)
    decreases i
  {
    if n: nat :| n < i && ShardFault(e, c, n) { j := FirstShardWith(e, c, n); } else { j := i; }
  }

  /** A pass with a single check on each shard. */
  lemma SettleSingle(e: Error, c: Input)
    requires c.proof != [] && forall e' :: Phase(e') == Phase(e) ==> e' == e
    requires forall e' :: ListFault(e', c) ==> Phase(e') != Phase(e)
    ensures Settles(Phase(e), c, if exists i :: 0 <= i < |c.proof| && ShardFault(e, c, i) then Some(e) else None)
  {
    hide ShardFault, ListFault, Phase, Check;
    if i: nat :| i < |c.proof| && ShardFault(e, c, i) {
      var j := FirstShardWith(e, c, i);
      StopsAt(e, c, j);
    } else {
      ClearAll(Phase(e), c);
    }
  }

  lemma SettleLengths(c: Input)
    requires c.proof != []
    ensures Settles(1, c, PhaseError(1, c))
  {
    hide Settles;
    SettleSingle(PublicValuesLength, c);
    forall i | 0 <= i < |c.proof|
      ensures ShardFault(PublicValuesLength, c, i) <==> c.proof[i].numPublicValues != PROOF_MAX_NUM_PVS
    {
    }
  }

  lemma SettleNonces(c: Input)
    requires c.proof != []
    ensures Settles(6, c, PhaseError(6, c))
  {
    hide Settles;
    var vs := ValuesOf(c.proof);
    SettleSingle(ProofNonce, c);
    forall i | 0 <= i < |c.proof| ensures ShardFault(ProofNonce, c, i) <==> vs[i].proofNonce != vs[0].proofNonce {}
  }

  lemma SettleShards(c: Input)
    requires c.proof != []
    ensures Settles(11, c, PhaseError(11, c))
  {
    hide Settles;
    SettleSingle(InvalidShardProof, c);
    forall i | 0 <= i < |c.proof| ensures ShardFault(InvalidShardProof, c, i) <==> !c.verifyShard(c.vk, c.proof[i]) {}
  }

  lemma SettleSize(c: Input)
    ensures Settles(9, c, PhaseError(9, c))
    ensures Settles(0, c, PhaseError(0, c))
  {
    if c.proof == [] { assert FirstInPass(EmptyProof, c, 0); }
    if |c.proof| >= MAX_SHARDS { assert FirstInPass(TooManyShards, c, |c.proof|); }
  }

  lemma SettlePhase(k: nat, c: Input)
    requires k < 12 && (k > 0 ==> c.proof != [])
    ensures Settles(k, c, PhaseError(k, c))
  {
    hide Settles, PhaseError;
    match k
    case 1 => SettleLengths(c);
    case 2 => SettleFlag(c);
    case 3 => SettleTime(c);
    case 4 => SettlePc(c);
    case 5 => SettleExit(c);
    case 6 => SettleNonces(c);
    case 7 => SettleMemory(c);
    case 8 => SettleDigests(c);
    case 10 => SettleSum(c);
    case 11 => SettleShards(c);
    case _ => SettleSize(c);
  }

  lemma FirstOfAll(e: Error, c: Input, i: nat)
    requires FirstInPass(e, c, i) && forall j :: 0 <= j < Phase(e) ==> Clear(j, c)
    ensures First(e, c, i)
  {
    hide Fault, Phase, Check;
    forall e', i': nat | Fault(e', c, i') ensures !Earlier(e', i', e, i) {
      assert Phase(e') < Phase(e) ==> Clear(Phase(e'), c);
    }
  }

  /** Two faults that nothing precedes are the same. */
  lemma FirstUnique(e: Error, i: nat, e': Error, i': nat, c: Input)
    requires First(e, c, i) && First(e', c, i')
    ensures e == e'
  {
    SameFault(e, e');
  }

  lemma SameFault(e: Error, e': Error)
    requires Phase(e) == Phase(e') && Check(e) == Check(e')
    ensures e == e'
  {
  }

  lemma NoFaults(c: Input)
    requires forall j :: 0 <= j < 12 ==> Clear(j, c)
    ensures forall e, i :: !Fault(e, c, i)
  {
    hide Fault;
    forall e, i: nat ensures !Fault(e, c, i) { assert Clear(Phase(e), c); }
  }

  lemma NotEmpty(c: Input)
    ensures PhaseError(0, c).None? <==> c.proof != []
    ensures PhaseError(12, c).None?
  {
  }

  /** `verify` accepts exactly the lists without faults, and rejects every other one with the error of its
      first fault. */
  lemma ErrorIsFirstFault(c: Input, e: Error)
    ensures Verdict(c.proof, c.vk, c.verifyShard).Ok? <==> forall e', i :: !Fault(e', c, i)
    ensures Verdict(c.proof, c.vk, c.verifyShard) == Err(e) <==> exists i :: First(e, c, i)
  {
    hide Verdict, PhaseError, Fault, Check;
    NotEmpty(c);
    var k := 0;
    while k < 12 && PhaseError(k, c).None?
      invariant k <= 12 && (k > 0 ==> c.proof != [])
      invariant forall j :: 0 <= j < k ==> PhaseError(j, c).None? && Clear(j, c)
    {
      SettlePhase(k, c);
      k := k + 1;
    }
    VerdictByPhase(c, k);
    if k == 12 {
      NoFaults(c);
    } else {
      SettlePhase(k, c);
      var e0 := PhaseError(k, c).value;
      var i :| FirstInPass(e0, c, i);
      FirstOfAll(e0, c, i);
      forall j: nat | First(e, c, j) ensures e == e0 { FirstUnique(e, j, e0, i, c); }
    }
  }
}
