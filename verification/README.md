# SP1: global lookup digest, core verifier and proving protocols in Dafny

A Dafny model of the hand-written algebra behind SP1's global lookup digest, of the core proof
verifier that consumes it, and of the concurrent protocols around the prover, with proofs about all
inputs, all runs and all schedules. `dafny verify dfyconfig.toml`
checks the project.

**The digest.** A global lookup is hashed to a point of the curve y^2 = x^3 + 45x + 41z^3 over
F_p[z]/(z^7 - 3z - 5) with p = 2130706433, and points are accumulated with an addition that divides by
zero on equal x-coordinates. `KoalaBear` proves that 3 generates the non-zero residues, from which
primality of p, Fermat's theorem and Euler's criterion follow. `SepticIntegers`, `SepticExtension` and
`SepticProduct` give the product loop its meaning and the ring laws. `SepticTables` derives the
Frobenius table from z^p by repeated squaring, and `Frobenius` lifts it to all elements.
`SepticField` shows that the ring is a field: it has no idempotents besides 0 and 1, because only base
field elements are fixed by Frobenius, and Frobenius has order seven. So irreducibility of
z^7 - 3z - 5 is proved rather than assumed. `Cipolla` and `SquareRoot` prove the square root and the
termination of its search. `SepticCurve`, `HashToCurve` and `SepticDigest` build on that.

**The verifier.** `CoreVerifier` runs the passes of `SP1Verifier::verify` as loops, in the source's
order and with its error cases, and shows that together they are one left-to-right machine.
`VerifierErrors` says which error is reported. `verify_shard` is a parameter.

**The protocols.** `ArtifactInstaller` is a state machine over the file system steps of installing
circuit artifacts, with failures and crashes. `Pipeline` is a state machine over the channels, locks
and workers of `build_vk_map`; `Shapes` is the enumeration that feeds it. `ProofIndex` and
`ArtifactStore` are the artifact index and store, and `ArtifactRefs` the interleaving of
`remove_ref`'s lock sections.

**Supporting algebra.** `Basics` (optional values, powers of two), `Rings` (generic commutative rings,
binomial theorem, p-th powers), `Polynomials`, `Folders` and `ScalarMul`.

Panics appear as an `Option` or `Result` where the source can reach them from valid calls, and as a
precondition where the source demands something of its caller (an index in range, a non-zero divisor).

## Where the code and its documentation differ

- `sum_checker_y` is documented to vanish if and only if p3 has the y-coordinate of the sum. It tests
  whether p3 is on the reflected line. `SepticCurve.CheckerYExact` gives the exact condition and
  `SepticDigest.CheckerYFailsOnDigests` a failing case; both checkers together are exact
  (`SepticCurve.CheckersExact`).
- `lift_x` is documented to return a y-coordinate within [1, (p-1)/2]. This concerns the last coefficient
  of y, which the code keeps to the smaller bound 63 * 2^24 of `is_receive`.
- A comment in `verify` says that `is_execution_shard` of the first shard must be one. Neither `verify`
  nor the public value constraints of a shard proof demand this: `CoreVerifier.IdleFirstAccepted` is an
  accepted list that begins with an idle, unflagged shard. What they do guarantee, together, is that the
  flagged shard is exactly the first one that executes, so that the first shard of the list executes
  exactly when it carries the flag (`CoreVerifier.FlagMarksFirstExecution`).
- `scalar_mul` doubles by adding a point to itself. The addition of bn254, secp256r1 and bls12-381 panics
  on equal points, so there every call with at least one bit panics (`ScalarMul.ScalarMultiply`).
  `sw_scalar_mul` uses the doubling formula instead (`ScalarMul.SwScalarMultiply`).
- `publish_circuit_artifacts` looks at the marker once more after a failed rename, for the case that
  another process installed first. Under the lock that case does not arise
  (`ArtifactInstaller.FallbackIsDead`).
- The workers of `build_vk_map` hold the receiver's mutex through the loop body, since the guard in a
  `while let` head lives that long. At most one compile worker and one setup worker work at a time
  (`Pipeline.OneAtATime`), and keys arrive in the order of their indices (`Pipeline.KeysAscend`).
- Tracking an artifact for a second proof breaks the two-way index (`ProofIndex.TrackTwiceBreaks`);
  `ProofIndex.RunExact` says in exactly which runs it stays intact.
- `add_ref` does not protect an artifact against a `remove_ref` that has already counted zero, because
  counting and removing are separate lock sections (`ArtifactRefs.AddRefExact`, and
  `ArtifactRefs.LateReferenceLost` for a run that loses one). All references of a run protect exactly when
  each is added before any removal has been started or while the refs entry names a task
  (`ArtifactRefs.RunExact`). The entry is a valid sign only while every earlier reference met that
  condition: after one late reference it names a task, and the next reference is lost too
  (`ArtifactRefs.EntryMisleads`).

## Model

| member | source | states |
|---|---|---|
| KoalaBear.GeneratorGenerates | crates/hypercube/src/septic_extension.rs:665-673 | every non-zero residue is a power of the generator 3 that the search multiplies by |
| KoalaBear.OrderIsPrime | crates/hypercube/src/septic_extension.rs:623-630 | p is prime: if it divides a product it divides a factor |
| KoalaBear.EulerCriterion | crates/hypercube/src/septic_extension.rs:623-630 | x^((p-1)/2) is 1 exactly for non-zero squares, and -1 for non-squares |
| KoalaBear.ExpIsPow | crates/hypercube/src/septic_extension.rs:623-630 | square-and-multiply exponentiation is the repeated product |
| SepticProduct.Multiply | crates/hypercube/src/septic_extension.rs:307-325 | the two loops compute the product in the quotient ring, and the remainder of the thirteen-coefficient product |
| SepticProduct.FullProductValue | crates/hypercube/src/septic_extension.rs:312-317 | the schoolbook table has the value a * b modulo z^7 - 3z - 5 |
| SepticProduct.FoldIsRemainder | crates/hypercube/src/septic_extension.rs:318-323 | the reduction pass subtracts the top coefficients times z^7 - 3z - 5 |
| SepticProduct.FoldValue | crates/hypercube/src/septic_extension.rs:318-323 | one reduction pass keeps the value of any thirteen coefficients |
| SepticExtension.SepticIsRing | crates/hypercube/src/septic_extension.rs:247-325 | sum and product form a commutative, associative, distributive ring with unit and negatives |
| SepticTables.ZToTheP | crates/hypercube/src/septic_extension.rs:431-504 | the first table entry is z^p |
| SepticTables.PowersOfT1 | crates/hypercube/src/septic_extension.rs:431-504 | the table holds the powers of z^p |
| SepticTables.PowersOfU1 | crates/hypercube/src/septic_extension.rs:507-580 | the second table holds the powers of its first entry |
| Frobenius.FrobIsPow | crates/hypercube/src/septic_extension.rs:583-593 | the table-driven map is the p-th power of every element |
| Frobenius.FrobHom | crates/hypercube/src/septic_extension.rs:583-593 | it is additive, multiplicative and fixes the base field |
| Frobenius.DoubleFrob | crates/hypercube/src/septic_extension.rs:596-606 | `double_frobenius` is `frobenius` twice |
| Frobenius.SevenFrob | crates/hypercube/src/septic_extension.rs:583-606 | seven applications are the identity |
| Frobenius.FixedIsBase | crates/hypercube/src/septic_extension.rs:609-621 | only base field elements are fixed, so taking coefficient 0 of the norm loses nothing |
| SepticField.Conjugates | crates/hypercube/src/septic_extension.rs:609-614 | `pow_r_1` is the product of the six other conjugates in order, and a seventh step returns to a |
| SepticField.PowRIsBase | crates/hypercube/src/septic_extension.rs:609-621 | `pow_r_1(a) * a` lies in the base field |
| SepticField.NormNonZero | crates/hypercube/src/septic_extension.rs:617-621 | the norm vanishes exactly at zero |
| SepticField.Inv | crates/hypercube/src/septic_extension.rs:617-621 | a * inv(a) == 1 for every non-zero a |
| SepticField.TryInverse | crates/hypercube/src/septic_extension.rs:201-206 | none exactly at zero, otherwise an inverse |
| SepticField.NoZeroDivisors | crates/hypercube/src/septic_extension.rs:201-206 | the extension is a field |
| Cipolla.ExtIsRing | crates/hypercube/src/septic_extension.rs:724-728 | `mul_ext` makes pairs a commutative ring for every non-residue parameter, zero included |
| Cipolla.PowExt | crates/hypercube/src/septic_extension.rs:731-743 | the bit loop computes the power |
| Cipolla.CipollaRoot | crates/hypercube/src/septic_extension.rs:670-680 | the real part of the half power squares to base, also when a^2 - base is zero |
| SquareRoot.SquareTestExact | crates/hypercube/src/septic_extension.rs:623-630 | `is_square` accepts exactly the non-zero squares |
| SquareRoot.HalfExponent | crates/hypercube/src/septic_extension.rs:647-654 | the 1..30 loop builds n^((p+1)/2) |
| SquareRoot.DenominatorSquared | crates/hypercube/src/septic_extension.rs:656-662 | the product of Frobenius images squares to the norm times n |
| SquareRoot.FindNonResidue | crates/hypercube/src/septic_extension.rs:664-673 | the search stops within (p-1)/2 steps at a power of the generator with a^2 - base zero or a non-residue |
| SquareRoot.Sqrt | crates/hypercube/src/septic_extension.rs:634-682 | returns a root exactly when n is a square, and it squares to n |
| HashToCurve.RangesPartition | crates/hypercube/src/septic_extension.rs:685-706 | receive, send and exception partition all y, and negation swaps receive with send |
| HashToCurve.TrialWords | crates/hypercube/src/septic_curve.rs:127-144 | the first trial is the message and eight zeros; each further offset adds 2^16 to word 7 and changes nothing else |
| HashToCurve.TrialInjective | crates/hypercube/src/septic_curve.rs:126-144 | trials at the same offset differ for different messages, and the 256 trials of a message differ |
| HashToCurve.LiftX | crates/hypercube/src/septic_curve.rs:124-164 | for every permutation: the x-coordinate is the first seven words of the hash of the trial, the lifted point is on the curve with the only root in the receive range, from 1 to 63 * 2^24 in its last coefficient, every smaller offset was rejected for lack of an unexceptional root, and a panic means all 256 were |
| SepticCurve.AddOnCurve | crates/hypercube/src/septic_curve.rs:58-64 | the incomplete sum of points on the curve is on the curve |
| SepticCurve.AddCommutes | crates/hypercube/src/septic_curve.rs:58-63 | incomplete addition is commutative |
| SepticCurve.SubUndoesAdd | crates/hypercube/src/septic_curve.rs:86-88 | (p + q) - q is p whenever no x-coordinates clash, on or off the curve |
| SepticCurve.NegOnCurve | crates/hypercube/src/septic_curve.rs:51-53 | a point is on the curve exactly when its negative is |
| SepticCurve.DoubleOnCurve | crates/hypercube/src/septic_curve.rs:75-81 | doubling stays on the curve when y is not zero |
| SepticCurve.DoubleIsChord | crates/hypercube/src/septic_curve.rs:75-81 | doubling is the chord construction with the tangent slope, which solves 2ys = 3x^2 + 45 |
| SepticCurve.CheckerX | crates/hypercube/src/septic_curve.rs:170-177 | zero exactly when p3 has the x-coordinate of the sum |
| SepticCurve.CheckerYExact | crates/hypercube/src/septic_curve.rs:179-188 | singles out the y-coordinate of the sum exactly when p3 has its x-coordinate or the line is level |
| SepticCurve.CheckerYFails | crates/hypercube/src/septic_curve.rs:179-188 | on every other line it accepts a point with another y-coordinate |
| SepticCurve.CheckersExact | crates/hypercube/src/septic_curve.rs:170-188 | both are zero exactly when p3 is the sum |
| SepticCurve.CompleteAddition | crates/hypercube/src/septic_curve.rs:212-231 | closed, commutative, with Infinity as identity; undefined exactly when a point with y = 0 is doubled; Infinity exactly on opposite points |
| SepticCurve.CompleteSum | crates/hypercube/src/septic_curve.rs:219-227 | the sum of points with different x-coordinates is the point that both checkers accept; that of a point with itself is the chord of a slope with 2ys = 3x^2 + 45 |
| SepticCurve.CompleteCancels | crates/hypercube/src/septic_curve.rs:212-231 | (a + b) + (-b) is a for all points of the curve, with tangents and Infinity, undefined exactly when it doubles a point with y = 0 |
| SepticDigest.ZeroOnCurve | crates/hypercube/src/septic_digest.rs:10-48 | the zero digest is on the curve |
| SepticDigest.StartOnCurve | crates/hypercube/src/septic_digest.rs:10-57 | the starting digest is on the curve |
| SepticDigest.DummyOnCurve | crates/hypercube/src/septic_curve.rs:22-42 | the padding point is on the curve |
| SepticDigest.CheckerYFailsOnDigests | crates/hypercube/src/septic_curve.rs:179-188 | a failing case of the y checker on two curve points of the program |
| SepticDigest.ZeroIsIdentity | crates/hypercube/src/septic_digest.rs:67-89 | the zero digest is a left and right identity of `checked_add` |
| SepticDigest.ZeroExact | crates/hypercube/src/septic_digest.rs:67-89 | exactly for which digests adding zero succeeds, the same on both sides: those that meet no equal x-coordinates with the start point and the zero digest |
| SepticDigest.ZerosAddUp | crates/hypercube/src/septic_digest.rs:67-89 | any number of zero digests adds up to zero, so sums that succeed exist |
| SepticDigest.CheckedAddOnCurve | crates/hypercube/src/septic_digest.rs:67-89 | `checked_add` keeps digests on the curve |
| SepticDigest.AddDigests | crates/hypercube/src/septic_digest.rs:92-107 | `add` divides by zero exactly where `checked_add` is none, and otherwise agrees with it; CheckedAddMeaning says what that value is |
| SepticDigest.Sum | crates/hypercube/src/septic_digest.rs:109-124 | the accumulating loop is the blinded fold, none where it would divide by zero; SumOfFew and SumWithoutLast say what its value is |
| SepticDigest.Reblind | crates/hypercube/src/septic_digest.rs:67-89 | removing the blinding and blinding again gives the accumulator back |
| SepticDigest.CheckedAddIsSum | crates/hypercube/src/septic_digest.rs:67-124 | `checked_add` is the sum of two |
| SepticDigest.AbsorbUndone | crates/hypercube/src/septic_digest.rs:115-119 | an absorbed digest can be taken away again: adding the zero digest gives acc + d, and subtracting d gives acc |
| SepticDigest.CheckedAddMeaning | crates/hypercube/src/septic_digest.rs:67-89 | for r = `checked_add`(a, b): start + r = (start + a - zero) + b on the curve, and subtracting b leaves the blinded a |
| SepticDigest.SumOfFew | crates/hypercube/src/septic_digest.rs:109-124 | the empty sum is the zero digest and the sum of one digest is that digest |
| SepticDigest.SumWithoutLast | crates/hypercube/src/septic_digest.rs:109-124 | taking the last digest away from a sum, on the curve, leaves the sum of the others |
| SepticDigest.RunningExact | crates/prover/src/verify.rs:498-514 | the loop succeeds exactly when the sum of every prefix exists and each but the last can be blinded again |
| SepticDigest.RunningIsSum | crates/prover/src/verify.rs:498-514 | if every `checked_add` of the verifier's loop succeeds, the total is `sum` of all digests, which divides by zero nowhere |
| CoreVerifier.Verify | crates/prover/src/verify.rs:109-528 | the loops return the verdict of the passes in order, with the first error |
| CoreVerifier.PassesAreOneRun | crates/prover/src/verify.rs:129-514 | the separate passes accept exactly when one left-to-right machine does |
| CoreVerifier.RunAppend | crates/prover/src/verify.rs:129-514 | a longer proof continues from the state where a prefix ended |
| CoreVerifier.VerifyExact | crates/prover/src/verify.rs:109-528 | accepts exactly the contiguous, halted executions with one first shard, one nonce, committed digests, valid shard proofs and global sum zero |
| VerifierErrors.ErrorIsFirstFault | crates/prover/src/verify.rs:109-528 | accepts exactly the lists without a fault, and rejects with the error of the first fault by pass, then shard, then check, where each of the 33 faults is a condition on the public values |
| CoreVerifier.FlagMeaning | crates/prover/src/verify.rs:129-156 | the flag pass accepts exactly lists with one flagged shard and zeros elsewhere |
| CoreVerifier.ChainMeaning | crates/prover/src/verify.rs:158-496 | the chained passes accept exactly when every shard begins where the last one ended and meets its local conditions |
| CoreVerifier.ExitCodePersists | crates/prover/src/verify.rs:255-294 | a non-zero exit code persists to the end |
| CoreVerifier.IdleShardsDrop | crates/prover/src/verify.rs:158-294 | dropping all non-execution shards keeps the timestamp, program counter and exit code chains and their end points |
| CoreVerifier.Accepted | crates/prover/src/verify.rs:109-528 | in an accepted list `is_execution_shard` is boolean and one exactly when the timestamp changes, the executing shards lead to the final timestamp and exit code, and the digest sum is the zero digest |
| CoreVerifier.FlagMarksFirstExecution | crates/core/executor/src/record.rs:1347-1384 | if shard proofs enforce the public value constraints, in every accepted list a shard carries the flag exactly when it executes and all earlier ones are idle; the first shard executes exactly when it carries the flag, and exactly when it leaves the first timestamp |
| CoreVerifier.CommittedDigestsAreFinal | crates/core/executor/src/record.rs:1461-1593 | and a digest that a shard has committed, or that is not zero, is the one the last shard carries |
| CoreVerifier.IdleFirstAccepted | crates/prover/src/verify.rs:158-199 | an accepted list, allowed by the public value constraints, that begins with an idle, unflagged shard |
| CoreVerifier.SomeProofAccepted | crates/prover/src/verify.rs:109-528 | a concrete list that meets all conditions and the public value constraints, so acceptance is not vacuous |
| ArtifactInstaller.MarkedIsComplete | crates/prover/src/build.rs:501-516 | at every point of every run a marked directory holds exactly one full extraction |
| ArtifactInstaller.MarkedIsForever | crates/prover/src/build.rs:593-637 | once marked the directory never changes |
| ArtifactInstaller.OkMeansInstalled | crates/prover/src/build.rs:593-637 | a publish that returned Ok left it marked |
| ArtifactInstaller.MutualExclusion | crates/prover/src/build.rs:600-613 | at most one installer is inside the locked section |
| ArtifactInstaller.FallbackIsDead | crates/prover/src/build.rs:624-633 | after a failed rename the marker is absent, so the failure is always reported |
| ArtifactInstaller.StagingLeftBehind | crates/prover/src/build.rs:623-637 | an installer that returned left its staging directory behind exactly when removing it after a failed rename failed too, and then it returned an error |
| ArtifactInstaller.NoDeadlock | crates/prover/src/build.rs:501-637 | while an installer is active, it or the lock holder can take a step without failure |
| ArtifactInstaller.GoodRunInstalls | crates/prover/src/build.rs:501-637 | steps without failures are bounded in number, and when none is left every installer that had not failed returned Ok and the artifacts are installed |
| ProofIndex.TrackExact | crates/prover-types/src/artifacts.rs:349-354 | tracking keeps the maps inverse exactly when the artifact is not tracked for another proof |
| ProofIndex.TrackTwiceBreaks | crates/prover-types/src/artifacts.rs:349-354 | a concrete run that breaks the index |
| ProofIndex.UntrackKeeps | crates/prover-types/src/artifacts.rs:356-367 | untracking removes exactly that artifact and leaves no empty set |
| ProofIndex.TakeKeeps | crates/prover-types/src/artifacts.rs:369-378 | taking removes and returns exactly the artifacts of the proof |
| ProofIndex.RunExact | crates/prover-types/src/artifacts.rs:349-378 | the maps stay inverse throughout a run exactly when no live artifact is tracked for another proof |
| ProofIndex.RunMeaning | crates/prover-types/src/artifacts.rs:349-378 | after such a run an artifact belongs to a proof exactly when it was tracked for it and neither untracked nor taken since |
| ProofIndex.TakeReturnsLeaked | crates/prover-types/src/artifacts.rs:369-378 | `take` returns exactly what the proof leaked |
| ProofIndex.LenIsSumOfSets | crates/prover-types/src/artifacts.rs:380-383 | `len` is the sum of the set sizes |
| ProofIndex.ProofArtifacts.TrackArtifact | crates/prover-types/src/artifacts.rs:349-354 | the in-place update of both maps is `Track` |
| ProofIndex.ProofArtifacts.UntrackArtifact | crates/prover-types/src/artifacts.rs:356-367 | the in-place update of both maps is `Untrack` |
| ProofIndex.ProofArtifacts.TakeProof | crates/prover-types/src/artifacts.rs:369-378 | returns the proof's set and leaves `Take` |
| ProofIndex.ProofArtifacts.Len | crates/prover-types/src/artifacts.rs:380-383 | the size of one map is the sum of the sets of the other |
| ArtifactStore.UntrackAllKeeps | crates/prover-types/src/artifacts.rs:462-480 | a batch leaves in the index exactly the artifacts outside it |
| ArtifactStore.Client.Delete | crates/prover-types/src/artifacts.rs:456-460 | bytes and index entry go together |
| ArtifactStore.Client.DeleteBatch | crates/prover-types/src/artifacts.rs:462-480 | all bytes and all index entries of the batch go, nothing else |
| ArtifactStore.Client.AddRef | crates/prover-types/src/artifacts.rs:482-490 | the task joins the artifact's references |
| ArtifactStore.Client.RemoveRef | crates/prover-types/src/artifacts.rs:492-509 | true exactly when no other task refers to the artifact, which is then deleted everywhere |
| ArtifactRefs.StoredUntilLast | crates/prover-types/src/artifacts.rs:492-509 | in every interleaving the artifact is stored exactly until the deletion of a call that returns true |
| ArtifactRefs.StoredWhileHeld | crates/prover-types/src/artifacts.rs:482-509 | in every run whose references are added before any removal or while the refs entry names a task, a held reference keeps the artifact stored |
| ArtifactRefs.ExactlyOneTrue | crates/prover-types/src/artifacts.rs:492-509 | when the holders have removed all references exactly one call returned true and the artifact is gone, unless it was never referred to |
| ArtifactRefs.AddRefExact | crates/prover-types/src/artifacts.rs:482-509 | in every run a reference protects the artifact exactly when no removal has counted zero; if all earlier references met the visible condition, exactly when this one meets it |
| ArtifactRefs.RunExact | crates/prover-types/src/artifacts.rs:482-509 | in every run all references protected the artifact exactly when each was added before any removal was started or while the refs entry named a task |
| ArtifactRefs.LateRun | crates/prover-types/src/artifacts.rs:482-509 | a run from a fresh artifact in which a reference is added after a removal has counted zero |
| ArtifactRefs.LateReferenceLost | crates/prover-types/src/artifacts.rs:492-509 | its continuation, after which the task holds a reference to nothing |
| ArtifactRefs.EntryMisleads | crates/prover-types/src/artifacts.rs:482-509 | after that late reference the refs entry names a task, and a further reference is not protected |
| Shapes.CreateAllInputShapes | crates/prover/src/shapes.rs:702-740 | the loop nest produces the specified list |
| Shapes.ShapeEnumerated | crates/prover/src/shapes.rs:697-755 | exactly which shapes are on the list |
| Shapes.ShapeAt | crates/prover/src/shapes.rs:702-740 | the position of every shape on the list, which is what indices refer to, and its length: 5808 per cluster, one per arity, and two |
| Shapes.EveryAreaCovered | crates/prover/src/shapes.rs:697-755 | every pair of areas within the element threshold rounds up, with the padding of `dummy_input`, to a listed shape, for every cluster |
| Shapes.NoDuplicates | crates/prover/src/shapes.rs:702-740 | no shape is listed twice exactly when no cluster is |
| Shapes.PaddingInRange | crates/prover/src/shapes.rs:381-395 | the padding of `dummy_input` is between 1 and div_ceil(stack, rows), reaches the next multiple, and is the least that does |
| Pipeline.EveryScheduleCompletes | crates/prover/src/shapes.rs:489-694 | every schedule ends within 8n + 1 + 2(c + s) steps, stops only when all workers left, and then keys and panics together are the selected indices, counted; AnswersFollowEvents says which are which |
| Pipeline.AnswersFollowEvents | crates/prover/src/shapes.rs:522-674 | in every run the panics are exactly the indices whose compilation panicked and the keys exactly those set up, in the order of the run; when it has finished, every selected index was tried in order, the keys are the compiled ones in order, and all selected ones if none panicked |
| Pipeline.KeysAscend | crates/prover/src/shapes.rs:489-674 | at every point of every run the keys have arrived in ascending order of their indices, whatever the number of workers |
| Pipeline.Progress | crates/prover/src/shapes.rs:513-674 | until all work is done some step is enabled |
| Pipeline.RunKeeps | crates/prover/src/shapes.rs:489-694 | along every run no index is lost or duplicated, and the steps left decrease |
| Pipeline.AnsweredOnce | crates/prover/src/shapes.rs:658-694 | each selected index is a key or a panic, never both and never twice, according to the outcome of its compilation, and no other index is |
| Pipeline.OneAtATime | crates/prover/src/shapes.rs:522-656 | two workers of a kind never work at once |
| Pipeline.CollectKeys | crates/prover/src/shapes.rs:676-679 | the final loop keeps every key |
| Polynomials.Equals | crates/primitives/src/polynomial.rs:241-261 | compares coefficients with missing ones counted as zero, an equivalence |
| Polynomials.SameEval | crates/primitives/src/polynomial.rs:241-261 | equal polynomials have equal values |
| Polynomials.EvalGenerators | crates/primitives/src/polynomial.rs:52-58 | constants and X have their own values, which with sums and products determines `eval` |
| Polynomials.EvalPlus | crates/primitives/src/polynomial.rs:93-107 | the value of a sum is the sum of the values, in every extension |
| Polynomials.EvalMinus | crates/primitives/src/polynomial.rs:179-195 | the same for differences |
| Polynomials.Multiply | crates/primitives/src/polynomial.rs:211-223 | the in-place loops compute the convolution |
| Polynomials.EvalProduct | crates/primitives/src/polynomial.rs:197-223 | the value of a product is the product of the values |
| Polynomials.RootQuotient | crates/primitives/src/polynomial.rs:62-76 | (X - r) times the quotient equals p exactly when r is a root, for every non-empty p |
| Folders.FoldersAgree | crates/hypercube/src/folder.rs:319-322 | indexed and Horner folding agree on all n constraints exactly when the table is the descending powers |
| Folders.VerifierFolder.AssertZero | crates/hypercube/src/folder.rs:85-89 | keeps the accumulator equal to Horner's rule over all constraints asserted |
| Folders.SumcheckFolder.AssertZero | crates/hypercube/src/folder.rs:319-322 | keeps it equal to the sum with indexed powers |
| Folders.PublicValuesFolder.Send | crates/hypercube/src/folder.rs:619-628 | adds the fraction of the message and keeps the digest equal to that of the trace; fails exactly on too few betas or a denominator without inverse; FractionOfValues and FractionTimes say what the fraction is |
| Folders.PublicValuesFolder.Receive | crates/hypercube/src/folder.rs:630-639 | the same with the fraction subtracted |
| Folders.FractionOfValues | crates/hypercube/src/folder.rs:619-639 | what one interaction adds: the multiplicity over alpha + betas[0] * kind if all values are zero, and over a denominator larger by d * betas[j + 1] if value j is raised by d |
| Folders.FractionTimes | crates/hypercube/src/folder.rs:626-637 | with a true inverse, the fraction times its denominator is the multiplicity |
| Folders.DebugFolder.Send | crates/hypercube/src/folder.rs:901-903 | keeps the records equal to those of the trace |
| Folders.DebugFolder.Receive | crates/hypercube/src/folder.rs:905-907 | keeps the records, with negated multiplicity |
| Folders.DigestFromRecords | crates/hypercube/src/folder.rs:619-639 | the digest is the sum of fractions over the debug folder's records |
| Folders.DigestBalance | crates/hypercube/src/folder.rs:619-639 | the digest is what was sent less what was received |
| Folders.BalancedUnchanged | crates/hypercube/src/folder.rs:619-639 | equal multisets of sends and receives leave the digest unchanged |
| Folders.NetUnchanged | crates/hypercube/src/folder.rs:619-639 | so do sends and receives whose multiplicities add up to the same for every kind and values |
| ScalarMul.BitsLe | crates/curves/src/utils.rs:3-14 | the bits stand for the integer modulo 2^num_bits |
| ScalarMul.BytesFit | crates/curves/src/utils.rs:11 | for a width of whole bytes the debug assertion holds exactly for the integers that fit |
| ScalarMul.DoubleAndAdd | crates/curves/src/scalar_mul.rs:14-19 | the loop fails exactly when a doubling or accumulation it meets is undefined, the last doubling included, or no bit is set and there is no neutral element; otherwise it gives the multiple |
| ScalarMul.ScalarMultiply | crates/curves/src/scalar_mul.rs:8-22 | the same for scalar mod 2^bits with doubling by addition; always a failure when equal points cannot be added |
| ScalarMul.SwScalarMultiply | crates/curves/src/weierstrass/mod.rs:143-156 | the same with a doubling formula of its own |
| ScalarMul.TotalAgrees | crates/curves/src/edwards/mod.rs:93-108 | a total associative addition gives the k-fold sum, and fails only at k = 0 without a neutral element |
| ScalarMul.CyclicAgrees | crates/curves/src/weierstrass/mod.rs:190-205 | addition on a point of order q, undefined at infinity, agrees with the multiples of the point |
| ScalarMul.CyclicDefined | crates/curves/src/weierstrass/mod.rs:224-239 | for such a point the call succeeds exactly when k is not zero and no power of two up to 2^bits and no sum of the bits up to a set one is a multiple of q |

## Left out

- The Poseidon2 permutation, `verify_shard`, compiling a program and setting up its key are parameters or nondeterministic steps.
- The base field's own implementation (Montgomery form) is in another package; residues below p are used instead.
- Associativity of the curve group and independence of digest sums from their order are not needed by any of the results.
- The pass of `verify` that exists only with the `mprotect` feature compares three values with the key, shard by shard.
- `verify_compressed`, `verify_shrink`, the wrap and SNARK checks are short sequences of checks around other packages.
- Downloading and extracting circuit artifacts is one step per file that may fail; what is in the archive is not modelled.
- ArtifactInstaller.StagingLeftBehind: dropping the handle of a staging directory is taken to delete it; the source ignores errors of that deletion.
- ArtifactRefs.ExactlyOneTrue: asks that only holders remove references, since a `remove_ref` that finds no entry returns true as well.
- CoreVerifier.FlagMarksFirstExecution: that a verified shard proof enforces the public value constraints is a hypothesis, since `verify_shard` is a parameter.
- Pipeline: setup tasks that panic are not modelled; the source then panics as a whole.
- Polynomials.RootQuotient: the empty polynomial and r = 0 are excluded, because the source panics on them.
- Folders.SumcheckFolder.AssertZero: one constraint more than the table has powers is excluded, because the source panics on it.
- ScalarMul.DoubleAndAdd: the multiples of the point are a parameter that the operations must agree with where the loop meets them; `sw_add` of opposite points does not agree, as it returns a point that need not be on the curve.
- ScalarMul.BitsLe: describes a build without debug assertions, which cuts an integer that does not fit.
- In-place variants of the field operations (`add_assign` and the like) compute the same values as the modelled ones.
- Word, byte and limb conversions, FRI parameters, the CUDA client, the SDK and the command line tools.
