# SP1: a verified model of the prover's reducer, field arithmetic and shard verifier

This project models, in Dafny, four parts of SP1 and proves what they promise.

**The recursion-tree reducer.** `CompressTree` turns first-layer proofs that finish in any order into one
proof. It keeps a map of contiguous runs, merges an arriving proof with its neighbours, cuts off what exceeds
a batch and submits full batches to workers whose results come back later. The tokio channels and worker
queues become a multiset of in-flight proofs from which any one may be delivered next. Proofs are kept as the
tree of compressions that made them, so "what a proof attests" is its list of leaves. `Segments` describes the
reducer as one ordered list of parked and in-flight segments, `ReducerRuns` proves safety, conservation and
termination of every run of that list, and `CompressTree` shows that the map-based, in-place code computes
exactly those steps. Labels are not what a proof covers: cutting a run relabels by number of proofs.
`SplitLabelExample` is a run that submits shards 0, 1 and 2 under the label `0..2`, and `SplitLabelIff` says, for every
state of every run, exactly when label and coverage agree.

**Septic field and curve arithmetic.** The extension `F_p[z]/(z^7 - 3z - 5)` with p = 2^31 - 2^24 + 1 is built
from the integers up. Nothing about it is taken on trust: that 3 generates the multiplicative group of F_p, that
the source's two tables are powers of z, that the table-driven maps are the p-th power and its square, that the
map has order seven and fixed field F_p, and that the extension is a field are all proved, so inversion, the
square test and the square root (exponent chain, norm and Cipolla's algorithm, with termination of the
non-residue search) are unconditional. The generator 3 comes from the field crate, which is not part of this
repository; the square root is proved for any generator. Results are stated for a record `Arith` of operations
with the properties in `Koala`; `SourceIsKoala` proves that the source's operations have them. The record keeps
large numerals and modular arithmetic out of the algebraic proofs.

On top of it, curve addition, doubling, the sum checkers and complete addition are proved over any field, and the
digest sums over the curve's group. **The one fact about the curve taken as a hypothesis is that its addition is associative**
(`Digest.Associative`); closure, commutativity, identity and inverses are proved.

**The shard-chain verifier.** The separate passes of `SP1Prover::verify` are written as loops with their error
results and proved to accept exactly the lists accepted by one left-to-right state machine, which are exactly the
lists whose shards are linked, each value starting where the shard before left it (`ShardLinks`). A refused list is
refused for its first fault. `verify_shard` is an uninterpreted predicate on shard proofs.

**Polynomials, constraint folding and small algorithms.** Polynomial arithmetic with the factor theorem, the two
constraint folds, the maximal-shape list and double-and-add. The LogUp digest is proved zero for balanced operations
and, for all others, zero for few challenges: few offsets by partial fractions, few seeds of the Lagrange weights by
counting the zeros of a multilinear form. The trait's `scalar_mul` doubles with the curve's addition, which on the
generic Weierstrass curves refuses equal points, so there it always panics; `SwProductPanics` states this and
`ProductMeans` says exactly when a product panics in general.

Panics and out-of-range indexing of the source are modelled as `None`, except where a method's `requires` says
what the source demands of its caller. Integers are unbounded; field elements are naturals below p and every
reduction is written out.

## Model

| member | source | states |
|---|---|---|
| `Segments.DeliverKeepsInv` | crates/prover/src/local.rs:799-857 | Delivering any in-flight proof keeps the invariant: labels tile the range, the shards attested in label order are unchanged, runs hold no more proofs than their label is wide, no two parked runs touch, parked runs are short and do not carry the full label |
| `Segments.InitialInv` | crates/prover/src/local.rs:312-325 | The first-layer proofs, labelled `i..i+1`, satisfy the invariant |
| `Segments.MergedFits` | crates/prover/src/local.rs:718-740 | A merged run fits its label, so the `min` in the split never bites, and exceeds the batch only when both neighbours were present |
| `Segments.SettleKeeps` | crates/prover/src/local.rs:829-848 | Splitting, submitting or parking a merged run keeps its span, its shards and the arity bound |
| `ReducerRuns.NotStuck` | crates/prover/src/local.rs:806-859 | Before the result arrives some proof is always in flight, so the `unreachable!` after the receive loop is not reached |
| `ReducerRuns.Conservation` | crates/prover/src/local.rs:829-856 | In every state the sum of (arity - 1) over the compressions done plus the proofs held is the number of shards |
| `ReducerRuns.FullLabelIffAllShards` | crates/prover/src/local.rs:746-748 | A label is the full range exactly when its proofs attest every shard, and exactly when nothing else is left |
| `ReducerRuns.SubmittedBatch` | crates/prover/src/local.rs:750-758 | Every submitted batch holds between 2 and the batch size and is flagged complete exactly when it attests every shard |
| `ReducerRuns.SubmitsIff` | crates/prover/src/local.rs:811-848 | A delivery submits exactly when the proof and its parked neighbours make a full batch or the whole range; it submits the first of them, in order, with their label |
| `ReducerRuns.SplitLabelIff` | crates/prover/src/local.rs:718-727 | In any state, a split batch is labelled with the shards it attests exactly when it attests one shard per proof and its label starts at the first of them |
| `ReducerRuns.SplitLabelExample` | crates/prover/src/local.rs:718-727 | A run from four inputs in batches of 2 that submits a batch labelled `0..2` attesting shards 0, 1 and 2 |
| `ReducerRuns.RunKeepsInv` | crates/prover/src/local.rs:799-857 | Every state of every run, for every number of inputs, batch size and delivery order, satisfies the invariant, and deliveries, in-flight proofs and compressions balance |
| `ReducerRuns.RunIsShort` | crates/prover/src/local.rs:806-856 | Every run ends within 2n - 2 deliveries before the finished proof |
| `ReducerRuns.RunReturns` | crates/prover/src/local.rs:806-809 | When the finished proof is delivered nothing else is left, it attests shards 0..n-1 in order, its arities are within the batch size and its compressions have total (arity - 1) equal to n - 1 |
| `ReducerRuns.ExactlyOneComplete` | crates/prover/src/local.rs:750-758 | Of all the batches a finished run of at least two inputs submits, exactly the last is flagged complete and it makes the returned proof; `ExactlyOneFlag` covers every run |
| `ParkedRuns.LeftLookup` | crates/prover/src/local.rs:775-780 | The nearest entry below a label is its left neighbour exactly when it ends there |
| `ParkedRuns.RightLookup` | crates/prover/src/local.rs:790-793 | The entry stored at a label's end is its right neighbour |
| `ParkedRuns.AcceptSplices` | crates/prover/src/local.rs:811-856 | Taking out the neighbours and parking the rest turns the stored map into the map of the delivered list |
| `InFlight.FlyingAfter` | crates/prover/src/local.rs:839-845 | A delivery removes the delivered message and adds the result of what was submitted, nothing else |
| `InFlight.Finished` | crates/prover/src/local.rs:807-809 | When the finished proof is delivered the map is empty and nothing else is on its way |
| `CompressTree.Settled` | crates/prover/src/local.rs:829-848 | Split, then submit or park, is the abstract settling of a run |
| `CompressTree.RangeProofs.PushRight` | crates/prover/src/local.rs:706-710 | Puts a proof in front of the run and extends its label |
| `CompressTree.RangeProofs.PushLeft` | crates/prover/src/local.rs:712-716 | Puts a proof at the back of the run and extends its label |
| `CompressTree.RangeProofs.PushBoth` | crates/prover/src/local.rs:729-740 | Appends a proof and the run after it |
| `CompressTree.RangeProofs.SplitOff` | crates/prover/src/local.rs:718-727 | Cuts the run after a number of proofs and relabels both parts |
| `CompressTree.CompressTree.Insert` | crates/prover/src/local.rs:768-770 | Stores a run under its start |
| `CompressTree.CompressTree.NearestBelow` | crates/prover/src/local.rs:775 | The greatest key below a bound, if any |
| `CompressTree.CompressTree.TakeSibling` | crates/prover/src/local.rs:773-797 | Removes exactly the neighbours of a delivered proof, and says which there are |
| `CompressTree.CompressTree.Merge` | crates/prover/src/local.rs:813-827 | Joins a proof with its neighbours in order; the asserts in the push methods hold |
| `CompressTree.CompressTree.SettleRun` | crates/prover/src/local.rs:829-848 | The in-place code settles the merged run; the larger-than-batch panic is unreachable |
| `CompressTree.CompressTree.Accept` | crates/prover/src/local.rs:811-856 | Handling one proof takes the stored map to that of the delivered list and submits what it should |
| `CompressTree.CompressTree.ReduceProofs` | crates/prover/src/local.rs:799-860 | Whatever order proofs arrive in, the loop ends, performs a run from the inputs to one proof of exactly their shards in order with bounded arities, returns that proof, and leaves map and channel empty |
| `Compress.CompressAll` | crates/prover/src/local.rs:372-402 | The driver returns exactly when repeated halving of the batch size ends at 2, and then returns a proof of shards 0..n-1 that some run over the n inputs, in batches of the given size, ends in |
| `Compress.HalvesToTwoIff` | crates/prover/src/local.rs:375-394 | Halving ends at 2 exactly for sizes whose leading bits are 10 |
| `Compress.ChunksCover` | crates/prover/src/local.rs:628-660 | Inputs are cut into as few chunks of the batch size as hold them all |
| `Compress.CoreFlagIff` | crates/prover/src/local.rs:568-597 | The flag given to the core witnesses marks a lone first-layer proof for every input exactly when inputs are not batched |
| `Compress.ExactlyOneFlag` | crates/prover/src/local.rs:568-597 | With unbatched inputs, of all core and compress witnesses of any finished run exactly one is flagged complete and it makes the returned proof: the lone core witness of a run of one input, which submits nothing, and otherwise the last compress batch |
| `Compress.ComposePrograms` | crates/prover/src/recursion.rs:193-209 | Built at start-up, the table holds for each arity up to the maximum, and no other, the program built for it; otherwise it is empty |
| `Compress.LookupSucceeds` | crates/prover/src/recursion.rs:430-436 | Whatever any round submits, the table for the maximal arity holds the program built for the batch's arity exactly when it was built at start-up |
| `KoalaBear.Generates` | crates/hypercube/src/septic_extension.rs:667-674 | Every nonzero element of F_p is a power of 3 |
| `KoalaBear.Fermat` | crates/hypercube/src/septic_extension.rs:623-630 | Nonzero elements have order dividing p - 1 |
| `Binomial.PowPAdditive` | crates/hypercube/src/septic_extension.rs:583-594 | In characteristic p the p-th power is additive |
| `Septic.SepticIsRing` | crates/hypercube/src/septic_extension.rs:307-325 | Coefficient vectors with the source's operations form a commutative ring, over any commutative ring |
| `SepticMul.Convolve` | crates/hypercube/src/septic_extension.rs:312-317 | The double loop computes the thirteen cells of the convolution |
| `SepticMul.Multiply` | crates/hypercube/src/septic_extension.rs:311-324 | The loops over arrays compute the ring's product |
| `SepticRemainder.ProductIsRemainder` | crates/hypercube/src/septic_extension.rs:311-324 | The product is the remainder of the polynomial product by z^7 - 3z - 5, with the top six cells as quotient |
| `SepticRemainder.RemainderUnique` | crates/hypercube/src/septic_extension.rs:311-324 | Remainder of degree below seven and quotient are unique |
| `FrobeniusTables.ZToP` | crates/hypercube/src/septic_extension.rs:431-444 | The first table entry is z to the p |
| `FrobeniusTables.TablePowers` | crates/hypercube/src/septic_extension.rs:431-580 | The other entries of both tables are powers of their first |
| `FrobeniusImages.SecondTable` | crates/hypercube/src/septic_extension.rs:507-520 | The second table starts at the Frobenius image of the first |
| `FrobeniusMatrix.FixedIsBase` | crates/hypercube/src/septic_extension.rs:583-594 | A vector the Frobenius matrix fixes has only its constant coefficient |
| `SepticContext.SourceIsKoala` | crates/hypercube/src/septic_extension.rs:307-606 | The source's ring, scaling and two Frobenius maps have every property the theory uses |
| `SepticField.PhiIsFrob` | crates/hypercube/src/septic_extension.rs:583-594 | `frobenius` is the p-th power, for every element |
| `SepticField.Phi2IsFrobTwice` | crates/hypercube/src/septic_extension.rs:596-606 | `double_frobenius` is the p-th power applied twice |
| `SepticField.OrderSeven` | crates/hypercube/src/septic_extension.rs:583-594 | Seven applications of Frobenius give every element back |
| `SepticField.FixedField` | crates/hypercube/src/septic_extension.rs:583-594 | The fixed points of Frobenius are the base field |
| `SepticField.Invertible` | crates/hypercube/src/septic_extension.rs:198-206 | Every nonzero element has an inverse: the extension is a field |
| `SepticInverse.Exp` | crates/hypercube/src/septic_extension.rs:626-629 | Square-and-multiply is the power |
| `SepticInverse.PowRIsNorm` | crates/hypercube/src/septic_extension.rs:609-619 | `pow_r_1` times the element is the product of its seven conjugates |
| `SepticInverse.NormIsBase` | crates/hypercube/src/septic_extension.rs:617-621 | That product lies in the base field and is zero only for zero |
| `SepticInverse.InvCorrect` | crates/hypercube/src/septic_extension.rs:617-621 | The inversion is defined exactly off zero and multiplies with the element to one |
| `SepticInverse.SourceInverse` | crates/hypercube/src/septic_extension.rs:617-621 | The same for the source's own operations, with no hypothesis |
| `SepticInverse.SquaresPass` | crates/hypercube/src/septic_extension.rs:623-630 | Every nonzero square passes the test |
| `Cipolla.QuadIsRing` | crates/hypercube/src/septic_extension.rs:722-727 | `mul_ext` makes pairs a commutative ring for any parameter |
| `Cipolla.QuadPow` | crates/hypercube/src/septic_extension.rs:729-741 | The bit loop computes the power |
| `SepticSqrt.CipollaRoot` | crates/hypercube/src/septic_extension.rs:676-681 | The real part of the power is a root of the base, also when the search stopped at zero |
| `SepticSqrt.FindNonresidue` | crates/hypercube/src/septic_extension.rs:667-674 | The search ends, at an element that is not a nonzero residue |
| `SepticSqrt.HalfPower` | crates/hypercube/src/septic_extension.rs:647-654 | The twenty-nine squarings compute n^((p+1)/2) |
| `SepticSqrt.DenominatorSquared` | crates/hypercube/src/septic_extension.rs:656-663 | The square of the denominator is n times its norm |
| `SepticSqrt.Sqrt` | crates/hypercube/src/septic_extension.rs:634-682 | Sound and complete: a returned element squares to n, and nothing is returned exactly when no element does |
| `SepticSqrt.SourceSqrt` | crates/hypercube/src/septic_extension.rs:634-682 | The same for the source's own operations, with no hypothesis |
| `Curve.AddOnCurve` | crates/hypercube/src/septic_curve.rs:58-63 | Adding curve points with different abscissas stays on the curve, over any field |
| `Curve.DoubleOnCurve` | crates/hypercube/src/septic_curve.rs:75-81 | Doubling stays on the curve when the doubled ordinate is nonzero |
| `Curve.AddEquations` | crates/hypercube/src/septic_curve.rs:58-63 | The sum is the reflected third point of the chord, as equations without division |
| `Curve.DoubleEquations` | crates/hypercube/src/septic_curve.rs:75-81 | The double is the reflected third point of the tangent, likewise |
| `Curve.CheckersIff` | crates/hypercube/src/septic_curve.rs:170-188 | Both checkers vanish exactly for the sum of points with different abscissas, or for any third point when the two summands coincide |
| `Curve.CompleteAddIff` | crates/hypercube/src/septic_curve.rs:212-231 | Complete addition is the group operation except that it panics exactly on doubling a point whose doubled ordinate is zero; members stay members |
| `Curve.PlusMinus` | crates/hypercube/src/septic_curve.rs:50-53 | A point and its negative add up to infinity |
| `Curve.PlusCommutes` | crates/hypercube/src/septic_curve.rs:212-231 | Addition is commutative |
| `Curve.SameAbscissaIff` | crates/hypercube/src/septic_curve.rs:58-63 | Points of the curve have the same abscissa, and cannot be added, exactly when they are equal or negatives |
| `SepticCurve.SourceIsField` | crates/hypercube/src/septic_extension.rs:414-421 | The source's division makes the extension a field |
| `SepticCurve.ConstantPoints` | crates/hypercube/src/septic_digest.rs:10-26 | The two digest constants and the padding point lie on y^2 = x^3 + 45x + 41z^3 |
| `SepticCurve.SourceFits` | crates/hypercube/src/septic_digest.rs:37-58 | The digest laws below hold for the source's curve and constants, given associativity |
| `SepticLift.SignsSplit` | crates/hypercube/src/septic_extension.rs:688-703 | Negation swaps sends and receives and every nonexceptional ordinate is exactly one of them |
| `SepticLift.LiftUnique` | crates/hypercube/src/septic_curve.rs:124-164 | An abscissa has at most one receive point, so the result does not depend on which root is found |
| `SepticLift.LiftOne` | crates/hypercube/src/septic_curve.rs:146-160 | One try finds the receive point above an abscissa, or there is none |
| `SepticLift.LiftX` | crates/hypercube/src/septic_curve.rs:124-164 | The search returns, for the least offset that has one, the curve point whose abscissa is the first seven hash elements and whose ordinate's last coefficient is in the lower half, with offset, input (the message with 65536 times the offset added to its last element, and zeros) and output; it fails exactly when none of the 256 has one |
| `SepticLift.LiftXUnique` | crates/hypercube/src/septic_curve.rs:124-164 | What the search may return is determined by the message, whichever square roots are found |
| `SepticLift.SourceLift` | crates/hypercube/src/septic_curve.rs:124-164 | The same for the source's own operations, with no hypothesis but that the permutation keeps sixteen elements |
| `Digest.SumValue` | crates/hypercube/src/septic_digest.rs:83-98 | `Sum` adds up the differences from the zero digest in the group; the start point cancels |
| `Digest.AddValue` | crates/hypercube/src/septic_digest.rs:67-80 | `+` adds the differences from the zero digest |
| `Digest.Sum` | crates/hypercube/src/septic_digest.rs:83-98 | The fold with its two final updates computes the modelled sum, panicking with it |
| `Digest.IterateIsSum` | crates/prover/src/verify.rs:394-402 | Adding shard sums one at a time to the key's is `Sum` over the whole list |
| `Digest.OrderIrrelevant` | crates/prover/src/verify.rs:394-402 | The total does not depend on the order of the shards |
| `Digest.ZeroIffBalanced` | crates/prover/src/verify.rs:403-406 | The total is the zero digest exactly when the differences add up to infinity |
| `DigestPanics.AddPanicsIff` | crates/hypercube/src/septic_digest.rs:67-80 | `+` panics exactly when one of its six partial sums in the group equals the next summand or its negative |
| `DigestPanics.SumPanicsIff` | crates/hypercube/src/septic_digest.rs:83-98 | `Sum` panics exactly when one of its partial sums does |
| `DigestPanics.IteratePanicsIff` | crates/prover/src/verify.rs:394-402 | The verifier's repeated addition panics exactly when one of its partial sums clashes with the next shard's |
| `ShardChain.FirstErrorDecides` | crates/prover/src/verify.rs:70-386 | Any pass reports an error exactly when some shard is the first to fail, with that error, or when no shard fails and the final check does |
| `ShardVerifier.CheckFirst` | crates/prover/src/verify.rs:70-91 | The loop over first-shard flags computes the pass of that name, error included |
| `ShardVerifier.CheckTimestamps` | crates/prover/src/verify.rs:105-129 | The loop over timestamps computes its pass, error included |
| `ShardVerifier.CheckPcs` | crates/prover/src/verify.rs:146-181 | The loop over program counters, with the halt check, computes its pass |
| `ShardVerifier.CheckExitCodes` | crates/prover/src/verify.rs:196-221 | The loop over exit codes computes its pass |
| `ShardVerifier.CheckNonces` | crates/prover/src/verify.rs:226-238 | The loop over nonces computes its pass |
| `ShardVerifier.CheckMemory` | crates/prover/src/verify.rs:259-304 | The loop over memory initialization and finalization, with its two final checks, computes its pass |
| `ShardVerifier.CheckCommitments` | crates/prover/src/verify.rs:343-386 | The loop over digests and commit syscalls, with its two final checks, computes its pass |
| `ShardVerifier.CheckSum` | crates/prover/src/verify.rs:394-406 | The loop over cumulative sums, with its panic, computes its pass |
| `ShardVerifier.Verify` | crates/prover/src/verify.rs:57-420 | The whole verifier accepts exactly the lists the machine accepts, which are the linked ones, and otherwise reports the first fault in the order of passes, shards and checks, then size, sum and shard proofs |
| `ShardLinks.AcceptedIff` | crates/prover/src/verify.rs:57-420 | A proof is accepted exactly when each linked value of each shard equals what the shard before it left, or the initial value, every shard keeps the rules on flags, clock, program counter, exit code, nonce and untrusted programs, the last shard ends well, the sums cancel and all shards verify |
| `ShardLinks.VerdictExplained` | crates/prover/src/verify.rs:70-420 | The error reported is the first fault: of the first pass that has one, at the first shard, by the first check |
| `ShardLinks.ExplainedOnce` | crates/prover/src/verify.rs:70-420 | That determines the outcome |
| `SourceVerifier.SourceVerify` | crates/prover/src/verify.rs:57-420 | The same with the source's curve, for which the sums must come to the zero digest of crates/hypercube/src/septic_digest.rs, given by its coordinates |
| `ShardMachine.ChecksIffStep` | crates/prover/src/verify.rs:70-374 | The checks of all passes on one shard are together one step of the machine |
| `ShardMachine.PassesIffRun` | crates/prover/src/verify.rs:64-386 | The separate passes accept a list exactly when the machine runs over it to a halted state |
| `ShardMachine.VerdictIff` | crates/prover/src/verify.rs:57-420 | The verifier accepts exactly when the machine halts, the sums cancel, the list is short enough and every shard proof is valid |
| `ShardMachine.AcceptedBalances` | crates/prover/src/verify.rs:393-406 | In an accepted list the shards' sums cancel the key's in the group |
| `ShardMachine.SumPassOrder` | crates/prover/src/verify.rs:393-406 | Rearranging the shards cannot change the outcome of the sum's pass unless it panics, and the exact condition for that |
| `ShardMachine.ExecutionFlag` | crates/prover/src/verify.rs:112-129 | In a run the execution flag is 0 or 1 and equals "the timestamp moved" |
| `ShardMachine.ExecutionsSuffice` | crates/prover/src/verify.rs:110-221 | Deleting the non-execution shards keeps the timestamp, program counter, halt and exit-code passes and the final exit code |
| `ShardMachine.AcceptedExecutions` | crates/prover/src/verify.rs:70-221 | The same for accepted lists, whose first shard is kept |
| `ShardMachine.ExitCodeLatches` | crates/prover/src/verify.rs:196-221 | Exit codes are zeros and then one constant; the last is the first nonzero one, or zero |
| `ShardMachine.CommitmentsLatch` | crates/prover/src/verify.rs:324-386 | Given the in-shard rules, the last digests equal those of every shard where they were nonzero or flagged as committed |
| `SdkVerify.SdkAccepts` | crates/sdk/src/prover.rs:150-187 | The SDK, which reads only the last shard, accepts exactly when the bundle's version is the circuit's, the proof is linked, the status is the wildcard or the first nonzero exit code of any shard, and byte 4i + j of a hash of the public values is the low byte of limb j of word i of the last digest |
| `SdkVerify.SdkRefuses` | crates/sdk/src/prover.rs:150-187 | Each refusal and its order: version, missing shard, exit code, digest, then the first fault of the proof |
| `SdkVerify.SdkDigests` | crates/sdk/src/prover.rs:166-182 | Given the in-shard rules, every digest any shard of an accepted proof committed to has those bytes |
| `Polynomial.EvalPowers` | crates/primitives/src/polynomial.rs:51-57 | The sum of powers times coefficients is Horner's evaluation |
| `Polynomial.EvalAdd` | crates/primitives/src/polynomial.rs:92-106 | Evaluation is additive for the zip-longest sum |
| `Polynomial.EvalSub` | crates/primitives/src/polynomial.rs:162-176 | Evaluation respects the zip-longest difference |
| `Polynomial.MulPoly` | crates/primitives/src/polynomial.rs:210-222 | The double loop gives exactly the convolution coefficients, and fails exactly on two empty lists |
| `Polynomial.EvalMul` | crates/primitives/src/polynomial.rs:210-222 | Evaluation turns products into products |
| `Polynomial.Equal` | crates/primitives/src/polynomial.rs:240-259 | The comparison decides equality up to trailing zeros |
| `Polynomial.SameIsEquivalence` | crates/primitives/src/polynomial.rs:240-259 | That equality is an equivalence |
| `Polynomial.SameRespected` | crates/primitives/src/polynomial.rs:92-259 | Sums, differences and products respect it |
| `Polynomial.RootQuotient` | crates/primitives/src/polynomial.rs:61-75 | The loop computes the quotient coefficients, and fails exactly on an empty list or a zero root |
| `Polynomial.FactorTheorem` | crates/primitives/src/polynomial.rs:61-75 | (X - r) times the quotient is the polynomial exactly when r is a root, for every nonempty list and nonzero r |
| `Polynomial.FewRoots` | crates/hypercube/src/folder.rs:91-95 | A coefficient list that is not all zeros has fewer roots than coefficients |
| `ConstraintFolder.HornerFolder.AssertZero` | crates/hypercube/src/folder.rs:91-95 | After each constraint the verifier's accumulator is the Horner fold of all constraints asserted so far, in order |
| `ConstraintFolder.HornerFolder.AssertAll` | crates/hypercube/src/folder.rs:91-95 | The same after a whole list |
| `ConstraintFolder.PowersFolder.AssertZero` | crates/hypercube/src/folder.rs:325-328 | After each constraint the prover's index counts, and its accumulator folds with the table, all constraints asserted so far, in order |
| `ConstraintFolder.PowersFolder.AssertAll` | crates/hypercube/src/folder.rs:325-328 | The same after a whole list |
| `ConstraintFolder.FoldBoth` | crates/hypercube/src/folder.rs:325-328 | With descending powers both folders end with the value at the challenge of the polynomial of the reversed constraints |
| `ConstraintFolder.FoldsAgree` | crates/hypercube/src/folder.rs:325-328 | With descending powers the prover's fold is the verifier's, for every list |
| `ConstraintFolder.FoldIsEval` | crates/hypercube/src/folder.rs:91-95 | The fold evaluates at the challenge the polynomial of the reversed constraints |
| `ConstraintFolder.FewBadChallenges` | crates/hypercube/src/folder.rs:91-95 | If one of n constraints is nonzero, at most n - 1 challenges fold the list to zero |
| `LogUp.DigestFolder.Send` | crates/hypercube/src/folder.rs:625-634 | Adds multiplicity over denominator, the loop over the message's components computing the denominator |
| `LogUp.DigestFolder.Receive` | crates/hypercube/src/folder.rs:636-645 | Subtracts multiplicity over denominator |
| `LogUpSoundness.DenominatorIsDot` | crates/hypercube/src/folder.rs:626-631 | The denominator is the offset plus the weighted sum of kind and values, in order |
| `LogUp.RunDigest` | crates/hypercube/src/folder.rs:625-645 | Over any operations, whatever their scopes, the digest is the sum of the signed fractions |
| `LogUp.RunLog` | crates/hypercube/src/folder.rs:907-913 | The debug folder logs every operation in order with its scope, receives with negated multiplicity |
| `LogUp.LogAgrees` | crates/hypercube/src/folder.rs:907-913 | The fractions of the debug log are the contributions to the digest |
| `LogUpSoundness.BalancedDigest` | crates/hypercube/src/folder.rs:625-645 | If every message, up to trailing zero values, is received as often as it is sent, the digest is zero for all challenges |
| `LogUpSoundness.FewOffsets` | crates/hypercube/src/folder.rs:625-645 | For weights under which some weighted sum carries a net multiplicity, fewer offsets than operations give digest zero |
| `LogUpSoundness.UnbalancedRarelyZero` | crates/hypercube/src/verifier/shard.rs:417-419 | If some message is not received as often as it is sent, then of the n^k seeds over n field elements all but at most (number of operations) k n^(k-1) give digest zero for fewer offsets than operations |
| `PartialFractions.FewZeros` | crates/hypercube/src/folder.rs:632-633 | A sum of fractions in which some shift has a net weight vanishes at fewer points than it has terms |
| `Multilinear.PartialLagrange` | slop/crates/multilinear/src/lagrange.rs:40-66 | The rounds compute the Lagrange weights of a point, one doubling of the list per coordinate |
| `Multilinear.LagrangeAt` | slop/crates/multilinear/src/lagrange.rs:68-75 | Weight i is the product of x where i has a one and 1 - x where it has a zero, highest bit first |
| `Multilinear.FewOrthogonal` | slop/crates/multilinear/src/lagrange.rs:68-75 | A list that is not all zeros is orthogonal to the weights of at most k n^(k-1) of the n^k points |
| `LogUp.BalancedIsZero` | crates/hypercube/src/folder.rs:625-645 | In any order, sends and receives of the same messages leave the digest at zero |
| `MaximalShapes.PartialCmp` | crates/hypercube/src/shape/mod.rs:148-198 | The two scans decide the order: below means a subset of the chips, nowhere higher and somewhere lower |
| `MaximalShapes.BelowIff` | crates/hypercube/src/shape/mod.rs:148-198 | A component-wise smaller shape compares as less exactly when some shared chip is strictly lower |
| `MaximalShapes.FewerChipsExample` | crates/hypercube/src/shape/mod.rs:148-198 | Two shapes that differ only in the chips they mention are incomparable |
| `MaximalShapes.MaximalList.Insert` | crates/prover/scripts/find_maximal_shapes.rs:71-88 | Leaves the list alone if the shape is covered, else drops the shapes below it and appends it |
| `MaximalShapes.MaximalList.InsertAll` | crates/prover/scripts/find_maximal_shapes.rs:187-191 | Inserting a list in place into an antichain leaves exactly the maximal shapes of everything, once each |
| `MaximalShapes.InsertedAntichain` | crates/prover/scripts/find_maximal_shapes.rs:71-88 | Insertion keeps the list an antichain: the early return skips no needed removal |
| `MaximalShapes.InsertedAllMaximal` | crates/prover/scripts/find_maximal_shapes.rs:187-191 | Any run of insertions from an antichain leaves exactly the maximal elements of everything, once each |
| `MaximalShapes.OrderIrrelevant` | crates/prover/scripts/find_maximal_shapes.rs:187-191 | The set kept does not depend on the order of insertion |
| `Bits.ToBitsLe` | crates/curves/src/utils.rs:3-14 | The given number of bits, whose value is the integer modulo that power of two |
| `ScalarMul.Multiply` | crates/curves/src/scalar_mul.rs:8-21 | The loop is the modelled product by the scalar cut to N bits, doubling by self-addition, for any partial addition; where adding the point to itself panics it panics, whatever the scalar |
| `ScalarMul.SwMultiply` | crates/curves/src/weierstrass/mod.rs:143-154 | The Weierstrass loop is the same product with its own doubling and no neutral point |
| `ScalarMul.ProductMeans` | crates/curves/src/scalar_mul.rs:8-21 | If the operations agree with an associative addition on the sums and doublings that are met, the product panics exactly when one of these is undefined, else fails exactly when the cut scalar is zero and there is no neutral point, else is the sum of that many copies of the point |
| `ScalarMul.DistinctMultiplesSuffice` | crates/curves/src/weierstrass/mod.rs:143-154 | If only equal points cannot be added and the first 2^N multiples differ, no product panics |
| `ScalarMul.SelfAdditionPanics` | crates/curves/src/scalar_mul.rs:14-19 | Where adding a point to itself panics, every product of it with at least one scalar bit panics, with no hypothesis on any group |
| `Weierstrass.SwProductPanics` | crates/curves/src/weierstrass/mod.rs:97-99 | So on the curves whose addition is `sw_add` the trait's product, with at least one scalar bit, panics for every modulus, point and scalar |
| `Weierstrass.SwAddPanicsIff` | crates/curves/src/weierstrass/mod.rs:265-291 | On reduced coordinates `sw_add` panics exactly on equal points, and its sum is reduced |
| `Weierstrass.SwAddIsChord` | crates/curves/src/weierstrass/mod.rs:265-291 | Modulo a prime, for different abscissas, the sum is the one reduced solution of the chord's two equations |
| `Weierstrass.SwDoubleIsTangent` | crates/curves/src/weierstrass/mod.rs:294-320 | Modulo a prime, for a nonzero doubled ordinate, the double is the one reduced solution of the tangent's two equations |
| `Weierstrass.SwAddOpposite` | crates/curves/src/weierstrass/mod.rs:277-289 | Different points with one abscissa are not refused: the affine point (-2x, -y) comes back |
| `PrimePowers.ModPow` | crates/curves/src/weierstrass/mod.rs:165-187 | The bit loop computes the modular power |
| `PrimePowers.PowerInverts` | crates/curves/src/weierstrass/mod.rs:281-282 | Modulo any prime m, the power m - 2 of a nonzero residue is its inverse |

## Left out

- Digest.Associative: associativity of curve addition is a hypothesis of the digest results, not proved.
- Tokio channels, worker queues, memory permits and spans: modelled only as "a submitted task's result is delivered later, in any order"; that workers do deliver is assumed.
- Shard-proof cryptography (`verify_shard`, challengers, Merkle openings, Poseidon2, SHA-256, Blake3): uninterpreted predicates and parameters.
- `F::inverse`, `exp_u64` and the generator come from the field crate, which is not part of this model; inversion is modelled as the power p - 2.
- SepticLift.LiftX: the permutation is a parameter, so nothing is said about how likely the 256 tries are to fail.
- Compress.ComposePrograms: takes the construction of one program as a parameter; the table of proving keys beside it is not modelled.
- SdkVerify.SdkAccepts: models the core arm only; the two hashes of the public values are parameters.
- ScalarMul.ProductMeans: that a curve's addition formulas agree with its group where they are met is a hypothesis.
- ScalarMul.SwMultiply: the debug assertion in the bit conversion is not modelled, only the resize.
- Weierstrass.SwAddPanicsIff: models the default arithmetic; the `bigint-rug` feature and the k256 addition of secp256k1 are not modelled.
- ShardMachine.CommitmentsLatch: the in-shard rules listed in the comments of verify.rs are a hypothesis, since they are constraints of the shard proof.
- Verification of compressed, wrapped and Groth16/Plonk proofs, recursion program building, vk-map building and shape files.
- crates/curves/src/polynomial.rs, which is not compiled, and the scalar forms of polynomial addition and multiplication.
- Cost tables, byte and word conversions, context builders and chip enumerations: they would add only easy members.
- CUDA, CLI, SDK network code, derive macros and build scripts.
