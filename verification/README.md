# PPSC verification

Dafny models of the parts of PPSC that do not depend on I/O, with proofs about them: secret-sharing
arithmetic and the MPC protocols built on it, the compiler and the manifest executor, the committee
daemon with its durable store, the two balance runtimes, and the storage workflow.
`dafny verify dfyconfig.toml` checks the whole project.

## How the model is laid out

- **Share arithmetic.** `Fields` is a field as a record of operations with its laws, `Sequences` the
  idea of a list without repetition. `Polynomials`,
  `Interpolation` and `Shamir` are proved once over any field; `PrimeField`/`DynamicField` (residues
  modulo a runtime prime, with the 64- and 128-bit words of the code) and `Gf256` (the byte field)
  are the two instances. `RingKeys` and `BfvShamir` share a BFV key residue by residue.
- **Committees.** `Sharings`, `Handoff`, `Circuits` and `Authentication` move and combine sharings;
  `HolderSets` and `Prss` generate the correlated masks; `Network`, `HandoffSession`,
  `HandoffRuntime` and `HandoffBatch` do the same by messages between nodes.
- **Comparison and transfer.** `Bits`, `Adder`, `Comparison` and `Transfer` follow the networked
  protocol; `LocalConversion` and `LocalComparison` follow its local twin, including the full-width
  comparison; `Backend` is the plaintext reference both are compared with.
- **Language.** `Language`, `Lexer`, `Parser`, `ParserCursor` and `Printable` read and print
  contracts; `Lowering` compiles them to `Manifests`; `Executor` runs manifests, and `Interpreter`
  says what the source means. `Preservation` connects the two, and `Operations` says what each
  operation does under its source name. `Plaintext` and `Soundness` are the development backend and
  the errors that remain possible on it; `StateStore`, `Deferred` and `Token` are about committing
  at the end.
- **Daemon.** `Text` and `Outbox` are the payload codec, `Daemon` one poll on the node database,
  `DaemonLaws` what a poll answers, `Pollers` the interleavings and crashes of any number of pollers.
- **Balances and storage.** `Balances` and `Tables` are the two balance runtimes, `BalanceLaws` what
  holds over every command sequence, `BalanceReports` what is answered and reported. `Workflow` and
  `StorageNetwork` are the stored fragments, `StorageLaws` what uploads and handoffs do to them,
  `WorkflowRuns` the event-driven handoff and compute loop, and `WorkflowAnswers` its answers.

Where the code works in place, the model does too (classes `Lowerer`, `TokenParser`, `Reader`,
`NodeDb`, `InMemoryManifestState`, `BalanceRuntime`, `PostgresBalanceRuntime`,
`InMemoryStorageNetwork`, `WorkflowRuntime`, `MemoryMailbox`, and the loops over arrays and lists):
each method is proved equal to a specification function, and the theorems are about those functions.

## What the proofs say about the code

Most properties hold as the code and its documentation promise them. These do not, and the model
states exactly when they do:

- **Full-width comparison.** `greater_than_or_equal` reads the top digit of `a - b` and is documented
  for all values below 2^(len-1), "less than half the field modulus" (comparison.rs:4-6). It answers
  correctly if and only if the difference stays on its side of the top digit; on the whole documented
  range that is so only for a modulus of 2^len - 1 (`LocalComparison.FullGeqExact`, `DocumentedRange`,
  `HalfModulusRange`, `WrongComparison`). The bounded comparison has no such gap.
- **Transfer to oneself.** All loads see the store before the invocation, and writes are committed at
  the end, so a token transfer to oneself creates the amount out of nothing (`Token.CompiledTransfer`).
  The total is kept if and only if the parties differ or nothing moves.
- **Identifiers across kinds.** The transition log has one unique key for deposits and withdrawals,
  the in-memory runtime keeps two separate sets, so a nullifier equal to a deposit id is accepted by
  one and refused by the other (`Tables.StepRefines`, `BalanceLaws.ClashExample`).
- **Versions.** The tables refuse versions of 2^63 and more, the in-memory runtime goes on to 2^64.
  Fewer than 2^63 commands that keep the two kinds of id apart get the same answers from both
  (`Tables.CommandsAgree`).
- **Byte-field committees.** Beyond 255 members the points of a byte-field committee repeat or become
  zero (`Gf256.GfPoints`); `Committee::new` does not refuse this.
- **Repeated nodes.** The one-shot handoff does not look at node identities; the multi-node run fails
  exactly when a node is listed twice on one side (`HandoffRuntime.RunRefinesHandoff`).
- **Insufficient balance.** The plaintext backend refuses to move more than the sender holds; the
  shared transfer wraps around the modulus (`Transfer.TransferRefines`). The sum is kept either way.
- **Partial uploads.** An upload stopped at a later node is not undone. It is whole or without effect
  if and only if it is refused before or at its first node, or no node is listed twice and none holds
  the id (`StorageLaws.UploadWhole`); a repeated node stops even the upload of a free id. Fragments
  go on agreeing if and only if the id was free, the first node refuses, or the upload repeats what
  is stored (`StorageLaws.UploadConsistent`), and over whole histories exactly when every upload and
  every output is like that (`WorkflowRuns.HistoryConsistent`).

## Model

| member | source | states |
|---|---|---|
| `Polynomials.RootBound` | crates/crypto/src/mpc/shamir.rs:3-5 | a polynomial with as many distinct roots as coefficients is zero everywhere, over any field: why t + 1 points fix a degree-t polynomial |
| `Polynomials.SamePolynomial` | crates/crypto/src/mpc/shamir.rs:3-5 | two coefficient lists of one length that agree on that many distinct points are equal |
| `Interpolation.RecoverAtZero` | crates/crypto/src/mpc/shamir.rs:175-185 | the nested loop computes the sum of Lagrange weights at zero times values |
| `Interpolation.RecoveryTheorem` | crates/crypto/src/mpc/shamir.rs:137-186 | for every polynomial with at most as many coefficients as there are distinct points, recovery from its values returns its value at zero |
| `Interpolation.PolyThrough` | crates/crypto/src/mpc/shamir.rs:3-5 | any values at distinct points lie on a polynomial with as many coefficients, and recovery returns that polynomial at zero |
| `Shamir.InterpolateLoop` | crates/crypto/src/mpc/shamir.rs:160-186 | the duplicate scan and the recovery loop: too few shares, a repeated point, or the recovered value, in that order of precedence |
| `Shamir.SplitIsSharing` | crates/crypto/src/mpc/shamir.rs:119-135 | what `split` deals is a degree-t sharing of the secret for every choice of coins; threshold 0 and n <= t are refused |
| `Shamir.OpenSharing` | crates/crypto/src/mpc/shamir.rs:137-158 | every sharing over distinct points opens to its secret, by shares and by parts |
| `Shamir.SecretUnique` | crates/crypto/src/mpc/shamir.rs:3-5 | one share list is a sharing of at most one secret when the degree is below the number of points |
| `Shamir.RoundTrip` | crates/crypto/src/mpc/shamir.rs:119-145 | for any list of share indices, in any order: fewer than t + 1 gives InsufficientShares, a repetition gives DuplicateShare, everything else gives back the secret that was split |
| `Shamir.Privacy` | crates/crypto/src/mpc/shamir.rs:3-5 | for every secret, any t share values at nonzero points arise from exactly one choice of the t coins |
| `PrimeField.EuclidCorrect` | crates/fhe/src/dynamic.rs:62-79 | from any state of the extended Euclid loop that satisfies its invariant, the loop ends with gcd 1 and a coefficient strictly between -q and q that inverts the value |
| `DynamicField.LoopStep` | crates/fhe/src/dynamic.rs:64-73 | one pass of the loop keeps the Bezout invariant, and coefficients and products never exceed q in magnitude, so i128 suffices |
| `PrimeField.EuclidExit` | crates/fhe/src/dynamic.rs:74-78 | when the remainder is used up, r is 1 and a single addition of q makes t a residue |
| `PrimeField.InverseCorrect` | crates/fhe/src/dynamic.rs:62-79 | for prime q and 0 < a < q the result is a residue whose product with a is 1 modulo q |
| `PrimeField.ZqLaws` | crates/fhe/src/dynamic.rs:42-83 | residues modulo a prime, with these operations and this inverse, satisfy all field laws |
| `PrimeField.ZqPoints` | crates/fhe/src/dynamic.rs:108-111 | the points 1..n are distinct and nonzero modulo q if and only if n < q |
| `DynamicField.DynField.New` | crates/fhe/src/dynamic.rs:18-24 | the stored value is the residue of the argument |
| `DynamicField.DynField.Add` | crates/fhe/src/dynamic.rs:42-45 | 64-bit addition of two residues below 2^60 is addition in the field, with no overflow |
| `DynamicField.DynField.Sub` | crates/fhe/src/dynamic.rs:47-50 | adding q before subtracting keeps the word nonnegative and gives field subtraction |
| `DynamicField.DynField.Neg` | crates/fhe/src/dynamic.rs:52-54 | q minus the value, reduced, is the additive inverse, also for zero |
| `DynamicField.DynField.Mul` | crates/fhe/src/dynamic.rs:56-60 | the 128-bit product never overflows and its residue is the field product |
| `DynamicField.DynField.Inv` | crates/fhe/src/dynamic.rs:62-79 | the i128 loop terminates inside its integer width and returns the field inverse |
| `DynamicField.DynField.Div` | crates/fhe/src/dynamic.rs:81-83 | multiplication by the inverse |
| `DynamicField.EvalPoints` | crates/fhe/src/dynamic.rs:108-111 | the points are the residues of 1..n |
| `DynamicField.EvalPoly` | crates/fhe/src/dynamic.rs:113-119 | the Horner loop computes the value of the polynomial at x |
| `DynamicField.SplitDyn` | crates/fhe/src/dynamic.rs:122-141 | share i is the value at point i of the polynomial whose constant term is the secret and whose other terms are the drawn words modulo q |
| `DynamicField.Coefficient` | crates/fhe/src/dynamic.rs:148-154 | the inner loop computes the Lagrange weight at zero, also where a repeated point makes a denominator zero |
| `DynamicField.ReconstructDyn` | crates/fhe/src/dynamic.rs:144-158 | the loop returns interpolation at zero of the given shares |
| `DynamicField.SplitThenReconstruct` | crates/fhe/src/dynamic.rs:122-158 | for prime q, any secret and coins, and any selection of more than threshold shares at different points in any order, the code that splits and reconstructs gives the secret back |
| `ByteValues.FromNatVal` | crates/crypto/src/mpc/field.rs:171-173 | truncation to a byte is reduction modulo 256 |
| `Gf256.MulLoop` | crates/crypto/src/mpc/field.rs:75-89 | the shift-and-accumulate loop with its early exit computes the product modulo x^8 + x^4 + x^3 + x + 1 |
| `Gf256.PowLoop` | crates/crypto/src/mpc/field.rs:91-101 | square-and-multiply computes the power for every exponent |
| `Gf256.MulAssoc` | crates/crypto/src/mpc/field.rs:69-89 | byte multiplication is associative, for all operands |
| `Gf256.Frobenius` | crates/crypto/src/mpc/field.rs:69-101 | every element is its own 256th power |
| `Gf256.InverseLaw` | crates/crypto/src/mpc/field.rs:175-178 | a^254 inverts every nonzero a |
| `Gf256.GfLaws` | crates/crypto/src/mpc/field.rs:109-187 | the byte arithmetic is a field in which every element is its own negative |
| `Gf256.GfPoints` | crates/crypto/src/mpc/field.rs:171-173 | a committee over the byte field has distinct nonzero points if and only if it has at most 255 members |
| `RingKeys.CombineProducts` | crates/fhe/cpp/capi.cpp:444-477 | weighting and adding the products s_i c1 is multiplying the weighted sum of the s_i by c1, in the ring modulo X^n + 1 |
| `RingKeys.KeyRecovered` | crates/fhe/src/bfv_shamir.rs:129-151 | the weights at zero send any degree-t sharing of a ring key, coefficient by coefficient, back to the key |
| `RingKeys.LambdasSumToOne` | crates/fhe/src/bfv_shamir.rs:129-151 | the weights at zero sum to one: weighting a constant gives the constant |
| `RingKeys.PartialProductsDecrypt` | crates/fhe/cpp/capi.cpp:444-477 | adding c0 to the weighted sum of the s_i c1 gives c0 + s c1 |
| `RingKeys.PartialsFuse` | crates/fhe/cpp/capi.cpp:514-523 | the weighted sum of the partial decryptions c0 + s_i c1 gives c0 + s c1 |
| `BfvShamir.ShareSlot` | crates/fhe/src/bfv_shamir.rs:114-118 | the values dealt for one coefficient are its Shamir shares modulo that modulus, one per party |
| `BfvShamir.ShareModulus` | crates/fhe/src/bfv_shamir.rs:111-120 | after the loop over one modulus exactly its slots have been replaced by shares in every copy; earlier slots keep theirs and later ones the key |
| `BfvShamir.ShareKeyPerModulus` | crates/fhe/src/bfv_shamir.rs:97-120 | the nested loops leave every party with its share at every slot of every modulus, and the original word in the slots past the last full residue |
| `BfvShamir.LambdaRow` | crates/fhe/src/bfv_shamir.rs:134-148 | the accumulated products are the Lagrange weights at zero of the first threshold + 1 points |
| `BfvShamir.PerModulusLambdas` | crates/fhe/src/bfv_shamir.rs:131-151 | one such row per modulus, in order |
| `BfvShamir.ResidueShares` | crates/fhe/src/bfv_shamir.rs:111-120 | in each modulus the copies of the first threshold + 1 parties are a sharing of the key residue |
| `BfvShamir.ResidueDecrypts` | crates/fhe/src/bfv_shamir.rs:95-151 | in every prime modulus above threshold + 1: the weights return the key, and both ways of combining partial decryptions of any (c0, c1) give c0 + s c1 |
| `Sharings.SharingAdd` | crates/crypto/src/mpc/auth.rs:131-148 | share-wise addition of sharings of degree d shares the sum with degree d |
| `Sharings.SharingMul` | crates/crypto/src/mpc/handoff.rs:56-58 | share-wise multiplication adds the degrees and shares the product |
| `HolderSets.Combinations` | crates/crypto/src/mpc/shamir.rs:204-232 | the in-place enumeration terminates and lists every k-element subset of 0..n-1 exactly once, in lexicographic order (none when k > n) |
| `HolderSets.ListStep` | crates/crypto/src/mpc/shamir.rs:217-230 | nothing lies between a combination and its bump in lexicographic order, so no subset is skipped or repeated |
| `HolderSets.CountListed` | crates/crypto/src/mpc/shamir.rs:204-232 | there are n choose k of them |
| `Prss.HolderBasisLoop` | crates/crypto/src/mpc/shamir.rs:188-197 | the product over the members outside the holder set |
| `Prss.HolderAtZero` | crates/crypto/src/mpc/shamir.rs:75-79 | the holder-basis polynomial is one at zero |
| `Prss.HolderAtOutsider` | crates/crypto/src/mpc/shamir.rs:75-79 | it vanishes at the point of every member outside the set |
| `Prss.HolderSharing` | crates/crypto/src/mpc/prss.rs:155-171 | spreading one element per holder set over its members gives a sharing of their sum whose degree is the number of members left out |
| `Prss.RandShare` | crates/crypto/src/mpc/prss.rs:60-87 | the members hold a sharing, at exactly the threshold degree, of the sum of the derived elements, one for each of the n choose n-t holder sets in order; the shares are those elements spread over their members |
| `Prss.Sums` | crates/crypto/src/mpc/prss.rs:143-153 | accumulated together, every row sum and every column sum of the matrix of derived elements, with the same total, the sum over all pairs |
| `Prss.ResharePair` | crates/crypto/src/mpc/prss.rs:121-189 | both sides share, with the requested degrees, the sum of the derived elements over all pairs of holder sets; the shares are the row and column sums spread over the members; a degree that is not below its committee size is refused |
| `Handoff.DealerMask` | crates/crypto/src/mpc/prss.rs:267-286 | the dealer variant gives a valid mask of its random value exactly for source degrees between 1 and n - 1, and InvalidThreshold otherwise |
| `Handoff.HandoffMoves` | crates/crypto/src/mpc/handoff.rs:39-54 | for every valid mask a handoff succeeds and leaves the destination committee with a threshold-degree sharing of the same value |
| `Handoff.MultiplyMoves` | crates/crypto/src/mpc/handoff.rs:59-91 | multiplication ends in a threshold-degree sharing of the product if n > 2t, and is refused with TooFewParties otherwise |
| `Circuits.CircuitTheorem` | crates/crypto/src/mpc/handoff.rs:12-91 | every circuit of additions, scalings, handoffs and multiplications over any sequence of committees ends in a threshold-degree sharing of its arithmetic meaning |
| `Authentication.AuthCircuitTheorem` | crates/crypto/src/mpc/auth.rs:28-91 | over every authenticated circuit the tag sharing stays a sharing of alpha times the value, at threshold degree |
| `Authentication.AuthAddExactly` | crates/crypto/src/mpc/auth.rs:28-45 | two authenticated values are added, share by share, exactly when values and tags are of one length at the same points; otherwise which error |
| `Authentication.VerifyMacCorrect` | crates/crypto/src/mpc/auth.rs:101-129 | the check accepts if and only if (x alpha - tag) r_check = 0; with nonzero r_check, if and only if the tag is alpha times the value |
| `Network.MemoryMailbox.Send` | crates/network/src/memory.rs:83-102 | appends to the recipient and leaves every other queue alone |
| `Network.MemoryMailbox.Drain` | crates/network/src/memory.rs:104-123 | hands out everything delivered to the recipient, in order, and leaves every other queue alone |
| `HandoffSession.ValidateLoop` | crates/protocol/src/handoff.rs:190-207 | the dealer loop reports the first faulty submission, with the first check it fails |
| `HandoffSession.ValidateAccepts` | crates/protocol/src/handoff.rs:190-207 | the dealer accepts exactly the lists of well-formed submissions from pairwise different senders |
| `HandoffSession.SessionRefinesHandoff` | crates/protocol/src/handoff.rs:115-281 | running all stages gives what `basic_handoff` gives, and otherwise exactly the named refusal: wrong counts, misaligned points, too few members, or the first repeated sender |
| `HandoffSession.BroadcastOpens` | crates/protocol/src/handoff.rs:209-281 | the broadcast of a run carries its own ids and the opened difference of x and the source mask, and that difference is what the output adds to the destination mask |
| `HandoffSession.StageOrder` | crates/protocol/src/handoff.rs:114-281 | a session can be finalized only after exactly the source, dealer and destination stages in that order |
| `HandoffRuntime.RunHandoff` | crates/node/src/handoff_runtime.rs:56-158 | the run over mailboxes equals the dealer protocol on the masked differences, including every error |
| `HandoffRuntime.RunMultiply` | crates/node/src/handoff_runtime.rs:165-266 | the same for multiplication, which needs 2t + 1 submissions |
| `HandoffRuntime.Announce` | crates/node/src/handoff_runtime.rs:133-154 | every destination finds the broadcast if and only if no destination is listed twice |
| `HandoffRuntime.RunRefinesHandoff` | crates/node/src/handoff_runtime.rs:56-158 | for a handoff that succeeds locally, the multi-node run succeeds if and only if the nodes of each side are pairwise different, and then has the same output |
| `HandoffRuntime.RunRefinesMultiply` | crates/node/src/handoff_runtime.rs:165-266 | the same for multiply-handoff |
| `HandoffBatch.RunBatch` | crates/node/src/handoff_runtime.rs:338-379 | a batch succeeds if and only if it is empty or the node lists fit, and then output i is a sharing of value i among the destination committee, with masks from the pseudo-random generator |
| `HandoffBatch.RunOne` | crates/node/src/handoff_runtime.rs:300-330 | one value shared, masked and handed off: success exactly when the node lists fit, and then a sharing of the value; the run is that of these shares and the mask of these derived elements |
| `Bits.AdderStep` | crates/node/src/comparison_runtime.rs:122-146 | the carries of integer addition are bits, and a full adder at position k gives digit k of the sum, for all integers in two's complement |
| `Bits.SubtractorStep` | crates/crypto/src/mpc/s2b.rs:165-188 | the same for borrows and subtraction |
| `Adder.OpenShares` | crates/node/src/comparison_runtime.rs:47-70 | the networked opening is reconstruction from the committee's points |
| `Adder.FullAdderLoop` | crates/node/src/comparison_runtime.rs:123-146 | the loop builds the sum and carry shares position by position |
| `Adder.RippleAddLoop` | crates/node/src/comparison_runtime.rs:148-174 | the loop carries from digit to digit in order |
| `Adder.FullAdderHolds` | crates/node/src/comparison_runtime.rs:123-146 | on sharings of bits: threshold sharings of the sum digit and of the carry, for every mask |
| `Adder.RippleHolds` | crates/node/src/comparison_runtime.rs:148-174 | from any position on, digit k of the output is a threshold sharing of digit k of d + r, and the last carry of its carry |
| `Comparison.GeneratedPairValid` | crates/crypto/src/mpc/s2b.rs:246-267 | a generated pair shares r and every digit of r |
| `Comparison.MaskedSumDigits` | crates/node/src/comparison_runtime.rs:24-43 | for x and r below 2^n the lift and the two's complement lose nothing: the masked sum has the digits of x |
| `Comparison.CenteredExactly` | crates/crypto/src/mpc/s2b.rs:217-234 | the lift is the integer nearest to zero with the residue whenever that fits in 64 bits, and otherwise its sign with the low 64 bits of its magnitude |
| `Comparison.S2BDigits` | crates/node/src/comparison_runtime.rs:178-212 | for any shared value, the outputs are threshold sharings of the digits of the masked sum |
| `Comparison.S2BTheorem` | crates/node/src/comparison_runtime.rs:178-212 | for values below 2^n with 2^(n+1) < q and n <= 64, for every mask: the digits of the value itself |
| `Comparison.GeqDigit` | crates/node/src/comparison_runtime.rs:287-319 | for any shared values the result is a threshold sharing of one definite digit |
| `Comparison.GeqTheorem` | crates/node/src/comparison_runtime.rs:285-319 | for all a, b below 2^L with L <= 63 and 2^(L+2) < q, every mask, every t and n > 2t: a sharing of 1 if a >= b and of 0 otherwise |
| `Transfer.B2AHolds` | crates/node/src/comparison_runtime.rs:215-247 | an arithmetic threshold sharing of the same bit, whatever the random bit was |
| `Transfer.SelectHolds` | crates/node/src/comparison_runtime.rs:251-283 | a threshold sharing of x where the bit is 1 and of y where it is 0 |
| `Transfer.FreshSelectHolds` | crates/node/src/comparison_runtime.rs:366-397 | the same with the random bit and the mask drawn as the transfer draws them |
| `Transfer.TransferOutputs` | crates/node/src/comparison_runtime.rs:323-400 | for any shared values both outputs are threshold sharings, both moved or both kept |
| `Transfer.TransferConserves` | crates/node/src/comparison_runtime.rs:323-400 | sender + receiver is unchanged modulo q, for all shared values and masks, in or out of the comparison's range |
| `Transfer.TransferTheorem` | crates/node/src/comparison_runtime.rs:321-400 | for sender and minimum below 2^32 the outputs are the moved values if sender > minimum and the old ones otherwise |
| `Transfer.TransferReconstructs` | crates/node/src/comparison_runtime.rs:321-400 | with sender and minimum below 2^32, amount <= sender whenever sender > minimum, and receiver + amount within the field and 128 bits: the two outputs reconstruct to exactly what the plaintext backend returns |
| `Transfer.TransferRefines` | crates/runtime/src/lib.rs:209-231 | those values are what the plaintext backend returns exactly when receiver + amount stays below q; when the plaintext backend reports InsufficientBalance the sharing wraps to sender - amount + q instead |
| `Transfer.ReadyCommittees` | crates/crypto/src/mpc/shamir.rs:55-61 | committees of n members over Z_q and over the byte field meet all requirements above as soon as n > 2t, n < q and n <= 255 |
| `LocalConversion.MultiplyTwins` | crates/node/src/comparison_runtime.rs:72-100 | on sharings, the networked multiplication returns exactly what `multiply_and_handoff` returns |
| `LocalConversion.RippleTwins` | crates/crypto/src/mpc/s2b.rs:108-146 | on sharings, the local ripple adder returns exactly what the networked one returns |
| `LocalConversion.FullSubtractorHolds` | crates/crypto/src/mpc/s2b.rs:165-188 | on sharings of bits: threshold sharings of the difference digit and of the borrow |
| `LocalConversion.RippleSubHolds` | crates/crypto/src/mpc/s2b.rs:148-163 | digit k of the output shares digit k of s - q; the last borrow says whether s < q |
| `LocalConversion.FromDeltaHolds` | crates/crypto/src/mpc/s2b.rs:70-104 | from the opened difference on: sharings of the digits of (delta + r) mod q |
| `LocalConversion.FullS2BTheorem` | crates/crypto/src/mpc/s2b.rs:45-106 | full-width conversion: for every residue and every mask, threshold sharings of all digits of the residue |
| `LocalConversion.FullS2BRefuses` | crates/crypto/src/mpc/s2b.rs:46-75 | which committees, shares and mask digits the full-width conversion accepts, and the error of the first check that fails |
| `LocalComparison.FullGeqDigit` | crates/crypto/src/mpc/comparison.rs:15-45 | the full-width comparison shares the negated top digit of (a - b) mod q, for all a and b |
| `LocalComparison.FullGeqRefuses` | crates/crypto/src/mpc/comparison.rs:16-35 | the comparison goes through only for one share of each number per member, at the same points; otherwise which error |
| `LocalComparison.FullGeqExact` | crates/crypto/src/mpc/comparison.rs:4-6 | that digit is the comparison of a and b if and only if a - b < 2^(len-1) when a >= b, and b - a <= q - 2^(len-1) otherwise |
| `LocalComparison.DocumentedRange` | crates/crypto/src/mpc/comparison.rs:4-6 | it is right for all values below 2^(len-1), as documented, if and only if q = 2^len - 1 |
| `LocalComparison.HalfModulusRange` | crates/crypto/src/mpc/comparison.rs:4-6 | nor does "below half the modulus" suffice for any other odd q |
| `LocalComparison.WrongComparison` | crates/crypto/src/mpc/comparison.rs:4-6 | a concrete modulus and pair inside both documented ranges on which the comparison answers wrongly |
| `LocalComparison.GeqTwins` | crates/crypto/src/mpc/comparison.rs:47-81 | on sharings, the local bounded comparison returns exactly what the networked one returns, so the bounded theorem holds of it too |
| `LocalComparison.LocalS2BRefuses` | crates/crypto/src/mpc/s2b.rs:274-312 | the checks of the bounded conversion |
| `LocalComparison.LocalGeqRefuses` | crates/crypto/src/mpc/comparison.rs:53-81 | the checks of the bounded comparison |
| `LocalComparison.SelectTwins` | crates/crypto/src/mpc/comparison.rs:104-167 | on sharings, `b2a` and `conditional_select` return exactly what their networked forms return |
| `LocalComparison.SelectRefuses` | crates/crypto/src/mpc/comparison.rs:136-167 | the checks of the selection |
| `LocalComparison.LocalTransferOutputs` | crates/crypto/src/mpc/comparison.rs:169-250 | for any shared values both outputs are threshold sharings, both moved or both kept by the full-width bit |
| `LocalComparison.LocalTransferExact` | crates/crypto/src/mpc/comparison.rs:192-197 | the driving bit is "sender > minimum" if and only if the two are close enough for the full-width comparison |
| `LocalComparison.LocalTransferTheorem` | crates/crypto/src/mpc/comparison.rs:169-250 | for such values the local transfer leaves the same values shared as the networked one |
| `Manifests.RenderInjective` | crates/compiler/src/lib.rs:604-636 | operator, input, sender and literal references never share a spelling, and exactly literals carry the literal prefix |
| `Lowering.Lowerer.Expr` | crates/compiler/src/lib.rs:604-636 | the in-place lowerer emits exactly the operators of the specification after those already there, or stops with its error |
| `Lowering.Lowerer.CallExpr` | crates/compiler/src/lib.rs:638-755 | arguments first, in order, then the operator of the builtin with its type checks |
| `Operations.EmittedExactly` | crates/compiler/src/lib.rs:638-755 | by source name: a call compiles exactly when its arguments do, with the types the operation takes, and becomes one operator of its opcode, domain and output type that reads the arguments |
| `Operations.RefusedExactly` | crates/compiler/src/lib.rs:638-755 | otherwise it is refused for the unknown name, the operand of H2S, the number of arguments or the first argument of a wrong type, in that order |
| `Operations.LoadExactly` | crates/compiler/src/lib.rs:600-636 | reading a state compiles exactly when it is declared with a key of the type of the key; it becomes one load of that state in the representation of its type |
| `Operations.LocalExactly` | crates/compiler/src/lib.rs:506-540 | a local or a return compiles exactly when its value does with the declared or opened type; the error names the expected type before the actual one |
| `Operations.RequireExactly` | crates/compiler/src/lib.rs:506-540 | a requirement compiles exactly when its condition is a secret bit, which one more operator checks |
| `Lowering.Lowerer.Assignment` | crates/compiler/src/lib.rs:570-602 | the target is checked and its key lowered after the value, and one write is recorded |
| `Lowering.Lowerer.Stmt` | crates/compiler/src/lib.rs:506-540 | one statement updates environment, operators, writes and opening as specified |
| `Lowering.Lowerer.Lower` | crates/compiler/src/lib.rs:506-568 | the whole function body, to a manifest or to the first error |
| `Lowering.CompileProgram` | crates/compiler/src/lib.rs:806-852 | the declaration loop, then the function loop, with the first error in source order |
| `Lowering.AcceptedStates` | crates/compiler/src/lib.rs:808-841 | a declaration list passes if and only if every state is of a protected type, keyed by addresses if at all, and no name is declared twice |
| `Preservation.SimExpr` | crates/compiler/src/lib.rs:604-755 | running the lowered operators of an expression gives the value, the host calls or the error of interpreting the expression, for every environment and store |
| `Preservation.SimStatement` | crates/compiler/src/lib.rs:508-602 | the same for one statement, with its environment, write log and opening |
| `Preservation.SimBody` | crates/compiler/src/lib.rs:506-568 | the same for any prefix of a body |
| `Preservation.FunctionPreserved` | crates/runtime/src/manifest.rs:211-274 | for every accepted function, world and invocation, executing the operator list gives the outcome or error of interpreting the source |
| `Preservation.MeaningPreserved` | crates/runtime/src/manifest.rs:198-400 | compilation preserves meaning: every accepted program, function name, store, backend and invocation |
| `Operations.InterpretedMeaning` | crates/compiler/src/lib.rs:647-728 | each of the twelve source names on the development backend: checked sum, difference or comparison of the numbers, the same number or bit for encryption, conversions and Pick, one host call with the arguments for the token operations, and any other name an error |
| `Operations.CompiledMeaning` | crates/compiler/src/lib.rs:647-728 | the same for compiled code: running the operators a call is lowered to, from any state that agrees with the environment, gives exactly that |
| `Bytes.ReadBack` | crates/runtime/src/manifest.rs:37-42 | big-endian numbers that fit are read back |
| `Bytes.WriteBack` | crates/runtime/src/manifest.rs:98-108 | every byte string of the width is the encoding of a number that fits |
| `Executor.RunLoop` | crates/runtime/src/manifest.rs:221-242 | the operator loop fills the value table and the host calls, and stops at the first error |
| `Executor.EvaluateLoop` | crates/runtime/src/manifest.rs:211-274 | input checks, operators, writes and opening in that order, with all loads on the given store |
| `Executor.InputsExactly` | crates/runtime/src/manifest.rs:350-367 | inputs are accepted exactly when they are as many as the parameters, each there with its type; otherwise the first parameter that fails decides the error |
| `Executor.LiteralExactly` | crates/runtime/src/manifest.rs:380-392 | a literal is a number exactly when it is the decimal spelling of one below 2^128, after at most one plus sign |
| `Executor.WriteRefused` | crates/runtime/src/manifest.rs:244-261 | which writes are refused and with which error |
| `Executor.OutcomeDeclared` | crates/runtime/src/manifest.rs:244-274 | whatever the manifest, backend and store: every write of an outcome is to a declared state, of its type, at its one cell or at a 20-byte key |
| `Plaintext.DecodesWhenWellFormed` | crates/runtime/src/manifest.rs:1190-1198 | a number is decoded if and only if it is well formed, and then re-encoding gives it back |
| `Plaintext.DecodeExactly` | crates/runtime/src/manifest.rs:1190-1225 | numbers, bits and public numbers are read from exactly their encodings; everything else is an invalid value |
| `Plaintext.TagsApart` | crates/runtime/src/manifest.rs:15-19 | no bytes are the encoding of two types |
| `Plaintext.ArithmeticMeaning` | crates/runtime/src/manifest.rs:1069-1140 | on encoded numbers the operators are checked addition, checked subtraction and comparison, in both domains |
| `Plaintext.ArithmeticExactly` | crates/runtime/src/manifest.rs:1069-1140 | the operators on any arguments: the right answer on encodings, and otherwise the error for the wrong number of arguments or an invalid value |
| `Plaintext.ConversionsRefuse` | crates/runtime/src/manifest.rs:1069-1180 | the errors of conversions and of operators the backend does not have |
| `Plaintext.ConversionMeaning` | crates/runtime/src/manifest.rs:1069-1154 | encryption, both conversions and opening keep the number or bit |
| `Soundness.SoundExpr` | crates/compiler/src/lib.rs:604-755 | typed expressions on typed stores give values of the lowered type, or one of the four data-dependent errors |
| `Soundness.SoundFunction` | crates/runtime/src/manifest.rs:211-274 | the same for whole functions, whose writes are again typed |
| `Soundness.CompiledSound` | crates/runtime/src/manifest.rs:198-400 | compiled code on the development backend can fail only with StateNotFound, PolicyRejected, Overflow or Underflow, given distinct parameter names, literals below 2^128 and well-formed inputs and cells |
| `StateStore.InMemoryManifestState.CommitWrites` | crates/runtime/src/manifest.rs:1028-1040 | applies the write set in order to the cells |
| `StateStore.InMemoryManifestState.Load` | crates/runtime/src/manifest.rs:1019-1026 | the stored value, or StateNotFound |
| `StateStore.InMemoryManifestState.Execute` | crates/runtime/src/manifest.rs:198-209 | commits everything after a success and nothing after an error |
| `StateStore.CommitLast` | crates/runtime/src/manifest.rs:1028-1040 | the last write to a cell decides its value |
| `StateStore.CommitKeeps` | crates/runtime/src/manifest.rs:1028-1040 | cells that are not written keep their values |
| `Deferred.DeferredIsSequential` | crates/runtime/src/manifest.rs:198-274 | deferred commit equals assignment in program order, in cells, calls, opening and error, for every run in which no cell is loaded after it was assigned |
| `Deferred.AcceptedIsSequential` | crates/runtime/src/manifest.rs:198-274 | for accepted code the assignments are always proper, so on every backend and every store the loads alone decide this |
| `Token.HistorySound` | crates/runtime/src/manifest.rs:198-209 | over every history of requests the store stays typed and the next execution ends properly or in one of the four data-dependent errors |
| `Token.TokenAccepted` | examples/contracts/ConfidentialToken.ppsc:20-25 | the compiler accepts the contract made of the token's state and its transfer function |
| `Token.TransferOutcome` | examples/contracts/ConfidentialToken.ppsc:20-25 | the exact outcome of a transfer for all balances and amounts: refusal, overflow, or the two new balances |
| `Token.TransferTotal` | examples/contracts/ConfidentialToken.ppsc:20-25 | committing the two writes changes the total over any listing of accounts by nothing, or by the amount when the parties coincide |
| `Token.CompiledTransfer` | examples/contracts/ConfidentialToken.ppsc:20-25 | end to end: a refused transfer changes no cell; an accepted one sets exactly the two balances and keeps the total if and only if the parties differ or nothing moves |
| `Token.SequentialTransfer` | examples/contracts/ConfidentialToken.ppsc:20-25 | in program order a transfer to oneself would change nothing |
| `Token.TransferOrder` | crates/runtime/src/manifest.rs:198-274 | deferred and sequential assignment agree on a transfer if and only if the parties differ or nothing moves |
| `Text.Utf8RoundTrip` | crates/runtime/src/manifest_daemon.rs:294-295 | every string is read back from its UTF-8 bytes |
| `Outbox.EncodeLoop` | crates/runtime/src/manifest_daemon.rs:255-280 | the appending loops produce the specified payload or the first error |
| `Outbox.Reader.TakeNext` | crates/runtime/src/manifest_daemon.rs:339-348 | the cursor advances by the length or the payload is too short, and never passes the end |
| `Outbox.DecodeLoop` | crates/runtime/src/manifest_daemon.rs:282-337 | the cursor-moving decoder computes the specified result |
| `Outbox.OutboxRoundTrip` | crates/runtime/src/manifest_daemon.rs:255-337 | decoding an encoded outcome returns its id, writes and opening if and only if all its values are protected and not empty, and InvalidValue otherwise, for every outcome that encodes |
| `Outbox.PayloadBegins` | crates/runtime/src/manifest_daemon.rs:255-280 | a payload begins with its name and the execution id; too many writes or calls are refused |
| `Outbox.PrefixFree` | crates/runtime/src/manifest_daemon.rs:282-337 | no accepted payload is a proper prefix of another accepted payload |
| `Daemon.InvocationInputsLoop` | crates/runtime/src/manifest_daemon.rs:194-253 | the loop with its two indices binds the k-th public parameter to the k-th word and the k-th private one to the k-th stored input, or reports the first error |
| `Daemon.NodeDb.NextIndex` | crates/runtime/src/manifest.rs:670-696 | the cursor, with the missing row created as zero |
| `Daemon.NodeDb.Complete` | crates/runtime/src/manifest.rs:697-747 | records one queue entry and advances the cursor, or does nothing |
| `Daemon.NodeDb.CommitResult` | crates/runtime/src/manifest.rs:749-834 | cells, outbox, log and cursor together, or nothing |
| `Daemon.NodeDb.Poll` | crates/runtime/src/manifest_daemon.rs:118-180 | one undisturbed poll, on every chain answer |
| `DaemonLaws.SelectedExactly` | crates/runtime/src/manifest_daemon.rs:183-192 | a task selects a function exactly when it is the first of the manifest with the selector of the task, and none exactly when no function has it |
| `DaemonLaws.InputsExactly` | crates/runtime/src/manifest_daemon.rs:194-253 | the inputs of a task are gathered exactly when there are as many words and ids as parameters and every parameter can be bound to its own word or stored input, and then with those values |
| `DaemonLaws.InputsRefused` | crates/runtime/src/manifest_daemon.rs:194-253 | wrong counts are refused first; then the first parameter that cannot be bound decides the error |
| `DaemonLaws.ComputedExactly` | crates/runtime/src/manifest_daemon.rs:154-180 | a poll of a running task at a member node publishes exactly when the selected function, called by the requester with those values, has an outcome that may be stored; then cells, log, outbox and cursor are as that outcome says, and otherwise unchanged |
| `DaemonLaws.OtherwiseExactly` | crates/runtime/src/manifest_daemon.rs:118-153 | every other poll: nothing left, a foreign or terminal task logged as skipped, or waiting |
| `Pollers.StepKeeps` | crates/runtime/src/manifest_daemon.rs:118-180 | every step of every poller, and every crash, keeps the invariant of the database and of all pollers, and never takes a logged task back |
| `Pollers.RunsKeep` | crates/runtime/src/manifest_daemon.rs:118-180 | hence after any sequence of steps |
| `Pollers.OutboxRows` | crates/runtime/src/manifest.rs:800-825 | replaying the log gives an outbox row for exactly the completed tasks |
| `Pollers.DaemonSafety` | crates/runtime/src/manifest_daemon.rs:118-180 | after any interleaving of any number of pollers with crashes anywhere: the log is exactly the indices below the cursor, each with its own task; outbox rows are exactly those of completed tasks; and cells and outbox equal running the completed tasks one after another in queue order |
| `Pollers.CurrentPublishes` | crates/runtime/src/manifest.rs:752-834 | with distinct ids, a finished poller publishes if and only if its index is still the cursor |
| `Pollers.PollIsRun` | crates/runtime/src/manifest_daemon.rs:118-180 | an undisturbed poll is a run of one poller |
| `Balances.BalanceRuntime.Credit` | crates/runtime/src/lib.rs:451-502 | a deposit applies wholly, with its transition, or changes nothing |
| `Balances.BalanceRuntime.Debit` | crates/runtime/src/lib.rs:504-557 | the same for withdrawals |
| `Balances.BalanceRuntime.Move` | crates/runtime/src/lib.rs:559-630 | the same for transfers, which write two cells and advance the root twice |
| `Tables.PostgresBalanceRuntime.Persist` | crates/runtime/src/postgres.rs:147-228 | the statements of one transaction in order; the first violated key stops them |
| `Tables.PostgresBalanceRuntime.Credit` | crates/runtime/src/postgres.rs:249-317 | a deposit transaction commits wholly or rolls back to the tables before it |
| `Tables.PostgresBalanceRuntime.Debit` | crates/runtime/src/postgres.rs:319-382 | the same for withdrawals |
| `Tables.PostgresBalanceRuntime.Move` | crates/runtime/src/postgres.rs:384-477 | the same for transfers |
| `Tables.StepRefines` | crates/runtime/src/postgres.rs:249-477 | from related states every command gets the in-memory transition or error, except that a version of 2^63 or more is CorruptPersistence and an id already used by the other kind is PersistenceFailure; every refusal leaves the tables as they were |
| `Tables.RunsRefine` | crates/runtime/src/postgres.rs:249-477 | over every command sequence without those two cases the runtimes answer alike and stay related |
| `Tables.CommandsAgree` | crates/runtime/src/postgres.rs:249-477 | fewer than 2^63 commands, no id used by both a deposit and a withdrawal: the two runtimes give the same answer to every one of them and end related |
| `BalanceLaws.Conservation` | crates/runtime/src/lib.rs:451-630 | over every command sequence, per asset: balances plus accepted withdrawals equal accepted deposits |
| `BalanceLaws.VersionsCount` | crates/runtime/src/lib.rs:402-444 | a cell's version is the number of accepted commands that touched it |
| `BalanceLaws.AcceptedOnce` | crates/runtime/src/lib.rs:451-630 | two accepted commands of one kind never have the same id |
| `BalanceLaws.RootFolds` | crates/runtime/src/lib.rs:402-444 | the root is the fold of the digest over everything the accepted commands wrote |
| `BalanceReports.AcceptedReport` | crates/runtime/src/lib.rs:402-632 | an accepted command reports the root it leaves, the digests and versions of the cells it wrote, the sender first, and the transcript of its last step; nothing but its cells, the root and its id changes |
| `BalanceReports.TablesReport` | crates/runtime/src/postgres.rs:147-477 | the same for the tables, with the marker and the log row of the command |
| `BalanceReports.CellsDigested` | crates/runtime/src/lib.rs:402-444 | in every history every cell carries the digest of its own key, ciphertext and version |
| `BalanceReports.RecordsDigested` | crates/runtime/src/postgres.rs:147-228 | the same for the records of the tables |
| `BalanceReports.CellsOwned` | crates/runtime/src/lib.rs:446-632 | with any engine that binds ciphertexts to owners, every cell always holds a ciphertext of its own account and asset |
| `BalanceReports.RefusedExactly` | crates/runtime/src/lib.rs:446-632 | in every reachable state: exactly which commands are refused and with which error |
| `BalanceReports.EngineRefusal` | crates/runtime/src/lib.rs:446-632 | with any engine, a cell that cannot be read refuses the command for the reason the engine gives |
| `BalanceLaws.CiphertextExactly` | crates/runtime/src/lib.rs:166-180 | a development ciphertext is exactly the prefix and a 128-bit number |
| `BalanceLaws.ClashExample` | crates/runtime/migrations/0001_runtime.sql:49-62 | a deposit and a withdrawal under one id: accepted in memory, refused by the tables |
| `Lexer.LexLoop` | crates/compiler/src/lib.rs:97-152 | the index loop computes the token list with offsets and the end marker, or the first unknown character |
| `Lexer.LexSpelled` | crates/compiler/src/lib.rs:97-152 | lexing the space-separated spelling of any spellable tokens gives those tokens |
| `Lexer.LexSpaced` | crates/compiler/src/lib.rs:97-152 | with any spacing, blanks and comments that may be empty where the neighbours do not merge, lexing gives the tokens at their places |
| `Lexer.LexedSpaced` | crates/compiler/src/lib.rs:97-152 | nothing else is accepted: a source that lexes consists of the tokens it lexes to with such spacing |
| `Lexer.CharacterClasses` | crates/compiler/src/lib.rs:102-143 | the characters of every class by their codes |
| `ParserCursor.TokenParser.Expr` | crates/compiler/src/lib.rs:312-342 | terminates, never moves past Eof, and consumes exactly what the specification consumes |
| `ParserCursor.TokenParser.StatementNext` | crates/compiler/src/lib.rs:278-310 | the same for statements |
| `ParserCursor.TokenParser.FunctionNext` | crates/compiler/src/lib.rs:251-276 | the same for functions |
| `ParserCursor.TokenParser.StateNext` | crates/compiler/src/lib.rs:237-249 | the same for state declarations |
| `ParserCursor.TokenParser.MembersNext` | crates/compiler/src/lib.rs:211-235 | the same for the member loop |
| `ParserCursor.TokenParser.ParseAll` | crates/compiler/src/lib.rs:211-235 | on every token list that ends in Eof the parser terminates with the specified program or error |
| `ParserCursor.ParseSource` | crates/compiler/src/lib.rs:204-235 | lexing and parsing together |
| `Parser.ParsePrintedExpr` | crates/compiler/src/lib.rs:312-342 | the tokens of any expression, followed by a token that cannot continue it, parse to that expression and leave the rest |
| `Parser.PrintedProgram` | crates/compiler/src/lib.rs:211-235 | the tokens of a program parse to the program |
| `Parser.ParsePrinted` | crates/compiler/src/lib.rs:97-405 | lexing and parsing the printed form of a program returns the program |
| `Parser.ParseSpaced` | crates/compiler/src/lib.rs:97-405 | layout does not matter: any spacing of the tokens of a program parses to the program |
| `Parser.TypeNamesExactly` | crates/compiler/src/lib.rs:44-54 | the names of the types |
| `Printable.ParsedPrintable` | crates/compiler/src/lib.rs:97-405 | everything the parser returns can be printed |
| `Printable.RoundTripExact` | crates/compiler/src/lib.rs:278-310 | printing and parsing returns the program if and only if its types have source names and no plain statement begins like a require, a return or a declaration |
| `Printable.Reprinted` | crates/compiler/src/lib.rs:97-405 | parsing is stable: the printed form of a parsed source parses to the same program |
| `Workflow.CommitteeIs` | crates/runtime/src/workflow.rs:303-333 | the selected committee has the requested number of different eligible nodes in ascending order, and every node left out comes after every chosen one by rank, and among equal ranks by its place in the list |
| `StorageNetwork.InMemoryStorageNetwork.UploadSecretShares` | crates/runtime/src/workflow.rs:29-57 | one payload per node or InvalidInput, then node after node until one already has the id; what was stored before that stays |
| `StorageNetwork.InMemoryStorageNetwork.UploadFheCiphertext` | crates/runtime/src/workflow.rs:59-88 | the same with one ciphertext at every node; an empty ciphertext is refused |
| `StorageNetwork.InMemoryStorageNetwork.MoveLoops` | crates/runtime/src/workflow.rs:142-157 | after both loops exactly the targets hold the id |
| `StorageNetwork.InMemoryStorageNetwork.HandoffData` | crates/runtime/src/workflow.rs:101-159 | a handoff in place, or an error that changes nothing |
| `WorkflowRuns.SumLoop` | crates/runtime/src/workflow.rs:544-549 | the checked 128-bit sum in input order |
| `WorkflowRuns.WorkflowRuntime.CollectInputs` | crates/runtime/src/workflow.rs:529-543 | input after input, keeping what was handed off before a failure |
| `WorkflowRuns.WorkflowRuntime.ComputeEvent` | crates/runtime/src/workflow.rs:514-581 | committee, inputs, sum and output in that order, on the storage object |
| `WorkflowRuns.WorkflowRuntime.PollOnce` | crates/runtime/src/workflow.rs:493-584 | takes one event from the front of the queue and handles it |
| `StorageLaws.HandoffEffect` | crates/runtime/src/workflow.rs:101-159 | a handoff of a stored id to any list of targets leaves it at exactly the targets, one version up, with its value, and touches no other id; otherwise, the empty list included, nothing changes |
| `StorageLaws.HandoffExactly` | crates/runtime/src/workflow.rs:101-159 | on any network: a handoff goes through exactly when there is a target, the id is stored and its fragments agree on an entry whose version has a successor; otherwise nothing changes |
| `StorageLaws.PayloadsApart` | crates/runtime/src/workflow.rs:211-262 | shares determine their value and position, ciphertexts their value, and no bytes are both |
| `StorageLaws.UploadSucceeds` | crates/runtime/src/workflow.rs:42-56 | an upload goes through if and only if no node is listed twice and none of them holds the id, and then it is at those nodes |
| `StorageLaws.UploadWhole` | crates/runtime/src/workflow.rs:29-88 | both uploads, over every node list and payload: done or without effect if and only if the upload is refused before its loop, or at its first node, or goes through |
| `StorageLaws.UploadConsistent` | crates/runtime/src/workflow.rs:29-88 | an upload of a value keeps all fragments in agreement if and only if it is refused at once, or the id is free, or its first node holds the id, or the upload repeats what is stored; for every node list |
| `WorkflowRuns.InputsEffect` | crates/runtime/src/workflow.rs:529-543 | also when an input fails part-way: some prefix of the inputs has been handed off, everything stays consistent and every value is kept; when all succeed, each has its handoff recorded with its version and is at the committee |
| `WorkflowRuns.EventEffect` | crates/runtime/src/workflow.rs:493-584 | every event, failing or not, keeps all fragments consistent if and only if its output may be uploaded, and then it keeps every value; a successful computation leaves the sum of its inputs at the committee selected by rank, with every handoff recorded and every input version raised |
| `WorkflowAnswers.PublishedExactly` | crates/runtime/src/workflow.rs:498-513 | published data is accepted exactly when the event has a version, lists the nodes that hold the id in order, at least one, and names the representation stored; otherwise which error; nothing changes |
| `WorkflowAnswers.HandledExactly` | crates/runtime/src/workflow.rs:529-543 | all inputs are handed off exactly when each is stored and its version can still be raised; otherwise the first that is not ready decides the error |
| `WorkflowAnswers.ComputeExactly` | crates/runtime/src/workflow.rs:514-581 | a computation goes through exactly when a committee can be drawn, all inputs are ready, the sum fits in 128 bits and the id of the output is free; otherwise the first of these that fails decides the error |
| `WorkflowRuns.HistoryConsistent` | crates/runtime/src/workflow.rs:28-184 | over every history of uploads to any node lists and events, all fragments of an id always agree on representation, version and value if and only if every upload and output is allowed where it happens |
| `WorkflowRuns.ValuesStay` | crates/runtime/src/workflow.rs:493-584 | in every such history an id once stored keeps its value and representation for ever and its version never falls |
| `StorageLaws.PartialUploadExample` | crates/runtime/src/workflow.rs:42-56 | an upload stopped at a later node leaves an id inconsistent; a repeated node stops an upload of a free id part-way, and its fragment stays |

## Left out

- OpenFHE, its C interface and the glue over it: only the equation c0 + s c1 in each residue is modelled, in coefficient format.
- BN254: the arithmetic field is Z_q for an arbitrary prime q; the centered lift still reads only the low 64 bits of a magnitude.
- Secrecy beyond `Shamir.Privacy`, and the quality of randomness: coins, masks and derived elements are arbitrary inputs.
- Latency, bandwidth and sockets: a mailbox is a queue per recipient, and draining it returns what was sent.
- Locks and mutex poisoning; a database transaction is one atomic step, and a table is a map with the keys of the migrations.
- `store_input`, `initialize` and the copying of rows between daemons; in the daemon model stored inputs change only by uploads.
- Queue indices and cursors of 2^63 and more, which the store refuses before anything else.
- Chain answers during a poll are arbitrary; the queue of a contract is a fixed list with one database per node.
- Hash functions (selectors, state roots, sortition ranks, output ids): arbitrary functions, with freshness assumed only where a property says so.
- Owner authorization and the reading side of the balance runtimes (`encrypted_balance`, `open_balance_for_owner`).
- Encryption as a random process: the development backend's deterministic encodings stand for ciphertexts.
- Manifest references are a datatype instead of strings; `Manifests.RenderInjective` is why nothing is lost by that.
- ABI types, signatures, JSON artifacts, Solidity text, the command line, hex helpers and upload over HTTP.
- Characters above one byte in contract sources: the lexer sees a source as bytes, as the compiler does, and the printer emits ASCII.
- Node ids and digests are numbers in the order the byte arrays have; empty per-node tables are kept only as a list of nodes.
- Uploads of arbitrary bytes in workflow histories: clients upload encodings of values (`StorageLaws.UploadWhole` is about any payloads).
- Versions of the in-memory balance runtime are unbounded: the code adds one to a 64-bit version unchecked, so a cell touched 2^64 times would overflow.
- Committee selection sorts with a library call; the model sorts by insertion, which is stable as the call is.
- The small-range mask generators (`rand_share_small`, `reshare_pair_small`), which differ only in how the elements are derived.
- CKKS paths, cost and accuracy simulation, benches, the front end and scripts.
