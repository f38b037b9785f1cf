# A verified model of the Aequa DVT sequencer's core

This project models, in Dafny, the five parts of the sequencer whose correctness is
hardest to see from the code, and proves what they are for.

1. **Threshold algebra.** Shamir/Feldman sharing, Lagrange recombination at zero,
   additively homomorphic threshold ElGamal, threshold identity-based encryption and the
   linear puncturable PRF. `Secrecy` proves that fewer shares than the threshold fit every
   secret. `PrimeField` is the field of a prime order: `ORDER` is any
   prime, reduction and multiplication are given by their defining facts, inverses come
   from Bezout's identity. `Interpolation` proves Lagrange interpolation at zero for any
   number of distinct points, through the moments of the Lagrange weights.
2. **The distributed key generation.** `DkgNode` is one node as a state machine,
   `DkgRunner` the mutable runner object proved to take exactly those steps,
   `DkgInvariant` what every event keeps, `DkgRuns` what holds over runs and restarts,
   `DkgLaws` what each handler is for, on a node's raw state, `DkgProgress` that a node
   finishes once the messages are in, `DkgJointKey` what finished nodes hold, and `DkgSystem`, `DkgAcks` and `DkgProtocol` the
   whole system: honest nodes, participants that send anything under
   their own name, and a network that delays, drops, repeats and reorders.
3. **Mempools, block builder, batch auction.** Nonce-gap pools with promotion
   (`NoncePool`), type-by-type selection (`Selection`, `Builder`) and the dual-flow solver
   (`Dfba`).
4. **QBFT voting.** The state machine, the verifier, and the two in sequence (`Qbft`).
5. **Crash-safe files.** Replacing a file by write, back up, promote, and the framed
   codecs (`FileStore`).

## How the code is represented

- A well-formed element of G1, G2 or GT is its discrete logarithm: scalar multiplication
  is a product, group addition a sum, the pairing a product of logarithms, compression is
  injective. Every byte string that decompresses is assumed to lie in the prime-order
  subgroup. Participant indices and committee sizes are below the group order.
- The curve library's scalar operations report a flag. The only assumption is that a
  reported failure means a zero result. Where a loop can be shown never to produce zero
  (Lagrange weights, the Feldman check) failure is proved impossible; elsewhere the
  contract says which zero makes it possible.
- Randomness, hashes, checksums, late arrivals, the order in which a Go map is walked and
  the point at which a process crashes are parameters.
- An encrypted share carries what it decrypts to at its addressee. Messages are
  authenticated: only participant d sends messages from d.
- Each delivered message, timeout, retry or restart is one atomic step, except
  finalisation, which is two with the saving of the key share as a step of its own between
  them, because the lock is released there
  (internal/tss/dkg/beast_runner_blst.go:729-733). A restart is possible between any two
  steps and reads the key store first, then the session file, as the code does (lines
  146-166); saving the key share may fail. That steps are
  atomic is an assumption: `onShare`
  verifies a share outside the lock (lines 901-923) while a timeout may reset the epoch,
  and an interleaving inside that window could store a share that does not belong to the
  new epoch's commitments.
- A disk survives a crash with a prefix of the steps of a save applied; what an
  interrupted write leaves in the temporary file is arbitrary.
- Stable and unstable sorts are both the stable sort. The recombinations sort shares by
  index unstably and keep the first k: two shares of one index among those k are rejected,
  but if the k-th and the next share have one index the code may keep either, and the model
  keeps the one that came first. Shares of one polynomial with one index are equal, so the
  correctness results do not depend on it; the error behaviour for such a tie of unequal
  shares is fixed by the model where the code leaves it open.

## What turned out differently from what is documented or expected

- **Voting never starts under the default policy.** README.md:39-40 of the repository
  describes prepares and commits following a proposal. The verifier filters message ids
  and votes must carry the proposal's id, so no vote is ever counted: `NeverPrepared`.
  `ServiceExact` and `FilterExact` say exactly which messages of a run are processed: those
  that pass the other checks and whose id is new or, with a replay window w, whose height
  is below the last height at which the id got through the filter or exceeds it by more
  than w. `ProgressNeedsWindow` proves, for every policy, guard and leader, that some run
  gets past the first phase if and only if a window is set and two senders and the leader
  are permitted. `PreparedNeedsJumps` proves what each such run contains: a proposal and two
  prepares that each jump, by that rule, away from the last message of the id let through.
  That message need not have been processed: `RejectedMessagesHelp` gives, for every
  window, a run that ends prepared although all processed messages have one height, because
  rejected messages have moved the filter. With one height for all messages of an id no
  window helps (`NeverPrepared`).
- **The pools' ready order is not stable by sender.** internal/payload/plaintext_v1/pool.go:98
  promises it; ties between senders follow map order. `VisitingOrderMatters` proves for
  every cap n that what is served depends on the walk if and only if two senders are tied
  at a value that fewer than n ready transactions exceed (any tie, without a cap).
- **The dual-flow solver can exceed its cap.** `SolveSize` proves the exact condition for
  staying within it, `CapOverrun` gives four items under a cap of two.
- **Batched shares are recorded per height and batch index, not per ciphertext, and only
  the node's own.** internal/payload/private_v1/threshold_state.go:24-27 speaks of
  multi-party recovery, but the only caller records the node's own share
  (internal/payload/private_v1/blst_decrypter.go:134). `OpensOnlyAlone` proves that under
  one configuration a position never holds more than one share and nothing opens unless the
  threshold is 1; `OpensIffAlone` that then the first envelope at a position does open.
  `SecondEnvelope` proves that the key of a second envelope at the position is recovered if
  and only if the randomness coincides or the secret is zero.
- **A restart can bring back an abandoned epoch's key share.** The key share is saved before
  the second locked region checks the epoch, and a restarted process takes whatever the key
  store holds, in its configured epoch, before looking at the session
  (internal/tss/dkg/beast_runner_blst.go:146-156, 731-738). `ProgressExact` proves that this
  is the only event that ever lowers the epoch or changes a result, and exactly when it
  does; `StaleRestart` extends any run with a result in flight to one that regresses, and
  `StaleRestartHappens` gives the smallest. `RestartFromStore` proves that the share found
  is one the node could have published at that moment if and only if it is the one already
  published, or none is and the epoch has not changed since the share was computed.
- **Nodes may finish with different keys.** Each keeps the first commitments it sees of a
  dealer and nobody compares them. `JointCorrectness` proves that results from the same
  commitments agree; `EquivocationSplits` that two nodes shown different polynomials by one
  dealer both finish, with one key exactly when the constant terms are equal.
- **A committee of one is accepted and never finishes.** A configuration with N = 1 is valid
  (internal/tss/dkg/beast_dkg_config.go:62-70), but only a message from another participant
  makes a node look whether it can finish
  (internal/tss/dkg/beast_runner_blst.go:788-809). `DeliveryCompletes` proves that two
  participants or more do finish once the messages are in, `AloneNever` that one never does.

## Model

| member | source | states |
|---|---|---|
| Interpolation.WeightsSumToOne | internal/tss/dkg/feldman_crypto_blst.go:126-166 | the Lagrange weights at zero of any non-empty list of distinct indices sum to one |
| Interpolation.MomentVanishes | internal/tss/dkg/feldman_crypto_blst.go:126-166 | the weights annihilate every power of the index from the first up to one below the number of points |
| Interpolation.Recombine | internal/tss/dkg/feldman_crypto_blst.go:186-200 | the weighted sum of values of a polynomial with at most as many coefficients as points is its constant term |
| Feldman.EvalPolyAt | internal/tss/dkg/feldman_crypto_blst.go:46-71 | the power-sum loop yields the polynomial's value, rejects an empty polynomial or a non-positive point, and fails otherwise only if a coefficient or partial sum is zero |
| Feldman.EvalPoly | cmd/beast-keygen/main.go:123-138 | the Horner loop yields the same value as the power-sum loop |
| Feldman.CommitmentsFromPoly | internal/tss/dkg/feldman_crypto_blst.go:74-87 | one commitment to each coefficient, in order; error exactly for the empty polynomial |
| Feldman.VerifyFeldmanShare | internal/tss/dkg/feldman_crypto_blst.go:89-124 | the loop decides whether the share is the committed polynomial's value, with the exact error cases, and its multiplications never fail |
| Feldman.FeldmanExact | internal/tss/dkg/feldman_crypto_blst.go:74-124 | soundness and completeness: against a dealer's true commitments, accepted if and only if the share is the polynomial's value at the point |
| Feldman.LagrangeAtZero | internal/tss/dkg/feldman_crypto_blst.go:127-166 | the loop computes the Lagrange weight, with the exact error cases, and its arithmetic never fails |
| Feldman.UsableOrNone | internal/tss/dkg/feldman_crypto_blst.go:174-185 | rejects exactly the lists with a non-positive or repeated index |
| Feldman.SharesDetermineSecret | internal/tss/dkg/feldman_crypto_blst.go:168-201 | whichever k shares are used, they determine the constant term |
| Feldman.ChosenSmallest | internal/tss/dkg/feldman_crypto_blst.go:172-173 | the shares used come in order of index, and no index left out is smaller than a chosen one |
| Secrecy.FewerSharesHide | internal/tss/dkg/feldman_crypto_blst.go:46-71 | the other side of the threshold: for any fewer than k shares and every secret there is a polynomial of at most k coefficients with that constant term and exactly these shares |
| Feldman.CombineScalarSharesAtZero | internal/tss/dkg/feldman_crypto_blst.go:168-201 | for shares in any order: the exact error cases, success unless a partial sum is zero, and on success the constant term of every polynomial of degree below k through the shares |
| ThresholdElGamal.AddCiphertexts | internal/beast/bte/bte_blst.go:76-106 | aggregation succeeds exactly on non-empty lists of well-formed ciphertexts and adds component-wise |
| ThresholdElGamal.DecryptKeyG | internal/beast/bte/bte_blst.go:137-187 | the loop computes the threshold decryption, with the error cases of the code |
| ThresholdElGamal.DecryptionUnmasks | internal/beast/bte/bte_blst.go:137-187 | with t correct partial decryptions the mask is removed exactly |
| ThresholdElGamal.HomomorphicThresholdDecryption | internal/beast/bte/bte_blst.go:39-187 | aggregating any encryptions and combining any t correct partial decryptions gives g to the sum of the keys, whatever the randomness and whichever shares |
| LinearPprf.Validate | internal/beast/pprf/pprf_blst.go:34-51 | accepts exactly the parameters of the right shape |
| LinearPprf.BuildLinearParams | internal/beast/pprf/pprf_blst.go:257-284 | the loop yields all powers 1..2n+1 except n+1, and they pass validation |
| LinearPprf.PuncturedKeyAgrees | internal/beast/pprf/pprf_blst.go:125-243 | the punctured key evaluates to the PRF at every other point, using a parameter index in 2..2n+1 other than the omitted n+1, and is refused at its own |
| LinearPprf.EvalFromGKAgrees | internal/beast/pprf/pprf_blst.go:125-181 | the PRF value is x^(n+1+i) times the key in the exponent, and evaluating from g to the key gives the same |
| BatchRecovery.RecoverPRFAt | internal/beast/bte/batch_blst.go:28-86 | the loop computes the quotient of pairings, with the exact error cases |
| BatchRecovery.MemberTerm | internal/beast/bte/batch_blst.go:66-82 | for two members of a batch the parameter index used lies in 2..2n+1 and is never the omitted n+1, and the pairing is the other member's contribution |
| BatchRecovery.BatchPrfRecovery | internal/beast/bte/batch_blst.go:28-86 | from g to the sum of a batch's keys and the punctured keys, each member's own PRF value is recovered |
| BatchRecovery.RecoverXOR | internal/beast/bte/batch_blst.go:89-99 | every byte is masked by the pad, repeated |
| BatchRecovery.XorTwice | internal/beast/bte/batch_blst.go:89-99 | masking twice with one pad gives back the bytes |
| ThresholdIbe.CombineShares | internal/beast/ibe/ibe_blst.go:62-102 | the loop computes the combined key, with the exact error cases |
| ThresholdIbe.PrivateKeyRecovered | internal/beast/ibe/ibe_blst.go:45-102 | any k distinct derived shares combine to the identity's private key |
| ThresholdIbe.ThresholdIbeRoundTrip | internal/beast/ibe/ibe_blst.go:47-215 | what is encrypted to an identity under the group key opens with the key combined from any k shares |
| ThresholdIbe.WrongIdentity | internal/beast/ibe/ibe_blst.go:47-215 | a key combined for one identity opens what was encrypted for another if and only if the identities hash alike or the secret or the randomness is zero; otherwise it cannot open it |
| BatchedEnvelope.BatchedRoundTrip | cmd/beast-encrypt/main.go:102-149 | an envelope made by the batched branch opens to the same bytes, for every nonce, domain size and threshold, from any listing of enough correct shares |
| BatchedEnvelope.SealedAt | cmd/beast-encrypt/main.go:119-149 | an envelope goes to the height asked for and to the index of its nonce |
| BatchedEnvelope.SameIndexIff | cmd/beast-encrypt/main.go:119-122 | two nonces get the same index if and only if they differ by a multiple of the domain size |
| BatchedEnvelope.NextIndex | cmd/beast-encrypt/main.go:119-122 | nonce 0 gets index 1 and the next nonce the next index, wrapping at the domain size |
| BatchedEnvelope.StaleSharesExact | internal/payload/private_v1/blst_decrypter.go:133-152 | shares recorded for another ciphertext at the same position decrypt this one if and only if the randomness is equal or the secret is zero |
| ThresholdState.State.HandleThresholdShare | internal/payload/private_v1/threshold_state.go:51-67 | the first share of a participant wins, malformed ones are ignored, and correct shares keep the whole store correct |
| ThresholdState.State.ThresholdPrivateKey | internal/payload/private_v1/threshold_key_blst.go:7-32 | the cached key, or the combination of a listing of at least k recorded shares, then cached, or nothing; with correct shares the identity's true key exactly when it is cached or k shares are known, and the store stays correct |
| ThresholdState.State.DecryptBatched | internal/payload/private_v1/blst_decrypter.go:107-172 | the store after recording the own share first-writer-wins, the outcome case by case, and that a sealed envelope with enough correct shares recorded gives its plaintext |
| ThresholdState.SealedOpens | internal/payload/private_v1/blst_decrypter.go:143-172 | the round trip through the store: enough correct recorded shares, listed in any order, give the plaintext |
| ThresholdState.OpensOnlyAlone | internal/payload/private_v1/blst_decrypter.go:130-150 | over any run under one configuration a position holds at most one share, and nothing opens unless the threshold is 1 |
| ThresholdState.OpensIffAlone | internal/payload/private_v1/blst_decrypter.go:107-172 | the first sealed envelope at a position opens to its plaintext if and only if the threshold is 1 |
| ThresholdState.SecondEnvelope | internal/payload/private_v1/threshold_state.go:98-118 | of two envelopes at one position the first's share stays, and the second's key is recovered if and only if the randomness is equal or the secret is zero |
| ThresholdState.NearNoncesOpen | cmd/beast-encrypt/main.go:119-122 | envelopes for one height whose nonces are pairwise less than the domain size apart never share a position: with threshold 1 a node opens every one of them to its plaintext |
| ThresholdState.RefusedExactly | internal/payload/private_v1/blst_decrypter.go:108-148 | exactly which envelopes and configurations are refused as invalid, and exactly when the answer is not ready |
| ThresholdState.RecordsOnce | internal/payload/private_v1/threshold_state.go:98-118 | what is recorded stays as it is, and nothing is added but the own share at the position of the envelope for a height other than 0 |
| DkgRunner.Runner.EnsureLocalPoly | internal/tss/dkg/beast_runner_blst.go:247-283 | a polynomial is adopted once per epoch with its commitments and own share, always when no zero arises |
| DkgRunner.Runner.BumpEpoch | internal/tss/dkg/beast_runner_blst.go:211-245 | only to a later epoch and only before being done; everything of the old epoch but the key store and results in flight is dropped |
| DkgRunner.Runner.BroadcastMissingShares | internal/tss/dkg/beast_runner_blst.go:598-643 | sent are exactly the true shares of the other participants that have not acknowledged, all of them unless the library refuses to evaluate one |
| DkgLaws.DealingLaw | internal/tss/dkg/beast_runner_blst.go:598-643 | a dealer with a polynomial addresses a share to a participant if and only if it is another one and has not acknowledged |
| DkgLaws.DealtShareAccepted | internal/tss/dkg/beast_runner_blst.go:604-642 | what is sent is right: the addressee holding the commitments keeps a share that passes the Feldman check and acknowledges it |
| DkgLaws.AckStopsShares | internal/tss/dkg/beast_runner_blst.go:989-1012 | an acknowledgement stops the shares to its sender and to nobody else |
| DkgLaws.RetryDeals | internal/tss/dkg/beast_runner_blst.go:184-209 | a retry changes nothing, announces the commitments and deals to exactly those still missing |
| DkgLaws.CommitmentsAnswered | internal/tss/dkg/beast_runner_blst.go:789-793 | commitments are answered with the shares still missing |
| DkgRunner.Runner.OnCommitments | internal/tss/dkg/beast_runner_blst.go:826-862 | the loop's three outcomes: ignored, dealer disqualified, or first commitments kept |
| DkgLaws.CommitmentsLaw | internal/tss/dkg/beast_runner_blst.go:826-862 | commitments of the wrong number or with an unreadable point disqualify the dealer; good ones are kept if they are the first |
| DkgRunner.Runner.OnShare | internal/tss/dkg/beast_runner_blst.go:884-931 | the encrypted-share step of the state machine, message for message |
| DkgLaws.BadShareComplained | internal/tss/dkg/beast_runner_blst.go:884-931 | an encrypted share that is garbled or fails the check is complained about and not kept |
| DkgRunner.Runner.OnShareOpen | internal/tss/dkg/beast_runner_blst.go:1068-1128 | the opened-share step of the state machine, message for message |
| DkgLaws.BadOpeningDisqualifies | internal/tss/dkg/beast_runner_blst.go:1068-1106 | an opened share of the wrong size or failing the check disqualifies its dealer |
| DkgLaws.AckLaw | internal/tss/dkg/beast_runner_blst.go:989-1012 | an acknowledgement is recorded beside all others and withdraws the complaint of its sender against that dealer, and no other |
| DkgLaws.ComplaintLaw | internal/tss/dkg/beast_runner_blst.go:1014-1066 | the complaint of a third party is recorded beside all others; one against the node itself is answered with the true share of the complainant |
| DkgLaws.TimeoutLaw | internal/tss/dkg/beast_runner_blst.go:184-245 | a timeout leads to the next epoch with nothing kept of the old one, unless the node is done or the counter is used up |
| DkgLaws.CatchUpLaw | internal/tss/dkg/beast_runner_blst.go:766-786 | a message of a later epoch makes an unfinished node join that epoch and announce its new polynomial |
| DkgLaws.StaleIgnored | internal/tss/dkg/beast_runner_blst.go:748-786 | a message of an earlier epoch, under the own or an unknown index, or to a node that is done changes nothing |
| DkgLaws.TooFewDealers | internal/tss/dkg/beast_runner_blst.go:657-663 | too few remaining dealers lead to the next epoch, a new polynomial and its announcement |
| DkgRunner.Runner.Qualify | internal/tss/dkg/beast_runner_blst.go:664-689 | returns the dealers counted in if and only if every dealer not disqualified has commitments, a share, n - 1 acknowledgements and no complaint |
| DkgLaws.QualSizeExact | internal/tss/dkg/beast_runner_blst.go:664-693 | the number of qualified dealers is the size of 1..n without the disqualified ones |
| DkgLaws.FinalizeExact | internal/tss/dkg/beast_runner_blst.go:645-742 | a result is computed if and only if the node is not done nor computing one, enough dealers are left, the sum is accepted, and for every dealer not disqualified there are commitments, a share, n - 1 acknowledgements and no complaint |
| DkgRunner.SumKeys | internal/tss/dkg/beast_runner_blst.go:695-708 | adds up the listed dealers' first commitments; fails exactly if one does not decompress |
| DkgRunner.SumShares | internal/tss/dkg/beast_runner_blst.go:711-722 | adds up the listed dealers' shares; refused only if a partial sum is zero |
| DkgRunner.Runner.ComputeResult | internal/tss/dkg/beast_runner_blst.go:663-722 | a result exactly when all qualified dealers are ready, enough of them, readable and summable; the sums are those over the qualified dealers |
| DkgRunner.Runner.MaybeFinalize | internal/tss/dkg/beast_runner_blst.go:645-730 | the first locked region as a step of the state machine, including the epoch bump when too few dealers remain |
| DkgRunner.Runner.SaveKeyShare | internal/tss/dkg/beast_runner_blst.go:731 | the key store holds the share of the result in flight, nothing else changes |
| DkgRunner.Runner.Publish | internal/tss/dkg/beast_runner_blst.go:733-742 | the second locked region: published only if not done and still in the result's epoch |
| DkgLaws.PublishLaw | internal/tss/dkg/beast_runner_blst.go:734-742 | a result in flight is published if and only if the node is not done and still in its epoch; otherwise it is dropped and another may be computed |
| DkgRunner.Runner.Reopen | internal/tss/dkg/beast_runner_blst.go:146-166 | a new process: finished with what the key store holds, else the saved session, else fresh |
| DkgRunner.Runner.SaveSession | internal/tss/dkg/beast_runner_blst.go:366-384 | what is saved resumes to a node that keeps the invariant |
| DkgRunner.Runner.OnMessage | internal/tss/dkg/beast_runner_blst.go:748-811 | a delivered message takes exactly one step of the state machine, keeps the node invariant, never lowers the epoch, never changes a published result |
| DkgInvariant.StepKeeps | internal/tss/dkg/beast_runner_blst.go:146-283 | every event, restarts included, keeps: commitments of exactly threshold points from dealers, every held share verifies at the node's index however it arrived, every result published, stored or in flight is a share of the sum of its qualified dealers' polynomials |
| DkgInvariant.ProgressExact | internal/tss/dkg/beast_runner_blst.go:146-156 | an event lowers the epoch or changes a result if and only if it is a restart that finds a key share, configured for an earlier epoch or after finishing in another epoch or with another result |
| DkgInvariant.RestoreRoundTrip | internal/tss/dkg/beast_runner_blst.go:285-381 | taking up the saved session of an unfinished node restores it up to messages waiting for commitments |
| DkgInvariant.NewTicketSound | internal/tss/dkg/beast_runner_blst.go:695-722 | a computed share is the node's share of the sum of the qualified dealers' committed polynomials, and the group key commits to its constant term |
| DkgRuns.RunInvariant | internal/tss/dkg/beast_runner_blst.go:645-931 | the node invariant holds throughout every run, restarts included |
| DkgRuns.RunMonotone | internal/tss/dkg/beast_runner_blst.go:211-245 | as long as no restart regresses, the epoch never decreases, done is final and the result is written once |
| DkgRuns.ResultProvenance | internal/tss/dkg/beast_runner_blst.go:645-742 | every result of a run, also one read back from the key store, was computed at one step from the evidence of one epoch |
| DkgLaws.ResultWitnessed | internal/tss/dkg/beast_runner_blst.go:645-742 | for every result of a run an earlier state held its evidence: enough dealers not disqualified, each with commitments, a share, n - 1 acknowledgements and no complaint |
| DkgLaws.ComplaintBlocks | internal/tss/dkg/beast_runner_blst.go:674-677 | while a complaint stands, no result of that epoch that counts the dealer in is computed before the complainant acknowledges the dealer or its share is opened and verifies |
| DkgLaws.ComplaintFiled | internal/tss/dkg/beast_runner_blst.go:1014-1037 | a delivered complaint stands, or the node has left the epoch |
| DkgProgress.DeliveryCompletes | internal/tss/dkg/beast_runner_blst.go:645-811 | progress: with two or more participants, once the commitments, shares and acknowledgements of honest participants are in, in any order and however often, the node has computed the result of all dealings, with the key g to the sum of the secrets and the sum of its shares, and has acknowledged every dealer |
| DkgProgress.EquivocationSplits | internal/tss/dkg/beast_runner_blst.go:826-862 | two nodes shown different polynomials by one dealer both finish, and with one group key if and only if the constant terms are equal |
| DkgProgress.AloneNever | internal/tss/dkg/beast_runner_blst.go:748-811 | a committee of one never computes a result, whatever happens |
| DkgRuns.RestartFromStore | internal/tss/dkg/beast_runner_blst.go:146-156 | a share found at restart could have been published then if and only if it is the published one, or none is and the epoch has not changed since it was computed |
| DkgRuns.StaleRestart | internal/tss/dkg/beast_runner_blst.go:729-738 | any run with a result in flight extends to one that saves it, leaves its epoch, crashes and comes back finished with it in an earlier epoch |
| DkgRuns.StaleRestartHappens | internal/tss/dkg/beast_runner_blst.go:729-738 | such a run from a fresh node, with two participants and threshold one |
| DkgJointKey.JointCorrectness | internal/tss/dkg/beast_runner_blst.go:645-742 | results computed from the same qualified dealers and commitments have one group key g^s, and any threshold of their shares recombine to s, however the dealers chose |
| DkgProtocol.OnShareOpenTrusts | internal/tss/dkg/beast_runner_blst.go:1068-1106 | an honest dealer's opened share never disqualifies it |
| DkgProtocol.TrueShareAccepted | internal/tss/dkg/beast_runner_blst.go:884-961 | a true share of a dealer with known commitments is kept and acknowledged, and the receiver's complaint withdrawn |
| DkgProtocol.ComplaintResolved | internal/tss/dkg/beast_runner_blst.go:1014-1128 | the dealer's answer to a complaint makes everyone holding its true commitments drop it, and the complainant ends up with the share and acknowledges it |
| DkgAcks.EveryoneAcked | internal/tss/dkg/beast_runner_blst.go:664-689 | a result is computed only when every other participant has acknowledged the node's own dealing |
| DkgAcks.AckInvariant | internal/tss/dkg/beast_runner_blst.go:932-1012 | in every run of the whole system, restarts and failed saves included, acknowledgements tell the truth: whoever sent one has the dealer's commitments of that epoch, has finished or has moved on |
| DkgAcks.FinishedDealerKnown | internal/tss/dkg/beast_runner_blst.go:645-742 | once a dealer has finished, nobody honest can be misled by what it announces later in that epoch, such as a polynomial drawn anew after a restart |
| DkgProtocol.SystemInvariant | internal/tss/dkg/beast_runner_blst.go:748-811 | in every run of the whole system honest nodes keep their invariant, hold only true commitments of honest dealers until they finish, and every result they hold was computed from these |
| DkgProtocol.NoHonestDealerDisqualified | internal/tss/dkg/beast_runner_blst.go:813-864 | no honest node ever disqualifies an honest dealer or computes a result without it, whatever the others send and whenever nodes restart |
| DkgProtocol.EveryoneQualifies | internal/tss/dkg/beast_runner_blst.go:645-742 | if all follow the code, every finisher's qualified set is 1..n |
| DkgProtocol.HonestKeyGeneration | internal/tss/dkg/beast_runner_blst.go:645-742 | if all follow the code, all results of an epoch, published or found in a key store, have the key g^s for s the sum of the secrets drawn in it, and any threshold of their shares recombine to s |
| SenderQueue.PromoteArranges | internal/payload/plaintext_v1/pool.go:71-82 | promotion ends in the one canonical arrangement: nonces 0, 1, .. up to the first gap pending in order, the rest waiting beyond it |
| SenderQueue.InsertArranges | internal/payload/plaintext_v1/pool.go:64-95 | an arrival is accepted exactly when its nonce is new, and the arrangement stays canonical |
| SenderQueue.AfterArranged | internal/payload/plaintext_v1/pool.go:53-96 | after any arrivals, repeated or not, a sender's queue is the canonical arrangement of the first arrivals of its nonces |
| SenderQueue.Confluence | internal/payload/auction_bid_v1/pool.go:61-109 | transactions with distinct (sender, nonce) leave the same state in whatever order they arrive |
| SenderQueue.NothingLost | internal/payload/auction_bid_v1/pool.go:61-109 | the valid arrivals are exactly the pending and waiting transactions, each in one place |
| SenderQueue.HeldExactly | internal/payload/plaintext_v1/pool.go:53-96 | after any arrivals, repeated nonces included, a transaction is held if and only if it is the first acceptable one of its sender and nonce, and ready if and only if all smaller nonces have arrived |
| SenderQueue.ReplyExactly | internal/payload/auction_bid_v1/pool.go:61-109 | the verdict on an arrival in terms of what arrived before: invalid, old or duplicate, ready or waiting |
| NoncePool.Pool.Add | internal/payload/plaintext_v1/pool.go:53-96 | after offering a transaction every sender's queue is again what the pool's history determines, with the right verdict |
| NoncePool.Pool.PromoteReady | internal/payload/plaintext_v1/pool.go:72-82 | the promotion loop terminates, does the whole promotion and leaves other senders alone |
| NoncePool.Pool.Get | internal/payload/plaintext_v1/pool.go:99-112 | the stable sort by value of the senders' lists in visiting order, cut to n |
| ReadyOrder.ServedIsBest | internal/payload/plaintext_v1/pool.go:99-112 | what is served is in order of value and nothing left out is better |
| ReadyOrder.VisitingOrderMatters | internal/payload/plaintext_v1/pool.go:98-112 | for every cap n, the result depends on the order in which senders are visited if and only if two senders are tied at a value that fewer than n ready transactions exceed, or at any value when there is no cap |
| Builder.FilterByWindowAndThreshold | internal/payload/builder.go:176-214 | keeps, in order, exactly the payloads neither late nor below their type's threshold |
| Builder.CandidatesExact | internal/payload/builder.go:176-214 | the candidates of a type are exactly its payloads that are not late, with bids of at least minBid and plaintext fees of at least minFee, as often as the pool lists them |
| Builder.TakeDeterministic | internal/payload/builder.go:258-286 | the best need of the candidates, or all when the limit is not positive |
| Builder.BeforeExact | internal/payload/builder.go:262-281 | the comparison is: higher key, or equal keys and the hash that is smaller at the first difference or a proper prefix |
| Builder.PrepareProposal | internal/payload/builder.go:30-67 | the loop yields the per-type selection up to the cap |
| Builder.ProcessProposal | internal/payload/builder.go:140-173 | accepts exactly the blocks whose types are listed, in order, with non-increasing keys within a type |
| Builder.PreparedValid | internal/payload/builder.go:30-173 | the validator accepts every block the builder makes, and it is within the cap |
| Builder.PreparedBest | internal/payload/builder.go:46-66 | in terms of the pools and the policy alone: at most maxN items, or 1024 when that is not positive; of each type the best eligible payloads, at most window of them, best first; and a payload is left out only if its type is not listed, has window many, or the types up to it fill the block |
| Builder.PreparedIndependent | internal/payload/builder.go:30-67 | permuting what the pools list does not change the block when (key, hash) pairs are distinct |
| Dfba.SelectPerType | internal/dfba/dfba.go:192-217 | the fallback loop yields the per-type selection up to the cap |
| Dfba.SolveDeterministic | internal/dfba/dfba.go:52-170 | the solver's branches and loops yield the specified selection |
| Dfba.PrepareProposalDfba | internal/payload/builder.go:72-133 | the path through the solver yields the specified block |
| Dfba.DfbaDirect | internal/payload/builder.go:72-133 | the detour through solver items selects what the solver would select from the candidates themselves, ties included |
| Dfba.DfbaFallback | internal/dfba/dfba.go:80-97 | when bids or plaintext payloads have nothing eligible to offer, or maxN is 1, both paths build the same block, ties included |
| Dfba.DfbaMatched | internal/dfba/dfba.go:86-147 | otherwise equally many bids and plaintext payloads, at least one pair, within the window and the cap, the best of each; and no fewer than one flow, the window or half the cap allows |
| Dfba.UnpairedExact | internal/dfba/dfba.go:80-97 | the solver falls back if and only if one of the two flows has nothing eligible to offer or maxN is 1 |
| Dfba.DfbaOthers | internal/dfba/dfba.go:140-166 | of every other type the best, at most window of them, none once the types up to it would pass the cap, and fewer only when the window or the cap is reached |
| Dfba.DfbaValid | internal/payload/builder.go:72-173 | the validator accepts what the solver path builds |
| Dfba.DfbaSize | internal/dfba/dfba.go:140-166 | at most max + 2k items, and at most max if and only if the types up to the last flow, each taking its full share, fit |
| DualFlow.SolveSize | internal/dfba/dfba.go:140-166 | the same bound and exact condition for the solver by itself |
| DualFlow.FlowsFirstFit | internal/dfba/dfba.go:140-166 | with both flows ahead of all other types the cap is respected |
| DualFlow.CapOverrun | internal/dfba/dfba.go:140-166 | another type ahead of the flows can double a cap of two |
| QbftState.State.Process | internal/consensus/qbft/state.go:33-206 | one step of the voting machine, coordinates included; no vote map is written before it is made |
| QbftState.QuorumInvariant | internal/consensus/qbft/state.go:33-206 | in every run the counted votes are later votes for the latest accepted proposal, by the leader if there is one, and reach the thresholds of the phase |
| QbftState.PreparedMeans | internal/consensus/qbft/state.go:66-146 | prepared means prepares of two distinct senders for the proposal since it was made; committed also a commit |
| QbftState.RunFollows | internal/consensus/qbft/state.go:38-177 | over every run the round and the record of who asked for which round are those of the messages |
| QbftState.RoundMoves | internal/consensus/qbft/state.go:147-177 | a view change or new view moves the round if and only if its round is higher and, for a view change, its sender is new for that round and another one asked for it before; then proposal and votes are cleared; every other message sets the round to its own, and nothing else makes a busy machine idle |
| QbftState.PhaseExact | internal/consensus/qbft/state.go:33-206 | over every run, from the messages alone: idle if and only if no proposal is in force, prepared if and only if two senders prepared it since, committed if and only if a commit for it came after that |
| QbftState.ReplyExact | internal/consensus/qbft/state.go:33-206 | exactly which messages are refused after a run, and which count as a transition |
| QbftVerifier.BasicVerifier.Check | internal/consensus/qbft/verifier.go:107-204 | the verdict and the effect on the replay filter, check by check in order |
| QbftService.NeverPrepared | internal/consensus/service.go:184-228 | if ids are filtered outright, or all messages of an id carry one height, no vote is ever counted, the phase never passes preprepared and each id is processed at most once |
| QbftService.FilterExact | internal/consensus/qbft/verifier.go:37-56 | over any run the filter remembers exactly the last height at which each id got through, under any policy and guard |
| QbftService.ServiceExact | internal/consensus/service.go:184-228 | over any run the messages processed are exactly those whose id is new or whose height lies below or beyond the window of the last one let through, and that pass the other checks; the machine has run on just these |
| QbftService.ChecksExact | internal/consensus/qbft/verifier.go:107-204 | the checks before and after the filter and the guard, limit by limit |
| QbftService.ProcessedIff | internal/consensus/service.go:184-228 | one more message is processed if and only if it is complete and from a permitted sender, has no signature of 1 to 31 bytes, lies within the general limits and those for its kind, is fresh and no older vote than the guard |
| QbftService.ProcessedWithin | internal/consensus/service.go:184-228 | whatever is received, every processed message lies within all these limits |
| QbftService.PreparedNeedsJumps | internal/consensus/qbft/state.go:66-104 | every run past the first phase contains a proposal and prepares of two distinct permitted senders for it, each jumping away from the last message of the id let through |
| QbftService.RejectedMessagesHelp | internal/consensus/qbft/verifier.go:149-182 | for every window, a run that ends prepared although all processed messages have one height, because rejected ones moved the filter |
| QbftService.FallingHeightsPass | internal/consensus/qbft/verifier.go:47-56 | with a window, acceptable messages of one id at falling heights are all processed |
| QbftService.ProgressNeedsWindow | internal/consensus/qbft/verifier.go:107-164 | for every policy, guard and leader, some run gets past the first phase if and only if a replay window is set, two senders are permitted and so is the leader; and then some run commits |
| Frames.PutUint | internal/state/file_store.go:51-57 | writes the big-endian bytes at the offset and nothing else |
| Frames.FrameHeader | internal/state/file_store.go:48-57 | the buffer filled by offsets is the header |
| Frames.FrameRoundTrip | internal/tss/dkg/beast_session_store.go:78-139 | a frame reads back whatever follows it in the file |
| Frames.UnframeExact | internal/tss/dkg/beast_session_store.go:107-139 | exactly which files read as a frame, byte by byte, and what is read: magic number, length, checksum; the version and what follows the body are ignored |
| FileStore.LastStateRoundTrip | internal/state/file_store.go:38-104 | the last-state codec round-trips for all pairs of 64-bit integers |
| FileStore.HeaderLayout | internal/state/file_store.go:30-57 | the fixed bytes of both headers: magic number, version 1, reserved zero, and length 16 for a state |
| FileStore.DecodeExact | internal/state/file_store.go:80-104 | exactly which files read as a state, and the height and round read, byte by byte |
| FileStore.CorruptBodyRejected | internal/state/file_store.go:94-97 | a state or session whose body does not match the checksum of its header is rejected |
| FileStore.TornStateRejected | internal/state/file_store.go:80-104 | every strict prefix of a state file is rejected |
| FileStore.SessionRoundTrip | internal/tss/dkg/beast_session_store.go:64-145 | the session frame round-trips if and only if the body's length fits 32 bits, and then rejects every strict prefix |
| FileStore.DecodeSessionExact | internal/tss/dkg/beast_session_store.go:107-139 | exactly which files read as a session, and the body read |
| FileStore.FilesApart | internal/tss/dkg/beast_session_store.go:27-30 | neither kind of file is taken for the other |
| CrashSafe.LoadsLast | internal/state/file_store.go:38-143 | after any attempts, each cut short at any step and torn in any way, loading gives what the last promoted attempt wrote |
| CrashSafe.BackupIsPrevious | internal/state/file_store.go:66-77 | when every backup is made, a main file is the last promoted save and the backup the one promoted before it |
| CrashSafe.CorruptMain | internal/state/file_store.go:124-143 | a main file that went bad costs one save at most: loading gives what the attempt promoted before the last one wrote |
| FileStore.StateCrashSafe | internal/state/file_store.go:107-143 | so for states: a completed save is only ever replaced by a later one, as a whole |
| FileStore.StateFallback | internal/state/file_store.go:124-143 | so for states: with an unreadable main file the state before the last is loaded |
| FileStore.SessionCrashSafe | internal/tss/dkg/beast_session_store.go:147-164 | so for sessions |
| FileStore.Store.WriteFileAtomic | internal/state/file_store.go:38-78 | the disk is what the attempts made so far determine; success exactly when all steps took effect |
| FileStore.Store.LoadLastState | internal/state/file_store.go:125-143 | the main file if it reads, else the backup if it reads, else nothing |

## Left out

- Curve, hash, AES-GCM, ed25519, X25519 and CRC internals: uninterpreted or replaced by discrete logarithms and authenticated messages.
- Secrecy against computation (of encryption, commitments and keys) and adversarial security: only functional correctness and the hiding of a secret by too few shares are stated.
- Feldman.CombineScalarSharesAtZero: success is proved unless a partial sum is zero; whether the library refuses a zero is not fixed.
- Feldman.EvalPolyAt: nil coefficients are not modelled; a coefficient is always a scalar.
- DkgRunner.Runner.OnMessage: the session name and signature checks are taken as passed, and what is broadcast is bounded by, not equal to, what the step sends, because the library may refuse to evaluate a share.
- DkgRunner.Runner.Reopen: the session file is there and readable, as it is when every save to it succeeds; without it an unfinished node would start over, with another polynomial, in an epoch it may already have dealt in. Scalars in it that fail to decode are not modelled.
- DkgProgress.DeliveryCompletes: progress is stated for a fault-free epoch, without complaints, openings, timeouts or a refusal of the library to add; with faults the laws in `DkgLaws` say what each event leads to. That the network delivers is a hypothesis.
- BatchRecovery.RecoverPRFAt: requires that no punctured key's index takes the parameter index outside the table, where the code would panic; `MemberTerm` proves that members of a batch never do.
- SimulateFeldmanDKG (the same sums without a network, a helper of the repository's tests), AddKeys (only called by tests) and the setup from fresh randomness (the nodes derive it from the group key).
- Share publication, markShareSent, recordLocalShare and envelope decoding in private_v1: bookkeeping around what is modelled.
- Private payloads inside the builder: decrypted items change their type after bucketing, so acceptance does not hold in general; the model has no such mapping.
- Dfba.DfbaFallback, Dfba.DfbaMatched: hashes of the candidates of one type have equal length, as SHA-256 hashes have; with different lengths the solver's comparison is not an order.
- NoncePool.Pool.Add: nonces are unbounded, so the wrap of a 64-bit expected nonce is not modelled; hashes and metrics are left out.
- The container, arrival times and clocks: which payloads are late is a parameter.
- QbftState.State.Process: rounds are unbounded; logs and metrics are left out.
- QbftService.ServiceExact: heights and rounds are unbounded; the write-ahead log is only the fixed last vote read at start, and appending to it, broadcasting and the block builder hook are not part of this model.
- FileStore.Store.WriteFileAtomic: directory syncs have no effect in the model, and the file system is assumed to apply the renames of a save in order.
- FileStore.SessionRoundTrip: the JSON inside the body is uninterpreted.
- HTTP API, proxy, p2p transport, bus, lifecycle, metrics, gates, limiters and the placeholder engines: plumbing or easy counting facts.
