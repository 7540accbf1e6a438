# Private matching: committee, matchers and settlement

This project models the private-matching pipeline from secret sharing to
settlement and proves what it is for.

1. **Secret sharing** (`Field`, `Polynomial`, `Shamir`, `Secrecy`): arithmetic
   modulo any prime `p`, the loops of `shamir.ts`, reconstruction from any `t`
   shares, and the information theorem for fewer.
2. **Matching** (`Matcher`, `MatcherTheorems`, `Pairing`, `Separator`, `Priced`):
   the two-pointer netting matcher and the priced matcher, with exact counts,
   maximality, optimality by exchange, and rounding bounds.
3. **The committee protocol** (`Session`, `Protocol`, `SessionProofs`,
   `ProtocolProofs`, `Runs`, `Timers`, `Signing`, `Failures`, `Refinement`,
   `Committee`): submissions, manual matches, overlapping timer ticks, node
   replies or silence, and signatures as interleaved atomic steps.
   `Committee.CommitteeState` is the state object with its handlers; each handler
   is proved to take one protocol step.
4. **Persistence and settlement** (`JobKeys`, `Tables`, `Settlement`,
   `SettlementProofs`, `RfqProofs`, `SettlementTheorems`, `Admission`, `Storage`,
   `Integrity`, `Delivery`, `Acceptances`, `Scenarios`, `Store`): the committee,
   the API handlers, persist calls and settler polls as one state machine over the
   tables, down to single statements. A crash is a task whose next step never
   comes. `Store.Store` holds the handlers as they run.

Main theorems: `Shamir.ShareRoundTrip`, `Secrecy.FewerRevealNothing`,
`MatcherTheorems.ExactCount`, `Pairing.NettingOptimal`, `Priced.GreedyMaximal`,
`Runs.OneRoundPerSession`, `Runs.FaultTolerance`, `Runs.QuorumIntersection`,
`Signing.SignedAtAStep`, `Timers.TimerTickExactly`,
`Refinement.SignedBatchesAreTrue`, `Delivery.JobsAreTrue`,
`SettlementTheorems.ExactlyOnceQueueing`, `SettlementTheorems.PathsExclude` with
`Scenarios.BothPathsReached`, `SettlementTheorems.RfqAdmission`,
`Admission.SettledQualified`, `Storage.MatchedWithIsInvolution`,
`Storage.OneJobPerId`.

Assumptions, each an explicit hypothesis: `p` is prime and larger than the number
of nodes; node ids differ; the runtime's sort permutes into ascending order (ties
either way); a new session gets an id no session has; a node answers under its own
id. Amounts behind intents are below `p` (`Refinement.InField`).
`Admission.GateCloses` assumes that session ids are not empty: the gate reads an
empty one as none. The statements about storage and about one batch or one job per
id assume, of the ids they speak of and of no others, that they are not submitted
again after their session has closed (`Runs.Reenters`, `Storage.StaysPut`). The
code does not enforce this: a repeated POST /v1/intents inserts nothing and
forwards the same id again, and `Scenarios.ResubmittedInTwoBatches` shows what
follows.

Where the code does less than its comments say:

- The settler and `/v1/rfq/settle` are described as mutually exclusive per intent.
  An id can have both only if its own `intents` row is inserted when the committee
  already has it (`SettlementTheorems.QueuedRowExactly`), every run with a job for
  an id without a row can go on to both (`SettlementTheorems.LateRowBreaks`), and
  such runs exist (`Scenarios.BothPathsReached`). A reused idempotency key is one
  way there (`Scenarios.KeyReuseReached`).
- Keys are split at the separator without escaping: an intent is safe among
  plainly named ones if and only if its own names do not contain it
  (`Separator.SeparatorExactly`).
- The priced matcher divides by the second party's amount and raises an exception
  for 0 (`Priced.ThrowsExactly`): an intent can cause that if and only if it
  spends nothing of one asset and wants another (`Priced.RaisesExactly`).
- The accept handler reports one accepted quote per intent but looks at the quote
  id: it keeps that if and only if no other quote of the intent is accepted
  (`Acceptances.KeepsOnePerIntentExactly`), and two can be
  (`Acceptances.TwoQuotesReached`).
- The submit handler asks for one share per node but only counts them: an accepted
  intent fails the round of all if and only if its shares do not name two
  different nodes (`Failures.SubmissionExactly`, `Scenarios.MisaddressedReached`).

## Model

| member | source | states |
|---|---|---|
| `Shamir.ModPIsRemainder` | packages/mpc-crypto/src/shamir.ts:7-9 | the double remainder, with the sign rule of the source language, is the non-negative residue for every integer |
| `Field.GcdExactly` | packages/mpc-crypto/src/shamir.ts:12-21 | the gcd that the Euclid loop keeps has exactly the common divisors of its arguments as its divisors |
| `Shamir.EuclidStep` | packages/mpc-crypto/src/shamir.ts:15-19 | one turn of the Euclid loop keeps the gcd and both Bezout congruences, and the remainder strictly shrinks |
| `Shamir.ModInv` | packages/mpc-crypto/src/shamir.ts:12-21 | terminates; returns the inverse in [0, p) for every `a` not divisible by `p` and 0 otherwise |
| `Field.InverseUnique` | packages/mpc-crypto/src/shamir.ts:12-21 | two inverses of the same number that lie in [0, p) are equal |
| `Shamir.RandomFieldElement` | packages/mpc-crypto/src/shamir.ts:31-38 | returns the residue of the first draw below the limit; every draw before it was at or above the limit |
| `Shamir.RejectionSamplingUniform` | packages/mpc-crypto/src/shamir.ts:23-38 | every residue is hit by exactly floor(2^256 / p) of the accepted draws |
| `Shamir.Horner` | packages/mpc-crypto/src/shamir.ts:52-55 | the reducing Horner loop evaluates the polynomial modulo p |
| `Shamir.ShamirSplit` | packages/mpc-crypto/src/shamir.ts:44-58 | rejects exactly the invalid thresholds; otherwise share i is the point at i+1 of the polynomial with the secret as constant term |
| `Shamir.WeightFactors` | packages/mpc-crypto/src/shamir.ts:66-72 | the inner loop computes numerator and denominator of one Lagrange weight at 0 modulo p |
| `Shamir.ShamirReconstruct` | packages/mpc-crypto/src/shamir.ts:63-76 | the nested loops compute the Lagrange interpolation at 0 modulo p for every list of shares |
| `Polynomial.InterpolateFits` | packages/mpc-crypto/src/shamir.ts:40-58 | through any points at distinct abscissas goes a polynomial with as many coefficients as points |
| `Polynomial.FitsUnique` | packages/mpc-crypto/src/shamir.ts:40-58 | at most one polynomial with that many coefficients goes through them |
| `Polynomial.LagrangeAtZero` | packages/mpc-crypto/src/shamir.ts:60-76 | Lagrange interpolation at 0 of the values of a polynomial with no more coefficients than points is its value at 0 |
| `Shamir.ReconstructsConstant` | packages/mpc-crypto/src/shamir.ts:60-76 | enough points of one polynomial, in any order, give back its constant term |
| `Shamir.ShareRoundTrip` | packages/mpc-crypto/src/shamir.ts:44-76 | any t or more of the split shares, in any order, reconstruct the secret modulo p, for every choice of coefficients |
| `Secrecy.ExactlyOneExplanation` | packages/mpc-crypto/src/shamir.ts:40-58 | for any t-1 shares and any candidate secret a coefficient vector explains them if and only if it is one particular vector |
| `Polynomial.FittingSize` | packages/mpc-crypto/src/shamir.ts:40-58 | vectors of n field elements that take given values at k distinct points number exactly p to the power n - k |
| `Secrecy.SplitsAreExplanations` | packages/mpc-crypto/src/shamir.ts:44-58 | a coefficient vector explains the shares if and only if the split with it yields them |
| `Secrecy.FewerRevealNothing` | packages/mpc-crypto/src/shamir.ts:40-58 | whatever k shares below the threshold are seen, every secret is split into them by exactly p to the power t - 1 - k coefficient vectors |
| `Matcher.BuildGroups` | apps/mpc-committee/src/coordinator.ts:19-25 | the loop groups the intents by key, keeping first-occurrence order of keys and submission order inside a group |
| `Matcher.GroupAt` | apps/mpc-committee/src/coordinator.ts:19-25 | an intent stands in its group after as many others as of its key came before it |
| `Matcher.KeysGrow` | apps/mpc-committee/src/coordinator.ts:20-24 | a later intent only adds its key, at the end, if the key is new |
| `Matcher.Scan` | apps/mpc-committee/src/coordinator.ts:40-66 | the index loop refines the recursive two-pointer scan |
| `Matcher.MatchIntents` | apps/mpc-committee/src/coordinator.ts:13-70 | the whole loop refines the specification that the theorems below are about |
| `Matcher.SplitRoundTrip` | apps/mpc-committee/src/coordinator.ts:22-32 | splitting a key gives the two asset names back if and only if neither contains the separator |
| `Separator.TwoIntents` | apps/mpc-committee/src/coordinator.ts:30-66 | any two intents with different ids, of the same or different kinds, are matched if and only if one key, split and turned round, equals the other |
| `Separator.StrangerIsMatched` | apps/mpc-committee/src/coordinator.ts:31-33 | whatever the names of an intent, it is matched with the intent its split key asks for, and the two are complementary if and only if neither name contains the separator |
| `Separator.SeparatorExactly` | apps/mpc-committee/src/coordinator.ts:30-67 | every match of every list of plainly named intents with one more is genuine if and only if the names of that one do not contain the separator |
| `MatcherTheorems.NoIdTwice` | apps/mpc-committee/src/coordinator.ts:40-66 | for any input, repeated ids included, no id occurs in two matches or on both sides of one |
| `MatcherTheorems.MatchIdsSubmitted` | apps/mpc-committee/src/coordinator.ts:40-66 | every matched id belongs to a submitted intent |
| `MatcherTheorems.MatchesGenuine` | apps/mpc-committee/src/coordinator.ts:43-61 | every match names two submitted intents of opposite assets, the first side the spender of the input asset, for an amount that is the one's and at most the other's |
| `MatcherTheorems.CrossPairing` | apps/mpc-committee/src/coordinator.ts:30-67 | over both visits match k names the k-th smallest intents of two opposite groups: the first id from the group seen first, the assets of that intent, the smaller amount |
| `MatcherTheorems.ExactCount` | apps/mpc-committee/src/coordinator.ts:30-67 | opposite groups give exactly as many matches as the smaller one has intents, a same-asset group of n exactly floor(n/2), whatever the tie order |
| `MatcherTheorems.NothingComplementaryLeft` | apps/mpc-committee/src/coordinator.ts:42-66 | of any two complementary intents at least one is matched |
| `Pairing.SortedPairingLargest` | apps/mpc-committee/src/coordinator.ts:36-66 | among all one-to-one pairings of the same intents the sorted one has the largest total of min(a, b) |
| `Pairing.SortedPairingClosest` | apps/mpc-committee/src/coordinator.ts:36-66 | among the same pairings the sorted one also has the smallest total distance between the two amounts |
| `Pairing.NettingOptimal` | apps/mpc-committee/src/coordinator.ts:36-66 | the matches the code produces for two opposite groups reach both optima over all pairings of the intents it matches |
| `Priced.CrossesExactly` | apps/mpc-committee/src/coordinator.ts:109-140 | for non-negative terms a pair crosses if and only if assets are opposite, amounts agree with the floored price and both minimums and B's limit hold |
| `Priced.ThrowsExactly` | apps/mpc-committee/src/coordinator.ts:117-127 | the division by zero is raised if and only if B spends nothing and every earlier check passes |
| `Priced.CrossingSound` | apps/mpc-committee/src/coordinator.ts:109-140 | a match moves exactly A's X and B's Y, meets both minimums, gives A less than one unit below its limit, B at least its limit, and the limits cross up to rounding |
| `Priced.MatchPricedIntents` | apps/mpc-committee/src/coordinator.ts:144-161 | the nested loops refine the greedy pass; the exception of a pair ends it |
| `Priced.TurnExactly` | apps/mpc-committee/src/coordinator.ts:144-158 | a free intent is matched with the first later free one that crosses with it and only those two become used; if that one divides by zero the pass ends with the exception |
| `Priced.TurnIdle` | apps/mpc-committee/src/coordinator.ts:144-158 | a turn of a used intent, or of one that no later free intent crosses with or divides by zero for, changes nothing |
| `Priced.GreedyMaximal` | apps/mpc-committee/src/coordinator.ts:144-161 | every result is a genuine pair, no id is used twice, and no ordered pair left over crosses |
| `Priced.GreedyNoSelfMatch` | apps/mpc-committee/src/coordinator.ts:147-157 | with distinct ids no result pairs an id with itself |
| `Priced.GreedyRaises` | apps/mpc-committee/src/coordinator.ts:144-161 | the pass raises the exception if and only if it gets to two free intents that divide by zero; the second then spends nothing |
| `Priced.RaisesExactly` | apps/mpc-committee/src/coordinator.ts:144-161 | an intent can make the pass over otherwise harmless intents raise the exception if and only if it spends nothing of one asset and wants another |
| `Session.ThresholdIsAllButAThird` | apps/mpc-committee/src/remote-coordinator.ts:43-45 | ceil(2n/3) is n - floor(n/3), is at least 2 from n = 2 on, and two quorums overlap in a third |
| `SessionProofs.AfterDecryptOk` | apps/mpc-committee/src/remote-coordinator.ts:69-108 | what follows the decrypt replies either fails the session or keeps it `Matching` with no decrypted share left and matches that use session intents once; slots and their order stay |
| `SessionProofs.AfterSignOk` | apps/mpc-committee/src/remote-coordinator.ts:111-125 | what follows the signatures ends the round: failed, or signed with a quorum of different committee nodes |
| `SessionProofs.SignedExactly` | apps/mpc-committee/src/remote-coordinator.ts:111-125 | the session is signed if and only if the replies of at least ceil(2n/3) nodes came in; its signers are exactly those nodes, its batch id and matches those the round waited with |
| `SessionProofs.SignersInOrder` | apps/mpc-committee/src/remote-coordinator.ts:114-117 | the signers stand in node order |
| `Signing.SignedAtAStep` | apps/mpc-committee/src/remote-coordinator.ts:111-125 | in every run every signed batch was signed at one step, remotely by exactly the nodes that replied there and at least ceil(2n/3) of them, or in one process by all |
| `Signing.WaitingIdGiven` | apps/mpc-committee/src/remote-coordinator.ts:107-125 | in every run a round waits for signatures under the batch id made when its shares came in |
| `Signing.RoundsNeedTwo` | apps/mpc-committee/src/coordinator-server.ts:98-136 | in every run a session that has left `open` has two or more intents |
| `SessionProofs.InProcessOk` | apps/mpc-committee/src/coordinator.ts:186-259 | the in-process round ends the session, failed or signed with exactly the list of all nodes |
| `ProtocolProofs.SubmitKeeps` | apps/mpc-committee/src/state.ts:41-68 | adding an intent keeps at most one session open and touches no session that has left `open` |
| `ProtocolProofs.SnapshotAtMostOne` | apps/mpc-committee/src/state.ts:79-81 | the snapshot a timer tick walks through holds at most one session |
| `Timers.FirstOpenExactly` | apps/mpc-committee/src/state.ts:41-47 | the session found is the first open one of the list; none is found if and only if none is open |
| `Timers.OpenSessionsExactly` | apps/mpc-committee/src/state.ts:79-81 | a session is listed if and only if it is open |
| `Timers.OpenSessionsInOrder` | apps/mpc-committee/src/state.ts:79-81 | in the order of creation |
| `Timers.TimerTickExactly` | apps/mpc-committee/src/coordinator-server.ts:124-136 | a tick puts the open session with two or more intents into `Matching` and starts its wait, and changes nothing if there is none |
| `Timers.LocalTickExactly` | apps/mpc-committee/src/server.ts:192-207 | the in-process tick runs that session's round to its end, signed or failed, and changes nothing if there is none |
| `Timers.ManualMatchExactly` | apps/mpc-committee/src/coordinator-server.ts:98-105 | a manual match starts the wait of an open session with two or more intents, and changes nothing otherwise |
| `Timers.LocalMatchExactly` | apps/mpc-committee/src/server.ts:140-156 | the in-process match runs the round of such a session to its end, and changes nothing otherwise |
| `Timers.ResumeExactly` | apps/mpc-committee/src/coordinator-server.ts:124-136 | a tick that goes on after its round visits no further session |
| `Timers.SubmitExactly` | apps/mpc-committee/src/state.ts:41-68 | a well-formed intent goes into the open session, or a new one, replaces what was there under its id and is linked; any other changes nothing |
| `Timers.ShareDeliveryExactly` | apps/mpc-committee/src/server.ts:59-86 | a delivery replaces the ciphertext of the one slot it names, and changes nothing without it |
| `ProtocolProofs.StepKeeps` | apps/mpc-committee/src/coordinator-server.ts:77-136 | every step of every interleaving keeps the protocol invariant and undoes nothing that is settled |
| `Runs.OneRoundPerSession` | apps/mpc-committee/src/remote-coordinator.ts:52-125 | in every run: at most one open session, no session with two rounds, intents frozen after `open`, a batch exactly when signed, nothing decrypted in a signed session, a signed batch never replaced |
| `Runs.FaultTolerance` | apps/mpc-committee/src/remote-coordinator.ts:43-125 | with at most floor(n/3) nodes silent and at most floor(n/3) not signing, n >= 2, the round ends signed |
| `Runs.DecryptPhaseSucceeds` | apps/mpc-committee/src/remote-coordinator.ts:60-108 | the same in runs: whenever the replies to a waiting round arrive with at most floor(n/3) nodes silent, the round goes on to signing |
| `Runs.SigningPhaseSucceeds` | apps/mpc-committee/src/remote-coordinator.ts:111-125 | whenever the signatures arrive with at most floor(n/3) missing, the session ends signed with the matches it was waiting with |
| `Runs.OneNodeNeverSigns` | apps/mpc-committee/src/remote-coordinator.ts:87-96 | a committee of one never gets to signing, so n >= 2 is needed |
| `Runs.QuorumIntersection` | apps/mpc-committee/src/remote-coordinator.ts:111-122 | any two batches signed at any time in a run share at least n/3 signers, hence one |
| `Runs.VerifiesExactly` | packages/mpc-crypto/src/committee.ts:172-182 | the walk over the signatures accepts if and only if all are valid, under different keys of the committee, and at least the threshold |
| `Runs.VerifierAcceptsQuorums` | packages/mpc-crypto/src/committee.ts:172-182 | where nodes have keys of their own the verifier accepts exactly the signer lists that the round calls a quorum |
| `Failures.DecryptSucceedsExactly` | apps/mpc-committee/src/remote-coordinator.ts:69-98 | a remote round gets to signing if and only if enough nodes answer and two of them contribute a share of every intent |
| `Failures.RespondingExactly` | apps/mpc-committee/src/remote-coordinator.ts:69-73 | the count compared with the threshold is the number of nodes that answered |
| `Failures.AvailableExactly` | apps/mpc-committee/src/remote-coordinator.ts:87-93 | the shares read are those of the first two nodes, in node order, that have one opened |
| `Failures.StoredPlaces` | apps/mpc-committee/src/state.ts:55-65 | an entry that is overwritten keeps its place among its node's entries, a new one comes last |
| `Failures.GoesOnExactly` | apps/mpc-committee/src/remote-coordinator.ts:60-98 | some replies let a round go on to signing if and only if two nodes hold a share of every intent |
| `Failures.SubmissionExactly` | apps/mpc-committee/src/coordinator-server.ts:77-87 | a submission with a new id spoils a round that could go on, for every list of replies, if and only if its shares do not name two different nodes |
| `Failures.MisaddressedIntentFailsAll` | apps/mpc-committee/src/coordinator-server.ts:77-87 | an intent that does not name two nodes fails the round of all the others, whoever answers |
| `Scenarios.MisaddressedReached` | apps/mpc-committee/src/coordinator-server.ts:77-105 | a run from the initial state: such an intent is accepted, and its session fails for every list of replies |
| `Failures.RemoteLeftovers` | apps/mpc-committee/src/remote-coordinator.ts:69-108 | a failed remote round keeps exactly the contributed shares, and only if enough nodes had answered; a round that goes on keeps none |
| `Failures.LocalSucceedsExactly` | apps/mpc-committee/src/coordinator.ts:196-233 | the in-process round signs if and only if every node opens all it holds and two nodes hold a share of every intent |
| `Failures.LocalLeftovers` | apps/mpc-committee/src/coordinator.ts:196-240 | a failed in-process round keeps exactly the shares opened before the first one that could not be opened; a signed one keeps none |
| `Runs.BatchesDisjoint` | apps/mpc-committee/src/remote-coordinator.ts:60-125 | an id is in the batches of two sessions only if it was itself submitted again after its session had closed |
| `Scenarios.ResubmittedInTwoBatches` | apps/api/src/routes.ts:494-514 | and that does happen: any two opposite intents, submitted again after their session closed, end up in two signed batches |
| `Refinement.TwoSharesSuffice` | apps/mpc-committee/src/remote-coordinator.ts:87-97 | whichever two shares are read first, they reconstruct the amount that was split |
| `Refinement.RemoteRoundRefines` | apps/mpc-committee/src/remote-coordinator.ts:60-108 | with any subset of nodes answering honestly, the matches to be signed are those of the plain matcher on the true amounts |
| `Refinement.LocalRoundRefines` | apps/mpc-committee/src/coordinator.ts:196-240 | the same for the in-process round |
| `Refinement.SignedBatchesAreTrue` | apps/mpc-committee/src/remote-coordinator.ts:47-126 | in every run with honest shares every signed batch equals the plain matcher on the session's true amounts |
| `Delivery.JobsAreTrue` | apps/mpc-committee/src/settler.ts:61-131 | in every run of the whole pipeline with honest shares every settlement job names the two sides of its match of the true amounts, under plain names a match of complementary intents for the smaller amount |
| `Committee.StoreDecrypted` | apps/mpc-committee/src/remote-coordinator.ts:75-82 | the reply loop writes exactly the answered entries that exist |
| `Committee.PickShares` | apps/mpc-committee/src/remote-coordinator.ts:87-93 | the loop with its early exit reads the first two decrypted shares in node order |
| `Committee.RebuildAmounts` | apps/mpc-committee/src/remote-coordinator.ts:84-98 | the loop reconstructs every amount or gives up at the first intent with fewer than two shares |
| `Committee.ClearDecrypted` | apps/mpc-committee/src/remote-coordinator.ts:101-105 | the clearing loop |
| `Committee.CollectSigners` | apps/mpc-committee/src/remote-coordinator.ts:114-117 | the signers are the replying nodes in order |
| `Committee.DecryptEntries` | apps/mpc-committee/src/coordinator.ts:199-210 | the inner loop opens a node's entries in their order and ends at the first that cannot be opened |
| `Committee.DecryptInProcess` | apps/mpc-committee/src/coordinator.ts:196-213 | node after node, up to the first failure, leaving the earlier entries opened |
| `Committee.FinishDecrypt` | apps/mpc-committee/src/remote-coordinator.ts:69-108 | the imperative code between the two waits is the step the protocol proofs use |
| `Committee.FinishSign` | apps/mpc-committee/src/remote-coordinator.ts:111-125 | the imperative code after the signatures is the step the protocol proofs use |
| `Committee.RunInProcess` | apps/mpc-committee/src/coordinator.ts:186-259 | the imperative in-process round, with what a failure leaves opened, is the step the protocol proofs use |
| `Committee.CommitteeState.constructor` | apps/mpc-committee/src/state.ts:24-26 | starts in the initial state of the protocol |
| `Committee.CommitteeState.GetOrCreateOpenSession` | apps/mpc-committee/src/state.ts:41-47 | finds the first open session or creates one |
| `Committee.CommitteeState.GetOpenSessions` | apps/mpc-committee/src/state.ts:79-81 | lists the open sessions in order |
| `Committee.StoreAllShares` | apps/mpc-committee/src/state.ts:55-65 | every share goes under its node, made when missing; an overwritten entry keeps its place |
| `Committee.CommitteeState.AddIntent` | apps/mpc-committee/src/state.ts:49-68 | adds the intent, its session link and its shares, and nothing else |
| `Committee.CommitteeState.HandleSubmit` | apps/mpc-committee/src/coordinator-server.ts:77-87 | accepts exactly well-formed intents; takes one protocol step, keeps the invariant |
| `Committee.CommitteeState.HandleMatch` | apps/mpc-committee/src/coordinator-server.ts:98-105 | begins a round exactly for an open session with two intents; takes one protocol step, keeps the invariant |
| `Committee.CommitteeState.HandleTimer` | apps/mpc-committee/src/coordinator-server.ts:124-136 | a tick up to its first wait is one protocol step |
| `Committee.CommitteeState.HandleResume` | apps/mpc-committee/src/coordinator-server.ts:124-136 | a tick that goes on after its round is one protocol step, of the kind that started it |
| `Committee.CommitteeState.HandleDecryptReplies` | apps/mpc-committee/src/remote-coordinator.ts:60-114 | the code between the two waits is one protocol step |
| `Committee.CommitteeState.HandleSignReplies` | apps/mpc-committee/src/remote-coordinator.ts:111-125 | the code after the second wait is one protocol step |
| `Committee.CommitteeState.HandleLocalMatch` | apps/mpc-committee/src/server.ts:140-156 | the in-process match handler is one protocol step |
| `Committee.CommitteeState.HandleLocalTimer` | apps/mpc-committee/src/server.ts:192-207 | the in-process timer is one protocol step |
| `Committee.CommitteeState.HandleShare` | apps/mpc-committee/src/server.ts:59-86 | a late share delivery replaces the ciphertext of an existing slot only |
| `JobKeys.JobKeyInjective` | apps/mpc-committee/src/settler.ts:75-75 | different (batch, index) pairs have different keys, whatever characters the batch ids contain |
| `JobKeys.DecimalValue` | apps/mpc-committee/src/settler.ts:75-75 | the index is written in decimal: its digits have the value of the index |
| `JobKeys.JobKeyExample` | apps/mpc-committee/src/settler.ts:75-75 | one key written out: prefix, batch id and index with the separators of the source |
| `SettlementProofs.StepGrows` | apps/mpc-committee/src/persist.ts:14-48 | no step removes a row or takes back a match, a job, an acceptance or an execution |
| `SettlementProofs.InsertExactly` | packages/queue/src/index.ts:44-56 | one job is added, at the end, if and only if none has its key; otherwise the poll ends there |
| `SettlementProofs.UpdateExactly` | apps/mpc-committee/src/persist.ts:39-48 | an update records the partner in its row and changes nothing else; a missing partner row ends the call, a missing own row is passed over |
| `SettlementProofs.StepKeepsQueue` | apps/mpc-committee/src/settler.ts:61-146 | every step keeps: unique job keys, every job belonging to its match, every match a poll has passed handled, every batch out of `pending` handled in full |
| `SettlementTheorems.QueuedAtMostOnce` | apps/mpc-committee/src/settler.ts:61-146 | in every run, with crashes and overlapping polls, a match has at most one job, and has one or is RFQ-routed once its batch left `pending`; `rfq_routed` means all matches are, `queued` that some match has a job |
| `SettlementTheorems.ExactlyOnceQueueing` | apps/mpc-committee/src/settler.ts:61-146 | a match whose own two ids got no late RFQ row has no job if it is RFQ-routed, and otherwise exactly one once its batch left `pending` |
| `SettlementTheorems.QueuedRowExactly` | apps/mpc-committee/src/settler.ts:42-86 | in every run, an id with a settlement job has an RFQ row if and only if its own row was inserted after the committee had it |
| `SettlementTheorems.PathsExclude` | apps/mpc-committee/src/settler.ts:42-86 | hence an id with both a settlement job and an admitted RFQ settlement got its row late |
| `SettlementTheorems.OnePathPerIntent` | apps/api/src/routes.ts:471-514 | an id whose own callers keep the rule about hashes and keys never has both, whatever others do |
| `SettlementTheorems.DisciplineSuffices` | apps/api/src/routes.ts:471-514 | callers that keep the rule for an id never cause a late row for it |
| `SettlementTheorems.LateRowBreaks` | apps/api/src/routes.ts:651-690 | every run that ends with a job for an id without a row goes on, through the RFQ handlers, to one where the id has both |
| `Scenarios.DirectJobReached` | apps/api/src/routes.ts:843-907 | any two opposite intents submitted directly under ids of their own choice do reach such a job, from the empty state |
| `Scenarios.BothPathsReached` | apps/api/src/routes.ts:651-690 | hence a run from the empty state to an id with both a job and an RFQ settlement |
| `SettlementTheorems.KeyReuseLeavesNoRow` | apps/api/src/routes.ts:471-514 | in any state, posting under a taken key and forwarding leaves the intent at the committee without a row |
| `Scenarios.KeyReuseReached` | apps/api/src/routes.ts:471-690 | a run from the empty state: an intent posted under another's key is forwarded, matched, signed and queued, then posted again and settled as an RFQ intent too |
| `SettlementTheorems.RfqAdmission` | apps/api/src/routes.ts:595-690 | in every reachable state each settlement row has its owner's intent, a quote of it, the acceptance, an executed fill and, if the intent carried a session, the confirmed match |
| `Admission.LatestFillExactly` | apps/api/src/db.ts:415-415 | the fill found is the one after which no other is of that quote |
| `Admission.SettlesExactly` | apps/api/src/routes.ts:658-690 | a settlement is recorded, under the caller, if and only if the caller owns the intent or it has no owner, the quote is one of it and accepted, its newest fill is executed and bears the receipt given, the fill named exists, the proof is ready, the nullifier unspent, and an intent with a session has its match |
| `Admission.SettledQualified` | apps/api/src/routes.ts:651-690 | in every run a step that changes the settlements is such a request at that moment, with its proof ready and its nullifier unspent |
| `Admission.AcceptsExactly` | apps/api/src/routes.ts:611-624 | a quote is accepted if and only if the caller owns its intent or that has no owner, it is one of that intent and was not accepted |
| `Admission.OwnerSettles` | apps/api/src/routes.ts:471-481 | in every run a settled intent was posted earlier, by the user recorded with the settlement unless it was posted without one |
| `Admission.ExecutedOnRequest` | apps/api/src/db.ts:432-435 | in every run a fill is executed only after a request to execute it |
| `Admission.LinkCarries` | apps/api/src/routes.ts:553-556 | linking an intent with a row to a session with a row makes it carry that session; any other link changes nothing |
| `Admission.GateCloses` | apps/api/src/routes.ts:674-681 | in every run, once an intent was linked no later request settles it unless its match is confirmed |
| `Admission.QuotesBelong` | apps/api/src/db.ts:127-136 | in every run each quote is of an intent that has a row and no two have the same hash |
| `Admission.FillsBelong` | apps/api/src/db.ts:127-136 | in every run fills have different ids, and each was asked for with its quote and receipt |
| `Integrity.RunsKeepReferences` | db/migrations/007_mpc.sql:20-66 | in every state of every run each reference finds its row: links, matched partners, batches, signature rows, quotes, acceptances, fills and settlements |
| `Admission.UpsertExactly` | apps/api/src/routes.ts:494-514 | an upsert leaves a row with the new session and the old match, and changes nothing without the session row |
| `RfqProofs.StepKeepsRfq` | apps/api/src/db.ts:127-136 | every step keeps the admission invariant |
| `RfqProofs.SideStays` | apps/mpc-committee/src/settler.ts:51-57 | an id known to the committee never changes between direct and RFQ-routed unless its own row comes late |
| `Storage.PartnerUnique` | apps/mpc-committee/src/coordinator.ts:40-66 | an id that is in one session only has the same partner in every update of every batch |
| `Storage.CallsHaveBatches` | apps/mpc-committee/src/persist.ts:14-18 | in every run a persist call that is past its first insert finds its batch stored |
| `Storage.MatchedWithIsInvolution` | apps/mpc-committee/src/persist.ts:39-48 | `matched_with` has no fixed point and never contradicts a partner that stays in its session, in any state of any run; once all persist calls are through with their rows present it is an involution |
| `Storage.PersistedInFull` | apps/mpc-committee/src/persist.ts:39-48 | a call that is through and met its rows has recorded each match of ids that stay in their session in both directions, and that lasts |
| `Storage.OneJobPerId` | apps/mpc-committee/src/settler.ts:73-118 | an id that stays in its session is in at most one settlement job of any run |
| `Store.PersistCompletes` | apps/mpc-committee/src/persist.ts:9-49 | an undisturbed call on disjoint matches, with its session row and all match rows present, gets through: signature rows, closed session, every match in both directions |
| `Store.PersistNeedsSessionRow` | apps/mpc-committee/src/persist.ts:14-18 | the first insert fails if and only if the batch is new and its session has no row |
| `Store.QueueBatchHandles` | apps/mpc-committee/src/settler.ts:61-131 | an undisturbed call leaves each match with its job or with the RFQ lifecycle and takes only its batch out of `pending` |
| `Store.Store.PersistSignedBatch` | apps/mpc-committee/src/persist.ts:9-49 | the loops take the persist steps in order - batch, signature rows, session, match updates - and stop at the first failing foreign key |
| `Store.Store.Enqueue` | packages/queue/src/index.ts:44-56 | adds a job unless one with the key exists |
| `Store.Store.QueueSettlementJobs` | apps/mpc-committee/src/settler.ts:61-131 | the loop is the sequence of poll steps; queued and skipped add up to all matches |
| `Store.OldestSize` | apps/mpc-committee/src/settler.ts:135-141 | a poll takes the smaller of its limit and the number of pending batches |
| `Store.OldestExactly` | apps/mpc-committee/src/settler.ts:135-141 | a pending batch is taken if and only if fewer than the limit are older, and then stands after just those |
| `Store.Store.SettleOnce` | apps/mpc-committee/src/settler.ts:134-146 | one poll takes the oldest fifty pending batches, or all if fewer, returns their number, leaves each handled in full and out of `pending`, and touches no other |
| `Store.Store.HandleAccept` | apps/api/src/routes.ts:611-624 | accepts exactly an unaccepted quote of an intent that is the caller's or nobody's; keeps the admission invariant |
| `Store.Store.HandleExecute` | apps/api/src/db.ts:432-435 | marks the fill executed and reports whether it exists |
| `Store.Store.FindLatestFill` | apps/api/src/db.ts:415-415 | the newest fill of the quote |
| `Store.Store.CheckSettle` | apps/api/src/routes.ts:658-681 | the checks in order pass exactly the requests with their own intent, an accepted quote of it, the newest fill executed and of that receipt, a ready proof, an unspent nullifier and the match where a session is carried |
| `Store.Store.HandleSettle` | apps/api/src/routes.ts:651-690 | settles exactly the admitted requests whose fill exists and keeps the admission invariant |
| `Acceptances.KeepsOnePerIntentExactly` | apps/api/src/routes.ts:616-621 | an acceptance keeps one accepted quote per intent if and only if no other quote of that intent was accepted |
| `Acceptances.TwoQuotesAccepted` | apps/api/src/routes.ts:611-624 | every run with two unaccepted quotes of one intent goes on to one where both are accepted |
| `Acceptances.TwoQuotesReached` | apps/api/src/routes.ts:595-624 | and such a run starts from the empty state |

## Left out

- HTTP, timeouts, authentication, logging and process start-up: only the atomic effects on state and tables are modelled.
- Encryption, Ed25519 and SHA-256: a ciphertext is symbolically a share sealed to one node, a signature is the fact that a node signed, hashes and ids are opaque values; the batch hash is not modelled, and a signature's validity is an input of the verifier.
- Share encoding as decimal strings and the proof job, root health and expiry checks: proof readiness and spent nullifiers are inputs of the settle request.
- Sessions are values in a map rather than shared objects: two sessions created under one id would alias in the source, and fresh ids are assumed instead.
- Runs.FaultTolerance: says what the two waits of one round come to once replies or time-outs are in, not that they ever are.
- Termination of the rejection loop, which holds only with probability 1: the draws are an input.
- The solver-lock handler, service events, state transitions and activity logs, stored share rows, note data inside job payloads: they add no decision to the modelled paths.
- Poll order in the state machine: any pending batch may be polled at any time; the limit and the order by age are in `Store.Store.SettleOnce`.
- Relayer, prover, root auditor, CCTP, vault recovery, view keys and all frontend code.
