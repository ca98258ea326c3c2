# Cloudy: a verified model of its logs, ledger, registries, relay and placement

Cloudy is a federation platform whose trust rests on append-only logs that members and witnesses can
check for themselves. This project models its core in Dafny and proves what that core is for. There is
one module per component; the Dafny file has the module's name.

| module | what it models |
|---|---|
| `Merkle` | the RFC 6962 tree (section 2.1): heads, audit paths (2.1.1), consistency proofs (2.1.2), the 64-bit split loop |
| `Witness` | checkpoints, the consistency verifier, a long-lived witness with its per-log memory, witnessed bundles |
| `DialogLog`, `Lifecycle` | the operator's dialog log and the claim-lifecycle log over append-only stores |
| `Quorum` | the greedy distinct-signature count of rulings and policy changes |
| `Economy`, `EconomyRuns` | the mutual-credit ledger, and any number of ledgers racing on one store |
| `TechTree` | the claim graph with its stack search for builds_on cycles |
| `Dispute`, `DisputeBytes` | the dispute registry with its five store indexes, and the canonical bytes of its artifacts |
| `ConsumerApi` | the member-facing server: dialog log, registry and lifecycle log moved together |
| `Covenant`, `TradeStanding` | assessments, answers and standing histograms, and the Book inside the server |
| `Relay`, `RelayFrontend`, `Agent` | the node relay, lock-held section by lock-held section, the relay object in its run, and the agent's loop |
| `FairShuffle`, `Placement` | rejection sampling, the in-place shuffle, and two-pass shard placement |

How hashes and signatures appear. Signature checks are abstract predicates and digests abstract functions,
passed as parameters; no injectivity is postulated. Soundness of proofs is stated by extraction: a function
of the transcript (`AuditConsistency`, `AuditInclusion`, `AuditRun`) returns two different pairs with one node
hash whenever the honest conclusion fails. Objects whose methods update fields are classes here; each method
is specified by a function on the abstract state, and the theorems are about that function over every run.
Ledger balances are a 64-bit integer type of their own, so every sum and difference that admission and
application form carries a proof that it is in range.

## Where the code and its documentation part

Each of these is stated exactly, with an input or a run that shows it.

- `largestPow2LT` leaves its loop exactly for sizes up to 2^63; above that the shift wraps to zero
  (`Merkle.ShiftLoopLeavesExactly`). So a checkpoint of more than 2^63 entries with a proof or path to consume
  keeps the verifiers from answering (`Witness.ConsistencyReturnsExactly`, `DialogLog.InclusionReturnsExactly`).
- A quorum count can fall below the number of distinct valid signers (`Quorum.GreedyCanFallShort`). It is right
  for every list drawn from some signatures if and only if none of them verifies under two roster keys
  (`Quorum.CountExactlyWhen`).
- `Post` and `Enact` refuse from a stale view without catching up first, so a record the shared history admits
  can be refused (`EconomyRuns.StaleLedgerRefuses`); `Economy.Ledger.Submit` states exactly when a call succeeds.
- Two `Enroll` calls under different keys can both report success (`Relay.EnrollRace`); the key in place is
  always that of the first enrolment stored (`Relay.KeyIsFirstStored`, `Relay.OwnKeyExactlyWhen`).
- The same listing can be forwarded twice while the first is on its way (`Relay.RepeatedListing`); a listing is
  forwarded exactly when it is signed and above every completed number (`Relay.ForwardsExactly`).
- Two heartbeats can go upstream at one instant (`Relay.BeatRace`); one goes exactly when no forward has
  completed yet or the last completed one is an interval ago (`Relay.BeatsAreSpaced`). The same holds of polls
  (`Relay.PollRace`, `Relay.PollsAreSpaced`). Forwards that do not overlap keep the documented interval
  (`Relay.BeatsApart`, `Relay.PollsApart`).
- A settled job can be handed back when an answer given earlier is stored after one that lacks the job
  (`Relay.StaleOfferHandsBack`); `Relay.HandedOutExactly` says exactly what is handed out.
- The agent delivers at most one settlement per job (`Agent.SettledOnce`), but runs a job again when its report
  is not delivered (`Agent.RunAgain`). `Agent.RunExactly` says exactly when a job is run, and
  `Agent.RanTwiceOnlyUndelivered` that nothing else leads to a second run.
- Message numbers strictly increase if and only if 2^64 - 1 is not issued before the last
  (`Agent.IssuedIncreaseExactly`), which a clock before 1970 can do (`Agent.NumbersCanStartOver`); request
  timestamps increase exactly until 2^63 - 1 (`Agent.NextStampIncreases`).
- Placement can miss an available owner (`Placement.SharedOwnerCosts`, `Placement.SharedHostCosts`). It never
  does, on any list drawn from some hosts, if and only if no ID has two owners or no owner has two IDs
  (`Placement.SpreadExactlyWhen`).
- The covenant store's comment names (assessor, exchange, category) as its uniqueness key; the code also
  includes the relation, and the model follows the code.

## Model

| member | source | states |
|---|---|---|
| Merkle.LargestPow2LT | internal/record/tree.go:22-28 | the shifting loop returns the one power of two k with k < n <= 2k, for every size from 2 to 2^63, with no shift leaving 64 bits |
| Merkle.ShiftLoopLeavesExactly | internal/record/tree.go:22-28 | some iterate of the wrapping shift reaches the exit exactly when the size is at most 2^63 |
| Merkle.SplitOfPrefix | internal/record/tree.go:22-28 | a prefix that reaches past the split of a tree splits at the same place, which is what lets a consistency proof share the left subtree |
| Merkle.HeadsSound | internal/record/tree.go:34-40 | two leaf windows with one head hold the same leaves, or the audit returns a node-hash collision |
| Merkle.InclusionComplete | internal/record/tree.go:44-87 | every honest audit path recomputes the head from its leaf |
| Merkle.InclusionSound | internal/record/tree.go:59-87 | an accepted leaf is the one at that index and its path is the honest one, or the audit returns a node-hash collision |
| Merkle.PathIsLogarithmic | internal/record/tree.go:44-53 | a path in a tree of at most 2^e leaves has at most e hashes |
| Merkle.RootReturnsExactly | internal/record/tree.go:59-87 | the path verifier comes back exactly when the index is out of range, there is no path, or the size is at most 2^63 |
| Merkle.ConsRootsReturnsExactly | internal/record/tree.go:118-150 | the proof verifier comes back exactly when the sizes do not increase, there is no proof, or the newer size is at most 2^63 |
| Merkle.ConsistencyComplete | internal/record/tree.go:92-150 | the verifier consumes the honest proof exactly, leaving what precedes it, and recomputes both heads |
| Merkle.ConsistencySound | internal/record/tree.go:118-150 | a proof that recomputes the head of n leaves yields the head of the first m of them as older root and is the honest proof, or the audit returns a node-hash collision |
| Witness.HonestExtensionAccepted | internal/record/verify.go:54-71 | a checkpoint of any prefix is accepted as extended on the honest proof |
| Witness.AcceptedExtensionSound | internal/record/verify.go:54-71 | an accepted extension whose newer checkpoint opens to some leaves has an older one that opens to their prefix, and the honest proof, or a collision |
| Witness.ConsistencyReturnsExactly | internal/record/verify.go:54-71 | the consistency check answers exactly unless both checkpoints verify, the sizes increase from a nonzero one to one above 2^63, and there is a proof to consume |
| Witness.LiveWitness.CountersignAs | internal/record/witness.go:93-114 | signs exactly when no gate refuses, only what the operator signed for the log asked for, and then remembers the checkpoint for its log and no other; calls that never come back are told apart from refusals |
| Witness.CosignedExactly | internal/record/witness.go:93-114 | exactly which request of any run is countersigned: the witness can sign and is not the operator, the operator signed this checkpoint of the log asked for, and if the run had one countersigned already the operator signed that too and this one extends it by sizes and recomputed heads |
| Witness.CosignedWasSigned | internal/record/checkpoint.go:56-61 | whatever a witness countersigns in any run, the named operator signed, for the log asked for, and is not the witness |
| Witness.MemoryIsLatest | internal/record/witness.go:93-114 | what a witness remembers for a log is the latest checkpoint it countersigned for it |
| Witness.CosignedSizesNeverShrink | internal/record/witness.go:93-114 | of two checkpoints countersigned for a log, the later is no smaller, whatever the run |
| Witness.WitnessSafety | internal/record/witness.go:93-114 | whatever the run, leaf sequences opening two checkpoints countersigned for a log are prefix-related, or the transcript yields a node-hash collision |
| Witness.HonestOperatorServed | internal/record/witness.go:93-114 | after any run an operator that extends the remembered leaves is countersigned on the honest proof, exactly unless there is a proof to consume and more than 2^63 leaves |
| Witness.VerifyBundle | internal/record/witness.go:128-147 | accepts exactly a checkpoint of the operator's log that has as many distinct verifying cosigners other than the operator as it has countersignatures |
| Witness.IndependentAtMost | internal/record/witness.go:128-147 | each further countersignature adds at most one independent cosigner, so they never outnumber the countersignatures |
| Witness.IndependentExactly | internal/record/witness.go:33-37 | the independent cosigners are exactly the keys of the pinned length, other than the operator's, with a countersignature of the pinned length that verifies over this checkpoint |
| Witness.StandIn | internal/record/witness.go:158-167 | true exactly when fewer than two distinct cosigners other than the operator verify, whatever pads the bundle |
| DialogLog.Log.Append | internal/record/log.go:113-153 | admits exactly what the gates admit, keeps memory equal to the replay of the store, and changes nothing on refusal |
| DialogLog.Log.Checkpoint | internal/record/log.go:159-171 | names the log, its size, and the tree head, or the log's ID when empty |
| DialogLog.Log.Prove | internal/record/log.go:178-187 | a proof for every position below the size, from which the head is recomputed; an error otherwise |
| DialogLog.Log.ProveConsistency | internal/record/log.go:194-203 | a proof from every size up to the present one, consumed exactly and recomputing both heads; an error above it |
| DialogLog.OpenLog | internal/record/log.go:81-109 | succeeds exactly when the store replays, and holds the replayed leaves and index |
| DialogLog.ReplayCoherent | internal/record/log.go:113-136 | in every log that replays, leaves are the entries' IDs in order and distinct, the index is their positions, corrections point backwards |
| DialogLog.EntryAdmittedExactly | internal/record/log.go:113-130 | exactly which entry a log takes next, told by the entries in it: sealed by two distinct parties, for this log, with a new ID, correcting nothing or an entry already there |
| DialogLog.EveryEntrySealed | internal/record/entry.go:135-148 | every entry of every log was sealed by both its parties, for that log |
| DialogLog.ReplayOfPrefix | internal/record/log.go:81-109 | every prefix of a store that replays also replays, to a prefix of the leaves |
| DialogLog.LogExtensionAccepted | internal/record/log.go:194-203 | checkpoints over an earlier and the present state of a log are consistent on the log's own proof |
| DialogLog.EntryProvable | internal/record/verify.go:24-36 | every entry of every log that replays is accepted under a checkpoint of it, on a path of at most the ceiling of log2 of the size |
| DialogLog.InclusionReturnsExactly | internal/record/verify.go:24-36 | the inclusion check answers exactly unless entry and checkpoint verify, the position is in range, the size is above 2^63, and there is a path to consume |
| DialogLog.AcceptedEntryCommitted | internal/record/verify.go:24-36 | an accepted entry has the ID of the log's own entry at that position and the log's own path, or a node-hash collision is returned |
| Lifecycle.LifecycleLog.Append | internal/record/lifecycle.go:254-264 | admits exactly what the gates admit and keeps memory equal to the replay of the store |
| Lifecycle.OpenLifecycleLog | internal/record/lifecycle.go:164-194 | yields exactly the replay of the stored transitions, or its first refusal |
| Lifecycle.OrderGateExact | internal/record/lifecycle.go:197-233 | among valid kinds the order gate admits exactly those that keep a claim's history orderly |
| Lifecycle.TransitionAdmittedExactly | internal/record/lifecycle.go:197-233 | exactly which transition a log takes next, told by the transitions in it: for this log, of a known kind, about a claim and an exchange, with a new leaf, keeping the claim's history orderly |
| Lifecycle.EveryHistoryOrderly | internal/record/lifecycle.go:197-251 | in every log each claim's history is a prefix of Filed, any number of Adjudicated, Resolved, Sealed, and furthest kind, positions and counts describe it exactly |
| Lifecycle.IndexExact | internal/record/lifecycle.go:236-251 | leaf i is that of transition i and is indexed at i, and a hash is indexed exactly when it is the leaf of some stored transition |
| Quorum.CountDistinct | internal/dispute/ruling.go:256-279 | the nested loop counts the keys of the greedy tally, each roster key at most once |
| Quorum.Verify | internal/economy/policy.go:116-139 | accepts exactly when the threshold is at least one and the tally reaches it |
| Quorum.TallyAtMostSigners | internal/economy/policy.go:116-139 | the tally is a subset of the distinct roster keys with a valid signature, whatever the order, duplicates or junk |
| Quorum.ReachedMeans | internal/dispute/ruling.go:256-279 | a reached threshold is backed by that many distinct roster keys with valid signatures, and such keys suffice when no signature verifies under two |
| Quorum.CountExactlyWhen | internal/dispute/ruling.go:256-279 | the tally is right for every list drawn from these signatures, in any order and with any repetition, if and only if none of them verifies under two roster keys |
| Quorum.GreedyCanFallShort | internal/dispute/ruling.go:256-279 | two signers counted as one when a signature is valid under both keys |
| Economy.MemStore.Append | internal/economy/store.go:63-71 | appends exactly when the caller's position is the record count |
| Economy.Ledger.Replay | internal/economy/ledger.go:192-209 | advances by one exactly when the longer prefix of the store replays, and changes nothing otherwise |
| Economy.Ledger.CatchUp | internal/economy/ledger.go:219-233 | succeeds exactly when the whole store replays, and is then at its end with the replayed state |
| Economy.Ledger.Submit | internal/economy/ledger.go:119-168 | within two laps the record enters the store exactly when the ledger's own view and the replay of the whole store both admit it |
| Economy.Ledger.Post | internal/economy/ledger.go:119-139 | appends the spend exactly when the ledger's own view and the replay of the whole store admit it, which includes the payer's own signature; otherwise leaves the store alone |
| Economy.Ledger.Enact | internal/economy/ledger.go:148-168 | appends the policy change exactly under the same two conditions, which include the quorum of stewards; otherwise leaves the store alone |
| Economy.Open | internal/economy/ledger.go:76-104 | succeeds exactly on a valid genesis and a store that replays, at its end and in sync |
| EconomyRuns.SharedStoreRefinement | internal/economy/ledger.go:119-233 | after every interleaving of any number of ledgers the store replays and each ledger's whole state is the replay of the prefix it applied |
| EconomyRuns.LostRaceAdvances | internal/economy/ledger.go:119-139 | a lost append means the ledger was behind; catching up strictly advances it to the end, and undisturbed its next try is decided by admission alone |
| EconomyRuns.LostRacesBounded | internal/economy/ledger.go:119-168 | in every interleaving a ledger that catches up after each loss loses no more races than there are records in the store that it did not write |
| EconomyRuns.StaleLedgerRefuses | internal/economy/ledger.go:119-139 | on a run of two ledgers, the one that has not seen a payment refuses a spend that the shared history admits, and admits it once it has caught up |
| EconomyRuns.SpendConserves | internal/economy/ledger.go:303-308 | an admitted spend leaves the sum of all balances unchanged |
| EconomyRuns.SpendMoves | internal/economy/ledger.go:239-308 | it moves exactly its amount from payer to payee, touches nobody else, and no balance falls below minus the cap unless it did not fall |
| EconomyRuns.EveryHistorySound | internal/economy/ledger.go:239-334 | at every prefix of every history balances sum to zero, equal net receipts, and stay above minus the largest cap ever in force |
| EconomyRuns.SingleHistory | internal/economy/ledger.go:239-334 | in the shared store each payer's nonces and all policy versions strictly increase, so no record occurs twice |
| EconomyRuns.SpendsOnlyUnderCredit | internal/economy/ledger.go:239-299 | no spend sits where the policy then in force is escrow, and each respected the cap then in force |
| EconomyRuns.SpendAdmittedExactly | internal/economy/ledger.go:239-299 | exactly which spend a history takes next, told by its records: credit policy, platform, a positive amount in range between two registered accounts, the payer's signature, a nonce above all of the payer's, the cap in force, and room at the payee |
| EconomyRuns.SpendsSigned | internal/economy/ledger.go:280-282 | in every store that replays, every spend was signed by the directory's key for its payer, which hashes to the account on this platform |
| EconomyRuns.ChangeAdmittedExactly | internal/economy/ledger.go:313-327 | exactly which policy change a history takes next, told by its records: platform, a version above all others, a known mode, a cap in range, and the quorum |
| EconomyRuns.ChangesAuthorised | internal/economy/policy.go:116-139 | in every store that replays, every policy change carries valid signatures of at least the threshold of distinct stewards |
| TechTree.Tree.AddClaim | internal/techtree/tree.go:76-93 | admits exactly what the gates admit and keeps the tree equal to what its log rebuilds to |
| TechTree.Tree.BuildsOnReaches | internal/techtree/tree.go:132-157 | the stack search ends and answers true exactly when a path of builds_on edges exists |
| TechTree.Tree.AddReference | internal/techtree/tree.go:98-127 | admits exactly what the gates admit, the cycle test included, only from the claimant of the claim it leaves from, and keeps the tree equal to what its log rebuilds to |
| TechTree.CycleTestExact | internal/techtree/tree.go:98-127 | over an acyclic log an edge keeps the graph acyclic exactly when its target does not already reach its source |
| TechTree.AddKeepsAcyclic | internal/techtree/tree.go:98-127 | such an edge, and any item that is not a builds_on edge, keeps the graph acyclic |
| TechTree.EveryTreeAcyclic | internal/techtree/tree.go:98-157 | every tree that any sequence of additions builds has an acyclic builds_on graph |
| TechTree.RebuiltWellFormed | internal/techtree/tree.go:170-208 | the log of a rebuilt tree is the items given, and both ends of every reference in it are claims of the tree |
| TechTree.IndexesExact | internal/techtree/tree.go:76-127 | in every tree that can be built the claim and reference maps hold exactly the logged ones under their IDs |
| TechTree.ClaimAdmittedExactly | internal/techtree/tree.go:76-93 | exactly which claim a tree takes next, told by its log: platform, known kind, signed under its claimant's key, new ID |
| TechTree.ReferenceAdmittedExactly | internal/techtree/tree.go:98-127 | exactly which reference a tree takes next, told by its log: platform, known kind, signed by the claimant of the logged claim it leaves from, to another logged claim, new ID, and no builds_on path back |
| TechTree.ReferencesAuthored | internal/techtree/tree.go:105-114 | in every tree every reference was signed by the claimant of the claim it leaves from, and joins claims logged before it |
| TechTree.ClaimsSigned | internal/techtree/tree.go:76-93 | in every tree every claim was signed under its claimant's key, for this platform |
| TechTree.HeadIsChain | internal/techtree/tree.go:67-72 | the head of every tree is the last link of the digest chain over its log, starting from zero |
| TechTree.OpenLog | internal/techtree/tree.go:186-208 | succeeds exactly when the items rebuild, to the same claims, references, log and head |
| Dispute.TupleKeyInjective | internal/dispute/registry.go:103-109 | with keys of the pinned length the joined tuple key is injective although its separator may occur inside the parts |
| Dispute.MemStore.Append | internal/dispute/memstore.go:42-72 | all five indexes move together or none does, with the exact refusal |
| Dispute.Registry.GetCase | internal/dispute/registry.go:262-297 | the replay loop yields the fold of the case's artifacts |
| Dispute.Registry.OpenCase | internal/dispute/registry.go:179-195 | moves the store by exactly one admitted opening or not at all, keeping the index invariant |
| Dispute.Registry.RuleCase | internal/dispute/registry.go:204-232 | likewise for a ruling, only with the quorum, and only on an open case of the same exchange |
| Dispute.Registry.WithdrawCase | internal/dispute/registry.go:238-254 | likewise for a withdrawal, only of an open case, and only signed by the complainant who opened it |
| Dispute.CaseStateExact | internal/dispute/registry.go:262-297 | a case replays to open, resolved or withdrawn exactly as its artifacts say, with the parties of its opening and the finding and remedy of its ruling |
| Dispute.EveryRunKeepsInv | internal/dispute/memstore.go:42-72 | after every run the live index holds exactly the tuples whose replayed case is open and the settled index exactly those with a ruling |
| Dispute.OneRulingPerTuple | internal/dispute/registry.go:204-232 | two cases of one (exchange, complainant, respondent) that are open or ruled are the same case, so a tuple gets at most one ruling |
| Dispute.OpenAdmittedExactly | internal/dispute/registry.go:179-195 | after any run an opening is admitted exactly when the complainant signed it against another member over an exchange, it is for this platform, anchored and fresh, and every case of its tuple was withdrawn |
| Dispute.WithdrawAdmittedExactly | internal/dispute/registry.go:238-254 | after any run a withdrawal is admitted exactly when it is for this platform, its case is open, the complainant who opened it signed it, and its ID is fresh |
| Dispute.RuleAdmittedExactly | internal/dispute/registry.go:204-232 | after any run a ruling is admitted exactly when it is for this platform, has a known mode and finding and the remedy its mode calls for, the quorum, an open case on the same exchange, and a fresh ID |
| Dispute.EveryCaseAuthorised | internal/dispute/registry.go:179-254 | over every run only its complainant opened a case, only its complainant withdrew it, and only a quorum of adjudicators ruled on it |
| Dispute.IdsExactly | internal/dispute/memstore.go:42-72 | over every run the IDs taken are exactly those of the artifacts in the cases |
| Dispute.RuledStaysRuled | internal/dispute/memstore.go:42-72 | no continuation of a run un-settles a ruled tuple |
| DisputeBytes.RulingCanonicalBytes | internal/dispute/ruling.go:220-244 | the buffer built field by field is the specified layout, optional parts included |
| DisputeBytes.RulingPreimage | internal/dispute/ruling.go:284-292 | the buffer hashed for a ruling's ID is the specified preimage, signatures in order |
| DisputeBytes.RulingBack | internal/dispute/ruling.go:220-244 | every ruling is read back from its bytes |
| DisputeBytes.OpeningBack | internal/dispute/opening.go:90-100 | every opening is read back from its bytes |
| DisputeBytes.WithdrawalBack | internal/dispute/withdrawal.go:24-30 | every withdrawal is read back from its bytes |
| DisputeBytes.OpeningOrder | internal/dispute/opening.go:90-100 | the strings of an opening's payload read one after the other are tag, platform, complainant, respondent, exchange, reason and nonce, and then comes the time |
| DisputeBytes.WithdrawalOrder | internal/dispute/withdrawal.go:24-30 | the strings of a withdrawal's payload are tag, platform and dispute, and then comes the time |
| DisputeBytes.ByteOrder | internal/economy/spend_test.go:26-50 | sample values fix the byte orders: integers big-endian, lengths base 128 from the low end, times two's complement |
| DisputeBytes.RulingBytesDecodable | internal/dispute/ruling.go:220-244 | two rulings have equal signed bytes exactly when they agree on every field but the signatures |
| DisputeBytes.DecodePreimage | internal/dispute/opening.go:141-146 | kind, fields and signatures of any artifact are read back from its leaf-ID preimage |
| DisputeBytes.LeafIdsBind | internal/dispute/withdrawal.go:50-55 | preimages of openings, rulings and withdrawals coincide only for equal artifacts, so equal IDs of different ones are a hash collision of those preimages |
| ConsumerApi.Server.Append | internal/consumerapi/server.go:230-237 | moves log and ID index together as specified, or neither |
| ConsumerApi.Server.Sealed | internal/consumerapi/server.go:212-224 | answers the anchor join over the shared index |
| ConsumerApi.Server.MembersSealed | internal/consumerapi/server.go:157-177 | the same join for two members, both of whom must be registered |
| ConsumerApi.Server.Open | internal/consumerapi/disputes.go:144-158 | moves registry, exchange index and lifecycle log as specified; success means the filing was recorded |
| ConsumerApi.Server.Withdraw | internal/consumerapi/disputes.go:244-262 | moves registry and lifecycle log as specified |
| ConsumerApi.FilingAccepted | internal/consumerapi/disputes.go:144-158 | the lifecycle log accepts the filing of every opening the registry admits, or an earlier different transition has its leaf hash |
| ConsumerApi.ResolutionAccepted | internal/consumerapi/disputes.go:244-262 | likewise for the resolution of every withdrawal the registry admits |
| ConsumerApi.EveryRunAgrees | internal/consumerapi/disputes.go:144-262 | after every run of the handlers open cases are exactly Filed, withdrawn ones exactly Resolved, neither layer knows a claim the other does not, and the exchange index is exact; or some call met a leaf-hash collision |
| ConsumerApi.ServerRunsRegistry | internal/consumerapi/disputes.go:144-262 | the server's registry is where its handlers' registry calls lead, so what holds of every registry run holds of it |
| ConsumerApi.CallRecords | internal/consumerapi/disputes.go:144-262 | an admitted opening or withdrawal puts exactly its own transition into the lifecycle log, under the artifact's digest, the case's exchange and the time of the call, unless the log refuses it; nothing else is put there |
| ConsumerApi.EveryTransitionRecorded | internal/consumerapi/disputes.go:144-262 | over every run every transition in the lifecycle log was recorded by such a call |
| ConsumerApi.AnchoredExactly | internal/consumerapi/server.go:212-224 | an exchange is anchored between two keys exactly when the log holds an entry with that ID sealed by them |
| ConsumerApi.AnchoredThroughRun | internal/consumerapi/server.go:212-237 | in every run the ID index is the log's own, and an exchange once anchored stays anchored |
| ConsumerApi.Adjudicated | internal/consumerapi/server.go:185-203 | the gates and the loop answer whether the subject is the operator, the assessor is registered, and some listed case names the assessor's key as a party |
| ConsumerApi.AdjudicatedExactly | internal/consumerapi/server.go:185-203 | that is so exactly when some admitted opening on the exchange names the key, whatever happened to the case since |
| Covenant.KeyInjective | internal/covenant/memstore.go:34-49 | for minted assessors and typed relations the joined key is equal exactly for equal (assessor, exchange, relation, category) |
| Covenant.StandingOf | internal/covenant/book.go:264-307 | over whatever the store returns, every cell counts exactly the keys whose first verdict matches it; one assessment about somebody else fails the query |
| Covenant.FirstOfItsSlot | internal/covenant/book.go:264-307 | among admitted verdicts each (assessor, exchange, relation, category) is counted once, replays or not |
| Covenant.OverallIsSum | internal/covenant/book.go:288-304 | within a relation the overall counts are the cellwise sum over the category vocabulary |
| Covenant.MemStore.Append | internal/covenant/memstore.go:34-49 | appends exactly when the key is new, moving all indexes together |
| Covenant.MemStore.AppendAnswer | internal/covenant/memstore.go:60-72 | one answer per assessment, forever, and no other field changes |
| Covenant.Book.Admit | internal/covenant/book.go:174-246 | the gate chain admits exactly the specified assessments, only ones their assessor may render then, with the exact error, and changes nothing on refusal |
| Covenant.Book.Answer | internal/covenant/book.go:315-356 | likewise for answers, by the rated party alone |
| Covenant.Book.GetStanding | internal/covenant/book.go:264-307 | over a store a Book's run left, no query for a minted member fails and every cell is exact |
| Covenant.StoreIsHistory | internal/covenant/memstore.go:34-49 | after every run the store lists, per subject, exactly the admitted verdicts about it, in order and with distinct keys |
| Covenant.EachCallCountsOnce | internal/covenant/book.go:174-246 | after any run an admitted verdict adds one to the matching cells of its subject and of nobody else; refusals and answers change no cell |
| Covenant.AnswerChangesNoStanding | internal/covenant/book.go:315-356 | an answer leaves every subject's verdicts as they were |
| Covenant.VerdictAdmittedExactly | internal/covenant/book.go:174-246 | exactly which verdict the Book admits after a run: by a known member about another, in the vocabulary, justified when it asserts harm, signed by the assessor's own key, anchored as its relation calls for, in a slot no admitted verdict has taken |
| Covenant.EveryVerdictAuthored | internal/covenant/book.go:174-246 | behind every verdict of a run stands a call at which its assessor could render it |
| Covenant.AnswerAdmittedExactly | internal/covenant/book.go:315-356 | exactly which answer the Book admits after a run: by the known subject of the latest verdict it names, signed by that member's own key, when none was admitted before |
| TradeStanding.TradeVerdictsAnchored | internal/consumerapi/server.go:157-177 | at every point of every run of handlers, registrations and Book calls, the exchange of every trade verdict counting for a member is a log entry sealed by two keys that mint the two members' IDs |
| TradeStanding.StepKeepsBacked | internal/consumerapi/assessments.go:74-76 | no locked section takes the backing of a stored trade verdict away, and an admitted one has it |
| Relay.StepOnNode | internal/noderelay/noderelay.go:117-296 | the exact effect of any lock-held section on an enrolled node: key, heartbeat number, timestamps, jobs and settled set |
| Relay.KeyNeverChanges | internal/noderelay/noderelay.go:117-144 | under all interleavings an enrolled node stays enrolled under its key |
| Relay.KeyIsFirstStored | internal/noderelay/noderelay.go:117-144 | a node is enrolled exactly when some enrolment was stored, under the key of the first |
| Relay.OwnKeyExactlyWhen | internal/noderelay/noderelay.go:117-144 | a finishing Enroll leaves its own key in place if and only if no other key was stored for the node first |
| Relay.EnrollAnswersExactly | internal/noderelay/noderelay.go:117-133 | at any point of any run a malformed Enroll is refused, a known node succeeds exactly under its own key and conflicts under any other, and an unknown one goes on |
| Relay.EnrollRace | internal/noderelay/noderelay.go:117-144 | for any node, two enrolments under different keys both report success and the second key is not enrolled |
| Relay.HeartbeatsIncrease | internal/noderelay/noderelay.go:183-209 | accepted heartbeat numbers of a node strictly increase |
| Relay.BeatTakenExactly | internal/noderelay/noderelay.go:183-197 | a heartbeat is accepted exactly when its node is enrolled, the node's key signed it, and its number is positive and above every one accepted before |
| Relay.BeatsAreSpaced | internal/noderelay/noderelay.go:183-209 | every accepted heartbeat goes upstream exactly when no forward of the node has completed yet or the last completed one is at least an interval ago |
| Relay.BeatsApart | internal/noderelay/noderelay.go:183-209 | on a clock that never goes back, a heartbeat forwarded after the forward of an earlier one completed is at least an interval later |
| Relay.BeatRace | internal/noderelay/noderelay.go:183-209 | while a forward is on its way a second heartbeat goes upstream at the same instant |
| Relay.LastBeatExactly | internal/noderelay/noderelay.go:183-209 | what is remembered of forwarded heartbeats is the latest completed one of the run, or nothing |
| Relay.TimestampsIncrease | internal/noderelay/auth.go:111-148 | accepted request timestamps of a node strictly increase and lie within the window |
| Relay.AuthTakenExactly | internal/noderelay/auth.go:111-148 | a request is accepted exactly when its node is enrolled, the node's key signed it, and its timestamp is within two minutes, positive and above every one accepted before |
| Relay.ListSeqExactly | internal/noderelay/noderelay.go:156-178 | a node's listing number is the largest of its completed listings |
| Relay.ListingsIncrease | internal/noderelay/noderelay.go:156-178 | a listing forwarded after another completed has a larger number |
| Relay.ForwardsExactly | internal/noderelay/noderelay.go:156-178 | a listing is forwarded exactly when its node is enrolled, the node's key signed it, and its number is positive and larger than every completed one |
| Relay.RepeatedListing | internal/noderelay/noderelay.go:156-178 | before that, the same listing is forwarded twice |
| Relay.SettledExactly | internal/noderelay/noderelay.go:214-296 | a job is marked settled exactly when some section settled it and no upstream answer without it was processed since |
| Relay.HandedBackOnlyAfterForgotten | internal/noderelay/noderelay.go:214-296 | a settled job is handed back only after an upstream answer without it was processed in between |
| Relay.HandedOutExactly | internal/noderelay/noderelay.go:214-254 | a poll hands out exactly the assignments of the last processed answer whose job was not settled, or was missing from an answer processed after it was settled |
| Relay.StaleOfferHandsBack | internal/noderelay/noderelay.go:214-254 | an answer given before a settlement and stored after one that lacks the job hands the settled job back |
| Relay.PollsAreSpaced | internal/noderelay/noderelay.go:214-224 | a poll of an enrolled node goes upstream exactly when no answer has been processed yet or the last one is at least an interval ago |
| Relay.PollsApart | internal/noderelay/noderelay.go:214-243 | the same for a poll that goes upstream after the answer to an earlier one was processed |
| Relay.PollRace | internal/noderelay/noderelay.go:214-224 | until the first answer is processed two polls go upstream at one instant |
| Relay.CacheExactly | internal/noderelay/noderelay.go:224-243 | cached jobs and poll time are those of the last processed answer of the run, or nothing |
| Relay.CallsEnrolled | internal/noderelay/noderelay.go:147-296 | every call past its first section is of an enrolled node |
| Relay.CallsSigned | internal/noderelay/noderelay.go:117-296 | every call on its way upstream goes back to a first section whose message the node's enrolled key signed |
| Relay.EnrolledWellFormed | internal/noderelay/noderelay.go:117-120 | every enrolled node has a name and a key of the pinned length |
| RelayFrontend.Frontend.StoreOffer | internal/noderelay/noderelay.go:226-243 | the loops store the offer and keep exactly the settled jobs it still offers, as the next section of the object's run |
| RelayFrontend.Frontend.AnswerPoll | internal/noderelay/noderelay.go:245-254 | the loop answers the stored jobs without the settled ones, in order; no job in it was settled in the run without an answer lacking it since |
| Relay.UnsettledExactly | internal/noderelay/noderelay.go:245-254 | an assignment is in the answer exactly when it is stored and its job is not settled |
| RelayFrontend.Frontend.BeginHeartbeat | internal/noderelay/noderelay.go:183-200 | an accepted heartbeat is numbered above every one the run accepted from the node, and is forwarded exactly when none has completed or the last is an interval ago; the object stays where its run leads |
| RelayFrontend.Frontend.Authenticated | internal/noderelay/auth.go:111-148 | an accepted request lies in the window and is newer than every one the run accepted from the node; the object stays where its run leads |
| RelayFrontend.Frontend.BeginEnroll | internal/noderelay/noderelay.go:117-133 | success at once means the key is in place, a conflict that another is, and going on that the node was unknown |
| RelayFrontend.Frontend.FinishEnroll | internal/noderelay/noderelay.go:139-144 | the node is enrolled, under its own key only if no other was stored first, and no other node appears or goes |
| RelayFrontend.Frontend.BeginListing | internal/noderelay/noderelay.go:156-169 | a listing goes on only when it is numbered above every one the run completed for the node |
| RelayFrontend.Frontend.BeginPoll | internal/noderelay/noderelay.go:214-222 | a poll goes upstream exactly when the run has processed no answer yet or the last one is an interval ago |
| Agent.NextSeqIncreases | cmd/cloudy-agent/loop.go:72-81 | the next number is larger exactly when the last is not 2^64 - 1, whatever the clock does |
| Agent.IssuedIncreaseExactly | cmd/cloudy-agent/loop.go:72-81 | over whole runs and any clocks all numbers strictly increase if and only if none before the last is 2^64 - 1 |
| Agent.NumbersCanStartOver | cmd/cloudy-agent/loop.go:72-81 | a clock just before 1970 and the next reading issue 2^64 - 1 and then 0 |
| Agent.IssuedIncrease | cmd/cloudy-agent/loop.go:72-81 | with clocks after 1970 and fewer than 2^63 messages, all numbers strictly increase and none is below its clock |
| Agent.NextStampIncreases | internal/noderelay/auth.go:48-70 | the next request timestamp is larger exactly when the last is not 2^63 - 1 |
| Agent.CapsKeyInjective | cmd/cloudy-agent/loop.go:83-89 | capability keys are equal exactly for equal capability lists, so a heartbeat re-lists exactly on a change |
| Agent.Loop.Number | cmd/cloudy-agent/loop.go:72-81 | the number joins those the object has issued, and is above all of them while 2^64 - 1 is not among them |
| Agent.Loop.List | cmd/cloudy-agent/loop.go:93-122 | one number per listing, and the capabilities remembered only when it is delivered |
| Agent.Loop.Beat | cmd/cloudy-agent/loop.go:126-138 | re-lists first exactly when the capabilities changed, and then numbers a heartbeat of its own; a listing that is not delivered ends it with one number used and nothing remembered |
| Agent.Loop.Settle | cmd/cloudy-agent/loop.go:176-243 | runs and reports, or declines, as specified; the one message it sends tells what happened |
| Agent.ActsTruthful | cmd/cloudy-agent/loop.go:176-243 | a report is sent exactly for an own, verified, accepted assignment that was run, with exit code zero exactly when it finished well; unavailable exactly for one not accepted while the owner gate was closed or cut off by the owner; local policy otherwise |
| Agent.EveryActExplained | cmd/cloudy-agent/loop.go:151-243 | over every run of polls, whatever is run is an own assignment that was taken, and every message tells the truth about a polled assignment of its job |
| Agent.Loop.PollOnce | cmd/cloudy-agent/loop.go:151-174 | settles unhandled jobs in order up to the first message not delivered; when none fails every polled job is handled |
| Agent.SettledOnce | cmd/cloudy-agent/loop.go:151-236 | over every run of polls, handled jobs are exactly those with a delivered settlement, and after it nothing is sent or run for the job again |
| Agent.RanOnlyRunnable | cmd/cloudy-agent/loop.go:176-216 | a job is run only for an assignment that names this node, verifies when there is a key, and names work accepted then |
| Agent.RunAgain | cmd/cloudy-agent/loop.go:151-236 | after any run, a job that is not settled and whose report is not delivered is run again when it is polled again |
| Agent.RunExactly | cmd/cloudy-agent/loop.go:151-236 | at any point of any run the next assignment of a poll is run if and only if every message of the poll so far was delivered, no settlement of its job ever was, the node takes it, and the executor comes to run it |
| Agent.RanTwiceOnlyUndelivered | cmd/cloudy-agent/loop.go:151-236 | in every run, a job run twice had the message after its first run not delivered |
| FairShuffle.UniformInt | internal/storage/placement.go:100-116 | the residue of the first accepted word, rejected words skipped; an error exactly for a bound below one or a stream without an accepted word |
| FairShuffle.DrawsAreFair | internal/storage/placement.go:100-116 | every residue is hit by the same number of accepted words, at least one, and at most n of all words are rejected |
| FairShuffle.Shuffle | internal/storage/placement.go:88-97 | the in-place swaps leave the order that the stream's draws specify, and the unread words |
| FairShuffle.ShuffleFromDraws | internal/storage/placement.go:88-116 | shuffling from a stream is shuffling by the draws of the stream |
| FairShuffle.ShufflePermutes | internal/storage/placement.go:88-97 | the shuffle only reorders |
| FairShuffle.EveryOrderReached | internal/storage/placement.go:88-97 | every reordering is reached, by draws that can be computed |
| FairShuffle.DrawsReadBack | internal/storage/placement.go:88-97 | the draws can be read back from the order of distinct elements, so draws and permutations correspond one to one |
| FairShuffle.ShuffleIsUniform | internal/storage/placement.go:88-116 | for every length, the number of word streams that lead the shuffle from distinct positions to an order, rejected and unread words included, is the same for every order |
| FairShuffle.StreamsExact | internal/storage/placement.go:88-116 | the counted streams are exactly the word streams from which the shuffle takes these draws |
| FairShuffle.StreamFor | internal/storage/placement.go:88-116 | for every sequence of draws, and every length with a word for each, a stream of that length that gives them |
| FairShuffle.ShuffleOfPositions | internal/storage/placement.go:88-97 | shuffling any list, repeated hosts included, is shuffling its positions |
| Placement.PlaceShards | internal/storage/placement.go:38-84 | with entropy for the shuffle it succeeds exactly for at least one shard and as many distinct host IDs; no ID repeats; hosts come from the list; with one owner per ID or one ID per owner it uses min(shards, owners) owners |
| Placement.Choose | internal/storage/placement.go:52-78 | the two loops make the specified two-pass choice, stopping early changing nothing |
| Placement.ChosenSound | internal/storage/placement.go:52-83 | the choice has distinct IDs, is drawn from the list, and has min(k, distinct IDs) hosts |
| Placement.ChosenSpreads | internal/storage/placement.go:56-78 | with one owner per ID, as when IDs are unique or a host is named twice, or with one ID per owner, it has min(k, owners) distinct owners |
| Placement.SpreadExactlyWhen | internal/storage/placement.go:56-78 | every list drawn from these hosts is spread, for every number of shards its IDs allow, if and only if no ID has two owners or no owner has two IDs |
| Placement.SharedOwnerCosts | internal/storage/placement.go:56-78 | a host under two owners, one of which has another host: two of the three miss an owner |
| Placement.SharedHostCosts | internal/storage/placement.go:56-78 | a host under two owners beside two hosts of a third owner: three of the four miss an owner |

## Left out

- Ed25519, SHA-256 and AES-GCM internals, key generation and nonce randomness: abstract predicates and functions stand for them.
- HTTP handlers, JSON and hex decoding, `internal/enroll`, `internal/coord`, `internal/relay`, the `internal/witnesskit` transport and `cmd/*` wiring other than the agent's loop: I/O plumbing.
- `internal/opcred`, `internal/contribute` and `internal/record/locker.go`: one-branch checks and simple maps.
- `internal/market`: the same log-and-replay shape as the tech tree without the graph invariant.
- `internal/storage` sealing, padding, fetch plan, cover cadence and audit.
- The `canon` encoder is not part of the repository; its layout is taken from the repository's own reconstructions (internal/economy/spend_test.go:21-50, internal/covenant/assessment_test.go:265-300), with a bool as one byte. Canonical bytes are modelled for dispute artifacts only.
- Defensive copying and aliasing of slices: values make it vacuous. Nil directories, stores and readers are not representable.
- Clocks and entropy are parameters. Duration arithmetic is over unbounded integers, so the saturation of very long durations is not modelled; the zero time is a missing value.
- The economy's directory is a fixed function: it never un-registers a key.
- Store errors other than a lost append race: the in-memory stores have none.
- `Rule` and `Withdraw` read a case and append in two store calls; registry calls are serialised here, as the server serialises them under its lock.
- The filing intake before `handleOpenDispute` takes its lock. The server's member directory is a parameter of the anchor views, and of every call on the covenant Book.
- The checkpoint and proof methods of the lifecycle log: the dialog log's over again.
- RelayFrontend.Frontend.StoreOffer: the order in which settled jobs are deleted is arbitrary, as map iteration is in the source.
- Economy.Ledger.Submit: states the retry loop of a ledger that is alone while the call runs; interleavings are the business of EconomyRuns, whose steps are single appends and catch-ups.
- Witness.LiveWitness.CountersignAs: a call that would spin in the split loop is an outcome of its own; the processor time it keeps is not modelled.
- DisputeBytes.RulingBytesDecodable: times are instants in nanoseconds that fit 64 bits; instants outside that range have no defined encoding in the source.
