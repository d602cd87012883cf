# JKaIN in Dafny

A model of the parts of JKaIN that have to agree: the hashgraph consensus node (ancestry, strong seeing,
rounds, fame, order), the deterministic executor with its actor log, the state commitments and checkpoints
built on it, and the mirror that verifies what the node publishes. Every theorem is about all inputs, all
runs or all reachable states of the model.

How the parts fit together:

- **Consensus.** An event is a term that carries its parents, so an event hash identifies an ancestry.
  Reachability, seeing, strong seeing, rounds and votes are functions of the events alone (`Events`,
  `Seeing`, `Rounds`, `Fame`). The class `Hashgraph` keeps the node's tables (sequence numbers, ancestor
  rows, first children, fork flags) and its queries are proved equal to those functions, so two nodes that
  store different graphs give the same answers. `Elections` runs the voting and misses no decision, `Orderer`
  the finalization, and `Consensus` joins the two: nodes that finalize what their own elections settle keep
  one log and sign one window.
- **Execution.** `Transitions` states what one payload does to the key-value state, byte formats included
  (`Codec`, `Identity`, `Operations`). `Executor` applies finalized events once each; `Ledgers` proves what
  the records mean over every run; `Deliveries` is about batches, diffs and replay.
- **Commitments.** `MerkleLog` is the append-only log of RFC 6962, `SparseTree` and `StateStore` the state
  tree and its serialization, `RecordsTree`, `Windows` and `Checkpoints` what a round's checkpoint signs.
- **Mirror.** `Streams` and `Ingest`: running hashes, file checks, the ingester and its restart.

Hashing is a parameter `h` everywhere. Results that need it ask for no collision among an explicit, finite
set of preimages, those that the computations in question hash; nothing assumes that `h` is injective.
Signature checks, Ed25519 point checks, UTF-8 validity, BLS operations and the decoding of membership
operations are parameters too (`Env`, `Bls`, `Checks`).

Where the code and its documentation differ, the model follows the code:

- `insert` overwrites the creator's own entry of the ancestor row, and `is_ancestor` trusts rows while no
  fork of the creator is known. Below a fork the answer is not plain reachability:
  `AncestorAnswerMissesForkedBranch` is the input, `AncestorAnswerIff` the exact condition.
- A tally in a coin round decides fame whenever it has a supermajority. Such a decision binds the votes of its
  own and all later rounds exactly when no other tally of the round is left to a contrary coin
  (`DecisionBindsIff`), and the next round overturns it exactly when enough were (`CoinRoundReversal`). Two
  tallies agree whenever no coin fell against the earlier one (`FameAgreement`). These results ask that every
  event past round 1 tallies a supermajority of the previous round, which is proved until some event has both
  branches of a fork below it (`UnseenForkWaves`).
- The eager decision is documented as binding every witness two rounds up. It counts witnesses, and
  `TippedByFork` is a graph of four members, one of them forking, where a witness two rounds up carries the
  opposite majority. Where more than two thirds of the members, counted once each and forkers not at all, stand
  behind it, it agrees with every decision (`EagerAgreement`); one that any tally overturns rested on a witness
  of a forking member (`OverturnedByFork`), and `EagerReversal` says when a later tally decides which way.
- `bucket_finalized` documents that a late event leads to the same root as an early one. For events that do not
  read the state, that holds exactly when the late event and what was executed before it write the same
  after-image to every key both write (`LateEventConverges`, with `LateWriteDiverges` as the smallest case).
- The ingester never checks that rounds rise along the chain: after any stored record it takes any verified
  file of a lower round that continues both hash chains (`RoundsMayFall`, `IngestFalling`). Re-seeding takes
  the highest round and finds the live anchor exactly when the last stored record has it (`SeedMatchesIff`).

## Model

| member | source | states |
|---|---|---|
| Ancestry.Hashgraph.constructor | consensus-node/protocol/consensus/src/hashgraph.rs:410-433 | a new graph over any member list is valid and empty |
| Ancestry.Hashgraph.Insert | consensus-node/protocol/consensus/src/hashgraph.rs:478-529 | every table invariant is kept; the result names the first failing check in the source's order; nothing changes on error, and on success only the new event is added |
| Ancestry.Hashgraph.Register | consensus-node/protocol/consensus/src/hashgraph.rs:519-529 | first-child, by-sequence and fork-flag tables stay exact: a flag is up iff two stored events of the member share a self-parent |
| Ancestry.Hashgraph.NewRecord | consensus-node/protocol/consensus/src/hashgraph.rs:504-517 | the number and row computed from the parents' records alone are the event's chain length and, per member, the slot its ancestry defines |
| Ancestry.Hashgraph.MergeRows | consensus-node/protocol/consensus/src/hashgraph.rs:506-517 | elementwise maximum of the parents' rows, as a fact about ancestries |
| Ancestry.Hashgraph.FlagMeansFork | consensus-node/protocol/consensus/src/hashgraph.rs:374-379 | the flag of a member is up iff the stored events hold two distinct events of it with one number |
| Ancestry.Hashgraph.IsAncestor | consensus-node/protocol/consensus/src/ancestry.rs:23-41 | for stored events the row test plus walk equals the pure ancestor answer; unknown events are reported in the source's order |
| Ancestry.Hashgraph.See | consensus-node/protocol/consensus/src/ancestry.rs:49-63 | true iff the target is reachable and the ancestry holds no fork of its creator, for every graph that stores both |
| Ancestry.Hashgraph.StronglySee | consensus-node/protocol/consensus/src/ancestry.rs:79-118 | true iff the target is seen and more than two thirds of the members carry it on their chains |
| Ancestry.Hashgraph.CountCarriers | consensus-node/protocol/consensus/src/ancestry.rs:104-117 | the counted members are exactly those whose chain, as the observer sees it, reaches the target |
| Ancestry.Hashgraph.MemberChainReaches | consensus-node/protocol/consensus/src/ancestry.rs:120-208 | walking a member's chain down from the observer's slot decides whether an event of it sees the target |
| Ancestry.Hashgraph.AncestorEventForCreator | consensus-node/protocol/consensus/src/ancestry.rs:210-240 | the event found for a number is the one the observer's ancestry search finds first |
| Ancestry.Hashgraph.AncestryContainsEvent | consensus-node/protocol/consensus/src/ancestry.rs:242-263 | the breadth-first walk terminates and decides reachability by parent edges |
| Ancestry.Hashgraph.AncestryContainsForkOf | consensus-node/protocol/consensus/src/ancestry.rs:269-297 | the walk reports true iff the ancestry holds two distinct events of the creator with one number |
| StronglySeeing.AncestorAnswerIff | consensus-node/protocol/consensus/src/ancestry.rs:23-41 | exact condition under which the ancestor answer is reachability |
| StronglySeeing.AncestorAnswerForkFree | consensus-node/protocol/consensus/src/ancestry.rs:23-41 | without a fork of the creator below the observer the answer is reachability |
| StronglySeeing.AncestorAnswerMissesForkedBranch | consensus-node/protocol/consensus/src/ancestry.rs:23-41 | a concrete graph in which a reachable event is not reported |
| StronglySeeing.SlotIsFirstMet | consensus-node/protocol/consensus/src/hashgraph.rs:506-517 | what a row entry means when the creator forked: the greatest number among the events of the creator that the walks down meet first |
| StronglySeeing.ViewsAgree | consensus-node/protocol/consensus/src/ancestry.rs:23-118 | two graphs with one roster that both store x and y answer all three queries alike, whatever each knows about forks |
| StronglySeeing.InsertKeepsAnswers | consensus-node/protocol/consensus/src/ancestry.rs:23-118 | a later insertion never changes an answer about stored events |
| StronglySeeing.StronglySeenOnOneChain | consensus-node/protocol/consensus/src/ancestry.rs:96-208 | with at most a third of the members forking, two strongly seen events of one creator, from any two observers, lie on one chain |
| StronglySeeing.SharedCarrier | consensus-node/protocol/consensus/src/ancestry.rs:96-208 | two strong sightings share an honest member that carries both targets |
| Seeing.WalkVisits | consensus-node/protocol/consensus/src/ancestry.rs:242-297 | one step of the walk keeps: every ancestor is visited or still reachable from the queue |
| Seeing.WalkEnds | consensus-node/protocol/consensus/src/ancestry.rs:242-297 | an empty queue means all ancestors were visited |
| Events.SiblingsIffFork | consensus-node/protocol/consensus/src/hashgraph.rs:519-529 | in a parent-closed set, two children of one self-parent exist iff two events of the member have one number |
| Events.SlotExact | consensus-node/protocol/consensus/src/hashgraph.rs:506-517 | without a fork of the member, its slot is the highest number among the ancestors |
| Rounds.RoundsGrow | consensus-node/protocol/consensus/src/round.rs:10-15 | rounds never fall along parent edges |
| Rounds.OneWitnessPerRound | consensus-node/protocol/consensus/src/round.rs:60-64 | a self-parent chain holds at most one witness of each round |
| Rounds.StrongWitnessUnique | consensus-node/protocol/consensus/src/round.rs:44-74 | strongly seen witnesses of one round and creator are equal, from any two observers, with at most a third forking |
| Rounds.PreviousRoundQuorum | consensus-node/protocol/consensus/src/round.rs:44-74 | without forks every event past round 1 strongly sees more than two thirds of the previous round's witnesses |
| Fame.DisjointVoters | consensus-node/protocol/consensus/src/fame.rs:315-387 | the voters of two tallies of one round that share no event number at most n together |
| Fame.DecisionBindsMajority | consensus-node/protocol/consensus/src/fame.rs:315-387 | once a tally decides, every tally of that round falls on the same side, where all tallies hold a supermajority |
| Fame.VoteInDecidingRound | consensus-node/protocol/consensus/src/fame.rs:368-386 | in the round of a decision a vote differs from it exactly when its tally is left to a contrary coin |
| Fame.DecisionBindsVotes | consensus-node/protocol/consensus/src/fame.rs:315-387 | a decision against which no coin of its round fell fixes every vote of its round and of all later rounds |
| Fame.DecisionBindsIff | consensus-node/protocol/consensus/src/fame.rs:315-387 | a decision binds all votes from its round on exactly when no coin of its round falls against it |
| Fame.FameAgreement | consensus-node/protocol/consensus/src/fame.rs:315-387 | any two deciding tallies of any two nodes agree unless a coin fell against the earlier one, where all tallies hold a supermajority |
| Fame.CoinRoundReversal | consensus-node/protocol/consensus/src/fame.rs:368-382 | after a decision, a tally of the next round decides the opposite exactly when more than two thirds of the roster are voters left to a contrary coin, and confirms it exactly when more than two thirds are not |
| ForkedElection.TippedByFork | consensus-node/protocol/consensus/src/fame.rs:151-224 | in every graph of one shape, with one forker among four members, the eager rule decides a witness famous and a witness two rounds up tallies and votes against it |
| ForkedElection.GossipExists | consensus-node/protocol/consensus/src/fame.rs:151-160 | there are graphs of that shape |
| ForkedElection.StrongAt | consensus-node/protocol/consensus/src/ancestry.rs:79-118 | in such a graph three members with an event in between make one event strongly see another |
| ForkedElection.WeakAt | consensus-node/protocol/consensus/src/ancestry.rs:79-118 | two members with an event in between do not |
| ForkedElection.AllRounds | consensus-node/protocol/consensus/src/round.rs:44-74 | the rounds and witnesses of such a graph |
| Fame.OverturnedByFork | consensus-node/protocol/consensus/src/fame.rs:151-224 | an eager decision that a tally of any later round overturns counted a witness of a forking member, and too few other members stood behind it |
| Fame.EagerReversal | consensus-node/protocol/consensus/src/fame.rs:315-387 | three rounds up a tally decides a side exactly when more than two thirds of the roster are voters whose own tallies of the directly voting witnesses fall on it, whatever was decided eagerly |
| Fame.UnseenForkWaves | consensus-node/protocol/consensus/src/fame.rs:151-160 | until some event has both branches of a fork below it, every event past round 1 tallies more than two thirds of the roster |
| Fame.BackedBindsMajority | consensus-node/protocol/consensus/src/fame.rs:151-160 | when more than two thirds of the members back one side without forking, every tally two rounds up falls on it |
| Fame.EagerBindsVotes | consensus-node/protocol/consensus/src/fame.rs:151-224 | such an eager decision fixes the majority and vote of every witness two or more rounds later, coin rounds included and other members forking or not |
| Fame.EagerlyBacked | consensus-node/protocol/consensus/src/fame.rs:189-224 | the witnesses the code counts are that many members when no counted one forks |
| Fame.EagerAgreement | consensus-node/protocol/consensus/src/fame.rs:151-224 | an eager decision backed by members agrees with every tally decision, coin rounds included |
| Fame.EagerPairAgreement | consensus-node/protocol/consensus/src/fame.rs:151-224 | two such eager decisions taken from different partial graphs agree |
| Elections.Elections.constructor | consensus-node/protocol/consensus/src/hashgraph.rs:410-433 | elections start settled: nothing stored, nothing decided |
| Elections.Elections.Insert | consensus-node/protocol/consensus/src/hashgraph.rs:478-598 | after every insertion the stored rounds, witness lists, votes and decisions are what Rounds and Fame define, every known witness has voted on every undecided earlier one, nothing known settles an undecided witness, and no decision is ever revoked |
| Elections.Elections.AssignRound | consensus-node/protocol/consensus/src/round.rs:44-64 | the round and witness status computed from parent records and stored witnesses are the pure ones |
| Elections.Elections.Store | consensus-node/protocol/consensus/src/round.rs:66-72 | witness lists and the highest witness round stay exact and earlier decisions stay justified in the larger graph |
| Elections.Elections.VoteAsWitness | consensus-node/protocol/consensus/src/fame.rs:242-300 | after the voting step of a new witness, out-of-order arrivals included, no vote between known witnesses is missing and every witness that anything known settles is decided |
| Elections.Elections.VoteOnEarlier | consensus-node/protocol/consensus/src/fame.rs:245-262 | every undecided earlier witness ends up decided, or voted on by all later witnesses with nothing settling it |
| Elections.Elections.VoteOn | consensus-node/protocol/consensus/src/fame.rs:252-258 | one vote and one eager attempt leave the candidate decided or provably open |
| Elections.Elections.BackfillAll | consensus-node/protocol/consensus/src/fame.rs:264-288 | unless it is decided on the way, every known later witness has voted on the newcomer |
| Elections.Elections.Backfill | consensus-node/protocol/consensus/src/fame.rs:269-275 | every known witness of the round has voted on the newcomer unless it was decided first |
| Elections.Elections.TryEagerDecide | consensus-node/protocol/consensus/src/fame.rs:160-224 | a decision is recorded only when the eager rule fires, and once all votes are in it is recorded whenever the rule fires, yes before no |
| Elections.Elections.EagerVerdict | consensus-node/protocol/consensus/src/fame.rs:171-223 | the side the eager rule settles, and none only when votes are missing or the rule does not fire |
| Elections.Elections.DirectVotes | consensus-node/protocol/consensus/src/fame.rs:193-213 | complete iff every known witness of the next round has voted, and then the two counts are its two sides |
| Elections.Elections.VoteOf | consensus-node/protocol/consensus/src/fame.rs:315-387 | the memoized recursion records and returns the pure vote, which no supermajority stood behind, or returns a decision that a tally justifies |
| Elections.Elections.TallyVoters | consensus-node/protocol/consensus/src/fame.rs:353-366 | yes and no are the sizes of the two sides of the pure tally, unless a voter's recursion decided the candidate |
| Elections.Elections.StronglySeen | consensus-node/protocol/consensus/src/fame.rs:345-351 | filtering the stored witnesses by strong seeing gives exactly the voters |
| Elections.Elections.DecideFame | consensus-node/protocol/consensus/src/hashgraph.rs:969-976 | a decision is recorded once and leaves the undecided set |
| Elections.DecidedIffSettled | consensus-node/protocol/consensus/src/fame.rs:23-50 | a node has decided a witness exactly when a known witness's tally decides it or the eager rule fires on what is known |
| Elections.TallyIsHeeded | consensus-node/protocol/consensus/src/fame.rs:23-50 | no deciding tally of a known witness is missed, whatever the order of arrival |
| Elections.DecisionsFollowEvents | consensus-node/protocol/consensus/src/fame.rs:23-50 | a node with more events has decided at least as much, and nodes with the same events the same witnesses, in whatever order they arrived |
| Elections.EarlyTallyAgrees | consensus-node/protocol/consensus/src/fame.rs:315-387 | a tally before the first coin round agrees with every other tally, however late |
| Elections.DecisionsAgree | consensus-node/protocol/consensus/src/fame.rs:151-387 | a decision backed by members or tallied early agrees with any decision backed by members or tallied at all |
| Elections.NodesAgreeDespiteForks | consensus-node/protocol/consensus/src/fame.rs:151-387 | the same between two nodes whose graphs hold forks nobody has seen whole, however far either graph has grown |
| Elections.NodesAgreeOnFame | consensus-node/protocol/consensus/src/fame.rs:151-387 | two nodes without forks in what they hold together decide a witness alike once one of them decided it eagerly or before its first coin round, with no bound on either graph |
| FirstSeen.BoundaryLeast | consensus-node/protocol/consensus/src/order.rs:170-228 | the binary search over a member's numbers ends at its first event that sees the target |
| FirstSeen.SeeingRises | consensus-node/protocol/consensus/src/order.rs:170-228 | seeing the target is monotone along a self-parent chain |
| FirstSeen.SearchIsExhaustive | consensus-node/protocol/consensus/src/order.rs:170-228 | with a fork-free ancestry the reported event is the least (number, hash) event of the whole ancestry that sees the target, and conversely |
| Ordering.Orderer.constructor | consensus-node/protocol/consensus/src/hashgraph.rs:410-433 | ordering starts with no round finalized |
| Ordering.Orderer.Insert | consensus-node/protocol/consensus/src/hashgraph.rs:478-598 | an event that arrives later is seen by no witness of a finalized round, so nothing ordered changes |
| Ordering.Orderer.AssignOrder | consensus-node/protocol/consensus/src/order.rs:122-147 | every pending event all famous witnesses see is received in this round; what was ordered before keeps its round and stamp |
| Ordering.Orderer.FinalizePending | consensus-node/protocol/consensus/src/order.rs:122-147 | exactly the pending events that the famous witnesses all see are ordered, in any enumeration order |
| Ordering.Orderer.FirstSeenTimestamps | consensus-node/protocol/consensus/src/order.rs:137-142 | one first-seen timestamp per famous witness, whose median is the consensus stamp |
| Ordering.Orderer.FirstSeenTimestamp | consensus-node/protocol/consensus/src/order.rs:170-228 | the timestamp of the least candidate over all members, none iff no member contributes |
| Ordering.Orderer.FindBoundary | consensus-node/protocol/consensus/src/order.rs:190-200 | the low/high loop computes the boundary |
| Ordering.Orderer.CreatorChainEvent | consensus-node/protocol/consensus/src/order.rs:234-246 | the event of a member with a given number as the witness sees it |
| Ordering.Orderer.ConsensusOrder | consensus-node/protocol/consensus/src/order.rs:267-289 | for any enumeration of the store: the round's events, each once, sorted by stamp, signature fold and hash |
| Ordering.Orderer.MaxOrderedRound | consensus-node/protocol/consensus/src/hashgraph.rs:1383-1385 | the highest round received |
| Ordering.Orderer.FinalizedEvents | consensus-node/executor/state/src/executor.rs:604-609 | the rounds' orders one after another |
| Ordering.RoundOrderUnique | consensus-node/protocol/consensus/src/order.rs:267-289 | a round has one order whatever the enumeration, hashes being distinct |
| Ordering.ConsensusLePreorder | consensus-node/protocol/consensus/src/order.rs:267-289 | the comparator is a total preorder |
| Ordering.RoundReceivedIsLeast | consensus-node/protocol/consensus/src/order.rs:122-147 | an event's round received is the least finalized round whose non-empty famous set all see it |
| Ordering.OrderMeaning | consensus-node/protocol/consensus/src/order.rs:122-147 | in every reachable state: the round and stamp of an ordered event, and that no finalized round received a pending one |
| Ordering.LogGrows | consensus-node/executor/state/src/executor.rs:604-609 | a later finalized log starts with the earlier one |
| Ordering.Run | consensus-node/protocol/consensus/src/hashgraph.rs:1033-1039 | over any interleaving of arrivals and finalizations, ordered events keep round and stamp and every earlier log is a prefix of every later one |
| Ordering.NodesAgreeOnOrder | consensus-node/protocol/consensus/src/order.rs:122-289 | two nodes that finalized the same famous witnesses, in any listing and one perhaps further, agree on all rounds and stamps so far, and one's log is a prefix of the other's |
| Ordering.PermutedFirsts | consensus-node/protocol/consensus/src/order.rs:137-142 | two listings of the same famous witnesses contribute the same timestamps |
| Ordering.StampUnique | consensus-node/protocol/consensus/src/order.rs:137-144 | the consensus stamp is determined by the set of famous witnesses and the event |
| Median.MedianBetweenHonest | consensus-node/protocol/consensus/src/order.rs:309-321 | with fewer than half of the values faulty the median, or the average of the middle two, lies between the least and greatest honest value |
| Consensus.ViewHoldsWitness | consensus-node/protocol/consensus/src/hashgraph.rs:978-997 | a complete view of a round holds every witness of the round that a non-forking member ever makes |
| Consensus.SameWitnesses | consensus-node/protocol/consensus/src/hashgraph.rs:978-997 | without forks two nodes with complete views of a round know the same witnesses of it |
| Consensus.FamousWitnesses | consensus-node/protocol/consensus/src/order.rs:92-112 | the round's famous witnesses, of a forked one only the branch met first; all of them without forks |
| Consensus.FamousSetsAgree | consensus-node/protocol/consensus/src/hashgraph.rs:999-1023 | two nodes that decided a round, one of them before its first coin rounds, hold the same witnesses famous |
| Consensus.HistoriesAgree | consensus-node/protocol/consensus/src/hashgraph.rs:999-1039 | nodes that finalize what their own elections settle finalize every common round with the same famous witnesses |
| Consensus.NodesAgreeOnLog | consensus-node/protocol/consensus/src/order.rs:1-48 | from events received in any order to one log: such nodes give every event the same round and timestamp and one's log is a prefix of the other's |
| Consensus.NodesSignOneWindow | consensus-node/protocol/consensus/src/checkpoint.rs:128-135 | such nodes compute one window root for every round both finalized |
| MerkleLog.SplitIsLargestPow2 | consensus-node/executor/state/src/merkle_log.rs:261-265 | the split is the largest power of two strictly below n, and the only one at or above half of n |
| MerkleLog.MthBinds | consensus-node/executor/state/src/merkle_log.rs:71-80 | lists of one length with one tree hash are equal |
| MerkleLog.InclusionPath | consensus-node/executor/state/src/merkle_log.rs:267-279 | appending to the out vector yields the audit path after what was there |
| MerkleLog.ProveInclusion | consensus-node/executor/state/src/merkle_log.rs:188-195 | a proof exists iff the index is in range |
| MerkleLog.InclusionComplete | consensus-node/executor/state/src/merkle_log.rs:200-208 | every generated audit path is accepted |
| MerkleLog.InclusionSound | consensus-node/executor/state/src/merkle_log.rs:283-303 | an accepted path with the true size shows the leaf at the claimed index |
| MerkleLog.ConsistencySubproof | consensus-node/executor/state/src/merkle_log.rs:309-325 | appending to the out vector yields the subproof after what was there |
| MerkleLog.ProveConsistency | consensus-node/executor/state/src/merkle_log.rs:216-229 | a proof exists iff the old count does not exceed the size; it is empty for 0 and for the whole list |
| MerkleLog.ConsistencyComplete | consensus-node/executor/state/src/merkle_log.rs:240-258 | the generated proof is accepted for every prefix size, 0 and the whole list included |
| MerkleLog.ConsistencySound | consensus-node/executor/state/src/merkle_log.rs:240-258 | an accepted proof with the true sizes, the old one positive, makes the old list a prefix of the new one |
| MerkleLog.AppendForced | consensus-node/executor/state/src/executor.rs:483-497 | checking inclusion at the old count and consistency from the old root, without the leaves, forces the new root to be the tree hash of the old leaves and the new one |
| Codec.NumberOfBigEndian | consensus-node/executor/state/src/did.rs:405-413 | big-endian integers read back, for any width |
| Codec.BigEndianOfNumber | consensus-node/executor/state/src/did.rs:405-413 | every byte string of a width is the encoding of its number |
| Codec.TakeFieldAppended | consensus-node/executor/state/src/op.rs:185-193 | a length-prefixed field reads back whatever follows it |
| Codec.TakeFieldCanonical | consensus-node/executor/state/src/op.rs:185-193 | a field is read from exactly one byte string |
| Identity.TakeDidAppended | consensus-node/executor/state/src/did.rs:122-142 | identifiers read back whatever follows |
| Identity.TakeDidCanonical | consensus-node/executor/state/src/did.rs:131-142 | an accepted identifier is valid and re-encodes to the bytes read |
| Identity.PutDidPrefixFree | consensus-node/executor/state/src/did.rs:122-128 | no two identifier encodings can start the same byte string |
| Identity.DecodeMethods | consensus-node/executor/state/src/did.rs:281-296 | the decoding loop equals the recursive reader, errors included |
| Identity.TakeDocumentAppended | consensus-node/executor/state/src/did.rs:252-304 | valid documents read back whatever follows |
| Identity.TakeDocumentValid | consensus-node/executor/state/src/did.rs:266-304 | whatever decodes has one to five methods, one of them signing, and points for keys |
| Identity.SigningKeysListed | consensus-node/executor/state/src/did.rs:241-249 | an addressable signing key is a signing method of the document |
| Identity.TakeActorAppended | consensus-node/executor/state/src/root_actor.rs:84-127 | actor identifiers read back, except an index at or above 2^31, which is refused |
| Identity.TakeRootAppended | consensus-node/executor/state/src/root_actor.rs:183-206 | root records read back |
| Identity.TakeSubAppended | consensus-node/executor/state/src/sub_actor.rs:75-93 | sub-actor records read back |
| Identity.DidKeyInjective | consensus-node/executor/state/src/did.rs:156-161 | documents of different identifiers have different keys |
| Identity.ActorKeyInjective | consensus-node/executor/state/src/root_actor.rs:134-139 | records of different actors have different keys |
| Identity.KeyKinds | consensus-node/executor/state/src/op.rs:199-205 | document keys and actor keys never meet, and both start with a reserved byte |
| Operations.DidOpRoundTrip | consensus-node/executor/state/src/did.rs:348-373 | a document operation decodes to itself |
| Operations.MintRoundTrip | consensus-node/executor/state/src/sub_actor.rs:270-331 | a mint with both proofs decodes to itself |
| Operations.RebindRoundTrip | consensus-node/executor/state/src/sub_actor.rs:397-425 | a rebind decodes to itself |
| Operations.PutRoundTrip | consensus-node/executor/state/src/op.rs:69-110 | a plain write or delete decodes to itself exactly when its key is outside the reserved prefixes, and to the reserved-prefix error otherwise |
| Operations.DecodedIsValid | consensus-node/executor/state/src/op.rs:131-182 | whatever decodes satisfies the constructors' conditions, and no plain write names a reserved key |
| Operations.TakeProofAppended | consensus-node/executor/state/src/merkle_log.rs:112-180 | both proof encodings read back whatever follows |
| Ledgers.CreateKeeps | consensus-node/executor/state/src/executor.rs:351-397 | creating a DID opens an empty account and touches no other |
| Ledgers.UpdateKeeps | consensus-node/executor/state/src/executor.rs:364-412 | a rotation replaces the root's control key and keeps its commitment; a deactivation leaves the root alone |
| Ledgers.MintForced | consensus-node/executor/state/src/executor.rs:483-497 | the accepted new root is the tree hash of all leaves minted so far and the new one, and the 64-bit count cannot wrap |
| Ledgers.MintKeeps | consensus-node/executor/state/src/executor.rs:441-513 | a mint appends one sub-actor to one account: slot fresh, record stored, count and root advanced |
| Ledgers.RebindKeeps | consensus-node/executor/state/src/executor.rs:525-586 | a rebind changes an operating key and nothing the root commits to |
| Ledgers.PlainKeeps | consensus-node/executor/state/src/op.rs:199-205 | plain writes cannot disturb any record |
| Ledgers.RunKeeps | consensus-node/executor/state/src/executor.rs:147-175 | every run of arbitrary payloads keeps records and ledger in one-to-one correspondence |
| Ledgers.RunCommitted | consensus-node/executor/state/src/executor.rs:341-513 | from the empty state, for every run: each root stores the tree hash and number of the sub-actors minted under it, in order, and the document's control key while active, or two hashed preimages collide |
| Ledgers.RetiredForever | consensus-node/executor/state/src/executor.rs:373-375 | after deactivation no record of the DID changes, appears or disappears in any run |
| Ledgers.MintedForever | consensus-node/executor/state/src/executor.rs:441-451 | a minted sub-actor keeps its record, slot and control key in every further run |
| Ledgers.DocumentChangeIsSigned | consensus-node/executor/state/src/executor.rs:341-390 | a stored document changes only by an operation on that DID that a signing method of the stored, active document signed |
| Ledgers.NewDocumentIsSelfSigned | consensus-node/executor/state/src/executor.rs:351-363 | a DID comes into being only by a creation with an active document that one of its own signing methods signed |
| Ledgers.SubActorChangeIsAuthorized | consensus-node/executor/state/src/executor.rs:441-586 | a sub-actor record appears only by a mint that a signing method of its active root signed, and changes only by a rebind signed by the new operating key and by the root's control key over the old operating key |
| Ledgers.DidTakesEffect | consensus-node/executor/state/src/executor.rs:392-426 | after an accepted document operation the stored document reads back as the one carried, with the root record that belongs to it |
| Ledgers.MintTakesEffect | consensus-node/executor/state/src/executor.rs:498-513 | after an accepted mint the new record reads back with both keys, and the root with the claimed hash, one more leaf and its old control key |
| Ledgers.RebindTakesEffect | consensus-node/executor/state/src/executor.rs:575-585 | after an accepted rebind the record reads back with only its operating key replaced |
| Ledgers.LeafDataInjective | consensus-node/executor/state/src/sub_actor.rs:100-111 | leaf data binds the actor identifier and the control key |
| Ledgers.RootNamesSubActors | consensus-node/executor/state/src/sub_actor.rs:100-116 | two states that store one root and count hold the same sub-actors in the same order |
| Executor.Executor.constructor | consensus-node/executor/state/src/executor.rs:118-120 | an executor starts empty and valid |
| Executor.Executor.ApplyDidOp | consensus-node/executor/state/src/executor.rs:341-426 | the state becomes what the outcome writes; an error changes nothing; the result carries the root record written |
| Executor.Executor.ApplySubActorOp | consensus-node/executor/state/src/executor.rs:441-513 | the two records returned are exactly the two written; an error changes nothing |
| Executor.Executor.ApplyRebindOp | consensus-node/executor/state/src/executor.rs:525-586 | the record returned is exactly the one written; an error changes nothing |
| Executor.Executor.ExecuteEvent | consensus-node/executor/state/src/executor.rs:147-175 | the payloads take effect in order, no failure stops the next, and failures and membership operations are collected apart |
| Executor.Executor.ExecuteEventWithDiffs | consensus-node/executor/state/src/executor.rs:260-309 | same effect and results, and the diff is the after-images of the keys written |
| Executor.Executor.BucketFinalized | consensus-node/executor/state/src/executor.rs:192-219 | state, executed set, pending operations and watermark are those of delivering the batch, each event once |
| Executor.Executor.BucketFinalizedWithDiffs | consensus-node/executor/state/src/executor.rs:221-258 | the same state, pending operations and watermark as the plain variant, and the non-empty diffs per round |
| Deliveries.DiffReplay | consensus-node/executor/state/src/executor.rs:221-258 | for every batch in round order, laying the emitted diffs over the starting state round by round gives the executor's state |
| Deliveries.OverlayDiffOf | consensus-node/executor/state/src/executor.rs:260-309 | the diff of an event laid over what came before gives the state after the event |
| Deliveries.RepeatedBatch | consensus-node/executor/state/src/executor.rs:203-213 | a batch of executed events changes nothing |
| Deliveries.DeliverAllExecutes | consensus-node/executor/state/src/executor.rs:203-213 | afterwards exactly the earlier events and those of the batch count as executed |
| Deliveries.GrownLog | consensus-node/executor/state/src/executor.rs:203-213 | feeding a grown log again executes only what was added |
| Deliveries.LogsConverge | consensus-node/executor/state/src/executor.rs:177-191 | however the growing log is fed, the outcome is one pass over the last log |
| Deliveries.PendingByRound | consensus-node/executor/state/src/executor.rs:208-210 | each round's queue grows by exactly the membership operations of that round's newly executed events, in order |
| Deliveries.EveryPayloadCounted | consensus-node/executor/state/src/executor.rs:152-174 | every payload is accounted for once: applied, collected, undecodable or refused |
| Deliveries.LateEventConverges | consensus-node/executor/state/src/executor.rs:177-191 | a late event that does not read the state leads to the same state as an early one, past any batch, exactly when both write the same after-image to every key both write |
| Deliveries.PlainDiff | consensus-node/executor/state/src/executor.rs:260-309 | what such payloads write does not depend on where they are executed |
| Deliveries.BatchOverlay | consensus-node/executor/state/src/executor.rs:221-258 | the state after a batch is its after-images laid over the state before |
| Deliveries.LateWriteDiverges | consensus-node/executor/state/src/executor.rs:177-191 | two events writing one key may be exchanged exactly when they write one value |
| Deliveries.OverlaysCommute | consensus-node/executor/state/src/executor.rs:177-191 | two diffs may be laid in either order exactly when they agree on every key both write |
| Paths.FlipBytes | consensus-node/executor/state/src/merkle.rs:93-98 | the byte operation flips exactly one bit of the path |
| Paths.MaskBytes | consensus-node/executor/state/src/merkle.rs:102-115 | the byte loop keeps the first depth bits and zeroes the rest |
| Paths.BitsInjective | consensus-node/executor/state/src/merkle.rs:87-91 | a path determines its hash |
| SparseTree.SparseMerkleTree.constructor | consensus-node/executor/state/src/merkle.rs:128-137 | the empty tree satisfies the tree invariant |
| SparseTree.SparseMerkleTree.Rehash | consensus-node/executor/state/src/merkle.rs:151-158 | rehashing the branches above a changed leaf restores the invariant for all branches |
| SparseTree.SparseMerkleTree.Insert | consensus-node/executor/state/src/merkle.rs:146-159 | afterwards every stored branch and the root are the recursive hash of the leaves, and only non-empty branches are stored |
| SparseTree.SparseMerkleTree.Delete | consensus-node/executor/state/src/merkle.rs:163-178 | the same after a removal; an absent key changes nothing |
| SparseTree.SparseMerkleTree.ProofSiblings | consensus-node/executor/state/src/merkle.rs:182-190 | the true sibling hashes along the path, none iff there is no leaf |
| SparseTree.SparseMerkleTree.SetBranch | consensus-node/executor/state/src/merkle.rs:202-208 | an empty hash is never stored |
| SparseTree.TreeUnique | consensus-node/executor/state/src/merkle.rs:146-208 | the leaves determine every stored branch and the root |
| SparseTree.DeleteUndoesInsert | consensus-node/executor/state/src/merkle.rs:146-178 | deleting a fresh insert restores the tree |
| SparseTree.SubtreeFrame | consensus-node/executor/state/src/merkle.rs:146-159 | a changed leaf leaves all subtrees off its path as they were |
| SparseTree.Verify | consensus-node/executor/state/src/merkle.rs:225-237 | the fold loop decides whether the proof folds to the root |
| SparseTree.ProofComplete | consensus-node/executor/state/src/merkle.rs:182-237 | the generated proof of every stored pair verifies |
| SparseTree.CombineBinds | consensus-node/executor/state/src/merkle.rs:76-83 | equal parents have the same non-empty children, though not necessarily on the same side |
| SparseTree.ProofSound | consensus-node/executor/state/src/merkle.rs:225-237 | a verified proof names a pair that is in the tree, unsided singletons notwithstanding |
| StateStore.State.constructor | consensus-node/executor/state/src/state.rs:36-38 | a state starts empty with the empty tree |
| StateStore.State.Apply | consensus-node/executor/state/src/state.rs:77-91 | partition and tree change together: the tree always commits to the partition's pairs |
| StateStore.State.Proof | consensus-node/executor/state/src/state.rs:65-69 | a present key gets a proof that verifies against the live root, an absent key none |
| StateStore.State.ToBytes | consensus-node/executor/state/src/state.rs:100-109 | the one ascending list of pairs, serialized |
| StateStore.FromBytes | consensus-node/executor/state/src/state.rs:116-136 | restores the pairs of canonical input and refuses everything else |
| StateStore.RootOfBytes | consensus-node/executor/state/src/state.rs:141-159 | the root the restored state would have |
| StateStore.RoundTrip | consensus-node/executor/state/src/state.rs:100-136 | serializing and reading back gives the same pairs |
| StateStore.OnlyCanonical | consensus-node/executor/state/src/state.rs:116-136 | every accepted byte string is the serialization of the state it restores |
| StateStore.LiveRoot | consensus-node/executor/state/src/state.rs:141-159 | after any history the live root is the root of the serialization |
| StateStore.SamePairsSameTree | consensus-node/executor/state/src/merkle.rs:146-208 | two histories that end in the same pairs end in equal trees |
| StateStore.SaveAndRestore | consensus-node/executor/state/src/state.rs:100-159 | for every live state the root computed from its bytes is its root, and reading them back gives the same pairs and the same tree |
| Serialization.EntriesUnique | consensus-node/executor/state/src/state.rs:100-109 | a state has one ascending list of entries |
| Serialization.ParseCanonical | consensus-node/executor/state/src/state.rs:116-136 | accepted input is strictly ascending and equals its own re-serialization |
| Serialization.ParseSerialized | consensus-node/executor/state/src/state.rs:116-136 | every ascending list of entries reads back |
| RecordsTree.RecordsRoot | consensus-node/protocol/consensus/src/checkpoint.rs:99-120 | the level-by-level loop computes the recursive tree hash of the padded leaves; none iff a payload is too long |
| RecordsTree.PairsKeepHash | consensus-node/protocol/consensus/src/checkpoint.rs:109-118 | hashing neighbours bottom up and halves top down give one root |
| RecordsTree.BuildProofs | consensus-node/protocol/consensus/src/checkpoint.rs:373-419 | one proof per item, each folding to the root |
| RecordsTree.StepsFold | consensus-node/protocol/consensus/src/checkpoint.rs:400-411 | the steps from any position of a level fold to its root |
| RecordsTree.VerifyProof | consensus-node/protocol/consensus/src/checkpoint.rs:444-456 | the step loop decides whether the item's leaf folds to the root |
| RecordsTree.RecordsRootBinds | consensus-node/protocol/consensus/src/checkpoint.rs:99-120 | equal roots mean equal item lists: contents, order and length, padding notwithstanding |
| RecordsTree.RootBindsLeaves | consensus-node/protocol/consensus/src/checkpoint.rs:99-120 | leaf lists of any two lengths with one root are equal |
| RecordsTree.ProofShowsMembership | consensus-node/protocol/consensus/src/checkpoint.rs:444-456 | an accepted proof of any number of steps shows the item is in the list |
| Windows.RootOfRecords | consensus-node/protocol/consensus/src/checkpoint.rs:170-201 | the padded fold over the records' leaves, none only when there are some and the roster is too wide |
| Windows.WindowRoot | consensus-node/protocol/consensus/src/checkpoint.rs:161-201 | from any enumeration of a node's store: the root over the records of the events received in the window's rounds, in consensus order |
| Windows.SameWindow | consensus-node/protocol/consensus/src/checkpoint.rs:128-135 | two nodes that agree on the finalized rounds have one window |
| Windows.SameStored | consensus-node/protocol/consensus/src/hashgraph.rs:504-517 | number and row of an event are the same on every node with the same roster |
| Windows.WindowRootsAgree | consensus-node/protocol/consensus/src/checkpoint.rs:128-201 | two nodes that finalized the same famous witnesses compute the same window and root, whatever pending events each holds and however its store enumerates |
| Windows.ZeroColumnsRoot | consensus-node/protocol/consensus/src/checkpoint.rs:206-241 | zero columns appended for members that join later leave the root unchanged |
| Windows.WindowRootBinds | consensus-node/protocol/consensus/src/checkpoint.rs:161-241 | the root binds which events are in the window, their order, their ordering metadata and their rows up to the canonical width |
| Checkpoints.SigningBytesInjective | consensus-node/protocol/consensus/src/checkpoint.rs:580-590 | the 200 signed bytes bind the round and all six hashes |
| Checkpoints.Verify | consensus-node/protocol/consensus/src/checkpoint.rs:655-706 | accepts iff the signers are distinct members, more than two thirds, and the aggregate verifies under their keys in ascending order |
| Checkpoints.DistinctMembers | consensus-node/protocol/consensus/src/checkpoint.rs:665-678 | collects the distinct signers, or fails on a non-member |
| Checkpoints.QuorumsOverlap | consensus-node/protocol/consensus/src/checkpoint.rs:655-706 | two verified checkpoints of one roster share more than a third of it among their signers |
| Checkpoints.CheckpointAccumulator.constructor | consensus-node/protocol/consensus/src/checkpoint.rs:722-724 | an accumulator starts without signatures |
| Checkpoints.CheckpointAccumulator.AddSig | consensus-node/protocol/consensus/src/checkpoint.rs:755-786 | emits only at the arrival that reaches the quorum, with the collected signers ascending and the aggregate in that order |
| Checkpoints.CompletesAtQuorum | consensus-node/protocol/consensus/src/checkpoint.rs:755-786 | the completing arrival is the first after which more than two thirds of the members have signed, for every order and duplication of arrivals |
| Checkpoints.CompletesOnce | consensus-node/protocol/consensus/src/checkpoint.rs:755-786 | at most one arrival completes |
| Checkpoints.CompletesEventually | consensus-node/protocol/consensus/src/checkpoint.rs:755-786 | if more than two thirds ever sign, some arrival completes |
| Checkpoints.EmittedVerifies | consensus-node/protocol/consensus/src/checkpoint.rs:655-786 | what is emitted verifies exactly when its aggregate does |
| Streams.RunningHash | mirror-node/internal/stream/hash.go:41-48 | the loop computes the chain |
| Streams.RunningAppend | mirror-node/internal/stream/hash.go:41-48 | chains compose |
| Streams.RunningBinds | mirror-node/internal/stream/hash.go:16-48 | the running hash from the seed binds the item list, length included |
| Streams.SigningBytesBind | mirror-node/internal/stream/verify.go:375-385 | the mirror's signed bytes bind the round, all four roots, the roster hash and the predecessor hash |
| Streams.ValidateStateDiffs | mirror-node/internal/stream/verify.go:339-368 | accepts iff the diffs are within limits and all keys strictly ascend |
| Streams.ComputeRecordsRoot | mirror-node/internal/stream/verify.go:286-314 | the mirror's fold is the padded tree over its leaves, the empty hash standing for an oversized payload |
| Streams.VerifyCheckpointBinding | mirror-node/internal/stream/verify.go:513-531 | accepts iff the hashes are whole, the named root is the root over the items, and a quorum signed |
| Streams.VerifyRecordFile | mirror-node/internal/stream/verify.go:68-106 | accepts iff version, size, running hash, checkpoint round, diffs and binding are all right |
| Ingest.MemStore.constructor | mirror-node/internal/store/store.go:40 | a store starts empty |
| Ingest.MemStore.PutRecord | mirror-node/internal/store/store.go:63-75 | appends unless the round is present; rounds stay distinct |
| Ingest.MemStore.LatestRound | mirror-node/internal/store/store.go:93-103 | the greatest stored round, 0 when empty |
| Ingest.Ingester.constructor | mirror-node/internal/ingest/ingest.go:55-73 | a new ingester over an empty store is valid |
| Ingest.Ingester.TryClaim | mirror-node/internal/ingest/ingest.go:351-362 | reserves a round iff it is neither stored nor in flight; the two sets stay disjoint |
| Ingest.Ingester.ReleaseClaim | mirror-node/internal/ingest/ingest.go:374-378 | gives the round back |
| Ingest.Ingester.CheckPrev | mirror-node/internal/ingest/ingest.go:282-302 | accepts iff the commitment equals the expected predecessor, and moves the expectation only then |
| Ingest.Ingester.Accepts | mirror-node/internal/ingest/ingest.go:393-437 | all checks pass iff the file continues both chains from what is stored |
| Ingest.Ingester.IngestRecord | mirror-node/internal/ingest/ingest.go:380-453 | stored iff unclaimed, acceptable and the store succeeds; then both anchors describe it, otherwise nothing changes |
| Ingest.Ingester.RunOnce | mirror-node/internal/ingest/ingest.go:117-140 | over any listing and any failures the chains, anchors and claims stay right and stored records are only appended |
| Ingest.Ingester.Seeded | mirror-node/internal/ingest/ingest.go:55-108 | a restart on a store whose last record has the highest round restores a valid ingester |
| Ingest.Ingester.SeedFromStore | mirror-node/internal/ingest/ingest.go:75-108 | seen rounds are the stored ones and the anchors come from a record of the highest round |
| Ingest.Scan | mirror-node/internal/ingest/ingest.go:88-97 | one pass finds the stored rounds and a record of the highest |
| Ingest.SeedMatchesIff | mirror-node/internal/ingest/ingest.go:75-108 | the seeded anchor is the live one exactly when the last stored record has the highest round |
| Ingest.RoundsMayFall | mirror-node/internal/ingest/ingest.go:380-453 | any verified file of a lower round that continues both chains extends any chain, and then rounds do not rise |
| Ingest.IngestFalling | mirror-node/internal/ingest/ingest.go:380-453 | the ingester stores both files in turn from any valid state |
| Ingest.ChainFromSeed | mirror-node/internal/ingest/ingest.go:408-423 | the last end hash is the running hash of everything stored, from the zero seed |
| Ingest.CheckpointChainBinds | mirror-node/internal/ingest/ingest.go:282-302 | mirrors that agree on one checkpoint hash stored the same signed checkpoints from the first on |
| Ingest.SameRootSameItems | mirror-node/internal/stream/verify.go:513-531 | two accepted files with the same signed bytes hold the same items |
| Ingest.MirrorsStoreSameItems | mirror-node/internal/ingest/ingest.go:282-302 | mirrors that agree on one checkpoint hash stored the same items, file by file, and stand at the same running hash |

## Left out

- Roster changes: `add_member`, the roster history and its commitment; the roster is fixed, so thresholds use one member count.
- Pruning, reconnect, `insert_accepted`, the `children` and `latest_by_creator` tables, walk metrics and timings.
- Machine width of sequence numbers, rounds and timestamps: they are unbounded here, and a window leaf holds them modulo 2^64. The leaf count of a root, where the source adds 1 to a stored 64-bit number, does wrap in the model.
- Fame.DecisionBindsMajority: asks that every event past round 1 tallies a supermajority of the previous round's witnesses. That is proved while no event has both branches of a fork below it (Fame.UnseenForkWaves); beyond that strong sightings need not grow along parent edges, and the exact condition on forks is open.
- Fame.DecisionBindsVotes: under the same condition.
- Fame.FameAgreement: under the same condition.
- Fame.EagerAgreement: under the same condition.
- Fame.CoinRoundReversal: says of every graph when a decision is reversed; no graph of thirteen rounds is built to show one.
- Fame.EagerBindsVotes: under the same condition on tallies, and it asks that two thirds of the members back the decision, which suffices; in a particular graph fewer can.
- Elections.NodesAgreeOnFame: for nodes without forks between them; Elections.NodesAgreeDespiteForks admits forks and then asks that eager decisions are backed by members.
- Consensus.NodesAgreeOnLog: for nodes without forks between them, with one node's decisions taken before coin rounds. The view is complete when every member has some event born after the round; the source asks it of the member's latest event, which implies it. When in the course of an insertion a round is finalized is left open.
- FirstSeen.SearchIsExhaustive: for fork-free ancestries with distinct hashes, as the search is documented.
- Median.MedianBetweenHonest: the in-place sort is modelled on values.
- SparseTree.ProofSound: for keys and values below 4 GiB; the source aborts on longer ones, the model writes their length modulo 2^32.
- StateStore.RoundTrip: likewise for keys and values below 4 GiB.
- StateStore.FromBytes: the source fills the partition while it reads, so refused input leaves part of it written; the model returns no state.
- Executor.Executor.ExecuteEvent: storage failures, which abort the round in the source, do not occur.
- Executor.Executor.BucketFinalizedWithDiffs: the diff of a round is a map, not the list sorted by key that the source makes of it.
- Restoring an executor from a checkpoint state (`from_state`).
- Decoding of membership operations: a parameter of the model.
- The text form of DIDs, and the wire form of state proofs and checkpoint signatures.
- RecordsTree.BuildProofs: the item index, which only the check of the proof side file reads, and its 32-bit overflow are not part of a proof here.
- Windows.WindowRoot: the canonical roster width and the rounds assigned at insertion are inputs.
- Streams.VerifyCheckpointBinding: the signers' quorum, which Checkpoints models on the node's side, and the decoding of an item are inputs; event hashes of items have 32 bytes, which the mirror does not check.
- Event files, the remote block source, the PostgreSQL store and the proof side files of the mirror.
- The ingester's mutexes: a poll runs alone, as the source serializes it; a cancelled poll is a poll of a shorter listing.
- Network, files, clocks, command line and HTTP servers.
