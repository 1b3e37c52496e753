# Executable Consensus Network: a verified model

The Executable Consensus Network (ECN) lets several nodes execute the same
transactions, hash the state each of them reaches, and vote on the hash. This
project models the deterministic core of ECN and proves what it guarantees,
from a single transaction up to whole runs of the network and of the HTTP
gateway in front of it. `dafny verify dfyconfig.toml` checks all of it.

## Layout

| file | what it holds |
|---|---|
| `Wrappers.dfy`, `Sequences.dfy`, `Strings.dfy` | options and results; filtering, counting and summing; Python's string order, `sorted`, `str(int)` and a reader of it |
| `LedgerState.dfy`, `SupplyChain.dfy`, `ExecutionEngine.dfy` | states and transactions, the eight handlers, dispatch, runs |
| `EngineRuns.dfy`, `EngineVerdicts.dfy`, `Interleaving.dfy` | what every run does to accounts and products; what is accepted, and why the rest is refused |
| `Merkle.dfy`, `CanonicalJson.dfy`, `StateManagement.dfy` | the Merkle account hash; the JSON text of a state and a parser of it; state, trace and diffs |
| `Nodes.dfy`, `Consensus.dfy`, `Voting.dfy` | nodes that may lie and sign; one voting round; theorems about it |
| `Audit.dfy`, `Network.dfy`, `NetworkSafety.dfy` | audit log; the in-process network; its safety over whole runs |
| `NodeHealth.dfy`, `P2PNetwork.dfy`, `P2PSafety.dfy`, `P2PRuns.dfy` | health registry; the networked broadcast; what its rounds keep; when it falls silent and when it tells the truth |
| `Stream.dfy`, `Billing.dfy`, `Lifecycle.dfy` | event bus, billing books, transaction records |
| `Api.dfy`, `ApiSafety.dfy` | `submit_transaction` and the agreement of all logs under interleaving |

Objects that ECN updates in place are classes whose methods are proved against
functions on values (`StateManager` against `Apply`, `Network` against
`BroadcastStep`, `P2PNetwork` against `RoundStep`, `EventBus` against a full
log, `BillingTracker` against `BookCharge`, `Gateway` against `BeginStep` and
`FinishStep`). The whole-run theorems are about those functions.

## How the world is represented

* SHA-256 is a parameter: any function from strings to 64 lowercase hexadecimal
  characters. It is never taken to be injective. Binding is stated over the
  finite sets of strings that were actually hashed, where a collision, if there
  is one, is handed over as two concrete strings.
* A signature is a symbolic term naming a key and the signed text, or some other
  text that no key produced. A key and its public half share one name.
* Thresholds are fractions compared by cross-multiplication, money is in
  millionths of a dollar, clocks are integers read once per round. Tier and
  billing period are parameters of each billing call.
* A transaction is a record in which every field a handler reads may be missing;
  an amount may also be a value that `int()` refuses. A refusal (`ValueError`,
  `KeyError`) is a result with a reason, and leaves the state alone.
* In the networked broadcast a request is answered, lost before it reached the
  server, or lost on the way back after the server executed it. A server in
  the networked case is a value; in the in-process network it is an object.
* A gateway request is split where it awaits the broadcast. Any number of requests
  may be suspended there, and each resumes with arbitrary responses. Transaction
  ids are fresh, as UUIDs are.

## Where comments and code disagree

The model follows the code.

* `ecn/consensus.py:25` says the default threshold tolerates ⌊n/2⌋ − 1 failures.
  The exact bound is ⌊n(1−t)⌋ (`Voting.FaultBoundExact`, `Voting.StandsExactly`).
  With 200 nodes 99 wrong answers are already too many
  (`Voting.NinetyNineOf200AreTooMany`); the documented number holds for rosters of at
  most 100 nodes and odd ones of at most 149, and for no others
  (`Voting.DocumentedBoundExactly`).
* `ecn/p2p_network.py:270-272` and `ecn/node_health.py:20-21` say that excluded
  nodes count in the quorum denominator. The fraction is over verified answers
  only (`ecn/consensus.py:91-95`), so one answer alone reaches consensus
  (`Voting.LoneAnswerDecides`). With v answers of n nodes the two readings agree on
  every vote if and only if ⌈v·t⌉ = ⌈n·t⌉ (`Voting.VerdictsAgreeExactly`). A minimum
  number of responses m with ⌈m·t⌉ = ⌈n·t⌉ therefore makes every recorded round decide
  as the comments say (`P2PSafety.RecordedVerdictIsRosterVerdict`).
* `ecn/node_health.py:14` speaks of a success within the rehabilitation window;
  the code wants one at least 60 seconds after exclusion:
  `NodeHealth.TwoSuccessesRehabilitate`. And an excluded server is never contacted
  by a broadcast, so within the network it never records that success and stays
  out: `P2PSafety.FrozenForever`.
* A transaction that a server refuses comes back as an error reply and counts as a
  failure of the server (`ecn/p2p_network.py:246-250,326-327`). Five transactions in a
  row that every server refuses exclude every server (`P2PRuns.RefusalsExclude`). The
  next broadcast then contacts nobody, exactly when every server has had five
  consecutive failures (`P2PRuns.SilencedExactly`), and none is recorded again
  (`P2PRuns.SilencedForever`).
* `ecn/api.py:486` adds the faulty nodes to a list of results that already
  contains them; billing is stated in terms of the resulting `node_count`.
* `build_merkle_tree` is not injective on arbitrary leaf lists
  (`Merkle.RootNotInjectiveOnLeafLists`). Without a collision, two lists of leaf texts
  (each carrying a colon, as those of accounts do) have the same root if and only if they are equal once every odd level is padded by
  its last node (`Merkle.EqualRootsExactly`); for lists without duplicates, such as
  those of `_merkle_hash`, that is equality. In Merkle mode the state hash covers the
  balances and nothing else; the default mode covers the whole state
  (`StateManagement.StateHashBinds`).
* If no response is required (`min_responses` at most 0), a round without any answer is
  audited but neither published nor billed
  (`ApiSafety.UnansweredRoundIsOnlyAudited`); the transactions topic equals the audit
  log under every interleaving if and only if at least one response is required
  (`ApiSafety.TopicEqualsAuditExactly`).

## Model

| member | source | states |
|---|---|---|
| Merkle.HashNeighbours | ecn/state_manager.py:56-62 | one pass over a level yields the hashes of neighbouring pairs, an odd last node paired with itself |
| Merkle.BuildMerkleTree | ecn/state_manager.py:42-66 | the loop returns the one tree over its leaves, the hash of the empty string for no leaves |
| Merkle.TreeExact | ecn/state_manager.py:42-66 | independent definition: a list of levels is the tree that is built iff it starts with the leaves (the hash of the empty string if there are none), ends in a single node, and every node above hashes its two children |
| Merkle.MerkleBinding | ecn/state_manager.py:42-72 | unless two hashed strings collide, equal Merkle hashes are equivalent to equal balance maps, for any two maps of any sizes and tree heights, empty ones included |
| Merkle.MerkleCollision | ecn/state_manager.py:174-182 | two different balance maps with the same hash yield two distinct strings, each hashed for one of the maps, with the same SHA-256 |
| Merkle.LeavesReadBack | ecn/state_manager.py:174-182 | there is one leaf per account, in sorted order, and splitting it at its last colon and reading the number gives that account and its balance |
| Merkle.MerkleHashExactly | ecn/state_manager.py:174-182 | whichever levels meet the independent definition of the tree over the hashed leaves, their top node is the Merkle hash |
| Merkle.LeavesDistinct | ecn/state_manager.py:178-181 | no two accounts of a state have the same leaf text |
| Merkle.RootNotInjectiveOnLeafLists | ecn/state_manager.py:57-62 | for every hash function the lists a,b,c and a,b,c,c have the same root |
| Merkle.EqualRootsExactly | ecn/state_manager.py:42-72 | for any two lists of leaf texts carrying a colon, the empty list included, and without a collision among the hashed strings, the roots are equal iff the lists are equal once every odd level is padded by its last node |
| Merkle.FullDeterminesDistinct | ecn/state_manager.py:57-62 | duplicate-free lists that are equal once padded are equal |
| Strings.IntReadsBack | ecn/state_manager.py:178-181 | a strict decimal reader, which goes by distances from the character 0 and refuses leading zeros and plus signs, reads the text of every integer back |
| Strings.LexMeans | ecn/state_manager.py:178-181 | the order in which accounts are sorted: a string sorts before another iff it is its prefix or has the smaller code point at the first difference |
| StateManagement.StateHashBinds | ecn/state_manager.py:146-155 | without a collision among the hashed strings, equal state hashes are equivalent to equal states in the default mode, and to equal balances, whatever the products, in Merkle mode |
| StateManagement.FlatHashReads | ecn/state_manager.py:146-155 | in the default mode the hash is that of a text that parses as JSON to the state itself |
| StateManagement.MerkleHashReads | ecn/state_manager.py:146-155 | in Merkle mode it is the top of any tree over the hashes of leaves that read back as the sorted accounts with their balances |
| CanonicalJson.ValueReadsBack | ecn/state_manager.py:25-31 | a JSON parser, written without the printer, reads the compact text of any value back and stops where it ends, whatever follows; escapes, surrogate pairs and sorted keys included |
| CanonicalJson.CanonicalReadsBack | ecn/state_manager.py:25-31 | parsing the canonical text of a state gives that state, with each field and status under its own name |
| CanonicalJson.CanonicalTextInjective | ecn/state_manager.py:25-31 | different states have different canonical JSON texts, absent keys and absent product fields included |
| StateManagement.ComputeDiff | ecn/state_manager.py:184-206 | the loop over both states' sorted accounts returns exactly the accounts whose zero-defaulted balances differ, with both values |
| StateManagement.StateManager.ApplyTransaction | ecn/state_manager.py:115-144 | an accepted transaction moves the state and appends one entry with both hashes and the diff; a refused one changes neither state nor trace |
| StateManagement.TraceSoundness | ecn/state_manager.py:115-144 | after any list of transactions the trace lists exactly the accepted ones, every entry records its own step, and replaying them alone gives the current state |
| StateManagement.Replay | ecn/state_manager.py:135-142 | replaying the traced transactions from the initial state reaches the current state with none refused |
| StateManagement.HashChain | ecn/state_manager.py:126-142 | each entry's new hash is the next entry's old hash, from the hash of the initial state to that of the current one |
| StateManagement.EntryHashes | ecn/state_manager.py:126-142 | entry i holds the hashes of the states before and after its transaction, these being what replaying the first i and i + 1 traced transactions gives |
| StateManagement.DiffsReplay | ecn/state_manager.py:184-206 | applying the diffs alone turns the initial balances into the current ones |
| StateManagement.DiffsListOnlyChanges | ecn/state_manager.py:201-205 | each diff entry holds the true balances before and after its transaction, and they differ |
| EngineRuns.AccountLedger | ecn/execution_engine.py:28-86 | over any run every account ends at its start plus accepted credits minus accepted debits, self-transfers included |
| EngineRuns.AccountsOfRun | ecn/execution_engine.py:62-64 | no account is ever removed and exactly the recipients of accepted mints are added |
| EngineRuns.Conservation | ecn/execution_engine.py:28-86 | total supply changes by accepted mints minus accepted burns and by nothing else |
| EngineRuns.NoOverdraft | ecn/execution_engine.py:43-46 | non-negative balances stay non-negative over any run |
| EngineRuns.TokenVerdict | ecn/execution_engine.py:34-46 | after any run a well-formed token transaction is accepted iff its amount is positive, its accounts were open at the start or minted to, and the sender's accepted history covers the amount |
| EngineRuns.Provenance | ecn/use_cases/supply_chain.py:64-166 | location, owner, status and quarantine reason of a product are each what the last accepted transaction writing that field wrote, else the original value |
| EngineRuns.ChecksCanonical | ecn/use_cases/supply_chain.py:123-127 | whatever the order and repetition of inspections, the checks list is the sorted duplicate-free list of the names seen, and is there iff it was or something was inspected |
| EngineRuns.CustodyBalanced | ecn/use_cases/supply_chain.py:77-84 | ships minus receives minus quarantines in transit is one iff in transit, quarantines minus releases is one iff quarantined, and a reason is present iff quarantined, kept by every run |
| EngineRuns.ProductRun | ecn/use_cases/supply_chain.py:189-212 | from the initial state, any run leaves a product with balanced custody and the sorted set of its inspected checks |
| EngineRuns.InitialProvenance | ecn/use_cases/supply_chain.py:189-212 | after any run from the initial state each field of a product is what the last accepted transaction writing it wrote, else "factory", "manufacturer", manufactured and no reason; its checks are exactly those inspected |
| EngineRuns.ProductSetFixed | ecn/use_cases/supply_chain.py:202-212 | the products after any run are those of the initial state |
| EngineRuns.MoveVerdict | ecn/use_cases/supply_chain.py:142-166 | after any run a well-formed supply-chain transaction is accepted iff the custody counts allow it |
| EngineVerdicts.RefusalExactly | ecn/execution_engine.py:28-86 | for every state and every transaction, fields missing or unreadable included, acceptance and the reason of refusal are those of one table over all eight types: missing fields first, then amount, accounts and balance, or product and status |
| EngineVerdicts.RunVerdict | ecn/execution_engine.py:135-140 | after any run from any state a transaction is accepted iff its type is registered, the fields of that type are there, and the accepted history covers it: amount, accounts and balance for tokens, existence and custody counts for products |
| ExecutionEngine.RunAppend | ecn/execution_engine.py:135-140 | a run of one more transaction is one more step, refused ones being skipped |
| Interleaving.LaneAlone | ecn/use_cases/supply_chain.py:53-57 | each product, and the token accounts, evolve and decide as if their own transactions were the only ones |
| Interleaving.InterleavingIndependence | ecn/use_cases/supply_chain.py:64-166 | two sequences with the same per-product and token sub-sequences reach the same state and give each of these transactions the same verdict; transactions of no registered type or about no product may differ, and are all refused |
| Nodes.Node.ExecuteTransaction | ecn/node.py:113-144 | the node's state moves correctly even when it lies; it reports the true or the corrupted hash, signs what it reports, and returns the new state and its trace entry; a refusal changes nothing |
| Nodes.CorruptHashIsNoDigest | ecn/node.py:171-180 | a corrupted hash keeps the digest's length and first 56 characters, ends in DEADBEEF, and is never a SHA-256 digest, so it equals no honest report |
| Nodes.CorruptHashOrder | ecn/node.py:180 | the true hash sorts before its corruption, and so wins a tie, iff its 57th digit is a decimal one |
| Nodes.SignatureCovers | ecn/crypto.py:73-81 | a signature verifies for a node and a hash iff the node's key made it and its text, split at the last colon, is that node id and that hash |
| Nodes.SignatureIsForOne | ecn/crypto.py:102-123 | a signature made by one key for one id and hash verifies for another key, id or hash never, whatever colons the ids carry |
| Nodes.ReportExactly | ecn/node.py:124-144 | a report carries the node's id, the true hash or its first 56 characters with DEADBEEF, and, iff the node has a key, a signature that verifies for that id, that hash and that key alone |
| Consensus.SelectWinner | ecn/consensus.py:203-212 | the selected hash has votes, and every other hash has fewer, or as many and sorts after it |
| Consensus.VerifySignatures | ecn/consensus.py:147-166 | the loop splits the results, in order, into those accepted and the ids of those with no known key, no signature or a wrong one |
| Consensus.NewConsensusResult | ecn/consensus.py:75-97 | the quorum flag compares the agreed hash's votes with the threshold's share of all counted votes |
| Consensus.RunConsensus | ecn/consensus.py:112-196 | the round with its early exits returns the decision the theorems of `Voting` are about |
| Voting.WinnerExact | ecn/consensus.py:203-212 | a hash is agreed iff it has the most verified votes and is lexicographically least among those that do; none is agreed iff nothing verifies |
| Voting.QuorumExact | ecn/consensus.py:91-97 | consensus is reached iff a hash is agreed and its share of the verified results meets the threshold |
| Voting.ReportedCounts | ecn/consensus.py:179-196 | reported counts are the verified counts, and the winner's count is the number of honest nodes |
| Voting.Partition | ecn/consensus.py:138-196 | in every branch honest and faulty ids together are the multiset of ids that answered, and badly signed ones are among the faulty |
| Voting.OrderIndependence | ecn/consensus.py:138-196 | permuting the results changes neither agreed hash, counts nor verdict, and no list as a multiset |
| Voting.FlaggedExactly | ecn/consensus.py:185-187 | with distinct ids a node is honest iff its signature is accepted and its hash agreed, faulty iff not, and listed as badly signed iff its signature is not accepted |
| Voting.AcceptsExactly | ecn/consensus.py:147-166 | a result is accepted iff no keys are given, or its id has a key and its signature was made by that key for that id and that hash |
| Voting.MisappliedSignature | ecn/consensus.py:147-166 | wherever it stands among the results, one whose signature was made for another id or another hash is listed as badly signed and faulty, and the vote is the one without it |
| Voting.FaultsTolerated | ecn/consensus.py:21-23 | for 1/2 < t ≤ 1 and any number of silent, badly signed or wrong nodes up to ⌊n(1−t)⌋, the others' hash is agreed and consensus reached |
| Voting.CorrectNotFlagged | ecn/consensus.py:185-187 | within that bound no node that signed and computed correctly is flagged |
| Voting.FaultBoundExact | ecn/consensus.py:19-30 | when all n answers verify, a hash is agreed with consensus iff at most ⌊n(1−t)⌋ of them differ from it |
| Voting.StandsExactly | ecn/consensus.py:21-23 | n nodes that all answer and verify keep agreement and consensus under every placement of f wrong answers iff f ≤ ⌊n(1−t)⌋ |
| Voting.NinetyNineOf200AreTooMany | ecn/consensus.py:25 | the documented ⌊n/2⌋ − 1 fails: 99 of 200 wrong answers prevent consensus, the bound being 98 |
| Voting.DocumentedBoundExactly | ecn/consensus.py:25 | n nodes stand ⌊n/2⌋ − 1 wrong answers at the default threshold iff n ≤ 100, or n is odd and n ≤ 149 |
| Voting.LoneAnswerDecides | ecn/consensus.py:91-97 | a single accepted answer is agreed, with consensus iff the threshold is at most one |
| Voting.DenominatorsAgree | ecn/p2p_network.py:270-272 | every number of votes among v answers has the threshold's share of v iff it has that of n, if and only if ⌈v·t⌉ = ⌈n·t⌉ |
| Voting.VerdictsAgreeExactly | ecn/p2p_network.py:270-272 | over all rounds of v verified answers, the code's verdict is the one that counts all n nodes, if and only if ⌈v·t⌉ = ⌈n·t⌉ |
| Voting.QuorumIntersection | ecn/p2p_network.py:30-35 | two rounds that reached consensus with at least an n·t share of verified answers have at least n(2t²−1) honest nodes in common |
| Voting.SharesSomeone | ecn/p2p_network.py:30-35 | when 2t² > 1 and the roster is not empty, that is at least one node |
| Network.Network.Collect | ecn/network.py:74-77 | nodes, each with its own way of hashing, execute in order; the first refusal ends the loop, with the nodes before it moved and the others untouched |
| Network.Network.Broadcast | ecn/network.py:64-92 | the whole network moves by one round: node states, vote, history and audit log, or only node states if a node refused |
| NetworkSafety.AllOrNothing | ecn/network.py:74-77 | over nodes that hash alike and stand equal a broadcast is accepted by all or by none, and they are equal afterwards |
| NetworkSafety.RoundVerdict | ecn/consensus.py:138-196 | with equal states and registered signatures the true hash is agreed iff honest nodes outnumber malicious ones, or tie with them when its 57th digit is a decimal one; then the honest and faulty lists are exactly those nodes and consensus is reached iff 100·honest ≥ 51·total |
| NetworkSafety.WholeRunSafety | ecn/network.py:64-92 | over any run of broadcasts to nodes that hash alike, all nodes hold the engine's state for the accepted transactions; history and audit log list exactly those, the latter with their submission times; each round holds every node's answer, true or corrupted, and the verdict above on the true hash of its own state |
| NetworkSafety.MixedRunSafety | ecn/network.py:64-92 | nodes that mix Merkle and flat hashing still all hold the engine's state after any run; the history lists exactly the accepted transactions, and the audit log, if there is one, has for each the event of its vote at its submission time |
| NodeHealth.NodeHealthRegistry.RecordSuccess | ecn/node_health.py:130-159 | one success moves that node's record alone, leaving exclusion only after the window |
| NodeHealth.NodeHealthRegistry.RecordFailure | ecn/node_health.py:161-187 | one failure moves that node's record alone, through suspicion to exclusion |
| NodeHealth.HealthFromHistory | ecn/node_health.py:63-67 | the counter is the number of failures since the last success, each state confines it, and a node is excluded iff an exclusion time is set |
| NodeHealth.StateBeforeExclusion | ecn/node_health.py:63-67 | a node with no five failures in a row so far is suspect iff at least its last three contacts failed, else healthy |
| NodeHealth.StateAfterRehabilitation | ecn/node_health.py:183-187 | after rehabilitation, until five failures in a row, a node is suspect iff all contacts since failed or the last three did, else healthy; one failure is enough |
| NodeHealth.StateAfterExclusion | ecn/node_health.py:146-154 | an excluded node stays so through any contacts none of which is a success at least 60 seconds later, and the first that is rehabilitates it |
| NodeHealth.SamplesFromHistory | ecn/node_health.py:141-144 | the last success time and the latency window are those of the last success and of the last twenty successes |
| NodeHealth.ExclusionExact | ecn/node_health.py:175-178 | a node not excluded becomes excluded exactly at its fifth consecutive failure, at that time |
| NodeHealth.RehabilitationNeedsTwoSuccesses | ecn/node_health.py:146-154 | a node once excluded and healthy later had a success at least 60 seconds after exclusion and another one after it |
| NodeHealth.TwoSuccessesRehabilitate | ecn/node_health.py:146-154 | two successes in a row make an excluded node healthy iff the first comes at least 60 seconds after exclusion |
| P2PNetwork.P2PNetwork.constructor | ecn/p2p_network.py:112-134 | all servers are registered, known health records are kept, history is empty |
| P2PNetwork.P2PNetwork.SelectParticipants | ecn/p2p_network.py:231-239 | exactly the servers not excluded are contacted, in order |
| P2PNetwork.P2PNetwork.NoteResponses | ecn/p2p_network.py:243-253 | answers are collected in order; every contact is noted as success or failure |
| P2PNetwork.P2PNetwork.Conclude | ecn/p2p_network.py:243-292 | too few answers raise after health was noted and before anything is logged; otherwise vote, history and audit log move together |
| P2PNetwork.P2PNetwork.Broadcast | ecn/p2p_network.py:215-292 | the whole network moves by one round, whatever the transport loses |
| P2PSafety.RoundAccounts | ecn/p2p_network.py:231-253 | skipped, answering and failed servers add up to the roster; the answers are as many as the answering servers and the exceptions as many as the failed ones |
| P2PSafety.AnswersExactly | ecn/p2p_network.py:243-253 | what is put to the vote is, in order, the reports of the answering servers after the transaction |
| P2PSafety.RegisteredExactly | ecn/p2p_network.py:131-134 | a round registers the health of exactly its servers, beside what was known |
| P2PSafety.HealthTracksFates | ecn/node_health.py:161-187 | over any run a server's health record follows the rounds in which it was contacted |
| P2PSafety.SkippedExactly | ecn/p2p_network.py:234-239 | a server is skipped iff it was contacted and failed in five consecutive earlier rounds |
| P2PSafety.FrozenForever | ecn/p2p_network.py:234-236 | an excluded server stays excluded and its state never changes again |
| P2PSafety.StateIsWhatReached | ecn/p2p_network.py:311-343 | after any run each server holds the engine's state and trace for exactly the transactions that reached it, answered or not |
| P2PSafety.ReachedAlikeAgree | ecn/p2p_network.py:215-292 | servers that started equal and were reached by the same transactions hold equal states and traces |
| P2PSafety.RoundTolerates | ecn/consensus.py:21-23 | with at most ⌊n(1−t)⌋ servers excluded, lost, lying or out of date, a round agrees with consensus on the true hash of the new state if it is recorded, and it is recorded if at most n − ⌊n(1−t)⌋ responses are required |
| P2PSafety.AnswersVerify | ecn/p2p_network.py:279-283 | the answers of a round come from distinct known servers and all pass signature verification |
| P2PSafety.LogsInStep | ecn/p2p_network.py:273-287 | over any run, raised rounds included, history and audit log have the same length and transactions, and every recorded round has enough distinct verified answers and the vote's outcome |
| P2PRuns.RoundLogs | ecn/p2p_network.py:273-287 | a round with as many answers as required adds one history entry with its transaction and those answers, and one event at its time; another adds nothing |
| P2PRuns.LogsListRecorded | ecn/p2p_network.py:273-287 | over any run the history lists exactly the transactions of the rounds with enough answers, in order, and the audit log has their times |
| P2PSafety.RecordedQuorumsIntersect | ecn/p2p_network.py:30-35 | with `min_responses` at least ⌈n·t⌉ any two recorded rounds that reached consensus, in any run, share at least n(2t²−1) honest nodes |
| P2PSafety.RecordedVerdictIsRosterVerdict | ecn/p2p_network.py:270-283 | over any run, if at least m responses are required and ⌈m·t⌉ = ⌈n·t⌉, every recorded round reaches consensus iff the agreed hash has the threshold's share of all n servers |
| P2PRuns.RefusalsExclude | ecn/p2p_network.py:245-250 | five transactions in a row that every server refuses, at any point of any run and whatever the transport does, exclude every server |
| P2PRuns.SilencedExactly | ecn/p2p_network.py:234-239 | after any run the next broadcast contacts nobody iff every server has had five consecutive failures |
| P2PRuns.SilencedForever | ecn/p2p_network.py:273-277 | from then on, if a response is required, no broadcast changes history, audit log or any server |
| P2PRuns.ReachedByAll | ecn/p2p_network.py:311-343 | a server that is not excluded and lost no request on the way was reached by every transaction of the run |
| P2PRuns.RoundTellsTruth | ecn/p2p_network.py:215-292 | in a run that started aligned, a round in which at most ⌊n(1−t)⌋ servers are malicious, excluded, unheard or have ever missed a request agrees with consensus on the true hash of the engine's state, if recorded |
| P2PRuns.NetworkedRunSafety | ecn/p2p_network.py:215-292 | if that holds in every round and the required responses lie above ⌊n(1−t)⌋ and within the rest, history and audit log list exactly the accepted transactions and every round agrees with consensus on the true hash |
| Audit.AuditLog.constructor | ecn/audit.py:136-142 | a new log over a store is what a restart gives: the tenant's stored events |
| Audit.AuditLog.Record | ecn/audit.py:148-204 | one numbered event is appended to memory and store; other tenants' rows are unchanged |
| Audit.AuditLog.LoadFromStore | ecn/audit.py:210-236 | the rebuilt events are the stored ones in order |
| Audit.AuditLog.ClassifyVotes | ecn/audit.py:171-186 | the loop classifies every result, signature faults before hash faults |
| Audit.AuditLog.Summary | ecn/audit.py:264-284 | totals, fault rounds, consensus failures, the fault rate, and the ranking of faulty nodes over all events |
| Audit.AuditLog.GetEvent | ecn/audit.py:257-262 | there is an event iff the round id is between 1 and the number of events, and it carries that round id |
| Audit.SummaryExactly | ecn/audit.py:264-284 | total rounds are the events, fault rounds those with a faulty node, consensus failures those without consensus; the fault rate times the total is the fault rounds, and zero without events |
| Audit.RankedStably | ecn/audit.py:281-283 | sorting by falling count keeps the same entries, puts higher counts first and keeps the order of nodes with equal counts |
| Audit.TopFaultyNodes | ecn/audit.py:269-283 | the ranking names every node ever found faulty once, with its number of occurrences in all faulty lists, highest first |
| Audit.TiesByFirstFault | ecn/audit.py:269-283 | nodes found faulty equally often are listed in the order in which they were first found so |
| Audit.AllFaultyAt | ecn/audit.py:269-271 | the list that is counted holds the faulty list of every event at its place, and nothing else |
| Audit.FaultCountsAddUp | ecn/audit.py:269-274 | the per-node counts add up to the lengths of all faulty lists |
| Audit.StatusExact | ecn/audit.py:172-186 | with distinct ids a vote is recorded honest iff its signature was accepted and its hash agreed, and as a signature fault iff the signature was not accepted |
| Audit.ListsFromVotes | ecn/audit.py:188-199 | with distinct ids an event's votes alone give back its honest, faulty and badly signed lists in order, its vote counts, the hash its honest votes carry, whether a hash was agreed, and whether consensus was reached |
| Audit.RestartsLoseNothing | ecn/audit.py:168-236 | over any mix of rounds and restarts memory equals store, event k is round k, and every round's transaction and time of recording are there in order |
| Stream.EventBus.Publish | ecn/stream.py:90-111 | an event is appended to its topic's full log under the log's length as sequence number; an unknown topic is an error and changes nothing |
| Stream.EventBus.Scan | ecn/stream.py:160-169 | the loop with its early exit returns the first events at or after the offset, up to the limit |
| Stream.EventBus.Consume | ecn/stream.py:131-169 | polling reads the window of the full log that the ring holds |
| Stream.EventBus.PollTopic | ecn/api.py:967-991 | the events and the cursor one past the last of them, or the old cursor when there are none |
| Stream.RingRefinesLog | ecn/stream.py:109-111 | appending to the ring is appending to the full log: the ring is always its last events, numbered |
| Stream.WindowExactly | ecn/stream.py:73-80 | the ring holds the last events of the log, as many as its length, each with its position in the log as sequence number |
| Stream.PollReadsLog | ecn/stream.py:160-169 | a poll with any offset and limit, negative ones included, returns a contiguous stretch of the full log from the cursor, or from the oldest event held, of exactly the length asked for and at least one event if there is one |
| Stream.ConsumerSound | ecn/api.py:972-991 | under any interleaving of publishing and polling a consumer gets strictly increasing, duplicate-free, correct events, and whatever it passed over was evicted before that poll |
| Stream.KeepingUpLosesNothing | ecn/api.py:972-991 | a consumer never more than the buffer's length behind receives exactly the log's prefix |
| Billing.InMemoryCounts.Increment | ecn/billing.py:148-150 | one counter goes up by one, the others stay |
| Billing.InMemoryLedger.AppendEntry | ecn/billing.py:170-194 | one entry with the next id and the time of recording is appended |
| Billing.InMemorySLATracker.Record | ecn/billing.py:207-210 | the total goes up, and the faults iff consensus was not reached |
| Billing.BillingTracker.RecordRound | ecn/billing.py:249-296 | one round moves all three books together and returns node count times the price in force |
| Billing.BillingTracker.GetSla | ecn/billing.py:328-362 | the report carries the tenant's rounds, the tier's figures and rates that add up to one; the SLA is met iff the consensus rate, or the rounds compared by cross-multiplication, meet the tier's threshold, or there were no rounds |
| Billing.BooksAgree | ecn/billing.py:249-296 | for every tenant, after any rounds under changing periods and tiers, period counts, ledger entries and SLA total agree, SLA faults are the entries without consensus, and the billed total is the worth of the rounds at the prices in force |
| Billing.TierTable | ecn/billing.py:75-94 | the prices in dollars, service levels and quorum thresholds of the three tiers |
| Billing.CountsPerPeriod | ecn/billing.py:148-153 | each counter is the number of the tenant's rounds in that period |
| Billing.LedgerDescribesRounds | ecn/billing.py:170-194 | the ledger holds one entry per round, in order, with ids counting from one and the amount at the price in force |
| Billing.LedgerIsImmutable | ecn/billing.py:170-194 | later rounds leave earlier entries as they are |
| Billing.OthersUnchanged | ecn/billing.py:249-296 | billing one tenant leaves every book of another tenant alone |
| Billing.SlaFromLedger | ecn/billing.py:342-347 | the SLA verdict is the one computed from the tenant's ledger entries |
| Lifecycle.GrantedExactly | ecn/transaction.py:60-69 | a transition is granted iff it names the next stage, which is one of the six listed pairs |
| Lifecycle.LifecycleIsLinear | ecn/transaction.py:167-203 | whatever is requested, a record advances one stage per granted request, never back, keeps its identity and outcome, and is stamped once and exactly from FINALIZED on |
| Lifecycle.StampsOfFinalization | ecn/transaction.py:191-199 | a finalized record carries the time of the request that finalized it and the non-negative duration since creation |
| Api.Gateway.BeginSubmit | ecn/api.py:441-464 | up to the await point a request has stored its record as CONSENSUS_PENDING |
| Api.Gateway.Resume | ecn/api.py:464-473 | the network's logs move, and the request ends with status 422 iff there were too few answers or none |
| Api.Gateway.FinalizeAndBill | ecn/api.py:480-523 | the record goes through FINALIZED and BILLED to REPLICATED with the round's outcome, and the books take one charge |
| Api.Gateway.PublishEvent | ecn/api.py:528-532 | the event goes to the transactions topic, and to the faults topic iff it has a fault |
| Api.Gateway.FinishSubmit | ecn/api.py:464-534 | the rest of a request moves logs, record, books, topics and response together |
| ApiSafety.AlwaysConsistent | ecn/api.py:441-534 | consistency of records, ledger, audit log, topics and responses is kept by every interleaving of requests |
| ApiSafety.CrossLogAgreement | ecn/api.py:475-534 | from fresh logs, under every interleaving, records are pending or replicated, replicated ones match ledger entries one to one by id and amount, ledger entries match audited rounds in order, and each answered request got the event of its own transaction and each record has the time of its own submission |
| ApiSafety.EverySettlementFiled | ecn/api.py:441-534 | under every interleaving from fresh logs, the requests stored, waiting and answered are those the operations alone tell; each settled one has, in order of settling, the audited vote on its own answers, that event as its response, one ledger entry for its period and time at the price of the tier in force, and a record replicated with the settling time and the duration since creation; the other records show no outcome |
| ApiSafety.TopicEqualsAuditExactly | ecn/api.py:468-532 | from fresh logs the transactions topic equals the audit log after every interleaving, if and only if at least one response is required |
| ApiSafety.TopicEqualsAudit | ecn/api.py:528-532 | with at least one response required, under every interleaving, the transactions topic is the audit log, the faults topic its fault events, and the ledger has one entry per event |
| ApiSafety.UnansweredRoundIsOnlyAudited | ecn/api.py:468-473 | with no response required, negative settings included, one unanswered request is audited but not published and not billed |

## Left out

- Transport: TCP framing, timeouts, asyncio scheduling, webhooks and server-sent events; a contacted server answers or fails, possibly after executing.
- Live subscribers of the event bus and the backfill of `sse_generator`: the code can miss events between its two phases, so there is no continuity to state.
- Ed25519 and SHA-256: symbolic signatures over the signed text itself, and a hash parameter.
- JSON parsing, and JSON output beyond states: only the canonical text of a state is modelled; strings are sequences of Unicode scalar values, so lone surrogates are not.
- SQLite stores: the audit store is an append-only sequence per tenant; billing and transaction stores appear in their in-memory form.
- Authentication, tenants, key registry, dashboard, SDKs, the Stripe stub and deployment files.
- Rounding and floating point: fractions are exact, so a threshold such as 0.51 is 51/100.
- Audit.AuditLog.Summary: states the exact fault rate, not the one rounded to four places, because rounding is not modelled.
- Billing.BillingTracker.GetSla: states exact rates, not rounded ones, for the same reason, and omits the tier's description text.
- `register_handler` with other handlers, `reset`, `add_node`, and printing of rounds.
- The 95th-percentile latency and the dictionaries returned by `to_dict`; the latency window itself is modelled.
- Network.Network.Broadcast: history keeps of each result what is put to the vote, not the result state and trace entry that a node also returns, because neither voting nor auditing reads them.
- The transaction fields `inspector` and `released_by`, which no handler reads.
- Non-string account names and product ids, and malformed states whose entries are not of the documented shape.
- `get_usage` and pagination of audit events: projections of modelled state.
- Reading thresholds, tiers and billing periods from the environment: they are parameters.
- P2PSafety.ReachedAlikeAgree: speaks of sequential rounds, because overlapping broadcasts may reach servers in different orders; `ApiSafety` allows overlap and leaves the responses arbitrary.
- P2PNetwork.P2PNetwork.Broadcast: a server is a value held by the network, not an object of its own, so aliasing between servers is not captured, and all health updates of a round carry one clock reading.
- Responses 500 and 503 of the gateway (missing network, audit log or bus).
