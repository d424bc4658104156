# Verified models of the NFT evidence pipeline

A Dafny model of the parts of the repository whose correctness is hardest to see
from the code: how events become a propagation graph and the graph becomes
findings, how evidence is normalised and accounted for, the codecs and the curve
test the chains' data passes through, and the protocols by which scanners and
workers share tables and files.

How the modules depend on each other:

- **Graph analysis.** `GraphBuild` builds the compressed graph; `Tarjan` is the
  class with the explicit frame stack that splits it into strongly connected
  components in reverse topological order. `Attribution`, `WashCycles` and
  `StarBehavior` take those theorems from indices back to addresses and events.
  `LayeredPath` is the explicit-stack backtracking search over the same graph, and
  `Behavior` puts the facts together.
- **Evidence.** `Spelling`, `Normalize` and `Bundle` bring a bundle to its normal
  form; `Economics` charges gas and sums flows over normalised events; `Gini` is
  the concentration measure over exact rationals.
- **Codecs.** `Numerals` and `Primes` are the number theory under `Base58`,
  `Base58Length`, `Curve` (section 5.1.3 of RFC 8032), `Abi` (Solidity Contract
  ABI Specification, "Formal Specification of the Encoding") and `Metadata`.
- **Protocols.** `Pipeline` (claims, leases, deaths), `Scanner` (descending
  checkpoints, stops and kills) and `OutputCommit` (two files, backups, journal).
- `Orders` gives `sort`, `dedup` and derived orderings their meaning; `Placement`
  deals CPUs to workers.

Integers are unbounded except where the width matters: `i128` saturation in
`Economics`, `i128` overflow in `WashCycles`, `u16` in `Base58Length`, 256-bit
words in `Abi`, 32-bit lengths in `Metadata`. Hash sets and maps are sets and
maps; where the code walks a hash map, the model takes the keys in an arbitrary
order. Each committed SQL statement, file rename or file write is one step, and a
kill is possible between any two steps. Fetched logs, SHA-256, UTF-8 decoding with
trimming and the floating-point fallback of the average comparison are function
parameters.

Where the code turned out not to do what one might expect, the model keeps the
code and states the exact condition:

- The counting and the instance form of layered paths would differ if no address at
  all were asked for (`LayeredPath.CompareForms`). No caller gets there: both ask for
  three, and with three the forms agree (`Behavior.FormsAgree`).
- A recovery interrupted after it moved a backup cannot be repeated
  (`OutputCommit.InterruptedRecoveryIsStuck`), and an exception while the journal is
  being removed or a rollback is under way strands the journal even without a kill
  (`OutputCommit.ExceptionStrandsJournal`). Recovery succeeds exactly when every
  file the journal records still has its backup (`OutputCommit.RecoveryCondition`).
- The main table can hold keys of a blacklisted contract, in two ways. A worker can
  insert a key whose contract another one already swept
  (`Pipeline.BlacklistedKeyInMain`), and a worker can die after listing a contract and
  before sweeping it (`Pipeline.DeathBeforeSweep`). The table holds no swept contract
  exactly when there is no such insert (`Pipeline.MainStaysCleanExactly`). It holds no
  listed contract exactly when no step inserts one and no batch lists one it holds
  (`Pipeline.MainStaysListCleanExactly`); after a batch
  of the latter kind it is the sweep that takes the keys out. Both conditions can be
  looked up right before the step.
- Provider copies of one event that disagree on their index make the normal form
  depend on the input order; a list that normalises does so alike in every order
  exactly when its copies agree (`Normalize.OrderMattersExactlyWhenCopiesDisagree`).
  Even whether there is a normal form can depend on the order
  (`Normalize.FailureDependsOnOrder`). No order fails exactly when the unshadowed events
  that are not copies of one event claim different places
  (`Normalize.NoOrderFailsExactly`).

Checking the whole project: `dafny verify dfyconfig.toml`.

## Model

| member | source | states |
|---|---|---|
| `GraphBuild.BuildFiltered` | analysis/src/analysis/propagation.rs:26-67 | for every event list and filter the result is the graph of the kept events: its vertices are exactly their endpoints, strictly ascending; an edge joins two vertices exactly when a kept event goes from one to the other; targets are ascending and slots well formed |
| `GraphBuild.PrefixSums` | analysis/src/analysis/propagation.rs:54-60 | the in-place counting and summing loops leave in `offsets[v]` the number of pairs whose sender is below v |
| `GraphBuild.CollectPairs` | analysis/src/analysis/propagation.rs:38-53 | (u, v) is among the pairs exactly when a kept event goes from address u to address v |
| `GraphBuild.GraphDependsOnEventSet` | analysis/src/analysis/propagation.rs:26-67 | two graphs of the same kept events are equal array by array, so order and repetition of events do not matter |
| `Graph.ReachIsWalk` | analysis/src/analysis/propagation.rs:69-77 | the closure definition of reachability used by all component theorems is the existence of a walk along edge slots |
| `Tarjan.StronglyConnectedComponents` | analysis/src/analysis/propagation.rs:69-77 | terminates on every well-formed graph; the components partition the vertices, each ascending, two vertices share one exactly when each reaches the other, and every edge leaving a component goes to one emitted earlier |
| `Tarjan.TarjanSearch.VisitIterative` | analysis/src/analysis/propagation.rs:279-324 | one search over an explicit frame stack discovers everything reachable from its start and keeps the whole invariant; termination by undiscovered vertices, unread edges and open frames |
| `Tarjan.TarjanSearch.Discover` | analysis/src/analysis/propagation.rs:270-277 | the new fields of the search after a vertex is given an index and put on the stack |
| `Tarjan.TarjanSearch.OpenFrame` | analysis/src/analysis/propagation.rs:284-301 | reading an edge to an undiscovered vertex advances the frame, opens one for the vertex, gives the whole new search state and keeps the invariant |
| `Tarjan.TarjanSearch.SkipEdge` | analysis/src/analysis/propagation.rs:284-305 | reading an edge to a discovered vertex advances the frame and, if the vertex is on the stack, lowers the lowlink; the whole new state is given, the invariant kept and an edge used up |
| `Tarjan.TarjanSearch.CloseFrame` | analysis/src/analysis/propagation.rs:306-323 | a finished frame hands its lowlink to its parent; a root then emits its component, any other leaves its vertices to the parent; the new state is given and the invariant holds for the frames that are left |
| `Tarjan.TarjanSearch.PopComponent` | analysis/src/analysis/propagation.rs:312-323 | the new state is the old one with exactly the stack from the root upwards taken off and emitted in ascending order |
| `Tarjan.OldestIsRoot` | analysis/src/analysis/propagation.rs:306-323 | the oldest frame always closes as a root, so the stack is empty when no frame is open |
| `Tarjan.EmitClosed` | analysis/src/analysis/propagation.rs:312-323 | every edge out of a popped component leads into it or into an earlier one |
| `Tarjan.EmitConnected` | analysis/src/analysis/propagation.rs:312-323 | any two vertices of a popped component reach each other |
| `Tarjan.FinalReach` | analysis/src/analysis/propagation.rs:69-77 | a vertex reaches only vertices of its own component or of earlier ones, so mutually reachable vertices share one |
| `LayeredPath.FirstLayeredPath` | analysis/src/analysis/behavior.rs:679-708 | returns a path exactly when the graph has a simple path on the asked number of vertices, and, where targets ascend as in every built graph, the lexicographically least of them; terminates for every graph and length |
| `LayeredPath.PropagationArrows` | analysis/src/analysis/mod.rs:251-252 | the arrows of the production graph are the mints, transfers and paid sales from one address to the other |
| `LayeredPath.AnswerIsFirst` | analysis/src/analysis/behavior.rs:679-708 | every simple path of that length and start is no less than the one the backtracking stops at |
| `LayeredPath.ExhaustedIsDead` | analysis/src/analysis/behavior.rs:687-705 | when the newest level has no edge left its prefix extends to no path of the asked length |
| `LayeredPath.PushDecreases` | analysis/src/analysis/behavior.rs:687-705 | taking an edge into the path lowers the number of turns the backtracking has left |
| `LayeredPath.LayeredPaths` | analysis/src/analysis/behavior.rs:603-673 | the reported instance names the vertices of the lexicographically first simple path and shows each hop by the earliest event between its two addresses |
| `LayeredPath.CompareForms` | analysis/src/analysis/behavior.rs:603-677 | the counting form and the instance form agree exactly when at least one address is asked for |
| `Attribution.AttributeAddresses` | analysis/src/analysis/attribution.rs:25-119 | exactly the addresses the evidence knows get a role: operator, corrupted victim and likely victim by their evidence in that order, and an address with none of these becomes a suspected colluder exactly when it is mutually reachable along sales with an operator |
| `Attribution.SaleArrows` | analysis/src/analysis/attribution.rs:99-102 | the arrows of the sale graph are the paid sales |
| `Attribution.CircledTrades` | analysis/src/analysis/attribution.rs:99-119 | a member of a promoted component trades in a circle with an operator in the sense of the events themselves |
| `Attribution.TradesCircled` | analysis/src/analysis/attribution.rs:99-119 | and an address that trades in a circle with an operator is in a promoted component |
| `Attribution.CollectEvidence` | analysis/src/analysis/attribution.rs:36-98 | the evidence sets hold exactly the addresses the events and controllers speak of |
| `Attribution.ReachToAddresses` | analysis/src/analysis/propagation.rs:26-77 | reachability in the graph is reachability between addresses along kept events |
| `WashCycles.FindCycles` | analysis/src/analysis/behavior.rs:46-90 | the cycles found are exactly the sets of at least two malicious addresses that are pairwise mutually reachable along sales among malicious addresses and maximal as such |
| `WashCycles.CyclesUnique` | analysis/src/analysis/behavior.rs:46-90 | the list of cycles is determined by the events up to order |
| `WashCycles.DetectWash` | analysis/src/analysis/behavior.rs:91-161 | every cycle ends with exactly its internal sales, its end, its exits after that end and the totals over each, and, where the products of the comparison fit an `i128`, the pump count is the number of cycles whose exit prices have a higher real average than their internal prices, in dollars if both sides have some, else in native amounts |
| `WashCycles.InternalPass` | analysis/src/analysis/behavior.rs:100-125 | the first pass gives every cycle the sums, counts and latest time of exactly its internal sales |
| `WashCycles.ExitPass` | analysis/src/analysis/behavior.rs:126-161 | the second pass gives every cycle exactly its exits: sales by a member to an honest buyer later than the cycle's end |
| `WashCycles.InternalOnce` | analysis/src/analysis/behavior.rs:100-161 | a sale is internal to at most one cycle and is then an exit of none |
| `WashCycles.ExitsAreLater` | analysis/src/analysis/behavior.rs:126-161 | every exit is strictly later than every timestamped internal sale of its cycle |
| `WashCycles.EndIsLatest` | analysis/src/analysis/behavior.rs:100-125 | a cycle's end is the greatest timestamp of its internal sales |
| `WashCycles.AverageExceedsIsExact` | analysis/src/analysis/behavior.rs:440-448 | the comparison by cross-multiplication is the comparison of the exact averages whenever neither product overflows an `i128` |
| `WashCycles.PumpVerdict` | analysis/src/analysis/behavior.rs:394-438 | the verdict on the accumulated sums of a cycle is the comparison of the real averages of the non-negative prices of its exits and of its internal sales |
| `WashCycles.TotalsArePrices` | analysis/src/analysis/behavior.rs:394-419 | the accumulated counts and sums of a side are the number and the clipped sum of the non-negative prices of its events |
| `WashCycles.MaliciousArrows` | analysis/src/analysis/behavior.rs:74-85 | the arrows the cycles are made of are the paid sales between malicious addresses |
| `WashCycles.CompareWashForms` | analysis/src/analysis/behavior.rs:28-161 | collecting instances or not makes no difference to cycle and pump counts |
| `StarBehavior.Condense` | analysis/src/analysis/behavior.rs:279-312 | component d is a target of component c exactly when some propagation event goes from c to d and d is not c, and c is valuable exactly when such an event carries value |
| `StarBehavior.TargetsAreEarlier` | analysis/src/analysis/behavior.rs:279-312 | on the production graph every target index is below its component's index |
| `StarBehavior.ChainsDescend` | analysis/src/analysis/behavior.rs:247-333 | so following targets never returns to where it began: the condensation has no cycles |
| `StarBehavior.ChainToSink` | analysis/src/analysis/behavior.rs:313-333 | from every component a chain of targets ends in one without targets |
| `StarBehavior.StarBehaviors` | analysis/src/analysis/behavior.rs:247-333 | a malicious component whose events send to three others is a Sybil distribution if one of those sends on, else fraud revenue if it sends value, else poisoning; nothing else has a kind; the three counts are the sizes of the three kinds |
| `StarBehavior.KindByEvents` | analysis/src/analysis/behavior.rs:314-330 | the classification on the condensation is that reading of the events |
| `Behavior.AnalyzeBehaviors` | analysis/src/analysis/behavior.rs:46-237 | whether instances are collected or not, all seven facts mean the same: cycles, pumps, the three star kinds, a simple path on three addresses, and malicious addresses with at least three senders or some sender and at least three receivers |
| `Behavior.FormsAgree` | analysis/src/analysis/behavior.rs:28-44 | the counting form and the instance-building form, and any two runs of either, agree in all seven facts |
| `Behavior.PumpFact` | analysis/src/analysis/behavior.rs:158-161 | the pump fact is the number of wash cycles that sell out at a higher average price than inside |
| `Behavior.CountInventory` | analysis/src/analysis/behavior.rs:176-192 | the degree counters decide concentration as the numbers of distinct senders and receivers do |
| `Behavior.InDegreeIsSenders` | analysis/src/analysis/behavior.rs:176-180 | in a graph with ascending targets a vertex occurs in the edge array once per distinct sender |
| `Behavior.AnalyzeCandidate` | analysis/src/analysis/mod.rs:251-262 | graph, components, roles and facts chained from events, controllers and holders alone |
| `Primes.Fermat` | run/solana/common.py:140-160 | a^p and a are congruent modulo a prime p; the fact the modular powers in the curve test rest on |
| `Primes.TwoIsNonResidue` | run/solana/common.py:147-160 | 2^((p-1)/2) is -1 modulo every prime p with p mod 8 = 5, the fact behind the correction factor (Gauss) |
| `Curve.CandidateDecides` | run/solana/common.py:147-160 | for p mod 8 = 5 the corrected candidate root squares to a residue exactly when a root exists |
| `Curve.CurveTestDecides` | run/solana/common.py:134-161 | over every prime p with p mod 8 = 5 and every non-residue d the test accepts exactly the 32-byte encodings with y < p that decode to a curve point with the sign bit's parity (section 5.1.3 of RFC 8032), x = 0 with sign bit set being refused |
| `Curve.EquationIsSquare` | run/solana/common.py:141-146 | x satisfies the curve equation at y exactly when x squared is the value the test computes |
| `Curve.EdwardsConstant` | run/solana/common.py:127-131 | for every prime above 121666 the constant times 121666 is -121665 |
| `Curve.PointRoundTrip` | run/solana/common.py:134-142 | of every y below 2^255 and sign, written little-endian with the sign in bit 255 (section 5.1.2 of RFC 8032), the test reads back that y and that sign |
| `Curve.Ed25519Test` | run/solana/common.py:127-161 | at the program's constants the test accepts exactly the encodings with y < p for which some x of the sign's parity satisfies 121666 (y^2 - x^2) = 121666 - 121665 x^2 y^2 modulo p = 2^255-19, given that p is prime and the constant a non-residue |
| `Curve.FindProgramAddress` | run/solana/common.py:164-176 | returns the hash of the highest bump that is off the curve, and fails exactly when all 256 are on it |
| `Base58.B58Decode` | run/solana/common.py:96-106 | refuses exactly the strings with a character outside the alphabet and otherwise computes the decoded bytes |
| `Base58.B58Encode` | run/solana/common.py:109-124 | the loop over quotients computes the encoded text |
| `Base58.DecodeEncode` | run/solana/common.py:92-124 | decoding an encoding gives the bytes back, for all byte strings |
| `Base58.EncodeDecode` | run/solana/common.py:92-124 | encoding a decoding gives the text back, for all strings over the alphabet |
| `Base58.KeyLength` | run/solana/common.py:109-124 | every 32-byte value is written with 32 to 44 characters |
| `Base58.MintFilterKeepsKeys` | run/solana/common.py:1080-1091 | the mint filter keeps exactly the 32-byte values other than the all-zero one: its length test never drops a key |
| `Base58Length.Base58DecodedLen` | analysis/src/cli.rs:785-810 | the carry loop on bytes never overflows its 16-bit accumulator, refuses exactly the empty string and strings outside the alphabet, and otherwise returns the length of the big-number decoding |
| `Base58Length.MultiplyAdd` | analysis/src/cli.rs:793-800 | one pass keeps the little-endian value: next plus carry is 58 times the value plus the digit |
| `Base58Length.ValidSolanaAddress` | analysis/src/cli.rs:772-784 | accepts exactly the strings that encode a 32-byte key |
| `OutputCommit.AlwaysInv` | top_contract_analysis_rs/scripts/fetch_opensea_top_seeds.py:592-711 | every state reachable by any sequence of runs, exceptions and kills keeps the relation between files, backups, journal and program counter |
| `OutputCommit.NoJournalMeansWholePair` | top_contract_analysis_rs/scripts/fetch_opensea_top_seeds.py:592-676 | in every reachable state without a journal the CSV and audit pair is wholly the one found or wholly the one written |
| `OutputCommit.KillThenRecoverRestores` | top_contract_analysis_rs/scripts/fetch_opensea_top_seeds.py:640-711 | a kill on the forward path while the journal exists, then one recovery, restores exactly the old pair and removes the journal |
| `OutputCommit.RecoveryCondition` | top_contract_analysis_rs/scripts/fetch_opensea_top_seeds.py:691-711 | in every reachable state with a journal recovery succeeds exactly when every file the journal records still has its backup, and then restores the old pair |
| `OutputCommit.InterruptedRecoveryIsStuck` | top_contract_analysis_rs/scripts/fetch_opensea_top_seeds.py:691-711 | recovery is not re-entrant: a reachable state with a journal that no recovery can finish |
| `OutputCommit.ExceptionIsRolledBack` | top_contract_analysis_rs/scripts/fetch_opensea_top_seeds.py:655-669 | from every reachable state inside the inner try an exception ends with exactly the old pair: no backup, no temporary file, no journal |
| `OutputCommit.ExceptionBeforeJournal` | top_contract_analysis_rs/scripts/fetch_opensea_top_seeds.py:600-676 | an exception before the journal is written leaves exactly the old pair as well |
| `OutputCommit.RecoveryStepByStep` | top_contract_analysis_rs/scripts/fetch_opensea_top_seeds.py:691-711 | three steps after it begins over a journal a run has done exactly what recovery as a function says, and is over if that raises |
| `OutputCommit.ExceptionStrandsJournal` | top_contract_analysis_rs/scripts/fetch_opensea_top_seeds.py:640-676 | from every reachable state beyond the rollback, one exception and no kill lets the clean-up delete the backups while the journal stays; recovery then fails exactly when the run had found a file |
| `OutputCommit.ExceptionIsStuck` | top_contract_analysis_rs/scripts/fetch_opensea_top_seeds.py:640-676 | such a run without any kill exists |
| `OutputCommit.UndisturbedRunCommits` | top_contract_analysis_rs/scripts/fetch_opensea_top_seeds.py:592-711 | an undisturbed run leaves the new pair and nothing else, whichever of the two files exist and whatever journal it finds, as long as that can be recovered |
| `OutputCommit.OutputFiles.Recover` | top_contract_analysis_rs/scripts/fetch_opensea_top_seeds.py:691-711 | in-place recovery does to the files what the recovery function says, also where it raises half way |
| `OutputCommit.OutputFiles.Write` | top_contract_analysis_rs/scripts/fetch_opensea_top_seeds.py:592-676 | in-place recovery and commit: fails exactly when recovery fails, otherwise only the new pair is left |
| `Pipeline.AlwaysInv` | run/base/metadata_fetcher.py:289-401 | every interleaving of scanner, workers, lease expiry, failures and deaths keeps the four-part invariant |
| `Pipeline.StagedKeysSurvive` | run/base/common.py:357-519 | each staged key is always in the temp table, in the main table, or judged invalid or blacklisted |
| `Pipeline.StagedKeysAreAccountedFor` | run/base/metadata_fetcher.py:289-401 | from empty tables each staged key is in one of the tables, or a batch that held it found its row invalid or its contract on the chain or the blacklist, or some batch found its contract on the chain |
| `Pipeline.RejectedExactlyWhenCondemned` | run/base/metadata_fetcher.py:229-350 | a key is rejected by a run exactly when a batch holding its row found the row invalid or the contract on the chain or on the blacklist |
| `Pipeline.ListedExactlyWhenFound` | run/base/metadata_fetcher.py:333-343 | a contract is listed by a run exactly when a batch found its image on the chain |
| `Pipeline.GoodKeysAreInserted` | run/base/metadata_fetcher.py:340-374 | a row with neither verdict is in main after its worker's own insert, whatever everybody does in between |
| `Pipeline.InsertedWasCleared` | run/base/metadata_fetcher.py:340-374 | every key a run brings into main was in a batch that found its row valid and its contract neither on the chain nor on the blacklist |
| `Pipeline.KeysStagedOnce` | run/base/common.py:310-331 | in every reachable state no key is in the temp table twice |
| `Pipeline.BatchLeavesTemp` | run/base/metadata_fetcher.py:107-137 | in every reachable state the last delete of a worker takes exactly its batch out of the temp table: every pending row is gone after it and no other row by it |
| `Pipeline.SweepTakes` | run/base/common.py:522-577 | a sweep takes exactly the newly listed contracts' keys out of main and their rows out of temp, but for locked rows and those the batch removes itself |
| `Pipeline.ReleaseFrees` | run/base/common.py:503-519 | a release frees every row still claimed by the worker |
| `Pipeline.TwoHoldersAreALeaseApart` | run/base/common.py:357-406 | two workers hold the same row only if one claim was older than the lease when the other was made |
| `Pipeline.HolderKeepsClaim` | run/base/common.py:357-406 | in every reachable state, as long as a holder's lease runs, nothing another worker does takes its claim off a row that stays staged; after that only another claim can, never a stale worker's release |
| `Pipeline.RowsComeBack` | run/base/common.py:371-392 | whatever all actors do meanwhile, once the clock has moved past the lease every row that is still staged and was not claimed since can be claimed |
| `Pipeline.WaitingBringsRowsBack` | run/base/common.py:371-392 | waiting longer than the lease is enough for every staged row, and loses none |
| `Pipeline.MainStaysCleanExactly` | run/base/metadata_fetcher.py:107-137 | over every run the main table never holds a swept contract exactly when no insert step carries a key whose contract was already swept |
| `Pipeline.OnlyLateInsertsSoil` | run/base/metadata_fetcher.py:330-390 | of all steps exactly such a late insert makes a clean main table unclean |
| `Pipeline.BlacklistedKeyInMain` | run/base/metadata_fetcher.py:107-137 | such runs exist: a concrete interleaving of two workers |
| `Pipeline.MainStaysListCleanExactly` | run/base/metadata_fetcher.py:333-383 | over every run the main table never holds a contract that a batch put on the blacklist exactly when no step inserts a key of a listed contract and no batch lists a contract the table holds |
| `Pipeline.OnlySoilingSoils` | run/base/metadata_fetcher.py:333-383 | of all steps exactly these two make the table hold a listed contract |
| `Pipeline.DeathBeforeSweep` | run/base/metadata_fetcher.py:336-365 | a worker that dies between listing a contract and sweeping it leaves its rows in main, with no late insert and no worker left |
| `Pipeline.StepKeeps` | run/base/metadata_fetcher.py:289-401 | each single statement of each actor keeps the invariant |
| `Scanner.Run` | run/base/log_scanner.py:126-227 | one run from any checkpoint: ranges descend from the start without gap or overlap down to the stop block; the checkpoint is the lower end of the last persisted range, killed or not, and every key between it and the top is staged or of a contract on the blacklists so far; the top is the run's own top block if nothing was saved before; a run that completes has persisted every range it enqueued, one never asked to stop ends at the stop block; what it stages are keys of its blocks and not blacklisted |
| `Scanner.Runs` | run/base/log_scanner.py:126-227 | over any sequence of runs from a fresh store, with any settings, stops and kills: the checkpoint only moves down, and once saved every key between it and the top block of the first run that saved is staged, unless its contract is on some run's blacklist; an undisturbed run gets to its stop block; nothing is staged that no block names |
| `Scanner.ScanRun.NextRange` | run/base/log_scanner.py:152-159 | the next range down, of full batch size unless the stop block cuts it off; none exactly below the stop block |
| `Scanner.ScanRun.ExtractRecords` | run/base/log_scanner.py:161-176 | the new keys that are not blacklisted, each once, and nothing else; they become seen |
| `Scanner.ScanRun.PersistBatch` | run/base/common.py:310-331 | when the checkpoint moves to a range, every key of the range is staged or blacklisted; a kill before that leaves the old checkpoint, covered as before |
| `Scanner.ScanRun.Drain` | run/base/log_scanner.py:212-227 | works the window off in order; the checkpoint follows the persisted ranges |
| `Scanner.LaterRangesAreBelow` | run/base/log_scanner.py:152-159 | ranges of one run are disjoint |
| `Scanner.RangesLeaveNoGap` | run/base/log_scanner.py:152-159 | every block from the last range up to the start is in one of the ranges |
| `Spelling.CanonicalizeArc` | analysis/src/analysis/mod.rs:168-189 | the routine with its short cuts computes the canonical spelling in every case |
| `Spelling.CanonicalIdempotent` | analysis/src/analysis/mod.rs:168-189 | canonicalising twice is canonicalising once, for every chain, value and kind |
| `Spelling.SpelledAlike` | analysis/src/analysis/mod.rs:168-189 | two texts get one spelling exactly when they differ at most in surrounding white space and, on an EVM chain, in the case of letters |
| `Spelling.TrimIsPadding` | analysis/src/analysis/mod.rs:168-189 | trimming takes away white space at both ends and nothing else |
| `Normalize.EventSpelled` | analysis/src/analysis/mod.rs:130-166 | the canonical event has its id, all five addresses and its NFT in canonical spelling and is otherwise the same event |
| `Normalize.NormalOrder` | analysis/src/analysis/mod.rs:26-32 | survivors go up by chain, then transaction id, then index |
| `Spelling.TokenIdsAgree` | analysis/src/analysis/mod.rs:168-189 | two decimal token ids on an EVM chain are spelled alike exactly when they write the same number |
| `Normalize.ReconcileDuplicateEvents` | analysis/src/analysis/mod.rs:98-118 | both hash-set passes compute the reconciled list: the first copy of every event, without transfers a sale describes |
| `Normalize.EventRepresented` | analysis/src/analysis/mod.rs:98-128 | every event is represented by a survivor equal up to its index or by a sale of the same movement |
| `Normalize.MovementsToldOnce` | analysis/src/analysis/mod.rs:98-128 | survivors come from the input, no two differ only in their index, and no surviving transfer shares a movement with a sale |
| `Normalize.NormalEventsFixed` | analysis/src/analysis/mod.rs:22-56 | normalising normalised events changes nothing and cannot fail |
| `Normalize.SameForEveryOrder` | analysis/src/analysis/mod.rs:22-118 | when all copies of each surviving event agree on their index every input order gives the same outcome |
| `Normalize.OrderMattersExactlyWhenCopiesDisagree` | analysis/src/analysis/mod.rs:98-118 | for a list that normalises, the result is the same in every order exactly when the copies agree on their index |
| `Normalize.OrderDecidesFailure` | analysis/src/analysis/mod.rs:33-49 | a family of inputs where the order alone decides whether normalising fails |
| `Normalize.NoOrderFailsExactly` | analysis/src/analysis/mod.rs:33-118 | no order of the input fails exactly when unshadowed events that are not copies of each other claim different places, which the input shows |
| `Normalize.FailureDependsOnOrder` | analysis/src/analysis/mod.rs:33-49 | that family is not empty: two orders of one list, of which one fails |
| `Bundle.EvidenceBundle.Normalize` | analysis/src/analysis/mod.rs:22-96 | fails exactly when two different surviving events share chain, transaction and index; otherwise the bundle is in normal form; on failure it is left canonical with its survivors sorted |
| `Bundle.NormalFormSaysTheSame` | analysis/src/analysis/mod.rs:22-189 | in the normal form every transaction id, address, contract and token id is spelled canonically; every survivor is an input event up to spelling; every input event is told by a survivor up to spelling and index or by the sale of its movement; holders and controllers correspond to the input's up to spelling |
| `Bundle.SpellingDoesNotMatter` | analysis/src/analysis/mod.rs:130-189 | bundles that differ only in surrounding white space, letter case on EVM chains or leading zeros of token ids have the same normal form, or neither has one |
| `Bundle.MergeVerifications` | analysis/src/analysis/mod.rs:58-91 | one verification per seed in strict order of seeds: a relation holds if one of them found it, complete if all are, keys and failures united without duplicates |
| `Bundle.IsMergeUnique` | analysis/src/analysis/mod.rs:58-91 | the merged list is determined by the set of verifications, whatever their order |
| `Bundle.NormalizeIdempotent` | analysis/src/analysis/mod.rs:22-96 | normalising a normal form succeeds and changes nothing |
| `Bundle.NormalFormUnique` | analysis/src/analysis/mod.rs:22-96 | a bundle has one normal form |
| `Economics.ComputeEconomics` | analysis/src/analysis/economics.rs:120-392 | every total is the clipped exact sum of what each event contributes; the gas table has exactly one charge per operator-paid transaction; records and stage totals follow from it |
| `Economics.TotalAppend` | analysis/src/analysis/economics.rs:179-326 | saturating addition event by event is the exact sum, clipped once |
| `Economics.ChargeTransaction` | analysis/src/analysis/economics.rs:158-176 | the charge follows the event with the highest stage and lowest index and takes the largest amounts |
| `Economics.ChargesNext` | analysis/src/analysis/economics.rs:154-186 | one more operator-paid event keeps the table right for every transaction |
| `Economics.Account` | analysis/src/analysis/economics.rs:187-330 | one turn of the loop adds to each total exactly what the event contributes to it |
| `Economics.ListGas` | analysis/src/analysis/economics.rs:333-388 | whatever order the gas table is walked in, the records come out in the same strict order and the stage totals are the clipped sums of the records of that stage |
| `Economics.EconomicsOrderFree` | analysis/src/analysis/economics.rs:120-392 | facts and records are the same for every permutation of the events and every walk through the hash map, given unique event identities |
| `Economics.NormalFormHasUniqueIdentities` | analysis/src/analysis/mod.rs:33-53 | normalised events meet that condition |
| `Economics.OneRecordPerTransaction` | analysis/src/analysis/economics.rs:154-186 | a transaction has a gas record exactly when an operator paid for one of its events, then exactly one; its stage and amounts are the highest among those events and each is attained by one of them |
| `Economics.RecordStage` | analysis/src/analysis/economics.rs:394-403 | a record's stage by the kinds and channels of the operator-paid events of its transaction: exit if one takes value out, else lure if one draws buyers in, else setup |
| `Economics.DearestFirst` | analysis/src/analysis/economics.rs:379-388 | records go down by dollars, then native amount, then up by stage, chain and transaction |
| `Economics.CollectParties` | analysis/src/analysis/economics.rs:127-149 | operators are the suspected operators and colluders, honest holders the likely victims with the tokens they hold |
| `Economics.HonestLossSplits` | analysis/src/analysis/economics.rs:240-262 | honest loss is the saturated sum of paid-mint and secondary-sale loss, also at saturation |
| `Economics.LossesWithinRevenue` | analysis/src/analysis/economics.rs:200-322 | honest loss is at most gross revenue, and backflow at most withdrawals |
| `Gini.Coefficient` | analysis/src/analysis/behavior.rs:584-601 | no value exactly for an empty list or a zero sum; otherwise the mean difference of all pairs over twice the mean |
| `Gini.WeightedIsPairDistance` | analysis/src/analysis/behavior.rs:590-600 | on sorted values the index-weighted sum is the sum over all pairs |
| `Gini.MeanDifferenceBounds` | analysis/src/analysis/behavior.rs:584-601 | the coefficient lies between 0 and (n-1)/n and is 0 exactly when all values are equal |
| `Placement.SelectWorkerPlacements` | analysis/src/platform.rs:71-137 | fails exactly when the cpuset is too small; every placement is legal; with distinct CPUs and disjoint nodes there are exactly as many as workers on distinct CPUs; two nodes with CPUs left differ by at most one; CPUs outside the nodes are used only when the nodes are exhausted |
| `Placement.PerNodeIs` | analysis/src/platform.rs:83-95 | the usable nodes are exactly those with an allowed CPU, each with all its allowed CPUs |
| `Placement.DealRoundRobin` | analysis/src/platform.rs:97-122 | the round-robin loop takes each node's CPUs in order, evenly, until the workers are placed or the nodes exhausted |
| `Placement.FilledUpWell` | analysis/src/platform.rs:123-136 | what is left of the cpuset always suffices to fill up to the number of workers |
| `Abi.DecodeBatch` | run/base/common.py:982-995 | the loop returns the whole words of the first array that the data holds |
| `Abi.BatchRoundTrip` | run/base/common.py:982-995 | decoding an encoded pair of uint256 arrays returns the ids |
| `Abi.TruncatedBatch` | run/base/common.py:982-995 | of any prefix of an encoding it returns exactly the ids that arrived whole |
| `Abi.StringRoundTrip` | run/base/common.py:865-888 | decoding the hexadecimal text of an encoded string gives what UTF-8 makes of its bytes |
| `Abi.TruncatedString` | run/base/common.py:865-888 | of any prefix of an encoding the text comes out exactly when all its bytes arrived |
| `Metadata.ParseMetadataAccount` | run/solana/common.py:197-287 | the parser with its moving cursor computes the fields found by stepping over strings and options |
| `Metadata.MetadataRoundTrip` | run/solana/common.py:197-287 | every account written in the layout is read back, with or without each optional field and whatever bytes follow |
| `Metadata.ReportedKeysDecode` | run/solana/common.py:224-284 | the reported mint and collection decode to the account's bytes, the mint in 32 to 44 characters |

## Left out

- Curve.Ed25519Test: the primality of 2^255-19 and the non-residuosity of the curve constant are hypotheses; no primality certificate is checked.
- WashCycles.DetectWash: the floating-point comparison used when a product overflows an `i128` is the parameter `rounded`; nothing is claimed about it.
- Behavior.AnalyzeBehaviors: of the instances only the layered one is built; sums, shares, ratios and the sorting of the others are not modelled.
- Attribution.AttributeAddresses: the evidence records with weights and reasons (attribution.rs:121-316) are not modelled, only the roles.
- Tarjan.TarjanSearch.VisitIterative: the ghost fields `lowVertex`, `owner`, `scanned` and `home` exist only for the proof.
- OutputCommit.AlwaysInv: the journal is written in one step (the temporary file it is renamed from is not modelled), the path check of the journal and the lock file are left out, and text is an opaque generation.
- Pipeline.AlwaysInv: truncation to column widths and the fallback for missing claim columns are not modelled; the verdicts of a batch and the blacklist it loads are inputs. The blacklist file is rewritten by several processes without a lock, so what a batch loads need not be what others listed.
- Scanner.Run: the fetch is a total function of the range; ranges are fetched when they are persisted, since prefetching does not change what they hold. The failed topic fetches the source turns into empty answers are therefore not detected.
- Base58Length.ValidSolanaAddress: takes the value after trimming; the EVM branch of the check is not modelled.
- Abi.StringRoundTrip: replacement of the token id placeholder and the JSON-RPC batch around the decoder are not modelled.
- Metadata.ParseMetadataAccount: the bare `except` around the parser has nothing left to catch in the model.
- Bundle.EvidenceBundle.Normalize: string interning is left out since it changes no value; the counters of the quality record are untouched by the code.
- Economics.ComputeEconomics: native and dollar amounts travel together as `Money`; the constant evidence kind of a gas record is left out.
- Gini.Coefficient: computed in exact rationals; rounding of the `f64` result is not modelled.
- Placement.SelectWorkerPlacements: reading cpusets, affinity and memory limits from the system, and `parse_cpu_list`, are not modelled.
- The propagation summary, lifecycle, quality and report code: counters and folds with no hard property.
- HTTP clients, retries, signal handling, process spawning, table definitions and logging: input and output only.
- The Ethereum, Polygon and Solana variants of scanner and fetcher: the same protocol as the Base one, or simpler.
