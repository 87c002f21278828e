# SoroMint: verified models of the server's algorithms and protocols

SoroMint is a platform for launching and running Soroban tokens on Stellar. This project models the parts of its
JavaScript that carry real logic, in Dafny 4.11, and proves what they promise.

* **Merkle whitelist** (`Merkle.dfy`): building the tree level by level, extracting a proof, verifying one. SHA-256 is a
  parameter of which only the digest length is used.
* **WASM scanner** (`WasmReader.dfy`, `WasmSections.dfy`, `WasmScan.dfy`): the byte reader with its LEB128 decoder, the
  section parsers with their error recovery, the rules, the report. `WasmEncoder.dfy` is an independent encoder after
  section 5.5 of the WebAssembly Core Specification, in which each number carries its own spelling; `WasmVerdict.dfy`
  runs from a module's description through its bytes to the verdict, and `WasmRecovery.dfy` does so for modules that
  break off at any byte or hold a section that cannot be read.
* **Protocols**, each as a state machine over every interleaving of its callers, with a class whose methods are proved
  to take exactly those steps: the Redis lock (`Lock.dfy`), the bridge relayer's queue (`Relayer.dfy`; the commands it
  makes of events are in `BridgeCommand.dfy`), the SEP-10 challenge store (`Sep10.dfy`), the API-key request limit
  (`RateLimit.dfy`), vote casting and results (`Voting.dfy`), the historical indexer (`Indexer.dfy`).
* **Printers and arithmetic**: the CSV export against a reader after section 2 of RFC 4180 (`Csv.dfy`), amounts in XLM
  (`Xlm.dfy`), platform fees and their withdrawal (`Fees.dfy`), RPC failover over exponential backoff (`Failover.dfy`).
* `Bytes.dfy`, `Sorting.dfy` and `Wrappers.dfy` hold 32-bit shifts and byte slices, JavaScript's stable sort, and what
  all share: optional values, results, the minimum.

Imperative code keeps its form: classes with the source's fields, methods with its loops. Each method's contract ties
its result or its new state to a function over values; the theorems are about those functions. `hide` statements only
make proofs cheaper.

## Where the code differs from its documentation, or from what one might expect

* The request limit is described as a sliding window (`server/middleware/api-key-auth.js:10` and line 51). It is a fixed
  window that opens with the first request after the last one closed: a key can be allowed `2 * max - 1` requests in an
  interval of the window's length, and no more, unless the window is a single millisecond (`RateLimit.RateBound`,
  `RateLimit.BoundIsReached`, `RateLimit.SlidesExactly`).
* A Merkle proof is not bound to the shape of the tree: a queried text that is the 64-byte pair of two sibling hashes is
  accepted, and so is every node given as a buffer. `Merkle.AcceptedExactly` and `Merkle.TextAcceptedExactly` say for
  what some proof is accepted at all, as long as no collision of the hash is at hand; at the lengths in use (addresses
  have 56 characters) the accepted texts are the whitelisted ones (`Merkle.Soundness`).
* The bridge relayer can be idle with commands waiting for the next flush: one pushed after the loop has ended and
  before `processing` is cleared, and those behind a rejection with undefined or null, on which the handler itself
  throws (`Relayer.StrandedExactly`, `Relayer.EndedOverQueueExactly`). Runs without either never leave commands behind
  (`Relayer.NeverStranded`).
* A lock acquisition can fail on its own entry: when the store grants the lock and the reply is lost, every retry finds
  the resource taken, and the caller gets nothing while the resource stays locked under its value
  (`Lock.FailedAcquisitionLeaves`, `Lock.OwnEntryRefuses`).
* The "stable bridge ID" of a command is cut so short that it never reaches the event's own id when the recipient is an
  address: all transfers of one amount of one asset to one address share it (`BridgeCommand.AddressHidesEvent`).
* A vote checked while the poll is open is stored even if the poll closes meanwhile. Votes stay inside the window as
  long as no poll is closed over the ballot in flight of a voter without a stored vote, and once one is, the next event
  can store a vote late (`Voting.LeavesWindowExactly`, `Voting.VotesStayInWindow`, `Voting.ClosingLetsOneLate`).
* A SEP-10 token is used once, but it binds the key only: the transaction signed for one challenge answers the next one
  of the same key, while its time bounds last (`Sep10.AcceptedAgain`).
* Two fee withdrawals that interleave hand out the same fees (`Fees.InterleavedWithdrawals`).
* The indexer means to ignore duplicate keys, but looks at one error code for a whole unordered insert, that of its
  first write error. A duplicate that comes first hides every other failure of that insert: the count and the cursor
  move on, and the failed events are never asked for again (`Indexer.DuplicateHidesFailure`). Documents already stored
  are what a retry after a partly applied insert starts with, and a rebuild over an existing collection. A run is
  complete exactly if no turn loses events so (`Indexer.CompleteExactly`, `Indexer.EveryRun`). "Rebuild complete" is
  also said on any empty page, and it counts events that the schema rejects and that are therefore never stored
  (`Indexer.RebuildIsComplete`).
* A call that rejects with undefined or null is not retried: reading its message throws inside the handler
  (`Failover.RetryWithBackoff`).
* The scanner does not compare the counts of imports, exports, globals and data with what is there, so such a section
  that ends early between two entries, or between two instructions of a global's initializer, reads as a shorter one,
  and so does one of which only the name, the count or the size is looked at. Every other break leaves a parse error,
  which blocks deployment (`WasmRecovery.BreaksOffInBody`, `WasmRecovery.EveryCutIsBlocked`).
* A positive minimum fee above the maximum makes fees fall where they should rise, at every positive rate
  (`Fees.FeesMonotoneExactly`).
* Constant expressions of 64 or more instructions, and immediates longer than five bytes, are legal WASM and not
  stepped over (`WasmEncoder.ExprLimit`, `WasmEncoder.ImmediateLimit`). `v128.const` is unknown to the reader, which
  takes its sixteen bytes for instructions (`WasmEncoder.VectorConst`).

## Model

| member | source | states |
|---|---|---|
| `Merkle.LessIsLexicographic` | contracts/merkle_whitelist/merkle_helper.js:20-24 | the comparison that orders a pair is the lexicographic one: decided by the first byte that differs, a proper prefix first |
| `Merkle.PairIsSorted` | contracts/merkle_whitelist/merkle_helper.js:20-24 | a pair is hashed as its two hashes in order, the smaller one first |
| `Merkle.HashPairSymmetric` | contracts/merkle_whitelist/merkle_helper.js:20-24 | the parent of two hashes does not depend on which is left |
| `Merkle.BuildTree` | contracts/merkle_whitelist/merkle_helper.js:26-51 | no leaves are refused; else the levels start with the leaves, each level is the pairwise parents of the one before with an odd last node promoted unchanged, and the last has one node |
| `Merkle.ParentsAre` | contracts/merkle_whitelist/merkle_helper.js:37-44 | a level of n nodes has half as many parents, rounded up, and the parent at each position is that of the two nodes under it |
| `Merkle.LevelSizes` | contracts/merkle_whitelist/merkle_helper.js:31-48 | the number of levels above the leaves depends on the number of leaves alone |
| `Merkle.DepthIsLog` | contracts/merkle_whitelist/merkle_helper.js:34-48 | that number is the base-2 logarithm rounded up |
| `Merkle.NewMerkleTree` | contracts/merkle_whitelist/merkle_helper.js:11-14 | a new tree holds the hashes of the texts, in order, and is a tree over them |
| `Merkle.GetProof` | contracts/merkle_whitelist/merkle_helper.js:57-80 | a leaf that is not in the tree is refused; else the proof is the siblings from the leaf's first position to the root, at most one a level |
| `Merkle.Verify` | contracts/merkle_whitelist/merkle_helper.js:82-90 | acceptance means that hashing the leaf with the proof elements in turn climbs to the root |
| `Merkle.Completeness` | contracts/merkle_whitelist/merkle_helper.js:26-90 | for every non-empty list of texts, duplicates allowed, and every text in it, the extracted proof is accepted against the root and is no longer than the depth |
| `Merkle.NodeReached` | contracts/merkle_whitelist/merkle_helper.js:82-90 | climbing that reaches a node started at a node, or completed a pair of siblings in its first step, or passed a listed text, or went through a collision |
| `Merkle.AcceptedMeans` | contracts/merkle_whitelist/merkle_helper.js:82-90 | for texts and buffers of any length, proofs of any number of elements of any length: what an accepted one implies, in those terms; for a text, that it is listed or a pair of siblings unless a listed text is a step or a collision is at hand |
| `Merkle.Soundness` | contracts/merkle_whitelist/merkle_helper.js:57-90 | at the lengths in use an accepted text is in the list and an accepted buffer is a node of the tree, or two different strings with one hash can be named from the tree and the proof |
| `Merkle.NodeIsAccepted` | contracts/merkle_whitelist/merkle_helper.js:57-90 | every node of the tree, given as a buffer, has an accepted proof |
| `Merkle.PairPartIsAccepted` | contracts/merkle_whitelist/merkle_helper.js:57-90 | so has every buffer that completes the pair of two siblings, whatever its length |
| `Merkle.SiblingPairIsAccepted` | contracts/merkle_whitelist/merkle_helper.js:57-90 | the lengths are needed: the concatenation of two sibling hashes is accepted as a text |
| `Merkle.StepLeafIsAccepted` | contracts/merkle_whitelist/merkle_helper.js:57-90 | likewise a listed text that is itself a step of a climb makes the start of the climb accepted |
| `Merkle.AcceptedExactly` | contracts/merkle_whitelist/merkle_helper.js:57-90 | without collisions, some proof is accepted for a text or buffer exactly when it is, or hashes to, a node, completes a pair of siblings, or leads to a listed text |
| `Merkle.TextAcceptedExactly` | contracts/merkle_whitelist/merkle_helper.js:57-90 | for a text, exactly when it is whitelisted, a pair of sibling hashes, or leads to a listed text |
| `WasmReader.BufferReader.constructor` | server/services/wasm-scanner.js:418-423 | a new reader stands at the start of its buffer |
| `WasmReader.BufferReader.SetPos` | server/services/wasm-scanner.js:433-440 | the position is set exactly when it lies in the buffer, else nothing changes and it throws |
| `WasmReader.BufferReader.ReadByte` | server/services/wasm-scanner.js:458-465 | returns the byte at the position and steps over it, or throws at the end |
| `WasmReader.BufferReader.ReadLEB128U` | server/services/wasm-scanner.js:487-505 | the loop of 32-bit shifts and ors reads what the arithmetic meaning says, and leaves the position there |
| `WasmReader.LebMeaning` | server/services/wasm-scanner.js:487-505 | reading succeeds exactly when a terminated group of at most five bytes stands here; the value is its base-128 little-endian number modulo 2^32, the step its length; a failure has consumed five bytes or all there are |
| `WasmReader.LebRoundTrip` | server/services/wasm-scanner.js:487-505 | wherever a group stands, reading returns the number it spells and steps over it |
| `WasmReader.MinimalLebSpells` | server/services/wasm-scanner.js:487-505 | the shortest encoding of every u32 is one group with its value |
| `WasmReader.PaddedLebSpells` | server/services/wasm-scanner.js:487-505 | so is the encoding padded to any width that fits, up to five bytes |
| `WasmReader.EveryU32IsSpelled` | server/services/wasm-scanner.js:487-505 | every u32 is spelled by its shortest group and by its five-byte one |
| `WasmReader.BufferReader.ReadString` | server/services/wasm-scanner.js:511-521 | a length and that many bytes, or a throw with the position after the length |
| `WasmReader.BufferReader.ReadByteVec` | server/services/wasm-scanner.js:527-537 | the same for byte vectors |
| `WasmReader.BufferReader.Skip` | server/services/wasm-scanner.js:543-550 | steps over n bytes exactly when n is not negative and they are there |
| `WasmReader.BufferReader.SkipInitExpr` | server/services/wasm-scanner.js:567-602 | steps over instructions by their operands up to `end`, the end of the buffer or the 64th instruction |
| `WasmEncoder.ImmediateLimit` | server/services/wasm-scanner.js:575-579 | an immediate is stepped over exactly when it has at most five bytes; a longer one throws |
| `WasmEncoder.ExprLimit` | server/services/wasm-scanner.js:567-602 | a constant expression is stepped over exactly when it has fewer than 64 instructions; a longer one is left early without an error |
| `WasmEncoder.VectorConst` | server/services/wasm-scanner.js:567-602 | a `v128.const` is stepped over if its bytes, read as instructions, neither end the expression nor want an operand; an `end` among them before any that wants one ends the expression inside the constant, without an error |
| `WasmSections.FramesTile` | server/services/wasm-scanner.js:675-748 | the sections visited tile the buffer from the header on: each starts where the one before ends, lies in the buffer and has the size its header claims; framing stops at the end of the buffer, or with the one error that stands there |
| `WasmSections.SkipMemLimits` | server/services/wasm-scanner.js:895-899 | steps over limits as the reference reads them |
| `WasmSections.SkipDescriptor` | server/services/wasm-scanner.js:767-790 | steps over the type of an import by its kind, and reads nothing of an unknown one |
| `WasmSections.ParseImportSection` | server/services/wasm-scanner.js:759-794 | pushes exactly the imports that the reference decodes before an error, an unknown kind, the count or the section's end |
| `WasmSections.ParseExportSection` | server/services/wasm-scanner.js:801-811 | the same for exports |
| `WasmSections.ParseMemorySection` | server/services/wasm-scanner.js:818-829 | the same for memories, which only the count and the buffer bound |
| `WasmSections.ParseGlobalSection` | server/services/wasm-scanner.js:837-847 | the same for globals |
| `WasmSections.ParseDataSection` | server/services/wasm-scanner.js:855-877 | the same for data segments, with their size, entropy and 64-byte sample |
| `WasmSections.ParseCustomSection` | server/services/wasm-scanner.js:885-889 | the name and the size of what follows it |
| `WasmSections.ParseBody` | server/services/wasm-scanner.js:697-742 | whatever a body parser does, the section adds what decoding its frame alone adds, with one error if it threw; `WasmRecovery.BreaksOffInBody` says when that is |
| `WasmSections.ParseWasmSections` | server/services/wasm-scanner.js:655-748 | the single pass with recovery terminates and equals framing the whole buffer by headers first and decoding each frame on its own; it throws exactly on fewer than eight bytes |
| `WasmEncoder.SectionRoundTrip` | server/services/wasm-scanner.js:697-742 | the frame of an encoded section of any kind decodes to its description, with no error |
| `WasmEncoder.SectionsRoundTrip` | server/services/wasm-scanner.js:671-748 | any number of encoded sections in any order, from any position and whatever follows, parse to their descriptions in turn |
| `WasmEncoder.ModuleRoundTrip` | server/services/wasm-scanner.js:655-899 | parsing the bytes of any module that fits gives back exactly its imports, exports, memories, globals, data, start, counts and custom sections, in order, with no parse error, each number being written in any way of its own, and the counts of imports, exports, globals and data claiming what is there or more |
| `WasmRecovery.EveryCutIsBlocked` | server/services/wasm-scanner.js:655-748 | every proper prefix of a module that does not end between two sections is blocked |
| `WasmRecovery.BreaksOffInSection` | server/services/wasm-scanner.js:675-695 | a module cut inside a section: the sections before are reported in full, with the one error that its header is truncated or claims more than is left, and it is blocked |
| `WasmRecovery.BreaksOffInBody` | server/services/wasm-scanner.js:671-748 | a module whose last section has an honest size and a body cut after any number of bytes: all before is reported, the entries before the cut are kept, and there is one parse error exactly if the cut is inside a name, a count, a start index or an entry, memories being read past the end and initializers of globals only noticed inside an instruction; then the module is blocked |
| `WasmRecovery.CutSection` | server/services/wasm-scanner.js:697-742 | the same of one frame at the end of the buffer, for each kind of section |
| `WasmRecovery.CutExpr` | server/services/wasm-scanner.js:567-602 | an initializer that breaks off throws inside an instruction, and between two comes to the end without an error |
| `WasmRecovery.UnknownKindIsTold` | server/services/wasm-scanner.js:759-794 | an import of an unknown kind anywhere in a module: the imports before it are kept, one error names it, all other sections are reported in full, and the module is blocked |
| `WasmRecovery.OverlongNumberIsTold` | server/services/wasm-scanner.js:671-748 | a number of more than five bytes at the start of a section's body is one error of that section; all sections before and after it are reported in full, and the module is blocked |
| `WasmScan.RunRules` | server/services/wasm-scanner.js:924-1170 | the loops and filters of the rule engine push exactly the specified findings, in order |
| `WasmScan.SuspiciousExactly` | server/services/wasm-scanner.js:48-59 | an import is suspicious exactly if its module is in the table, whatever its case |
| `WasmScan.FilterGrows` | server/services/wasm-scanner.js:924-1170 | the filters whose lengths the rules compare keep each element that passes, and no other |
| `WasmScan.FindingsExactly` | server/services/wasm-scanner.js:924-1170 | of all twenty rules: a finding about the module, or about one memory or data segment, is made exactly once if its rule's condition holds there, and otherwise never |
| `WasmScan.MemoryTimes` | server/services/wasm-scanner.js:1049-1072 | the loop over the memories makes each of its findings once |
| `WasmScan.DataTimes` | server/services/wasm-scanner.js:1091-1138 | so does the loop over the data segments |
| `WasmScan.GraveRules` | server/services/wasm-scanner.js:109-402 | the conditions of the critical and high rules are, together, the size limit, parse errors, no host import, a suspicious import, an unbounded memory, a start section, suspicious data |
| `WasmScan.FindingsGrave` | server/services/wasm-scanner.js:924-1170 | the rules find something critical or high exactly then |
| `WasmScan.BuildReport` | server/services/wasm-scanner.js:1332-1391 | the findings sorted by severity, the counts of each, the status and the block derived from them; the counts add up to the findings |
| `WasmScan.SortedIsStable` | server/services/wasm-scanner.js:1342-1346 | sorting orders by severity, keeps every finding, and keeps the order within a severity |
| `WasmScan.CountsAddUp` | server/services/wasm-scanner.js:1349-1361 | every finding is counted under exactly one severity |
| `WasmScan.ScanWasm` | server/services/wasm-scanner.js:1204-1310 | for every buffer: deployment is blocked exactly if the header is wrong, the size over the limit, or the parsed sections risky; the error status means the header; the findings are those of the rules, or the one of the header, sorted |
| `WasmVerdict.EncodedModuleVerdict` | server/services/wasm-scanner.js:655-1391 | of all modules that fit the format, however each number is written, those blocked are exactly the ones too large, without a host import, with a suspicious import, a large memory without maximum, a start function or suspicious data |
| `Lock.StepKeepsInv` | server/services/lock-service.js:14-124 | every step of the store, the clients and the network keeps claims backed by the store and holds in order |
| `Lock.MutualExclusion` | server/services/lock-service.js:47-124 | in every interleaving of acquisitions, retries, lost and late messages, releases and expiries, no two clients hold unexpired claims on one resource |
| `Lock.HoldsNeverOverlap` | server/services/lock-service.js:14-124 | the stretches in which the store grants a resource, from SET to release or expiry, never overlap |
| `Lock.ClaimLasts` | server/services/lock-service.js:90-124 | nothing but its own release ends a claim before its time |
| `Lock.StaleReleaseIsHarmless` | server/services/lock-service.js:12-20 | a release with a value that no longer owns the resource removes no entry and shortens no hold of the owner |
| `Lock.GrantedExactly` | server/services/lock-service.js:51-64 | an attempt gets the lock exactly if it is delivered, its ttl is not zero and no entry lives under the key; its claim is then the new entry |
| `Lock.ReleaseFrees` | server/services/lock-service.js:12-20 | a release that reaches the store, by a client whose claim lasts, frees the resource and leaves all others |
| `Lock.NextGetsIt` | server/services/lock-service.js:12-124 | whatever happens after such a release, the first delivered attempt on the key, with a ttl that is not zero, gets the lock |
| `Lock.World.Set` | server/services/lock-service.js:53-58 | SET NX PX: OK exactly for a ttl that is not zero and a key without a living entry, which then has the new one; otherwise no entry changes |
| `Lock.World.Eval` | server/services/lock-service.js:14-20 | the release script answers 1 exactly if the key has a living entry of the value, and then that entry is gone; no other entry changes |
| `Lock.World.TryOnce` | server/services/lock-service.js:51-84 | one turn of the retry loop is the others' steps and one attempt, with the loop's next state by its outcome |
| `Lock.World.AcquireLock` | server/services/lock-service.js:47-88 | for every fate of the requests and behaviour of the others: at most retries + 1 attempts, the value exactly when the client ends holding the lock, an exception exactly if the last attempt failed |
| `Lock.World.ReleaseLock` | server/services/lock-service.js:96-124 | for any client and value: true exactly when the store held the value and the answer arrived; then the resource is free, and every other entry is as before; it is the release step of the client that holds the value, a stale release otherwise; an empty value does nothing |
| `Lock.AcquisitionIsARun` | server/services/lock-service.js:47-88 | an acquisition is a stretch of a run, so the theorems about runs cover it |
| `Lock.FailedAcquisitionLeaves` | server/services/lock-service.js:47-88 | an acquisition that does not get the lock leaves the resource locked under its own value exactly if some attempt was granted with its reply lost and that grant has not run out |
| `Lock.AttemptsOwn` | server/services/lock-service.js:47-88 | the same after any number of its attempts, with the time that entry lives until |
| `Lock.OwnEntryRefuses` | server/services/lock-service.js:47-88 | it happens: after one lost reply the next attempt is refused by the entry of the first |
| `BridgeCommand.PicksTheFirst` | server/services/bridge-relayer.js:73-81 | picking gives the first candidate that says anything, and nothing only if none does |
| `BridgeCommand.TextIsTrimmed` | server/services/bridge-relayer.js:45-68 | a text is normalized to its middle in lower case: nothing but white space is left off, and none is left at the ends |
| `BridgeCommand.FamilyExactly` | server/services/bridge-relayer.js:86-96 | an action belongs to a family exactly if its normalized text is listed there; no text is listed twice |
| `BridgeCommand.FamiliesAre` | server/services/bridge-relayer.js:15-27 | which actions each family lists |
| `BridgeCommand.BuiltExactly` | server/services/bridge-relayer.js:125-252 | a command is built exactly for a named chain and an event whose first action that says anything is a listed one and that says an amount or a recipient |
| `BridgeCommand.GoesAcross` | server/services/bridge-relayer.js:133-156 | soroban to evm, anything else to soroban, under an action listed in its family and with an amount or a recipient |
| `BridgeCommand.CarriesWhatIsSaid` | server/services/bridge-relayer.js:158-252 | amount, recipient, sender, symbol, contract, transaction hash and event id are each what the first of their own fields says that says anything, and empty if none does |
| `BridgeCommand.ActsByFamily` | server/services/bridge-relayer.js:138-156 | the action is what the first of action, type and textual event says; the target action is mint for lock and mint, release for release and burn, transfer for transfer |
| `BridgeCommand.BridgeIdIs` | server/services/bridge-relayer.js:101-113 | the bridge id is the first 64 characters of the Base64 text of source, family, symbol, amount, recipient and the event's own id or the time, with the fallbacks of each |
| `BridgeCommand.Base64Injective` | server/services/bridge-relayer.js:111-112 | the Base64 encoding loses nothing |
| `BridgeCommand.BridgeIdsAgree` | server/services/bridge-relayer.js:111-112 | cut to 64 characters, two ids agree exactly when the texts agree in their first 48 bytes |
| `BridgeCommand.SameIdExactly` | server/services/bridge-relayer.js:101-113 | commands alike in source, family, symbol, amount and recipient have one bridge id exactly if what those leave of the 48 bytes is the same in the events' ids |
| `BridgeCommand.AddressHidesEvent` | server/services/bridge-relayer.js:101-113 | with a recipient of 36 characters or more, so any address, the bridge id does not depend on the event |
| `Relayer.StepKeepsInv` | server/services/bridge-relayer.js:496-560 | every step keeps one drain loop at most, the balance of the counters and the order of the commands |
| `Relayer.EveryRun` | server/services/bridge-relayer.js:496-560 | over any interleaving, commands handed over followed by those queued are the accepted ones in push order, none lost, repeated or overtaken |
| `Relayer.RelayerConserves` | server/services/bridge-relayer.js:496-560 | observed = skipped + rejected by the builder + relayed + failed + undispatched + in flight + queued; the counters and last error match the executor's answers; at most one drain loop exists |
| `Relayer.StrandedExactly` | server/services/bridge-relayer.js:555-559 | commands wait without a loop exactly when the flag is cleared over an ended loop with commands queued, until the next flush |
| `Relayer.EndedOverQueueExactly` | server/services/bridge-relayer.js:525-559 | a loop has ended with commands queued exactly after a late push, or after the executor rejected with undefined or null while commands were queued |
| `Relayer.NeverStranded` | server/services/bridge-relayer.js:496-560 | in every run without a push over an ended loop and without a rejection with undefined or null over queued commands, no prefix leaves commands without a loop |
| `Relayer.LeavingBehindStrands` | server/services/bridge-relayer.js:520-560 | after each such event, clearing the flag leaves commands waiting without a loop |
| `Relayer.LatePushIsStranded` | server/services/bridge-relayer.js:555-559 | it happens |
| `Relayer.BareRejectionStrands` | server/services/bridge-relayer.js:543-559 | the second happens too: counted as failed, its message unrecorded, the rest left waiting |
| `Relayer.AnswersEmptyTheQueue` | server/services/bridge-relayer.js:525-553 | as many answers as there are commands empty the queue, whatever they say, a rejection without an error object aside |
| `Relayer.BridgeRelayer.constructor` | server/services/bridge-relayer.js:290-316 | a relayer starts with an empty queue and zero counters |
| `Relayer.BridgeRelayer.IngestEvent` | server/services/bridge-relayer.js:496-515 | is the ingest step of the command built of the event: counted, skipped, thrown out of the builder, or queued and flushed |
| `Relayer.BridgeRelayer.FlushQueue` | server/services/bridge-relayer.js:520-560 | is the flush step: nothing while a loop runs, else a new loop |
| `Relayer.BridgeRelayer.DrainTurn` | server/services/bridge-relayer.js:525-530 | hands over the next command, or ends the loop |
| `Relayer.BridgeRelayer.Resume` | server/services/bridge-relayer.js:530-552 | counts the executor's answer and goes on |
| `Relayer.BridgeRelayer.ClearProcessing` | server/services/bridge-relayer.js:555-559 | clears the flag after the loop has ended |
| `Sep10.CheckSignatures` | server/services/sep10-challenge-service.js:292-324 | the loop that stops early accepts exactly when some signature is the server's and some is the client's |
| `Sep10.OneTimeUse` | server/services/sep10-challenge-service.js:227-342 | over every run with fresh tokens, a token is accepted at most once, for the key it was issued to, never after its expiry, and only with a transaction inside its time bounds that names the domain and that both the server and this key have signed |
| `Sep10.AcceptedExactly` | server/services/sep10-challenge-service.js:231-341 | a verification succeeds exactly for a stored, unused, unexpired token and a transaction that parses, is inside its time bounds, has two operations at least, the first naming the domain, and carries a signature of the server and one of the token's key; the token is then marked, and otherwise the store stays, but for an expired token |
| `Sep10.TokenBindsKeyOnly` | server/services/sep10-challenge-service.js:231-341 | the verdict depends on the token through key, mark and expiry only, not through the transaction issued with it |
| `Sep10.AcceptedAgain` | server/services/sep10-challenge-service.js:231-341 | a transaction accepted once is accepted under another token of the key exactly while that token is unused and unexpired and its own time bounds last |
| `Sep10.AcceptedUnderNextToken` | server/services/sep10-challenge-service.js:142-341 | from the empty store: one signed transaction answers two challenges of a key |
| `Sep10.StoreInvHolds` | server/services/sep10-challenge-service.js:142-342 | every stored challenge was issued with its key and expiry, and is marked once it was accepted |
| `Sep10.StepsAgree` | server/services/sep10-challenge-service.js:66-81 | a swept store and an unswept one answer alike |
| `Sep10.SweepsAreInvisible` | server/services/sep10-challenge-service.js:66-81 | with a clock that does not run back, sweeps at any moments change no verification result and no active count |
| `Sep10.ChallengeStore.GenerateChallenge` | server/services/sep10-challenge-service.js:142-205 | stores the challenge with its five-minute expiry in whole seconds, or refuses a malformed key |
| `Sep10.ChallengeStore.VerifyChallenge` | server/services/sep10-challenge-service.js:227-342 | the checks in their order, with the second reading of the clock for the time bounds; valid exactly under those conditions; the expired entry dropped, the accepted one marked |
| `Sep10.ChallengeStore.SweepExpired` | server/services/sep10-challenge-service.js:66-81 | drops exactly the expired entries, in any order of visiting |
| `Sep10.ChallengeStore.GetActiveChallengeCount` | server/services/sep10-challenge-service.js:349-356 | counts the tokens neither used nor expired |
| `Voting.EveryRun` | server/services/voting-service.js:338-448 | in every interleaving of checks and transactions the invariant holds and no stored vote is taken back |
| `Voting.EveryPoll` | server/models/Vote.js:27 | one vote a voter and proposal whatever the spelling of the address, every vote for an existing choice, and voteCount, totalVotingPower and each choice's tally equal to the sums over the stored votes |
| `Voting.SumsAre` | server/services/voting-service.js:418-431 | the sums that the counters equal: each vote adds one and its power to its proposal and to its choice |
| `Voting.EveryVoteWasChecked` | server/services/voting-service.js:338-448 | in every run each stored vote comes from a ballot that passed all checks in the state it came in: poll open, voter new, choice there, power enough |
| `Voting.OneVoterExactly` | server/services/voting-service.js:344 | two spellings are one voter exactly if they differ at most in the case of letters |
| `Voting.PassesExactly` | server/services/voting-service.js:344-396 | which ballots pass the checks, in terms of the proposal and the stored votes |
| `Voting.RefusedExactly` | server/services/voting-service.js:346-396 | each refusal names the first condition that does not hold |
| `Voting.VoteIsCounted` | server/services/voting-service.js:418-431 | the increments add a vote to its own proposal and choice and to nothing else |
| `Voting.CommitKeeps` | server/services/voting-service.js:404-434 | the transaction keeps uniqueness and agreement |
| `Voting.LateVote` | server/services/voting-service.js:350-434 | it happens: a ballot in flight is stored after its poll closes |
| `Voting.LeavesWindowExactly` | server/services/voting-service.js:350-434 | ballots in flight stay those of open polls, or of voters who have voted, in every step but one: closing a poll over the ballot of a voter who has not |
| `Voting.LateExactly` | server/services/voting-service.js:397-434 | a vote can be stored late in the next step exactly when some ballot in flight is neither |
| `Voting.VotesStayInWindow` | server/services/voting-service.js:338-448 | in every run that never closes a poll so, every vote is stored while its poll is open |
| `Voting.BallotEnds` | server/services/voting-service.js:399-437 | a ballot in flight ends with its transaction: its vote is stored exactly if that commits and the voter is still new to the proposal |
| `Voting.ClosingLetsOneLate` | server/services/voting-service.js:338-448 | wherever a run does, one more event stores a vote late |
| `Voting.ChoicesAddUp` | server/services/voting-service.js:485-486 | the sums of distinct choices that miss no vote make up the proposal's sum |
| `Voting.HeadLeads` | server/services/voting-service.js:506-511 | the head of the sorted results beats the second exactly when it beats all others, and only a choice that beats all others gets there |
| `Voting.VotingService.CheckBallot` | server/services/voting-service.js:344-396 | a ballot passes exactly if its proposal is there and open, no stored vote of that proposal has its address, its choice is one of the proposal's, and it has power or needs none; the vote carries its own proposal, choice and power |
| `Voting.VotingService.CommitBallot` | server/services/voting-service.js:399-437 | stores the vote exactly if its address has none on the proposal, and increments the counters; else nothing changes |
| `Voting.VotingService.CastVote` | server/services/voting-service.js:338-448 | undisturbed, a call stores its vote exactly under the conditions of a ballot, and otherwise changes nothing; the invariant stays |
| `Voting.VotingService.GetResults` | server/services/voting-service.js:473-520 | per choice the sum of its votes, which is the stored tally; the totals of the proposal; a winner exactly when the total is positive and one choice has strictly the greatest power |
| `Voting.VotingService.TallyMap` | server/services/voting-service.js:480-483 | the lookup holds each aggregated choice |
| `RateLimit.RateBound` | server/middleware/api-key-auth.js:57-78 | in any interval as long as the shortest window, wherever it starts, a key is allowed at most 2 * max - 1 requests, max being its largest limit; limits may change from request to request |
| `RateLimit.RoomBounds` | server/middleware/api-key-auth.js:57-78 | what is still allowed in such an interval, from any state |
| `RateLimit.BoundIsReached` | server/middleware/api-key-auth.js:57-78 | for every window over one millisecond and every limit a run reaches that bound |
| `RateLimit.OneMillisecond` | server/middleware/api-key-auth.js:57-78 | with a window of one millisecond a key is allowed at most max requests in it, from any state |
| `RateLimit.SlidesExactly` | server/middleware/api-key-auth.js:57-78 | the limit holds in every interval of the window's length and every run exactly if the window is one millisecond or max is one |
| `RateLimit.FirstMaxOfWindow` | server/middleware/api-key-auth.js:62-75 | of the requests counted in one window exactly the first max are allowed |
| `RateLimit.WindowsApart` | server/middleware/api-key-auth.js:62-65 | windows of a key open at least the length of the shortest apart |
| `RateLimit.RateLimiter.ConsumeRateLimit` | server/middleware/api-key-auth.js:57-78 | counts the request in its bucket, a new one if the window is over, under the key's current limit; other keys keep theirs |
| `Indexer.PageFollows` | server/historical-indexer-worker.js:36-52 | the page asked for with the cursor is the stretch of the log right after the events processed, at most a batch, empty exactly at the end of what the server holds or if it answers none |
| `Indexer.InsertFromKeeps` | server/historical-indexer-worker.js:66-69 | an unordered insert, run or interrupted, with failures anywhere, adds exactly the tokens of the storable documents it reached, each once, and drops nothing |
| `Indexer.GoesOnExactly` | server/historical-indexer-worker.js:66-69 | the worker goes on after an insert exactly if it ran and every storable document that failed has a duplicate before it in the page |
| `Indexer.CompleteExactly` | server/historical-indexer-worker.js:34-87 | after a turn every storable event up to the cursor is stored exactly if that was so before and the turn did not go on, by such a duplicate, past a failed event that was not stored |
| `Indexer.DuplicateHidesFailure` | server/historical-indexer-worker.js:66-72 | it happens: a run finishes with two events counted of which one is stored |
| `Indexer.StepKeepsInv` | server/historical-indexer-worker.js:34-87 | every turn keeps the cursor right after the events counted, moves it by at most a batch, stores no event twice, drops none and adds only storable events of the log |
| `Indexer.EveryRun` | server/historical-indexer-worker.js:34-87 | with fetches and inserts failing anywhere, even partly applied: no duplicates, nothing dropped, the count that of the events up to the cursor; all storable ones of these are stored exactly if they were at the start and no turn loses one; the turn that ends a run saw an empty page, past what the server held or because it answered none; the clean turns before that do not outnumber the events |
| `Indexer.RebuildIsComplete` | server/historical-indexer-worker.js:31-89 | from a server that holds the whole log and answers no empty page before its end: a finished run has counted every event, and has stored exactly those the schema accepts, besides what was there before, if and only if no turn lost one |
| `Indexer.SorobanEvents.InsertMany` | server/historical-indexer-worker.js:66-69 | an unordered insert under the unique index; the error it throws has the code of its first write error |
| `Indexer.RunHistoricalIndexer` | server/historical-indexer-worker.js:31-87 | the loop does these turns |
| `Csv.FieldReads` | server/routes/audit-routes.js:15-21 | an escaped value reads back as one field, up to its comma or line break |
| `Csv.StaysPlainExactly` | server/routes/audit-routes.js:15-21 | a text is exported as it is exactly if it has no comma, quote or line break |
| `Csv.RowReads` | server/routes/audit-routes.js:23-33 | a row of any number of values reads back as one record |
| `Csv.RowsReadBack` | server/routes/audit-routes.js:15-33 | any rows, whatever commas, quotes and line breaks they hold, read back as the same records, null as the empty string |
| `Csv.ExportReadsBack` | server/routes/audit-routes.js:11-33 | the export with its header line reads back as the header and the rows |
| `Xlm.FormatReadsBack` | server/services/transaction-simulation-service.js:25-37 | for every integer, the printed text read as a decimal times 10^7 is the integer, and the text is canonical: no trailing fractional zeros, no leading ones, no "-0" |
| `Xlm.CanonicalPrintsBack` | server/services/transaction-simulation-service.js:25-37 | every canonical text is what its amount prints as |
| `Xlm.FractionReads` | server/services/transaction-simulation-service.js:30-31 | padding to seven digits and stripping zeros keeps the fraction, and leaves nothing exactly for zero |
| `Fees.ShareOfSum` | server/services/platform-fee-service.js:30-31 | splitting an amount lowers the unclamped fee by at most one unit and never raises it |
| `Fees.ShareMonotone` | server/services/platform-fee-service.js:30-31 | the unclamped fee is monotone, negative totals included |
| `Fees.ShareIs` | server/services/platform-fee-service.js:30-31 | the unclamped fee is the whole part of so many basis points of the total, toward zero |
| `Fees.ClampedExactly` | server/services/platform-fee-service.js:34-58 | the fee is the minimum when the share is less; it is under the minimum exactly if a smaller maximum cuts the share off, over a maximum exactly if a larger minimum has raised it, and the share whenever that is within the limits |
| `Fees.ClampMonotone` | server/services/platform-fee-service.js:41-51 | the clamp is monotone exactly when the configured minimum is not over the maximum in force |
| `Fees.FeeMonotone` | server/services/platform-fee-service.js:22-59 | so then is the whole fee, negative totals included |
| `Fees.FeesMonotoneExactly` | server/services/platform-fee-service.js:22-59 | on amounts, fees never fall exactly if the minimum is not over the maximum in force, or the rate is zero, or the minimum is not positive |
| `Fees.FeeFalls` | server/services/platform-fee-service.js:22-59 | in all other cases the fee of nothing is the minimum and that of 10000 times the minimum the smaller maximum |
| `Fees.AvailableExactly` | server/services/platform-fee-service.js:109-117 | what a withdrawal can take is exactly the collected fees of the token, ordered by time |
| `Fees.PlatformFeeService.WithdrawFees` | server/services/platform-fee-service.js:109-136 | all collected fees of the token oldest first, or the shortest stretch from the oldest that covers the amount; it throws exactly if no stretch does |
| `Fees.OvershootIsSmall` | server/services/platform-fee-service.js:121-125 | what is taken too much is less than the last fee taken |
| `Fees.CoveredExactly` | server/services/platform-fee-service.js:127-129 | with no negative fees an amount is covered exactly when the collected sum reaches it |
| `Fees.WithdrawalConserves` | server/services/platform-fee-service.js:109-148 | marking a selection moves exactly its sum from collected to withdrawn and touches no other token or status |
| `Fees.InterleavedWithdrawals` | server/services/platform-fee-service.js:109-148 | two withdrawals that both select before either marks: marking moves the larger selection only, so what is handed out exceeds it by the sum of the smaller |
| `Fees.WithdrawalsInTurn` | server/services/platform-fee-service.js:109-148 | when the second selects after the first has marked, what is handed out is what is marked |
| `Fees.MarkMoves` | server/services/platform-fee-service.js:138-148 | marking any ids, of any tokens and statuses, moves exactly the money of those collected or pending to withdrawn, and marking a withdrawn fee again moves nothing |
| `Fees.PlatformFeeService.MarkFeesAsWithdrawn` | server/services/platform-fee-service.js:138-148 | exactly the fees with those ids become withdrawn, with the transaction hash, time and administrator |
| `Fees.PlatformFeeService.GetCollectedFees` | server/services/platform-fee-service.js:89-107 | exactly the matching fees, newest first, with their sum |
| `Failover.RetryWithBackoff` | server/utils/retry.js:18-46 | stops at the first success, which it returns, or at the first rejection with undefined or null, which ends in a TypeError; else throws the last error after all maxRetries + 1 attempts; k + 1 attempts wait base * (2^k - 1), nothing after the last |
| `Failover.SettlesExactly` | server/utils/retry.js:18-46 | the first attempt that does not fail with an error decides; if all fail so, the last error is thrown |
| `Failover.DelaysDouble` | server/utils/retry.js:36-42 | the doubling delays add up to that |
| `Failover.WaitsInFull` | server/services/stellar-service.js:46-63 | endpoints that reject every attempt with an error cost the full backoff of 15 seconds each |
| `Failover.RoundIsOnce` | server/services/stellar-service.js:31-37 | in one round no endpoint comes twice, and a full round comes by all |
| `Failover.FailoverRpcServer.Next` | server/services/stellar-service.js:31-37 | steps to the next endpoint, around |
| `Failover.FailoverRpcServer.Execute` | server/services/stellar-service.js:46-63 | visits endpoints in cyclic order from the current one, each at most once, and waits what their attempts make it wait; returns exactly if one of them answers, the first, and stays there; else throws what the last endpoint threw, back at the start |

## Left out

* Entropy, and finding SM-013 with it, uses a real number that is a parameter; floating point is not modelled, nor are vote percentages or the conversion of a fee percentage to basis points.
* Finding texts, locations beyond an item index, the file hash and the scan's duration.
* WASM names stay bytes: the decoding of UTF-8, and what it does to invalid sequences, is not part of this model.
* SHA-256, Ed25519 and the Stellar SDK's parsing are parameters; random tokens and lock values are taken to be fresh.
* A bridge command's timestamp, metadata of the context and original event, values whose conversion to text throws, errors whose message is not a text, and texts with unpaired surrogates are not part of this model; nor are the relayer's chain monitors, the admin reset of its counters and executors that re-enter it.
* Redis, MongoDB, RPC servers and timers are state or parameters; a write conflict between transactions is one of them failing. Retry delays in the lock are the ticks of others.
* `Vote.hasVoted`, `Vote.getTallies`, `Proposal.syncStatus` and the voting fields of the two schemas are not in the models the repository shows; they are taken from the service's comments and calls, the unique index from the schema.
* Changes of case are for ASCII letters only.
* `toBigInt` on numbers and strings; `formatXlm` is modelled on big integers.
* Explicit fee percentages and the lookup of the active configuration; a lookup that throws counts as no configuration. Fee statistics.
* Concurrent calls sharing one failover index.
* Voting on-chain, multisig, vault, DAO and streaming services, the ledger event indexer, HTTP routes, email, webhooks, sockets, backups, translations and the web clients.
- WasmEncoder.ModuleRoundTrip: covers constant expressions of at most 63 instructions with immediates of at most five bytes and without `v128.const`, because the reader does not step over the others; `WasmEncoder.ExprLimit`, `WasmEncoder.ImmediateLimit` and `WasmEncoder.VectorConst` say what it does.
- Fees.CoveredExactly: is for fees that are not negative, as charged ones are; `Fees.PlatformFeeService.WithdrawFees` makes no such assumption.
- Merkle.Soundness: asks for texts that are not 64 bytes long and for buffers and proof elements of a hash's length, because it is false otherwise; `Merkle.AcceptedMeans` and `Merkle.AcceptedExactly` cover all lengths.
- RateLimit.RateBound: holds for a clock that does not run back; the code reads the system clock.
- RateLimit.FirstMaxOfWindow: holds for one limit throughout, since the limit in force when a request comes decides on it.
- Voting.VotingService.GetResults: leaves out the percentages, which are floating point.
- WasmReader.BufferReader.ReadString: keeps the bytes of a name and leaves out their decoding.
- Indexer.RebuildIsComplete: asks for a server that holds the whole log and answers no empty page while events remain, since the worker takes any empty page for the end; `Indexer.EveryRun` does without.
- Lock.FailedAcquisitionLeaves: asks that none of the value's own requests that were given up as lost arrives later, during the acquisition; a late SET can leave the same entry, and `Lock.MutualExclusion` covers it.
- WasmRecovery.BreaksOffInBody: is about the last section, because a body that ends early before another section is read on into that one's bytes; `WasmSections.ParseWasmSections` covers those too.
