# handshake-node: proofs about the core of a Handshake full node

This project models the parts of handshake-node whose correctness is least
visible from the code, and proves what they promise:

* **Block index** (`SkipHeight`, `BlockNode`, `CompactTarget`, `ChainView`, `BlockIndex`,
  `AcceptRules`, `Accept`): the tree of headers with its skip links, the exact cost of
  walking it, compact targets, the inactive tips, which headers and blocks are accepted,
  and the choice of the header chain with the most work.
* **Address manager** (`AddrBook`, `AddrManager`, `AddrHistory`): known addresses shared
  between an index, 1024 new buckets and 64 tried buckets, with reference counts and
  counters that have to agree after every call, and what an address records after any
  of them.
* **Airdrop proofs** (`Wire`, `AirdropProof`, `AirdropKey`, `AirdropReader`, `GbtAirdrop`,
  `GbtFormat`, `AirdropMerkle`, `AirdropSpent`): the codecs of proofs and of the keys in
  them, the two parsers, the two-level Merkle path, and the bit field of spent positions
  over reorganisations.
* **Websocket notifications** (`NotificationQueue`, `ClientQueue`, `WatchIndex`,
  `NotificationManager`, `WatchHistory`, `Transaction`): the queues between goroutines,
  the two-way index of watch requests, and who waits for what after any messages.
* **Rescan** (`RescanBlock`, `RescanWorld`, `RescanRuns`, `RescanEnds`, `BestChain`,
  `Rescan`): scanning a chain that is reorganised and pruned meanwhile, when that ends and
  how, what a client has been told when it is registered, and what the code that changes
  the chain lets a reader rely on.
* **Memory pool relations** (`MempoolRelations`), **inbound admission**
  (`InboundAdmission`) and the **proof request limit** (`ProofRate`).

Objects that the node updates in place are classes whose methods are proved against
functions on values: the address manager keeps a ghost `Book` beside what each address
records, header acceptance a `Ledger` of hashes, the notification manager its sets of
requests, the airdrop state the blocks now connected.  Code that several goroutines
share (client queue, inbound admission) is a state machine over their atomic steps, and
its theorems quantify over all interleavings.  A rescan is a state machine over its
requests to the chain: the best chain, the blocks whose data is stored and the presence
of the client are functions of the moment, so a statement about every such world is one
about every interleaving with reorganisations and pruning.

What lies outside is a parameter: hash functions (any function with 32-byte output
that tells apart the finitely many strings a tree and a proof hash; block hashes stand
for their headers), signatures, script and header checks, bucket hashing,
routability, the verdict that an address is bad, random numbers, clocks, the network
and the database.

## Findings

Where the code and its comments differ the model follows the code:

* 330 iterations is exact for height 1<<29 but not for lower heights, where 356 can be
  needed (`SkipHeight.BelowPow29`); it bounds all walks from heights of k bits exactly
  for k up to 28 (`SkipHeight.BoundedBy330`).
* A new bucket of the address manager can hold 65 addresses; 64 is documented as the
  maximum (`AddrManagers.BucketExceedsDocumentedSize`).  A call leaves a bucket above 64
  exactly if it files an address in one that held 64, or 65 none of which is bad, or does
  not touch one that was above it (`AddrManagers.OverSizeAfterUpdate`); a promotion never
  lifts one above it (`AddrManagers.OverSizeAfterGood`).
* The proof request window is described as avoiding two full bursts.  After limit - 1
  requests in one second as many again at one moment of the next pass exactly if the
  rest of that second, times limit - 1, is less than a second (`ProofRate.SecondBurst`);
  twice the limit less two, the most that one second can hold, is reached exactly if
  2 * (limit - 1) nanoseconds are less than a second (`ProofRate.ReachedExactly`).  Even
  that bound holds exactly as long as the clock does not step back before the window
  (`ProofRate.NeverBackExactly`).
* The closed form of a rescan's unspent outputs holds exactly if spends follow the
  payments they spend (`RescanBlocks.UnspentLaw`).
* A Merkle root of all zeros would be derived by everything
  (`AirdropMerkle.ZeroRootProvesAnything`).
* The part of a rescan that is meant for reorganisations runs exactly for blocks of the
  best chain whose data is gone, that is pruned ones (`RescanEnds.RecoveryRuns`).  A block
  that was reorganised away ends the rescan with a database error
  (`RescanEnds.ReorganisedBlockEnds`), since looking it up fails differently.
* A pruned block cannot leave the best chain (`BestChains.SeenIsLasting`), so that part
  never helps: once a block has been scanned it ends with a database error two requests
  later (`RescanEnds.RecoveryFails`), and before that it repeats itself for ever, however
  the chain changes (`RescanEnds.RecoveryHangs`, `RescanEnds.EndlessExample`).
* A client registered for further notices has been told of the whole best chain from its
  first height on if and only if any block was scanned or there was none to scan
  (`RescanEnds.CaughtUpExactly`).  It misses blocks if the chain is too short when its
  range is asked for and longer when it is registered (`RescanEnds.MissedExample`), as
  between two steps of a reorganisation: the best block is compared with the last one
  scanned only if there is one.
* The end block of a rescan is documented as the final one to be scanned; it never is
  (`RescanEnds.StopsBefore`).
* No word at the end of a rescan is taken to mean that the client has gone; it is also
  what a client gets whose rescan scanned no block (`Rescans.SilentExactly`), for one that
  begins and ends with the same block (`Rescans.SameBlockSilent`).
* A reorganisation that has passed its check is said to be possible.  It then fails
  exactly if its fork point has been pruned, with one block of the old branch left
  (`BestChains.BestChain.ReorganizeChain`, `BestChains.PrunedForkPoint`).

## Model

| member | source | states |
|---|---|---|
| SkipHeight.AncestorHeightDecreases | blockchain/blockindex.go:199-210 | popping two one bits off a positive height gives a smaller height, so an ancestor link always goes back |
| SkipHeight.PowerCostIsSharp | blockchain/blockindex.go:204-249 | from height 2^k no target is more than PowerCost(k) loop iterations away, and height 1 is exactly that far |
| SkipHeight.From2Pow29 | blockchain/blockindex.go:204-210 | from height 1<<29 the maximum is exactly the 330 of the source's comment |
| SkipHeight.WorstCostIsSharp | blockchain/blockindex.go:225-249 | over all heights below 2^k and all targets WorstCost(k) is the exact worst number of iterations: never exceeded, and attained |
| SkipHeight.QuadraticBound | blockchain/blockindex.go:225-249 | every walk from a height below 2^k takes at most (3k^2 + 12k)/8 iterations |
| SkipHeight.BoundedBy330 | blockchain/blockindex.go:204-210 | 330 bounds all walks from heights of k bits exactly for k up to 28 |
| SkipHeight.BelowPow29 | blockchain/blockindex.go:204-249 | 330 does not bound the walks from lower heights: below 1<<29 the exact worst is 356, and below 2^31 it is 404 |
| BlockNodes.CalcWorkPositive | blockchain/internal/workmath/difficulty.go:133-145 | a positive target below 2^256 always carries work, so a child always has more work than its parent |
| CompactTargets.CompactIs | blockchain/internal/workmath/difficulty.go:53-80 | a compact form of exponent, mantissa and sign stands for the signed mantissa times 256 to the power of the exponent less three, rounded towards zero |
| CompactTargets.RoundsTowardsZero | blockchain/internal/workmath/difficulty.go:85-120 | the compact form of a number whose exponent has eight bits stands for the number rounded towards zero by less than a unit, of which the number holds at least 2^15 |
| CompactTargets.CompactRoundTrip | blockchain/internal/workmath/difficulty.go:53-120 | of all 32-bit values exactly the canonical ones are given back when what they stand for is packed again |
| CompactTargets.WorkIs | blockchain/internal/workmath/difficulty.go:133-145 | the work of a target is how often 2^256 holds the target plus one |
| CompactTargets.HarderIsMore | blockchain/internal/workmath/difficulty.go:122-145 | a smaller target is never less work |
| BlockNodes.BlockNode.constructor | blockchain/blockindex.go:124-154 | a new node's height, cumulative work and ancestor link are those of the chain of its parents |
| BlockNodes.BlockNode.Ancestor | blockchain/blockindex.go:225-249 | null exactly outside 0..height, otherwise the node that following parents one at a time reaches, in exactly Steps iterations |
| ChainViews.WriteBranch | blockchain/chainview.go:144-147 | walking back from the tip until a node is already in place leaves exactly the branch of the tip, whatever was there before |
| ChainViews.ChainView.SetTip | blockchain/chainview.go:116-161 | afterwards the view is exactly the branch of the new tip, or empty |
| ChainViews.ChainView.FindFork | blockchain/chainview.go:292-347 | the highest node of the chain that the view contains, null exactly if it contains none |
| ChainViews.BranchIsChained | blockchain/blockindex.go:124-145 | along a branch heights are consecutive and every header names the node before it |
| ChainViews.ChainView.HeightRange | blockchain/chain.go:1765-1806 | an error exactly for heights that make no range, otherwise exactly the hashes of the view from the one height up to the other or its end, which are those of a chain |
| BlockIndexes.BlockIndex.AddNode | blockchain/blockindex.go:442-455 | the node is filed under its hash and marked dirty, nothing else changes |
| BlockIndexes.BlockIndex.FileNode | blockchain/blockindex.go:449-455 | the node is filed under its hash and not marked dirty |
| BlockIndexes.BlockIndex.SetStatusFlags | blockchain/blockindex.go:472-477 | exactly the flags are added to the status and the node becomes dirty |
| BlockIndexes.BlockIndex.FlushToDB | blockchain/blockindex.go:530-583 | fails exactly when a dirty node with data has to be written and cannot be; on success the dirty set is emptied and, if there was data, exactly the dirty nodes that are not header-only have their rows written |
| BlockIndexes.BlockIndex.StoreNodes | blockchain/blockindex.go:558-573 | every dirty node but the header-only ones gets its row, in any map order, and no other row changes |
| BlockIndexes.BlockIndex.Orphans | blockchain/blockindex.go:500-508 | the first pass finds exactly the nodes off the branch and exactly their parents |
| BlockIndexes.Unclaimed | blockchain/blockindex.go:515-525 | the second pass returns, once each and in any map order, exactly the orphans that are no orphan's parent |
| BlockIndexes.BlockIndex.InactiveTips | blockchain/blockindex.go:493-526 | exactly the nodes off the best chain that no node of the whole index has as its parent, each once |
| BlockIndexes.UnderSomeTip | blockchain/blockindex.go:493-526 | every node off the best chain is one of those tips or an ancestor of one |
| AcceptanceRules.NextKeeps | blockchain/accept.go:25-236 | one call, over values: every indexed header keeps its predecessor indexed, the tip and what is dirty are indexed, nothing leaves the index |
| AcceptanceRules.AfterKeeps | blockchain/accept.go:25-236 | the same for every run |
| AcceptanceRules.MainMeansOnBranch | blockchain/accept.go:152-235 | an accepted header is indexed, and reported as on the best header chain exactly if it is an ancestor of the tip then, or the tip |
| AcceptanceRules.NextTip | blockchain/accept.go:196-235 | an accepted header has no more work than the tip, which moves only to a header with strictly more work |
| AcceptanceRules.TipIsFirstOfMost | blockchain/accept.go:123-236 | after any run the tip is the tip before it or else the first accepted header of the most work: none accepted has more, none accepted earlier has as much |
| AcceptanceRules.HeaderOutcome | blockchain/accept.go:123-190 | when a header is accepted and when it gets each error, both ways, in terms of what is indexed, the status bits 4 and 8 of its predecessor and of itself, its target and the verdicts |
| AcceptanceRules.BlockOutcome | blockchain/accept.go:25-104 | the same for a block, with the stored bit and a clean index after it |
| AcceptanceRules.StatusesAfter | blockchain/accept.go:25-190 | a new header has status 16, a stored block gains 1, no other status changes, and nothing is left unwritten after an accepted header unless it was known before |
| AcceptanceRules.AcceptedIsClear | blockchain/accept.go:31-163 | in every run, whatever is accepted had an indexed predecessor with neither bit 4 nor bit 8 set when it came, and a header that was indexed already had neither itself |
| AcceptanceRules.NothingOnInvalid | blockchain/accept.go:31-163 | once either bit is set on a hash, no header or block naming it as predecessor is accepted for the rest of any run, and nothing new is indexed on it |
| AcceptanceRules.AlwaysWritten | blockchain/blockindex.go:530-583 | in every run whatever has its block stored and does not wait to be written is in the database with its present status, and nothing is there of a mere header |
| Acceptance.BlockChain.constructor | blockchain/chainio.go:1299-1400 | a new chain has the first block indexed, stored as valid, written and clean, and as the tip |
| Acceptance.BlockChain.Insert | blockchain/accept.go:183-187 | a node for a header with a known predecessor keeps the index a tree of well-formed nodes and replaces nothing; the ledger gains exactly that hash with its status, dirty |
| Acceptance.BlockChain.GateIs | blockchain/accept.go:126-163 | what nodes, statuses and the view decide about a header is what its hash and the ledger decide |
| Acceptance.BlockChain.NodeFor | blockchain/accept.go:145-187 | the node already indexed is used, a new one is made only if there is none |
| Acceptance.BlockChain.SelectHeader | blockchain/accept.go:196-235 | the tip moves exactly when the header has more chain work than it, an extension of the tip included; the result says whether the node is on the best header chain |
| Acceptance.BlockChain.MoveTip | blockchain/accept.go:203-232 | the best header chain becomes the branch of the new tip and still starts at the only root |
| Acceptance.BlockChain.AcceptChecked | blockchain/accept.go:178-235 | a checked header is indexed, the index flushed and the tip chosen, exactly as the rules on values have it; a failed write leaves the best header chain alone |
| Acceptance.BlockChain.MaybeAcceptBlockHeader | blockchain/accept.go:123-236 | outcome, index, dirty set, rows and tip are those of the rules on values, of which AcceptanceRules.HeaderOutcome says when each outcome occurs; every error case and its cause, no indexed node is replaced, an accepted header is indexed, and the tip dominates all accepted headers |
| Acceptance.BlockChain.MaybeAcceptBlock | blockchain/accept.go:25-104 | outcome, index, dirty set and rows are those of the rules on values, of which AcceptanceRules.BlockOutcome says when each outcome occurs: every error case before a node exists, otherwise the existing node gains the data flag or a new one is made; no node is replaced and the best header chain is untouched |
| Acceptance.WorkGrows | blockchain/blockindex.go:124-145 | cumulative work never decreases along a chain |
| Acceptance.WorkIs | blockchain/blockindex.go:124-145 | the cumulative work of an indexed node is the sum over the headers its hash stands for |
| Acceptance.BranchIs | blockchain/chainview.go:225-240 | a node is on the branch of another exactly if its hash is among that one's predecessors |
| Acceptance.Step | blockchain/accept.go:25-236 | one call of any kind refines one step of the rules on values |
| Acceptance.Run | blockchain/accept.go:25-236 | over every interleaving of header and block acceptance and status changes: each outcome and the final index, rows and tip are those of the rules on values, no node is ever replaced, the tip moves only to strictly more work, and every header accepted without error has no more work than the tip |
| AddrBook.EitherTriedOrNew | addrmgr/addrmanager.go:178-298 | what the invariant means for one address: tried, in exactly one place of one tried bucket and without references, or not tried, in one to eight new buckets and counting them |
| AddrBook.LearnInv | addrmgr/addrmanager.go:224-237 | indexing an unknown address keeps the invariant but for its first bucket |
| AddrBook.PutInv | addrmgr/addrmanager.go:252-254 | putting it into a bucket restores or keeps the invariant |
| AddrBook.DropAllInv | addrmgr/addrmanager.go:262-298 | expiring any addresses of a bucket keeps the invariant |
| AddrBook.FileInv | addrmgr/addrmanager.go:239-254 | expiry and insertion together keep the invariant |
| AddrBook.PromoteInv | addrmgr/addrmanager.go:952-981 | moving an address to a tried bucket with room keeps the invariant |
| AddrBook.DisplaceInv | addrmgr/addrmanager.go:983-1012 | displacing a tried address back into a new bucket keeps the invariant |
| AddrManagers.AddrManager.constructor | addrmgr/addrmanager.go:722-734 | a new manager knows no address |
| AddrManagers.AddrManager.Remove | addrmgr/addrmanager.go:271-277 | one removal from a bucket, and from the index with the last reference |
| AddrManagers.AddrManager.Unlist | addrmgr/addrmanager.go:272-273 | out of the bucket with one reference less |
| AddrManagers.AddrManager.Forget | addrmgr/addrmanager.go:274-277 | an address in no bucket leaves the index and the count of new ones |
| AddrManagers.AddrManager.ExpireNew | addrmgr/addrmanager.go:262-298 | exactly all bad addresses of the bucket go and, if there are others, exactly one, than which none is older; in any map order |
| AddrManagers.AddrManager.MakeRoom | addrmgr/addrmanager.go:246-250 | expires exactly when the bucket holds more than 64, and then there is room |
| AddrManagers.AddrManager.File | addrmgr/addrmanager.go:239-254 | unless already there the address is added to the bucket, after exactly the expiry that is due |
| AddrManagers.AddrManager.Index | addrmgr/addrmanager.go:224-237 | the new entry records the time, services and source it was given and nothing else yet |
| AddrManagers.AddrManager.Refresh | addrmgr/addrmanager.go:187-208 | the later time and all services of an address heard of again; no other record changes |
| AddrManagers.AddrManager.UpdateKnown | addrmgr/addrmanager.go:187-224 | a known address keeps the later time and all services, and gains a bucket exactly when it may and the die says so; every other address left keeps what it records; the random number generator is never asked for one of zero values |
| AddrManagers.AddrManager.UpdateNew | addrmgr/addrmanager.go:224-258 | an unknown address is indexed with the time, services and source it was given, counted and filed; every other address left keeps what it records |
| AddrManagers.AddrManager.UpdateAddress | addrmgr/addrmanager.go:178-258 | the whole of it: book and records as functions of the old ones, and the invariant kept |
| AddrManagers.AddrManager.ClearBuckets | addrmgr/addrmanager.go:955-965 | the address leaves every new bucket, one reference each; the bucket remembered is the first |
| AddrManagers.AddrManager.ClearAll | addrmgr/addrmanager.go:952-965 | an address that some new bucket holds leaves them all, and the one remembered is the first |
| AddrManagers.AddrManager.UnfileAll | addrmgr/addrmanager.go:952-971 | an address that is not tried was in some bucket: the early return for none is unreachable; nothing else than the new buckets, the count and the one address changes |
| AddrManagers.AddrManager.LeaveNew | addrmgr/addrmanager.go:952-971 | leaving the new buckets touches neither the tried buckets nor any time |
| AddrManagers.AddrManager.Settle | addrmgr/addrmanager.go:973-1012 | the tried bucket with room or the full one, and the invariant again |
| AddrManagers.AddrManager.PickTried | addrmgr/addrmanager.go:303-315 | the first of the earliest addresses of the bucket |
| AddrManagers.AddrManager.PushTried | addrmgr/addrmanager.go:975-981 | appends to a tried bucket |
| AddrManagers.AddrManager.ReplaceTried | addrmgr/addrmanager.go:996-998 | takes the place of the displaced address |
| AddrManagers.AddrManager.BackToNew | addrmgr/addrmanager.go:1000-1012 | the displaced address is new again, in the chosen bucket, with one more reference |
| AddrManagers.AddrManager.SwapTried | addrmgr/addrmanager.go:996-1012 | one address takes the place of another, which becomes new again |
| AddrManagers.AddrManager.MoveToTried | addrmgr/addrmanager.go:952-1012 | with room the address is appended, otherwise it displaces the earliest one, which goes to its own new bucket or to the one just vacated |
| AddrManagers.AddrManager.MoveAndRecord | addrmgr/addrmanager.go:952-1012 | a promotion changes nothing that any address records |
| AddrManagers.AddrManager.Good | addrmgr/addrmanager.go:927-1013 | nothing happens to an unknown or already tried address but its times, any other one is moved to tried; only the one address's record changes; the invariant is kept |
| AddrManagers.AddrManager.Attempt | addrmgr/addrmanager.go:881-897 | counts an attempt of the one address, keeps the invariant |
| AddrManagers.AddrManager.Connected | addrmgr/addrmanager.go:902-922 | renews the time of the one address after twenty minutes, keeps the invariant |
| AddrManagers.AddrManager.SetServices | addrmgr/addrmanager.go:1016-1034 | replaces the services of the one address, keeps the invariant |
| AddrManagers.Run | addrmgr/addrmanager.go:178-1034 | every sequence of calls on a new manager goes from the empty state through states each of which follows from the one before by the call made, and in every one of them index, buckets, reference counts and both counters agree |
| AddrHistories.TracedRun | addrmgr/addrmanager.go:178-1034 | every run of a manager is a trace of the kind the histories below are about |
| AddrHistories.TimeLaw | addrmgr/addrmanager.go:178-206 | after any run an address has the latest of the times heard of it and renewed since it was indexed, and no connection reported meanwhile is more than twenty minutes later |
| AddrHistories.ServicesLaw | addrmgr/addrmanager.go:178-206 | it has exactly the services stated last and those heard since, or all that were heard |
| AddrHistories.AttemptsLaw | addrmgr/addrmanager.go:881-955 | its attempts are exactly those since its last success |
| AddrHistories.SuccessLaw | addrmgr/addrmanager.go:927-955 | its last success is the time of the last such call, and its source is who told of it first |
| AddrHistories.LastAttemptLaw | addrmgr/addrmanager.go:881-955 | its last attempt is the time of the last attempt or success |
| AddrHistories.OneInTwiceTheReferences | addrmgr/addrmanager.go:208-222 | an address with n references, fewer than eight, goes into a bucket it is not in for exactly one draw in 2n |
| AddrManagers.BucketExceedsDocumentedSize | addrmgr/addrmanager.go:127-129 | a new bucket can come to hold 65 addresses, one more than its documented maximum, since expiry starts only above 64 |
| AddrManagers.OverSizeAfterUpdate | addrmgr/addrmanager.go:246-254 | exactly when a bucket is above its documented maximum after a call: it was and is not touched, or an address was filed in it that it held 64 without, or 65 without one of them being bad |
| AddrManagers.OverSizeAfterGood | addrmgr/addrmanager.go:952-1012 | a promotion leaves exactly those buckets above the maximum that were and did not lose the promoted address, or got the displaced one for it; it lifts none above it |
| Wire.ReadWriteVarInt | wire/common.go:500-600 | a written variable-length integer reads back, whatever follows |
| Wire.WriteReadVarInt | wire/common.go:500-600 | only the shortest form is read: what was read writes back to the same bytes |
| Wire.ReadWriteVarBytes | blockchain/airdropproof.go:647-670 | written byte strings read back, whatever follows |
| Wire.WriteReadVarBytes | blockchain/airdropproof.go:647-670 | what was read writes back to the same bytes |
| AirdropProofs.ParseOfWrite | blockchain/airdropproof.go:233-326 | every proof within bounds parses back from its serialized form |
| AirdropProofs.WriteOfParse | blockchain/airdropproof.go:233-326 | every byte string that parses is the one serialized form of what it parses to, and the result is within bounds |
| AirdropProofs.SerializedIsSigned | blockchain/airdropproof.go:445-468 | the serialized form is the signed part followed by the signature |
| AirdropProofs.SignatureDataInjective | blockchain/airdropproof.go:445-468 | equal signed bytes mean equal values of every signed field |
| AirdropProofs.PositionOfSane | blockchain/airdropproof.go:328-389 | every sane proof has a position, and two of them have the same one exactly if they share index and kind |
| AirdropReaders.ParseAirdropProof | blockchain/airdropproof.go:233-326 | the cursor-moving parser computes exactly the parse defined on byte strings |
| AirdropReaders.ParseAirdropKey | blockchain/airdropproof.go:482-574 | the same for keys, whose format AirdropKeys.ParseKeyExactly states |
| AirdropKeys.ParseOfWriteKey | blockchain/airdropproof.go:482-574 | every key within bounds, of all five kinds, parses back from its serialized form |
| AirdropKeys.WriteOfParseKey | blockchain/airdropproof.go:482-574 | every byte string that parses is the serialized form of a key within bounds, up to the sponsor byte, of which only whether it is 1 is kept |
| AirdropKeys.ParseKeyExactly | blockchain/airdropproof.go:482-574 | a byte string parses to a key if and only if the key is within bounds and that is its form up to the sponsor byte |
| AirdropKeys.AddressLayout | blockchain/airdropproof.go:539-565 | where version, address, value and sponsor are in an address key |
| AirdropKeys.RsaLayout | blockchain/airdropproof.go:495-516 | where modulus, exponent and nonce are in an RSA key |
| AirdropKeys.WeakExactly | blockchain/airdropproof.go:576-582 | a key is weak if and only if it is an RSA key with a modulus below 2^2040 |
| AirdropKeys.ValueOfKey | blockchain/airdropproof.go:470-480 | a proof is worth what its address key states, and the reward with any other key |
| AirdropKeys.UnparsedAddress | blockchain/airdropproof.go:328-361 | a proof with an address key that does not parse is worth nothing, so that it is sane only without a fee |
| AirdropKeys.SaneExactly | blockchain/airdropproof.go:328-389 | when a proof that carries a key is sane, both ways and with every limit, and which position it then claims |
| AirdropKeys.MetadataOf | blockchain/airdropproof.go:107-139 | what is reported of a proof that carries a key, field by field, and that it is reported exactly if it is sane |
| AirdropReaders.ParseGbtAirdropProof | rpcserver.go:288-352 | the same for the block template parser, whose format GbtFormats.GbtExactly states |
| GbtAirdrops.SkipIsRead | rpcserver.go:303-315 | skipping a hash list ends where reading it ends |
| GbtAirdrops.WeakAgrees | rpcserver.go:368-379 | the template's test of a key's strength agrees with consensus on every key consensus parses |
| GbtAirdrops.GbtAgreesWithConsensus | rpcserver.go:288-379 | on every byte string consensus decodes, the template parser succeeds and reports the same position and weakness |
| GbtFormats.GbtExactly | rpcserver.go:288-379 | the template parser accepts a byte string if and only if it is the serialized form of a proof whose numbers fit their fields and whose leaf exists, with nothing after it, and reports its position, a quarter of its size rounded up, and whether its key is an RSA key with a modulus below 2^2040 |
| AirdropMerkle.DeriveMerkleRoot | blockchain/airdropproof.go:696-719 | the loop computes the root defined by recursion over the path |
| AirdropMerkle.DeriveIsClimb | blockchain/airdropproof.go:696-719 | the result is the climb along the path exactly when no left sibling is the padding hash and the path uses up the index, all zeros otherwise |
| AirdropMerkle.ClimbLeadsToLeaf | blockchain/airdropproof.go:696-733 | a path that ends in the hash of any tree starts at the leaf the index leads to, and consists of that leaf's siblings |
| AirdropMerkle.LeafPosition | blockchain/merkle.go:91-105 | in the tree built from n leaves the only ways to a leaf have the tree's depth and an index below n |
| AirdropMerkle.DeriveComplete | blockchain/airdropproof.go:696-733 | every leaf's own path derives the root |
| AirdropMerkle.DeriveSound | blockchain/airdropproof.go:696-733 | whatever derives a root that is not all zeros is a leaf at its own index with its own path |
| AirdropMerkle.ZeroRootProvesAnything | blockchain/airdropproof.go:703-717 | the condition on the root is needed: if it were all zeros every leaf would derive it |
| AirdropMerkle.CheckMerkle | blockchain/airdropproof.go:391-402 | one level for address keys, two for the others |
| AirdropMerkle.AirdropSound | blockchain/airdropproof.go:391-402 | an accepted airdrop proof names the group and the place in the group of its own key |
| AirdropMerkle.FaucetSound | blockchain/airdropproof.go:391-402 | an accepted faucet proof names the place of its own key |
| AirdropMerkle.AirdropComplete | blockchain/airdropproof.go:391-402 | the proof made of a key's own two paths is accepted |
| AirdropMerkle.FaucetComplete | blockchain/airdropproof.go:391-402 | the proof made of an address key's own path is accepted |
| AirdropMerkle.AppendLevel | blockchain/merkle.go:95-102 | one level of the stored tree, a missing right branch being the padding hash |
| AirdropMerkle.BuildStore | blockchain/merkle.go:75-108 | the last element of the stored tree is the root that proofs derive |
| AirdropSpent.BitSet | blockchain/airdropstate.go:58-69 | setting one bit of a byte sets that bit only |
| AirdropSpent.BitCleared | blockchain/airdropstate.go:58-69 | clearing one bit of a byte clears that bit only |
| AirdropSpent.MaskIsShift | blockchain/airdropstate.go:51-69 | the mask of a position is one shifted left by seven less its rest |
| AirdropSpent.RepresentationUnique | blockchain/airdropstate.go:51-69 | two fields that stand for the same set of positions are equal byte by byte |
| AirdropSpent.SpentField.IsSpent | blockchain/airdropstate.go:51-56 | whether the position is in the set, and true beyond the last leaf |
| AirdropSpent.SpentField.SetSpent | blockchain/airdropstate.go:58-69 | exactly the position is added or removed, nothing happens beyond the last leaf |
| AirdropSpent.InputExactly | blockchain/airdropstate.go:142-173 | an input claims a position if and only if its output has covenant type 0 and its one witness item is the serialized form of a sane proof of that position; it is passed over exactly beside a covenant and is an error in every other case |
| AirdropSpent.ReadInput | blockchain/airdropstate.go:150-171 | the checks of one coinbase input, in order, come out as AirdropSpent.InputExactly has it |
| AirdropSpent.AcceptableExactly | blockchain/airdropstate.go:71-173 | a block can be connected if and only if every input of its coinbase after the first has an output and, where that has covenant type 0, one witness item that is the serialized form of a sane proof, with all their positions distinct and unspent; what it spends is exactly those positions |
| AirdropSpent.SpentField.SpendBlock | blockchain/airdropstate.go:71-90 | succeeds exactly if the block is acceptable as AirdropSpent.AcceptableExactly has it, and then adds exactly the positions its inputs prove |
| AirdropSpent.SpentField.UnspendBlock | blockchain/airdropstate.go:92-108 | removes exactly the positions the block's inputs prove |
| AirdropSpent.AirdropState.Fetch | blockchain/airdropstate.go:23-43 | a missing field reads as all unspent; the copy is independent of what is stored |
| AirdropSpent.AirdropState.CheckAvailable | blockchain/airdropstate.go:110-118 | answers whether the block could be connected and stores nothing |
| AirdropSpent.AirdropState.Connect | blockchain/airdropstate.go:120-129 | succeeds if and only if the block is acceptable; all of its positions are spent then, otherwise the stored field is untouched |
| AirdropSpent.AirdropState.Disconnect | blockchain/airdropstate.go:131-140 | exactly undoes the connection of the most recent block |
| AirdropSpent.SameChainSameBytes | blockchain/airdropstate.go:23-140 | the stored bytes depend only on the blocks now connected, not on how the chain came about |
| AirdropSpent.NoPositionTwice | blockchain/airdropstate.go:71-90 | no position occurs twice in a chain of connected blocks |
| AirdropSpent.ClaimedExactly | blockchain/airdropstate.go:71-173 | a position is claimed by a chain of connected blocks if and only if an input after the first of one of their coinbases proves it |
| AirdropSpent.Run | blockchain/airdropstate.go:23-173 | after any sequence of connects and disconnects the field is exactly the set of positions that coinbase inputs of the connected blocks prove |
| NotificationQueues.QueueHandler | rpcwebsocket.go:169-211 | everything received is sent in order and once or is still held, and the number held is that of a queue that passes a value straight on only when empty |
| ClientQueues.StepKeeps | rpcwebsocket.go:1984-2129 | each step of the queue handler, the output handler and the senders keeps the invariant: at most one completion awaited, nothing lost before a disconnect |
| ClientQueues.RunHistory | rpcwebsocket.go:1984-2129 | what a run accepted is what was queued in it, and the replies written or on their way are those made in it |
| ClientQueues.InOrder | rpcwebsocket.go:1984-2129 | in every interleaving the client gets the notifications that were queued and the replies that were made, each in order and at most once; no reply is lost on its way, and until the client disconnects no notification is lost and no completion signal dropped |
| ClientQueues.WorkShrinks | rpcwebsocket.go:1984-2076 | the two handlers' own steps cannot go on for ever |
| ClientQueues.AllWritten | rpcwebsocket.go:1984-2076 | when neither handler can go on, everything queued and every reply has been written and nobody has to wait to hand over more: the queue never stalls |
| ClientQueues.AllDelivered | rpcwebsocket.go:1984-2129 | so in every run that leaves the handlers nothing to do, without a disconnect, exactly what was queued and replied has been written |
| WatchIndexes.InsertMirrors | rpcwebsocket.go:907-921 | adding a watcher adds exactly one pair to the index |
| WatchIndexes.DeleteMirrors | rpcwebsocket.go:957-972 | removing one removes exactly one pair and never leaves a key without watchers |
| NotificationManagers.NotificationManager.AddSpentRequests | rpcwebsocket.go:904-937 | the outpoints are watched in both directions; exactly the clients waiting for an input of a memory pool spend of one of them are told of it, once each, the client itself among them |
| NotificationManagers.ToldOfSpend | rpcwebsocket.go:922-937 | the notices about one outpoint are about its memory pool spend, and go to everyone waiting for it |
| NotificationManagers.NotificationManager.RemoveSpentRequest | rpcwebsocket.go:953-973 | exactly one request goes, from both directions |
| NotificationManagers.NotificationManager.NotifyForTxIns | rpcwebsocket.go:1220-1253 | exactly the clients waiting for one of the inputs are told, once each; a confirmed spend removes exactly the requests for the inputs, although the map is iterated while it shrinks |
| NotificationManagers.NotificationManager.NotifyForTxOuts | rpcwebsocket.go:1134-1177 | exactly the clients waiting for a paid address are told, once each, and the paid outputs become watched by them; everything else sent is about unconfirmed spends of those outputs, to clients waiting for them, and every new watcher is told |
| NotificationManagers.NotificationManager.NotifyForTx | rpcwebsocket.go:1205-1214 | both parts in order, each with exactly its notices; skipping a part when nobody waits changes nothing |
| NotificationManagers.NotificationManager.BlockConnected | rpcwebsocket.go:495-505 | requests and notices are those of its transactions one by one |
| NotificationManagers.NotificationManager.AddAddrRequests | rpcwebsocket.go:1267-1284 | the addresses are watched in both directions |
| NotificationManagers.NotificationManager.RemoveAddrRequest | rpcwebsocket.go:1298-1318 | exactly one request goes, from both directions |
| NotificationManagers.NotificationManager.RegisterClient | rpcwebsocket.go:556-558 | the client is in the set of clients, no request changes |
| NotificationManagers.NotificationManager.UnregisterClient | rpcwebsocket.go:560-574 | the client is no longer in the set of clients, no trace of it is left in either index, every other request stays |
| NotificationManagers.NotificationManager.WatchedIffRequested | rpcwebsocket.go:904-973 | what the coupling means for one client: it is found under an outpoint or address exactly if it has it among its requests, and no key is kept without a watcher |
| NotificationManagers.Run | rpcwebsocket.go:469-612 | over any messages, joining and leaving among them and with any memory pool at each, the two directions of both indexes agree throughout and hold what the messages mean, and each message sends what it should |
| NotificationManagers.GoneForGood | rpcwebsocket.go:560-574 | a client that has left and sends nothing more is never watched for again, whatever is received |
| WatchHistories.AddrLaw | rpcwebsocket.go:1267-1318 | a client waits for payments to an address exactly if it asked for them and has neither withdrawn that nor left since |
| WatchHistories.SpentLaw | rpcwebsocket.go:904-973 | it waits for a spend of an output exactly if it asked for it, or was paid by it at an address it waited for, and since then has neither withdrawn that nor left and no block has spent it; unconfirmed spends do not end the wait |
| WatchHistories.WatchedExactly | rpcwebsocket.go:469-612 | both after any messages, with the transactions of blocks one at a time |
| RescanBlocks.RescanKeys.ScanInputs | rpcwebsocket.go:2577-2642 | the spent outputs are no longer followed; one notice exactly if an input spends a followed output or is signed by a followed address |
| RescanBlocks.RescanKeys.ScanOutputs | rpcwebsocket.go:2644-2683 | the outputs paying a followed address are followed; one notice exactly if there is one |
| RescanBlocks.RescanKeys.ScanTx | rpcwebsocket.go:2574-2683 | inputs and then outputs of one transaction, up to the notice that can no longer be queued |
| RescanBlocks.RescanKeys.RescanBlock | rpcwebsocket.go:2545-2685 | outputs followed and notices sent are those of the transactions in order; if the client leaves, what was sent is a proper beginning of those notices, and the next one is the one that failed |
| RescanBlocks.LeftOver | rpcwebsocket.go:2574-2683 | an output is left over exactly if it was followed, at first or by a payment, and not spent since |
| RescanBlocks.UnspentLaw | rpcwebsocket.go:2545-2685 | what is left over is everything ever followed and never spent, if and only if every followed output that is spent is spent after its payment |
| RescanBlocks.WatchedExactly | rpcwebsocket.go:2574-2683 | when a transaction comes an output is followed exactly if it was given at first or paid by an earlier transaction to a followed address, and not spent in between |
| RescanBlocks.ToldExactly | rpcwebsocket.go:2545-2685 | a client is told, in order, of exactly the transactions that spend an output followed when they come or are signed by a followed address, and of those that pay one |
| RescanRuns.RunIsRun | rpcwebsocket.go:2865-3051 | every world has a run, so that the theorems about runs speak of something |
| RescanRuns.RunSound | rpcwebsocket.go:2865-3051 | however the best chain changes, the blocks scanned are one parent-linked chain of consecutive heights from the first, each the block its hash stands for, and never beyond the stop block |
| RescanRuns.Provenance | rpcwebsocket.go:2928-3041 | every block scanned was in a range the best chain answered at an earlier moment, was then fetched, and continued the blocks before it |
| RescanRuns.LastRequest | rpcwebsocket.go:2928-3051 | a scan that is over ended with one request, and what that request met is the cause of the result: each error, the end of the chain, or having caught up |
| RescanEnds.RecoveryRuns | rpcwebsocket.go:2948-2995 | a new range is asked for if and only if a block of the best chain has no data, in a scan without stop block |
| RescanEnds.ReorganisedBlockEnds | blockchain/chainio.go:1730-1747 | a block that has left the best chain always ends the scan with a database error |
| RescanEnds.NoPruningNoRecovery | rpcwebsocket.go:2818-2859 | if no block of the best chain ever lacks its data no scan ever recovers, whatever is reorganised |
| RescanEnds.NeverUnregistered | rpcwebsocket.go:2980-2995 | where pruned blocks stay in the best chain, a scan without stop block never breaks off without registering the client for want of blocks |
| RescanEnds.RecoveryFails | rpcwebsocket.go:2818-2995 | there, once a block has been scanned, recovery always ends with a database error |
| RescanEnds.RecoveryHangs | rpcwebsocket.go:2829-2995 | there, if nothing has been scanned, the same block is asked for at every later moment, however the chain changes |
| RescanEnds.RecoveryOutcome | rpcwebsocket.go:2818-2995 | so a scan that has to recover ends if and only if it has scanned a block before |
| RescanEnds.FirstMissing | rpcwebsocket.go:2829-2995 | a scan without stop block whose first block is there without data never ends |
| RescanEnds.CaughtUpExactly | rpcwebsocket.go:2908-2930 | a scan that ends caught up, which registers the client, has scanned exactly the best chain of that moment from its first height on, if and only if it has scanned a block or that chain does not reach the height |
| RescanEnds.MissedExample | rpcwebsocket.go:2922-2930 | a world in which the client is registered with a block unscanned |
| RescanEnds.StopsBefore | rpcwebsocket.go:2885-2906 | no block at or above the stop height is ever scanned, and a scan that is complete has scanned every height below it |
| RescanEnds.ChunkExactly | rpcwebsocket.go:2885-2906 | the answer to a range request: as many hashes of the best chain as there are, at most 50000, and none at or above the stop |
| RescanEnds.FailsExactly | rpcwebsocket.go:2948-3041 | a request ends a scan with a database error, a reorganisation error or a client gone if and only if it meets one of that failure's causes |
| RescanEnds.EndsAtStop | rpcwebsocket.go:2865-3051 | with a stop block every scan ends, within two requests for each height it was asked for, however the chain changes |
| RescanEnds.EndsExactly | rpcwebsocket.go:2829-2995 | without one, and on a chain that stands still, a scan ends if and only if its first block is stored or there is none |
| RescanEnds.EndlessExample | rpcwebsocket.go:2829-2995 | a world with an endless scan: a chain pruned at its first height, the tip stored |
| RescanEnds.CatchesUp | rpcwebsocket.go:2865-3051 | if nothing is missing either and the client stays, the scan ends caught up, having scanned exactly the blocks of the chain from the first height on |
| RescanEnds.ReachesStop | rpcwebsocket.go:2865-3051 | with a stop block the scan is complete then, within two requests for each height, having scanned exactly the blocks from the first height up to the one before the stop block |
| BestChains.MovePreserves | blockchain/chain.go:571-869 | one change a reader can see keeps the best chain a chain, and its blocks without data in it and without data |
| BestChains.MovesPreserve | blockchain/chain.go:571-993 | the same for any number of changes |
| BestChains.SeenIsLasting | blockchain/chain.go:571-993 | a world whose chain and data change in these ways between requests meets all that the theorems about rescans ask of a world |
| BestChains.BestChain.StoreBlock | blockchain/process.go:41-160 | a block is stored exactly if its node does not say that it has been before, so a pruned one is not stored again |
| BestChains.BestChain.ConnectBlock | blockchain/chain.go:571-727 | prunes and then extends the chain, exactly if the block follows the tip |
| BestChains.BestChain.DisconnectBlock | blockchain/chain.go:733-869 | takes the tip off, exactly if its predecessor has data |
| BestChains.BestChain.VerifyReorganizationValidity | blockchain/chain.go:1002-1271 | passes exactly if every block to be detached or attached has data and the other checks, which are handed in, pass |
| BestChains.BestChain.ReorganizeChain | blockchain/chain.go:895-993 | nothing changes unless the check passes; after that it fails exactly if the fork point has no data, with one block left to detach, or the blocks do not follow one another; every step of it is a change readers may rely on |
| BestChains.PrunedForkPoint | blockchain/chain.go:733-993 | a reorganisation that passes the check and stops half way |
| Rescans.RecoverFromReorg | rpcwebsocket.go:2818-2859 | takes exactly the steps of the state machine: a new range is used only if it continues from the last block scanned |
| Rescans.ScanOne | rpcwebsocket.go:2997-3041 | the fork check where a range begins, then the client, then the block; what the client follows and was told stays what the blocks scanned mean |
| Rescans.ScanList | rpcwebsocket.go:2948-3045 | takes exactly the steps of the state machine for the blocks of a range and of the ranges that replace it |
| Rescans.ScanBlockChunks | rpcwebsocket.go:2865-3051 | result, blocks and number of requests are exactly those of the state machine, outputs and notices exactly those of the blocks scanned, and the client is registered, with the outputs then followed, exactly if the scan caught up |
| Rescans.ScanToStop | rpcwebsocket.go:2865-3051 | with a stop block it ends within the bound of RescanEnds.EndsAtStop and needs no limit |
| Rescans.Rescan | rpcwebsocket.go:3128-3150 | the blocks scanned are one genuine chain from the first height, the notices are those of its transactions, the outputs left are everything ever followed and never spent if and only if spends follow payments, and a client that is registered has been told of the best chain of that moment as RescanEnds.CaughtUpExactly has it |
| Rescans.HandleRescan | rpcwebsocket.go:3063-3188 | the whole command: unknown block exactly if a block is not found; in every world what is scanned starts at the height of the begin block and stays below that of the end block, and nothing is scanned if that is not above it; on a chain that stands still with all data and a client that stays, exactly the blocks from the begin block up to the one before the end block, or up to the tip without one, are scanned, their notices sent and the last of them named; with nothing to look for the best block is named |
| Rescans.EndReply | rpcwebsocket.go:3100-3175 | the reply with an end block at height b and a begin block at height a < b names the block at height b - 1, and the blocks scanned are those from a up to it |
| Rescans.TipReply | rpcwebsocket.go:3100-3175 | without an end block the reply names the tip and the blocks scanned are those up to it |
| Rescans.SilentExactly | rpcwebsocket.go:3141-3146 | there is no notice at the end, and no error, exactly if the client has gone or the rescan scanned no block |
| Rescans.SameBlockSilent | rpcwebsocket.go:3100-3146 | so it is for a rescan that begins and ends with the same block |
| Rescans.HeightRangeAnswers | blockchain/chain.go:1765-1806 | what HeightRange returns for a view is the range the rescan's world answers for that branch |
| Rescans.ViewsAreHonest | blockchain/chain.go:1765-1806 | a world whose best chain is at every moment the branch of some well-formed node meets what the rescan theorems ask of a world |
| MempoolRelations.AncestorSet | rpcserver.go:3696-3717 | exactly the transactions of the snapshot reached by one or more dependencies, cycles included; the search ends |
| MempoolRelations.Children | rpcserver.go:3719-3727 | the children lists are exactly the dependencies turned round, in any map order |
| MempoolRelations.DescendantSet | rpcserver.go:3719-3742 | exactly the transactions that reach it by one or more dependencies |
| MempoolRelations.Duality | rpcserver.go:3696-3742 | one is among the ancestors of the other exactly if the other is among its descendants, and both sets are closed |
| InboundAdmission.RunKeeps | server.go:2318-2439 | every interleaving keeps slots and address counts equal to what the connections hold |
| InboundAdmission.ReleaseKeeps | server.go:2318-2326 | releasing an address lowers its count by one and deletes it at zero |
| InboundAdmission.WithinLimits | server.go:2331-2358 | never more connections than slots, never more of one address than the limit |
| InboundAdmission.Arrival | server.go:2331-2332 | a connection that arrives is new and takes nothing from the others |
| InboundAdmission.Admission | server.go:2331-2400 | in every run a connection that takes its own steps is admitted if and only if fewer connections than there are slots held one at its first and fewer of its address than the limit, if there is one, at its second; it is refused otherwise, holding nothing, and once admitted it becomes connected exactly if its handshake succeeds |
| InboundAdmission.NeverWaits | server.go:2350-2437 | whoever gives a slot back finds one in the channel: no release ever blocks |
| InboundAdmission.NothingLeft | server.go:2364-2439 | when every connection is over no slot is taken and no address is counted: each is released exactly once |
| InboundAdmission.GetsThrough | server.go:2331-2439 | every connection is over after at most six steps of its own and touches no other |
| ProofRate.ProofRequestWindow.constructor | proofrate.go:25-30 | a limit of zero means the default of 100 |
| ProofRate.ProofRequestWindow.Allow | proofrate.go:35-66 | the window after the request as a function of the one before and the time; let through exactly if the weighted count is below the limit |
| ProofRate.KeptCounters | proofrate.go:39-56 | the counters are those of the requests in the current second of the window and in the one before, of those since the window last started afresh, whatever the clock does |
| ProofRate.TrailingBound | proofrate.go:58-65 | the bound on the trailing second that the counters alone give |
| ProofRate.AtEveryRequest | proofrate.go:35-66 | at every request the second before it holds at most twice the limit less two of the requests since the window last started afresh, and fewer than limit + (limit - 1) * elapsed if it passes, whatever the clock does |
| ProofRate.SharpAlways | proofrate.go:35-66 | with a clock that does not step back, at every moment, with a request or without, fewer than limit + (limit - 1) * elapsed were let through in the second before |
| ProofRate.NeverMore | proofrate.go:35-66 | with a clock that does not step back no second at all has more than twice the limit less two requests let through |
| ProofRate.EveryWindow | proofrate.go:35-66 | with a clock that does not step back no second of the window itself has as many as the limit |
| ProofRate.SecondBurst | proofrate.go:14-66 | after limit - 1 counted in one second as many again at one moment of the next all pass if and only if (limit - 1) times the rest of that second is less than a second |
| ProofRate.ReachedExactly | proofrate.go:14-66 | twice the limit less two are let through within some second of some run if and only if 2 * (limit - 1) nanoseconds are less than a second |
| ProofRate.OneBackBreaks | proofrate.go:39-45 | for every limit above one a run with one step back before the window has more than twice the limit less two let through within a second |
| ProofRate.NeverBackExactly | proofrate.go:35-66 | of all requests, forgotten ones included, the second before a request holds at most twice the limit less two in every run with so many steps back before the window, if and only if there are none |
| ProofRate.Run | proofrate.go:35-66 | exactly the requests that the rules on values let through are let through, at any times; with a clock that does not step back the sharp bound holds at every moment |

## Left out

- Signature verification of airdrop keys and the hash functions themselves: they are parameters or not part of this model.
- Loading and saving the address manager's peer file, the timestamps it stores, and `reset`, which leaves the counters as they are; `GetAddress`, `AddressCache` and the choice among local addresses.
- Heights as 32-bit integers: heights, minimum and maximum blocks are unbounded here.
- Invalidating and reconsidering blocks, which resets the best header chain; connecting a block to the best chain is only its outcome and its effect on status flags.
- BlockIndexes.BlockIndex.FlushToDB: whether a write succeeds is handed in, because the database is outside the model; of a row it keeps the status.
- Acceptance.BlockChain.MaybeAcceptBlock: the outcome of connecting the block to the best chain is handed in, because the checks behind it are not part of this model.
- Marshalling errors, and what a client's handlers do after a failed write; after a disconnect `ClientQueues.InOrder` says only that what was written is in order.
- The best chain is changed by one caller at a time: the chain lock is given up while a change is announced, and what another caller could do then is not modelled.
- BestChains.BestChain.VerifyReorganizationValidity: the checks of transactions, names and airdrops are handed in as one verdict, because they are not part of this model.
- Looking up a block asks the best chain and then the database; in a rescan both are one moment.
- Name notifications, block and transaction subscriptions, and the filter of `rescanblocks`.
- RescanBlocks.RescanKeys.RescanBlock: does not say which outputs are followed once the client has left in the middle of a block, because the rescan is abandoned then.
- Rescans.ScanBlockChunks: observes a scan for any number of requests to the chain, because without a stop block it need not end: on a chain that keeps growing, or whose first block is pruned; Rescans.ScanToStop needs no such number.
- NotificationManagers.NotificationManager.NotifyForTxOuts: how often a client is told of the same unconfirmed spend is not stated, because it depends on the order in which a map is iterated.
- Sizes and fees summed over ancestors and descendants, which are floating point sums over the sets proved here.
- ProofRate.ProofRequestWindow.Allow: compares the weighted count exactly, because the rounding of 64-bit floating point numbers is not modelled.
- Peers, transport handshakes and everything else that happens to a connection between admission and release.
- Configuration, RPC plumbing, mining, scripts, the name state and the other packages of the node.
