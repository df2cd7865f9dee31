# Limonata in Dafny

Models of the hardest parts of the Limonata node, with proofs of what they keep, refine and promise.

- **Vote-extension injection.** A proposer must fit the extended commit of the last block into a byte budget and still
  carry more than two thirds of the voting power. `Knapsack` models the dynamic program that picks the votes,
  `Trim` the two greedy passes, the backstop and the top-up around it, `TrimOrders` which votes they prefer, `TrimLimits`
  the exact limit of the whole trim,
  `InjectedCommit` the commit that results, and `Proposal` the three block handlers that must agree on it.
  `DecryptShares` models the oldest-first schedule of decryption shares, and `PoisonCache` the cache of poison verdicts.
- **The application mempool.** `Heap`, `Merge` and `HeadHeap` give the binary heap, the naive "take the best head" merge
  and the proof that the first refines the second. `EvmOrdering`, `CosmosOrdering` and `BlockIterator` build on them up
  to the block iterator over both pools, and `BlockBuilding` from there to the block. `TxKeys` and `TxStore` model the snapshot of rechecked transactions.
  `Reserver`, `PoolReservations`, `RecheckPass` and `RecheckPool` model address reservations, the recheck pass and the
  pool that combines them. `RecheckLoop` and `ResetLoop` are the two event loops, as transition systems whose channels
  have identities, and `SubpoolAdd` splits a batch over the subpools.
- **Codecs, indexes and fees.** `Web3Codec` is the generated protobuf codec, `Eip712Types` the schema builder for typed
  data, `KvIndexer` the two-way transaction index and `FeeChecker` the EIP-1559 fee in 18-decimal fixed point.
- `Basics` holds options, lexicographic order, stable sorting, sorted sets, filtering and word arithmetic.

Code that is not part of the repository, or that these parts only call, enters as a function-valued parameter: protobuf
marshalling of commits and records, signature checks, share proofs, the ante handler, EVM-to-SDK conversion, the
subpools' own `Add`. Assumptions about such a parameter are predicates named where they are used, such as
`InjectedCommit.RoundTrips`, `KvIndexer.Faithful` and `SubpoolAdd.AnswersAll`. Methods stand where the source loops or
updates in place; each is proved equal to a function of its inputs or of the old state, and the lemmas are about that
function. Integers are unbounded where the source cannot overflow them; 64-bit wrap-around is written out where it can
happen. `Heap` works on a sequence that the methods reassign, as `container/heap` does on the caller's slice.

Where the code does not do what its comments say, the model follows the code:

- The comment above the trim's backstop (evmd/dkg_voteext.go:881-888) says that a set of votes with enough power is found
  whenever one fits. `TrimLimits.ExactIffFine` shows that this holds precisely when the room beside the marker is below
  8192 bytes, also when only those commits count in which every validator votes once and no extension exceeds 1 MiB.
  `TrimLimits.StallIsDeclined` gives, for every larger room, a commit that is declined though enough of its votes fit.
- The fee checker's header says that priority is the effective gas price in units of the reduction
  (ante/evm/fee_checker.go:27). The code divides what is paid above the base fee. `FeeChecker.PriorityIsHeadersIff` says
  exactly when the two agree, and `FeeChecker.HeaderPriorityFails` gives, for every unit, an input where they do not.
- The validator-price priority is described as that of the smallest gas price (ante/evm/fee_checker.go:152-153).
  `FeeChecker.PriorityIsMinIff` says exactly when it is; a zero priority that is not the last one is forgotten.
- A second `Sync` that arrives while one is outstanding replaces the waiter, and the first call is never answered
  (mempool/txpool/txpool.go:256-264). `ResetLoop.DisplacedIff` says when this happens, and `ResetLoop.SecondSyncDisplaces`
  gives a run.
- A live replacement is said to drop what depends on the replaced transaction from the snapshot
  (mempool/recheck_pool.go:544-546). The pool replaces by first signer and nonce, the snapshot looks for the full signer
  set: `RecheckPool.ReplacedLeavesIff` says exactly when the replaced transaction leaves, and
  `RecheckPool.ReplacedCanStay` shows one that stays. An ante handler that checks the sequences of all signers may rule
  that input out; the model's ante handler is arbitrary.
- The iterator promises priority by fee (mempool/iterator.go:72-76), but the base fee is read three times: for EVM tips
  and for the order of the Cosmos heap (mempool/mempool.go:594-596), and again for the comparison of the two
  (mempool/iterator.go:101). `BlockBuilding.HighestIffFeesAgree` gives the exact condition on the three readings under
  which every step takes a highest tip under one base fee, and `BlockBuilding.LowerTipFirst` gives pools and a run for
  every case in which it does not.
- A hash that is indexed twice makes its older position answer with the newer record (indexer/kv_indexer.go:153-162).
  `KvIndexer.LookupAgreesIff` gives the exact condition.

## Model

| member | source | states |
|---|---|---|
| Knapsack.ScaleBounds | evmd/dkg_voteext.go:783-792 | rounding a cost up to buckets covers it, and wastes less than one bucket on a positive cost |
| Knapsack.ScaledSum | evmd/dkg_voteext.go:783-792 | the same for every selection: scaled cost is conservative and loses less than one bucket per selected vote |
| Knapsack.OptIsUpperBound | evmd/dkg_voteext.go:793-809 | no selection within a budget beats the recurrence |
| Knapsack.BackIsWitness | evmd/dkg_voteext.go:810-819 | walking the table back yields a selection that fits and attains the recurrence |
| Knapsack.ChosenIsOptimal | evmd/dkg_voteext.go:777-820 | the selection fits the real budget, and no selection within the scaled budget has more power |
| Knapsack.ChosenPrefersEarlier | evmd/dkg_voteext.go:777-820 | of all selections that are as good, the one that leaves the later candidates out, since an item is taken only for a gain; nothing without room |
| Knapsack.SlackBound | evmd/dkg_voteext.go:770-820 | a selection with one bucket to spare per vote, and one more, is never beaten: the price of scaling |
| Knapsack.KnapsackKeepMaxPower | evmd/dkg_voteext.go:777-820 | keeps only candidates, returns the power of what it keeps, fits the real budget, and no selection within the scaled budget has more power |
| Knapsack.FillTable | evmd/dkg_voteext.go:793-809 | the one-row table, overwritten from the largest budget down, records every inclusion of the two-dimensional recurrence |
| Knapsack.FillRow | evmd/dkg_voteext.go:797-809 | one item's in-place pass turns the optima without it into the optima with it |
| Knapsack.Backtrack | evmd/dkg_voteext.go:810-819 | the positions it marks are exactly the reconstructed selection, with its power |
| Trim.Required | evmd/dkg_voteext.go:849 | a power reaches the bound exactly when it is strictly more than two thirds of the total |
| Trim.CandidatesAreOrdered | evmd/dkg_voteext.go:851-864 | the candidates are the usable votes, each once, in ascending commit order |
| Trim.FillIsSound | evmd/dkg_voteext.go:865-879 | a greedy fill in any order keeps its power and byte counters equal to those of the kept set, within budget |
| Trim.FillIsMaximal | evmd/dkg_voteext.go:865-879 | an offered vote that was not kept does not fit in the end either |
| Trim.BackstopIsBest | evmd/dkg_voteext.go:917-923 | the backstop has at least the power of every set that fits with slack |
| Trim.TopUpIsSoundAndMaximal | evmd/dkg_voteext.go:924-949 | the top-up loses nothing, keeps the counters right and the set within budget, and leaves no vote that still fits |
| Trim.SelectionIsSound | evmd/dkg_voteext.go:865-949 | on every path the counters equal the kept set's power and bytes, it fits with the marker, and no dropped vote fits |
| Trim.SelectionIsComplete | evmd/dkg_voteext.go:849-952 | falling short of the required power means that no set of votes that fits with slack reaches it |
| Trim.ExactWhenFine | evmd/dkg_voteext.go:881-952 | with one byte per bucket, the required power is reached exactly when some fitting set reaches it |
| TrimOrders.DensityPassIff | evmd/dkg_voteext.go:890-908 | the density pass keeps a usable vote exactly when it fits beside the kept votes that have more power for each byte, or as much and the lower address |
| TrimOrders.PowerPassIff | evmd/dkg_voteext.go:909-916 | the power pass keeps a usable vote exactly when it fits beside the kept votes that have more power, or as much and the lower address |
| TrimOrders.TopUpIff | evmd/dkg_voteext.go:924-949 | the top-up keeps what was kept, and another usable vote exactly when it fits beside that and the kept votes with more power, or as much and the lower address |
| TrimOrders.SelectionIff | evmd/dkg_voteext.go:889-949 | the selection extends the density pass if that reaches the required power, else the power pass if that does, else the backstop, and by exactly the votes of the top-up |
| Basics.SortIsStable | evmd/dkg_voteext.go:891-906 | the sort sorts, and what ties stays in the order it came in |
| Basics.LexLessIff | evmd/dkg_voteext.go:905 | of two byte strings the one with the smaller byte at the first difference comes first, and a proper prefix before what it begins |
| TrimLimits.StallFallsShort | evmd/dkg_voteext.go:881-952 | for a family of commits, one for every room of 8192 bytes or more and whatever the contents of the votes: greedy passes, backstop and top-up all keep a vote beside which no two thirds fit |
| TrimLimits.StallIsAchievable | evmd/dkg_voteext.go:881-952 | other votes of these commits do fit, with two thirds of the power |
| TrimLimits.StallIsReceivable | evmd/dkg_voteext.go:586-588 | every room of 8192 bytes or more has such a commit with one vote for each validator, and up to CometBFT's largest block one without an extension above 1 MiB |
| TrimLimits.ExactIffFine | evmd/dkg_voteext.go:881-952 | the trim is exact on every commit with one vote for each validator if and only if the room beside the marker is below 8192 bytes; up to CometBFT's largest block, the same of all commits that moreover hold no extension above 1 MiB |
| TrimLimits.StallIsDeclined | evmd/dkg_voteext.go:833-952 | for every codec whose encoding is no shorter than what it carries, and every block with 8192 bytes or more beside the marker, a proposer with such a commit injects nothing although votes with two thirds fit |
| InjectedCommit.InjectedIsWholeOrTrim | evmd/dkg_voteext.go:833-970 | whatever is injected fits the block, and is the whole commit or a trim: same validators, powers and places, kept votes untouched and usable, others Absent and empty, strictly more than two thirds of the power committed |
| InjectedCommit.DeclinedOnlyWhenShort | evmd/dkg_voteext.go:837-969 | declining means no room beyond the marker, no power, no trim with slack that reaches two thirds, or a chosen trim whose estimate was too low |
| InjectedCommit.DeclinedIffImpossible | evmd/dkg_voteext.go:837-969 | below 8192 bytes of room, a commit that does not fit whole is declined exactly when no fitting usable votes carry two thirds, or the estimate was too low |
| InjectedCommit.EstimateHolds | evmd/dkg_voteext.go:837-863 | the estimate is never too low while what the codec adds, a constant for each vote and one for the commit, stays below the reserved eighth of the block |
| InjectedCommit.DeclinedIffUnachievable | evmd/dkg_voteext.go:837-969 | then, below 8192 bytes of room, a commit that does not fit whole is declined exactly when no fitting usable votes carry two thirds |
| InjectedCommit.TrimCertifies | evmd/dkg_voteext.go:822-832 | a trim passes the peers' certificate check as soon as the usable votes of the original verify |
| InjectedCommit.TrimmedIsTrim | evmd/dkg_voteext.go:954-964 | marking dropped votes Absent keeps the total power, and leaves as Commit power exactly the kept power |
| InjectedCommit.BoundedInjectedCommit | evmd/dkg_voteext.go:833-970 | the program returns the marshalled injected commit within the block, or declines, exactly as specified |
| InjectedCommit.CollectCandidates | evmd/dkg_voteext.go:853-864 | collects exactly the usable votes |
| InjectedCommit.GreedyFill | evmd/dkg_voteext.go:866-879 | the loop keeps each vote that still fits, and counts its power |
| InjectedCommit.GreedyPass | evmd/dkg_voteext.go:889-916 | sorting and filling gives the specified greedy selection |
| InjectedCommit.BackstopPass | evmd/dkg_voteext.go:917-923 | the dynamic program over the room beside the marker gives the specified backstop |
| InjectedCommit.FirstPassFill | evmd/dkg_voteext.go:889-923 | the first pass that reaches the required power wins, otherwise the backstop |
| InjectedCommit.TopUpPass | evmd/dkg_voteext.go:924-949 | dropped votes, strongest first, are offered the real bytes left |
| InjectedCommit.MarkDropped | evmd/dkg_voteext.go:954-964 | rewrites exactly the dropped votes |
| Proposal.PrepareProposal | evmd/dkg_voteext.go:700-721 | without an injectable commit the inner handler sees the request as it is; otherwise the blob goes first and the inner limit is reduced by its size |
| Proposal.ProcessProposal | evmd/dkg_voteext.go:974-1012 | an accepted proposal carries a certified commit wherever one is required, and a marked one is accepted only while active and with the stripped transactions |
| Proposal.UnmarkedIsInner | evmd/dkg_voteext.go:979-985 | a proposal without a marker gets exactly the inner handler's decision, unless an injection is required |
| Proposal.MarkedIff | evmd/dkg_voteext.go:986-1005 | a marked proposal is accepted exactly when the handlers are active, its commit decodes and certifies, and the inner handler accepts the rest |
| Proposal.ActiveIff | evmd/dkg_voteext.go:78-88 | active exactly with both parameters set and at least one height after a non-zero enabling height |
| Proposal.InjectionRequiredIff | evmd/dkg_voteext.go:723-745 | required exactly when enabled at least two heights ago, not before the start height, with an open round or pending ciphertexts, and with a bound on the commit below seven eighths of a limited block |
| Proposal.RequiredIsMet | evmd/dkg_voteext.go:731-737 | where an injection is required, a proposer injects whenever votes with two thirds stay within the bound on the commit, less the part of the block that is not for transactions, with one bucket of slack a vote |
| Proposal.ConsumeVoteExtensions | evmd/dkg_voteext.go:1014-1051 | consumes the entries of the carried commit exactly when active and decodable |
| Proposal.EntryIff | evmd/dkg_voteext.go:1030-1049 | a vote has an entry exactly when it is a Commit vote of a known validator whose extension is non-empty, within 1 MiB and the object cap, and decodes |
| Proposal.EntriesFrom | evmd/dkg_voteext.go:1031-1049 | every entry consumed is that of a kept vote, in the order of the votes |
| Proposal.EntriesOf | evmd/dkg_voteext.go:1031-1049 | every kept vote that has an entry is consumed, in its place |
| Proposal.InjectedProposal | evmd/dkg_voteext.go:700-721 | an injecting proposal fits whenever the inner handler respects its reduced limit, and carries exactly the injected commit |
| Proposal.ProcessStripsInjection | evmd/dkg_voteext.go:974-1012 | peers hand the inner handler exactly the proposer's inner transactions, once the commit certifies |
| Proposal.HonestTrimIsProcessed | evmd/dkg_voteext.go:822-832 | a trimmed proposal whose usable votes verify is decided by the inner handler alone |
| Proposal.TrimmedEntries | evmd/dkg_voteext.go:1031-1049 | consuming a trim is consuming the kept votes of the original, unaltered and in order |
| Proposal.ConsumedIsKept | evmd/dkg_voteext.go:1014-1051 | PreBlock consumes every eligible vote of a whole commit, and exactly the eligible kept votes of a trimmed one |
| Proposal.AcceptedIsConsumed | evmd/dkg_voteext.go:974-1051 | whoever proposes, an accepted injected commit is certified and never skipped by PreBlock, and a required one is there |
| DecryptShares.NothingAfterImmature | evmd/dkg_voteext.go:273-281 | in height order, nothing after the first immature entry contributes, so stopping there equals filtering by maturity |
| DecryptShares.ContributionsAreJustified | evmd/dkg_voteext.go:282-322 | every served share is proved, owned, not yet stored, of a matured, non-legacy, below-threshold ciphertext |
| DecryptShares.JustifiedIsContributed | evmd/dkg_voteext.go:282-322 | conversely, every share there is reason to serve is among the contributions |
| DecryptShares.OldestFirst | evmd/dkg_voteext.go:269-281 | shares come in the order of their ciphertexts' height and sequence |
| DecryptShares.NoneTwice | evmd/dkg_voteext.go:307-322 | if the shares a node owns in an epoch have distinct indices, no share is served twice |
| DecryptShares.ServeEntry | evmd/dkg_voteext.go:303-322 | adds one ciphertext's provable shares up to the cap |
| DecryptShares.Visit | evmd/dkg_voteext.go:282-323 | one entry's turn, with cached epoch shares, adds its whole contribution up to the cap |
| DecryptShares.ServeVisited | evmd/dkg_voteext.go:269-324 | the callback yields the first shares, up to the cap, of all contributions of the visited entries |
| DecryptShares.WindowIs | evmd/dkg_voteext.go:263-269 | the entries visited are all those at most the grace period back, or not yet matured: a suffix of the store |
| DecryptShares.BuildDecryptShares | evmd/dkg_voteext.go:255-326 | of the first `shareCap` entries that are at most the grace period back, the first `shareCap` contributions, and all of them if there are fewer; each is justified |
| PoisonCache.Cache.Oldest | evmd/dkg_voteext.go:408-416 | what ranging over the cached epochs in some order ends at, epoch 0 counting as nothing seen |
| PoisonCache.Cache.Evict | evmd/dkg_voteext.go:407-416 | drops nothing unless the cache is full, and then exactly the lowest epoch |
| PoisonCache.LowestDroppedIff | evmd/dkg_voteext.go:407-416 | the epoch that a range ends at is cached, and is the lowest one exactly when epoch 0 is not cached or is visited last |
| PoisonCache.Cache.Get | evmd/dkg_voteext.go:391-419 | always the verdict of a fresh detection; a known epoch changes nothing, a new one is added, at the cost of exactly the lowest other one when the cache is full |
| Heap.RootIsBest | mempool/miner/ordering.go:130-136 | nothing in a heap sorts before its root |
| Heap.Down | mempool/miner/ordering.go:139-149 | sifting down restores the heap below a position, permutes, and leaves the rest of the slice alone |
| Heap.Init | mempool/miner/ordering.go:119 | heapifying permutes any slice into a heap |
| Heap.FixRoot | mempool/miner/ordering.go:143-145 | a heap whose root was replaced is restored |
| Heap.Pop | mempool/miner/ordering.go:154-156 | removes exactly the root |
| Merge.MergeIsExact | mempool/miner/ordering.go:87-101 | a best-head merge takes every transaction of every queue once, in queue order |
| Merge.MergeIsDetermined | mempool/cosmos_ordering.go:25-35 | without ties the merge is a function of the queues alone |
| HeadHeap.RootIsBest | mempool/miner/ordering.go:131-136 | the root of the heads heap is the head of a best queue |
| HeadHeap.BuildHeap | mempool/cosmos_ordering.go:85-92 | heapifying the collected heads represents the queues |
| HeadHeap.ReplaceRoot | mempool/cosmos_ordering.go:107-114 | replacing the root by its queue's next transaction represents the advanced queues |
| HeadHeap.RemoveRoot | mempool/cosmos_ordering.go:115-117 | popping the root represents the queues without its own |
| EvmOrdering.MinerTipIsPriorityFee | mempool/miner/ordering.go:40-57 | a tip exists exactly when the fee cap covers the base fee, and is the largest within both caps |
| EvmOrdering.Payable | mempool/miner/ordering.go:102-149 | the longest prefix of an account whose fee caps cover the base fee |
| EvmOrdering.CollectHeads | mempool/miner/ordering.go:109-118 | ranging over the accounts in any order splits off exactly the payable heads |
| EvmOrdering.TransactionsByPriceAndNonce.constructor | mempool/miner/ordering.go:102-128 | starts with, per account, its payable prefix |
| EvmOrdering.TransactionsByPriceAndNonce.Peek | mempool/miner/ordering.go:131-136 | the head of a best account with its tip, or nothing exactly when no queue is left |
| EvmOrdering.TransactionsByPriceAndNonce.Shift | mempool/miner/ordering.go:139-149 | takes exactly the best head off its account's queue |
| EvmOrdering.TransactionsByPriceAndNonce.Pop | mempool/miner/ordering.go:154-156 | drops exactly the best head's account |
| EvmOrdering.TransactionsByPriceAndNonce.Empty | mempool/miner/ordering.go:160-162 | true exactly when no queue is left |
| TxKeys.SignerSetKeyInjective | mempool/tx_store.go:146-156 | for signers of any one length, equal signer-set keys mean equal signer sets |
| TxKeys.TxKeyInjective | mempool/tx_store.go:158-168 | for signers of any one length, equal transaction keys mean the same signers at the same nonces |
| TxKeys.JoinIsAmbiguous | mempool/tx_store.go:146-156 | without a fixed signer length, two different signer lists share a key |
| TxKeys.SortedSignerKeys | mempool/tx_store.go:198-205 | the signers in byte order, whatever the map order |
| TxKeys.BuildSignerSetKey | mempool/tx_store.go:146-156 | builds the signer-set key that the injectivity results are about |
| TxKeys.BuildTxKey | mempool/tx_store.go:158-168 | builds the transaction key that the injectivity results are about |
| TxKeys.NonceMapOf | mempool/tx_store.go:180-196 | the signers' nonces, or none when they cannot be read |
| TxKeys.NoncesAre | mempool/tx_store.go:180-196 | nonces are read exactly when no signer of an unordered transaction has a sequence; each signing address has the timeout, or the sequence of its last signer |
| TxKeys.DigitsSpell | mempool/tx_store.go:158-168 | the padded digits spell the nonce |
| TxStore.ComputeNonceSum | mempool/tx_store.go:170-178 | the wrapped 64-bit sum, whatever the map order |
| TxStore.DominatedComesFirst | mempool/tx_store.go:238-246 | as long as sums do not wrap, a transaction with nonces all at most another's sorts before it |
| TxStore.InvalidateIsNaiveScan | mempool/tx_store.go:81-127 | exactly the stored transactions remain whose every signer with a threshold is below it |
| TxStore.InvalidateKeepsOk | mempool/tx_store.go:81-127 | buckets stay non-empty, strictly sorted, key-unique and of their recorded signer set |
| TxStore.PrecedesIff | mempool/tx_store.go:238-246 | buckets go by nonce sum, then by transaction key, byte by byte |
| TxStore.InsertedIsStored | mempool/recheck_pool.go:544-555 | an inserted transaction joins what is stored, unless its signers and nonces are; then exactly what reaches them goes |
| TxStore.PrefilterIsExact | mempool/tx_store.go:229-236 | a bucket without a shared signer would lose nothing, so skipping it is exact |
| TxStore.RemovedAddBucket | mempool/tx_store.go:102-126 | the number removed adds up over the buckets |
| TxStore.AddKeepsOk | mempool/tx_store.go:49-76 | adding keeps every bucket well-formed |
| TxStore.AddIsExact | mempool/tx_store.go:49-76 | adding adds the new entry and nothing else, unless its key is there |
| TxStore.DuplicateMeansSameNonces | mempool/tx_store.go:61-68 | a key that is there belongs to a transaction with the same signers at the same nonces |
| TxStore.UnkeyedIsFresh | mempool/tx_store.go:257-261 | a transaction without readable signers is never taken for a stored one |
| TxStore.CosmosTxStore.NewMetadata | mempool/tx_store.go:129-144 | the keys and nonce sum of a transaction |
| TxStore.CosmosTxStore.AddTx | mempool/tx_store.go:49-76 | the store plus the transaction's entry, unless its key is there; the invariant holds |
| TxStore.CosmosTxStore.InvalidateFrom | mempool/tx_store.go:81-127 | if these very nonces are stored, the naive scan's result and the number removed; otherwise nothing changes |
| TxStore.RemoveInvalidated | mempool/tx_store.go:102-126 | the loop over the buckets, in any order, computes the naive scan and its count |
| TxStore.CompactInPlace | mempool/tx_store.go:108-117 | compacting within the backing array leaves exactly the survivors, in order, and clears the rest |
| TxStore.InsertSorted | mempool/tx_store.go:61-76 | appending and sorting again gives the specified bucket |
| CosmosOrdering.LessIsTotal | mempool/cosmos_ordering.go:25-35 | the comparison is a strict weak order, and never ties heads of different buckets |
| CosmosOrdering.TipIsPerGas | mempool/cosmos_ordering.go:141-174 | with the last coin of the denomination: a positive tip is the whole number of units each unit of gas pays above the base fee; it is zero exactly when not one more unit is paid, or the price is beyond 256 bits |
| CosmosOrdering.NoTipWithoutGas | mempool/cosmos_ordering.go:141-158 | a transaction without fee or gas has no tip |
| CosmosOrdering.TipsAgreeIff | mempool/cosmos_ordering.go:141-174 | what does not rank lower under one base fee does not rank lower under another exactly when the other fee is not the lower one, or no price exceeds it |
| CosmosOrdering.TipsSameIff | mempool/cosmos_ordering.go:141-174 | two base fees rank all transactions alike, ties included, exactly when they are equal or no price exceeds either |
| CosmosOrdering.CollectHeads | mempool/cosmos_ordering.go:66-79 | ranging over the buckets in any order splits off exactly their heads |
| CosmosOrdering.NewIterator | mempool/cosmos_ordering.go:61-92 | starts with the non-empty buckets, or is nil exactly when there are none |
| CosmosOrdering.CosmosTransactionsByPriceAndNonce.Tx | mempool/cosmos_ordering.go:94-99 | the head of a best bucket, or nothing exactly when all are empty |
| CosmosOrdering.CosmosTransactionsByPriceAndNonce.Next | mempool/cosmos_ordering.go:101-123 | takes exactly the best head off its bucket, and reports whether anything is left |
| BlockIterator.Resolve | mempool/iterator.go:175-232 | there is no current transaction exactly when neither pool offers one that can be used |
| BlockIterator.StepShrinks | mempool/iterator.go:118-166 | as long as either pool has a head, a step leaves strictly fewer transactions, whether or not conversion succeeds |
| BlockIterator.PickedIsStep | mempool/iterator.go:175-232 | the transaction that is resolved is a step of a run: the best EVM head unless the best Cosmos tip is strictly higher, with the fallback for a head that cannot be converted |
| BlockIterator.RunMergesCosmos | mempool/iterator.go:118-232 | whatever becomes of the EVM pool, a run merges the Cosmos pool by best heads |
| BlockIterator.RunTakesPrefix | mempool/iterator.go:118-232 | of every account that is not left over a run takes exactly the longest convertible prefix; of one that is, exactly what precedes the rest, all of it convertible |
| BlockIterator.LeftoverIsStopped | mempool/iterator.go:175-210 | accounts are left over only when the run stops at a best head that cannot be converted |
| BlockIterator.AllIsTaken | mempool/iterator.go:118-232 | when everything can be converted, nothing is left and every account is taken whole |
| BlockIterator.RunIsExact | mempool/iterator.go:118-232 | every snapshot transaction once and in bucket order, and per account the prefix above |
| BlockBuilding.RunIsBlock | mempool/iterator.go:212-232 | if conversions succeed and the fees agree, each transaction taken has, under one base fee for both pools, a tip that no head of either pool exceeds, ties to EVM |
| BlockBuilding.HighestIffFeesAgree | mempool/mempool.go:592-604 | for every base fee: all runs over pools the mempool can hold, without failed conversions, take a highest tip under it at every step, if and only if the EVM and the comparison reading equal it and the heap's does not exceed it, or both it and the comparison reading are the largest price |
| BlockBuilding.LowerTipFirst | mempool/iterator.go:212-270 | in every other case, pending transactions the pool admits, a snapshot built from regular transactions, and a run over them that takes a lower tip first |
| BlockBuilding.RunExists | mempool/iterator.go:118-232 | every pair of pools can be run to the end |
| BlockIterator.CosmosPartIsDetermined | mempool/cosmos_ordering.go:25-35 | over one snapshot the Cosmos transactions always come in the same order, whatever the EVM pools hold and whatever can be converted |
| BlockIterator.EVMMempoolIterator.constructor | mempool/iterator.go:77-114 | resolves the first transaction; the Cosmos iterator may have been ordered under another base fee |
| BlockIterator.EVMMempoolIterator.ResolveCurrentTx | mempool/iterator.go:175-210 | the current transaction and both next actions, from the two best heads |
| BlockIterator.EVMMempoolIterator.HandleNextEvmAction | mempool/iterator.go:135-151 | shifts or skips the best EVM account, and nothing else |
| BlockIterator.EVMMempoolIterator.HandleNextCosmosAction | mempool/iterator.go:153-166 | advances the best Cosmos bucket, and nothing else |
| BlockIterator.EVMMempoolIterator.Next | mempool/iterator.go:118-133 | each pool takes its recorded action, and the next transaction is resolved |
| BlockIterator.Drain | mempool/iterator.go:118-232 | iterating to the end is a run over what both pools hold, leaving what the EVM iterator still holds |
| BlockBuilding.SnapshotOf | mempool/cosmos_ordering.go:125-139 | copies every bucket's transactions |
| BlockBuilding.BuildBlock | mempool/mempool.go:399-415 | from pending accounts and store to block: every stored transaction once and in bucket order, per account the longest convertible prefix of its longest payable prefix unless the run stops early, all of the latter when conversions succeed, and then each with a highest tip if the fees agree |
| Reserver.HoldCounts | mempool/reserver/reserver.go:125-152 | holding counts every occurrence of every address and touches no other owner |
| Reserver.ReleaseCounts | mempool/reserver/reserver.go:154-186 | releasing undoes the count and frees an address exactly when it reaches zero |
| Reserver.HoldThenRelease | mempool/reserver/reserver.go:125-186 | release is the inverse of hold |
| Reserver.HoldIsExclusive | mempool/reserver/reserver.go:125-152 | with or without counts: after holding, the handle owns the addresses, every other address has the owner it had, and no other handle can hold or release them |
| Reserver.ReleaseFrees | mempool/reserver/reserver.go:154-186 | a handle without counts frees exactly what it releases |
| Reserver.ReservationHandle.Hold | mempool/reserver/reserver.go:125-152 | all of the addresses or none; it fails exactly when another handle owns one |
| Reserver.ReservationHandle.Release | mempool/reserver/reserver.go:154-186 | all of the addresses or none; it fails exactly when one is not owned |
| Reserver.ReservationHandle.Has | mempool/reserver/reserver.go:188-194 | true exactly when another handle owns the address |
| PoolReservations.BeginConserves | mempool/recheck_pool.go:178-183 | reserving for an insert keeps the counts equal to the holders |
| PoolReservations.FailConserves | mempool/recheck_pool.go:185-192 | a failed insert can release, and gives back exactly what it took |
| PoolReservations.EvictConserves | mempool/recheck_pool.go:622-643 | a replaced transaction can be released, and its count goes |
| PoolReservations.UnreserveConserves | mempool/recheck_pool.go:524-535 | a removed transaction can be released, and its count goes |
| PoolReservations.StepConserves | mempool/recheck_pool.go:178-232 | every step, by whichever goroutine, keeps the counts equal to the holders |
| PoolReservations.ReservationsAreConserved | mempool/recheck_pool.go:178-232 | in every reachable state: an address's count is pooled plus in-flight transactions it signs, it is owned exactly when positive, no other handle can take or free it, and in-flight reservations can be released |
| PoolReservations.SameKeyIff | mempool/recheck_pool.go:238-252 | two transactions have one place in the pool exactly when their first signers agree on address and nonce |
| PoolReservations.AddressIsRightAligned | mempool/recheck_pool.go:645-656 | a reserved address holds the last twenty bytes of the signer, padded with zeros on the left |
| RecheckPass.CascadeIff | mempool/recheck_pool.go:467-514 | removed unchecked exactly when an earlier transaction that was removed unchecked, or refused by the ante handler with another error than a wrong sequence, shares a signer at a strictly lower sequence |
| RecheckPass.RecheckedIff | mempool/recheck_pool.go:475-505 | a transaction that is rechecked is marked, refused as too old, or refused otherwise, exactly as the ante handler accepts it, answers a wrong sequence, or answers another error on the state its predecessors led to |
| RecheckPass.MarkedOrRemoved | mempool/recheck_pool.go:454-516 | readable transactions are exactly one of marked or removed, and a marked one passes the ante handler on the state its predecessors led to |
| RecheckPass.PassIsDetermined | mempool/recheck_pool.go:442-517 | outcomes are a function of state, transactions and ante handler |
| RecheckPass.IsInvalid | mempool/recheck_pool.go:467-473 | the per-signer map answers the cascade question |
| RecheckPass.Condemn | mempool/recheck_pool.go:507-514 | lowering the map adds exactly the signers' sequences |
| RecheckPass.CheckOne | mempool/recheck_pool.go:454-516 | one transaction's turn yields the specified outcome, state and lists |
| RecheckPass.RunPass | mempool/recheck_pool.go:442-522 | the pass computes the specified outcomes, working state, marked and removed transactions, and stops where it is cancelled |
| RecheckPool.RecheckMempool.Insert | mempool/recheck_pool.go:178-232 | succeeds exactly when signers are readable and free, the ante handler passes, there is room and replacement is allowed; a failed insert changes nothing; a successful one updates pool, state and snapshot, and an entry of the replaced transaction leaves the snapshot exactly when the new one's own signers and nonces are stored |
| RecheckPool.RecheckMempool.ReserveTx | mempool/recheck_pool.go:263-278 | reserves every signer's address or nothing |
| RecheckPool.RecheckMempool.ReleaseTx | mempool/recheck_pool.go:185-192 | gives back exactly what the insert took |
| RecheckPool.RecheckMempool.AddToPool | mempool/recheck_pool.go:622-643 | replaces under the same key after releasing, and conserves reservations |
| RecheckPool.RecheckMempool.MarkInserted | mempool/recheck_pool.go:547-556 | if the same signers are stored at the same nonces, what depends on them leaves the snapshot; otherwise the transaction is added to it |
| RecheckPool.RecheckMempool.RunRecheck | mempool/recheck_pool.go:414-537 | runs the pass, rebuilds the snapshot from what it marked and, unless cancelled, removes and releases exactly what it rejected |
| RecheckPool.RecheckMempool.RemoveAll | mempool/recheck_pool.go:524-535 | removes and releases exactly the given transactions |
| RecheckPool.StoredIsRemoved | mempool/recheck_pool.go:547-556 | if the same signers are stored at the same nonces, at least their entry is invalidated |
| RecheckPool.ReplacedLeavesIff | mempool/recheck_pool.go:544-556 | an entry of the transaction that the pool replaces leaves the snapshot exactly when the new one's own signers and nonces are stored and invalidate it |
| RecheckPool.ReplacedCanStay | mempool/recheck_pool.go:544-556 | a transaction of two signers, replaced by one of the first signer alone at the same nonce, stays in the snapshot beside it |
| RecheckPool.FillSnapshot | mempool/recheck_pool.go:539-542 | adds the marked transactions to an empty snapshot, in order |
| RecheckPool.RebuiltFrom | mempool/recheck_pool.go:539-542 | a rebuilt snapshot holds nothing but marked transactions |
| RecheckPool.RebuiltHolds | mempool/recheck_pool.go:539-542 | and the signers and nonces of each of them |
| RecheckLoop.StepKeepsInv | mempool/recheck_pool.go:362-409 | every step of loop, callers and runs keeps the loop invariant |
| RecheckLoop.RecheckLoopIsSafe | mempool/recheck_pool.go:313-409 | over every run: at most one recheck, each launch on the latest requested head, no channel closed twice, and after the exit every channel handed out is closed |
| RecheckLoop.GrantIsServedByLaterRun | mempool/recheck_pool.go:313-409 | before the exit, a caller's channel is closed only by a recheck launched after its request |
| RecheckLoop.IdleMeansLaunched | mempool/recheck_pool.go:373-397 | whenever the loop waits with no recheck running, the latest request has been launched on its head; a request that has not waits for an earlier recheck that it has cancelled |
| RecheckLoop.RequestCanBeLaunched | mempool/recheck_pool.go:373-397 | from every reachable state before shutdown, at most five steps of the loop and the running recheck lead to the launch of the latest request |
| RecheckLoop.ExitIsNear | mempool/recheck_pool.go:398-408 | from every state of the invariant, a shutdown and at most four other steps lead to the exit |
| RecheckLoop.CancelledIffSuperseded | mempool/recheck_pool.go:359-409 | a running recheck is told to stop exactly when a request has followed its launch, or the loop is shutting down |
| ResetLoop.StepKeepsInv | mempool/txpool/txpool.go:151-269 | every step keeps the loop invariant |
| ResetLoop.ResetsAreSequential | mempool/txpool/txpool.go:151-269 | over every run: resets never overlap, and each goes from the head where the previous one ended to the latest head announced before its launch |
| ResetLoop.WaiterIsAnswered | mempool/txpool/txpool.go:182-269 | a waiter not displaced is waiting or answered once; success names a completed reset launched after its request; after the exit it is answered |
| ResetLoop.IdleIsCaughtUp | mempool/txpool/txpool.go:182-264 | whenever the loop waits with no reset running, the pool is at the latest head announced, and every waiter not displaced has its answer |
| ResetLoop.IdleIsNear | mempool/txpool/txpool.go:182-264 | from every state of the invariant before the exit, at most five launches and reports lead there |
| ResetLoop.ExitEndsResets | mempool/txpool/txpool.go:208-216 | after the exit, a running reset finds the loop gone, and ends |
| ResetLoop.DisplacedIsNeverAnswered | mempool/txpool/txpool.go:256-264 | a displaced waiter gets no answer in any run |
| ResetLoop.SecondSyncDisplaces | mempool/txpool/txpool.go:256-264 | from any initial state, two requests in a row displace the first caller |
| ResetLoop.DisplacedIff | mempool/txpool/txpool.go:256-264 | nobody is displaced exactly when no request is made while another is outstanding |
| SubpoolAdd.BatchHolds | mempool/txpool/txpool.go:351-366 | every accepted transaction has its place in its subpool's batch |
| SubpoolAdd.Split | mempool/txpool/txpool.go:351-366 | each transaction goes to the first subpool that accepts it, in order |
| SubpoolAdd.Join | mempool/txpool/txpool.go:373-384 | errors are handed back to the transactions they belong to |
| SubpoolAdd.Add | mempool/txpool/txpool.go:344-385 | every transaction gets its own subpool's error, or the unsupported error |
| Web3Codec.SovIsLength | ethereum/eip712/web3.pb.go:176-178 | the size computed from the bit length is the length of the varint |
| Web3Codec.ReadVarintBack | ethereum/eip712/web3.pb.go:188-201 | reading a varint back gives the number and stops right behind it |
| Web3Codec.SizeIsLength | ethereum/eip712/web3.pb.go:156-174 | the announced size is the size of the wire form |
| Web3Codec.EncodeVarint | ethereum/eip712/web3.pb.go:145-155 | writes exactly the varint, ending before the offset, and nothing else |
| Web3Codec.MarshalToSizedBuffer | ethereum/eip712/web3.pb.go:118-143 | filling backwards leaves exactly the wire form at the end of the buffer, and the rest untouched |
| Web3Codec.Marshal | ethereum/eip712/web3.pb.go:103-111 | the wire form, of exactly the announced size |
| Web3Codec.DecodeField | ethereum/eip712/web3.pb.go:186-309 | on arbitrary bytes, a decoded field moves the cursor forward and stays in bounds |
| Web3Codec.SkipFrom | ethereum/eip712/web3.pb.go:317-394 | on arbitrary bytes, skipping moves the cursor forward |
| Web3Codec.RoundTrip | ethereum/eip712/web3.pb.go:182-316 | decoding an encoding gives the message back |
| Web3Codec.DecodeIsFold | ethereum/eip712/web3.pb.go:182-394 | decoding any sequence of well-formed fields, known and unknown, nested groups included, applies the known ones in order and skips the others |
| Web3Codec.EncodeIsItems | ethereum/eip712/web3.pb.go:118-143 | an encoding is the sequence of the fields that are not empty, as numbers 1, 2 and 3 |
| Web3Codec.DecodeVarint | ethereum/eip712/web3.pb.go:188-201 | the shift loop computes the specified number and cursor, or the overflow and end-of-data errors |
| Web3Codec.SkipWeb3 | ethereum/eip712/web3.pb.go:317-394 | the loop with nested groups computes the specified end |
| Web3Codec.Unmarshal | ethereum/eip712/web3.pb.go:182-316 | decodes any bytes as specified: ends, stays in bounds, later fields override, unknown ones are skipped |
| Web3Codec.MarshalThenUnmarshal | ethereum/eip712/web3.pb.go:103-316 | applying one after the other gives every message back |
| Eip712Types.NestedPathIsClean | ethereum/eip712/types.go:338-360 | the path of a nested object becomes a letters-and-digits name that begins with `Type` |
| Eip712Types.NestedName | ethereum/eip712/types.go:338-360 | that name is `Type` and the letters and digits of the path, each word with its first letter in upper case |
| Eip712Types.OverfullIsLarge | ethereum/eip712/types.go:282-312 | a map in which all keys of one name are taken holds a thousand definitions beside the base types |
| Eip712Types.CleanIsFixed | ethereum/eip712/types.go:204-217 | sanitizing such a name again changes nothing, so the recorded field type is still the key of its definition |
| Eip712Types.KeysMissBaseTypes | ethereum/eip712/types.go:314-318 | a generated key ends in a digit and is never a base type |
| Eip712Types.DescendingIsTotal | ethereum/eip712/types.go:243-245 | the comparison of names is a strict total order |
| Eip712Types.SanitizeTypedef | ethereum/eip712/types.go:338-360 | the loops compute the sanitized name |
| Eip712Types.TypesAreEqual | ethereum/eip712/types.go:320-336 | true exactly for equal field lists |
| Eip712Types.SortedJsonKeys | ethereum/eip712/types.go:226-248 | the object's names in descending order |
| Basics.SortIsIncreasing | ethereum/eip712/types.go:233-247 | sorting distinct keys under a strict total order puts them in order, none lost |
| Basics.SortedIsUnique | mempool/tx_store.go:198-205 | the sorted keys are determined by the set, so they do not depend on the map order |
| Eip712Types.EthType | ethereum/eip712/types.go:362-379 | a type that fits the scalar; empty exactly for nulls, arrays and objects |
| Eip712Types.MsgRootType | ethereum/eip712/types.go:117-132 | fails exactly when there is no non-empty type string; otherwise `Type` and its last segment |
| Eip712Types.DescribesStill | ethereum/eip712/types.go:282-313 | a definition goes on describing its object whatever is added later |
| Eip712Types.TypeMap.AddTypesToRoot | ethereum/eip712/types.go:282-312 | the first of a thousand keys that is free or holds this list; the map gains that entry only; fails exactly when all are taken |
| Eip712Types.TypeMap.AddTypes | ethereum/eip712/types.go:147-224 | no definition is overwritten; the returned key is one of the message's root type or of the object's path, and its definition is exactly the object's field list, recursively; every reference stays defined; the duplicates error means that a thousand keys of one name are taken |
| Eip712Types.TypeMap.AddField | ethereum/eip712/types.go:163-221 | a field is listed exactly when it has a type, and the type fits its value |
| Eip712Types.AddMsgTypesToRoot | ethereum/eip712/types.go:93-141 | fails on a missing or non-object message and on a missing type string, exactly; otherwise describes it and appends one line to `Tx` |
| Eip712Types.CreateEip712Types | ethereum/eip712/types.go:39-91 | base types untouched, `Tx` extended by one line per message whose type, named after the message's own type string, describes that message, and every referenced type defined; the duplicates error means more than a thousand objects |
| KvIndexer.KeyOrderIsBlockOrder | indexer/kv_indexer.go:169-174 | byte order of index keys is (height, index) order, and keys are distinct |
| KvIndexer.ParseInvertsBuild | indexer/kv_indexer.go:227-233 | parsing a key gives back its height, negative ones included |
| KvIndexer.HashLookup | indexer/kv_indexer.go:136-150 | a lookup by hash finds the last record saved under it, or nothing exactly when there is none |
| KvIndexer.PositionLookup | indexer/kv_indexer.go:152-162 | a lookup by position finds the last record of the hash last saved there |
| KvIndexer.LookupAgreesIff | indexer/kv_indexer.go:152-162 | it is the record of that position exactly when its hash was not saved again since |
| KvIndexer.RepeatedHashDisagrees | indexer/kv_indexer.go:152-162 | a hash indexed at two heights: the first position answers with the second's record |
| KvIndexer.IteratorKey | indexer/kv_indexer.go:176-200 | the least or greatest key in a range |
| KvIndexer.ExtremeHeight | indexer/kv_indexer.go:176-200 | the extreme index key belongs to the extreme saved height |
| KvIndexer.BlockSaveAt | indexer/kv_indexer.go:60-118 | a block's records are numbered 0, 1, 2, ... without a gap, each with its message's hash; after a non-zero code it has the gas limit and is failed, otherwise gas and failure are those of the events |
| KvIndexer.BlockSaveOf | indexer/kv_indexer.go:60-118 | every message of an expected, decodable Ethereum transaction with parsed events has its record, unless the code is zero and the events do not mention it |
| KvIndexer.BlockSavesInOrder | indexer/kv_indexer.go:60-118 | records follow transaction and message order, so no message has two |
| KvIndexer.BlockRunningGas | indexer/kv_indexer.go:82-112 | a record's cumulative gas is the 64-bit sum over its own transaction's records so far |
| KvIndexer.CommitReplays | indexer/kv_indexer.go:215-225 | writing the batch equals saving the records one by one |
| KvIndexer.IndexedBlockIsFound | indexer/kv_indexer.go:152-162 | after indexing a block with distinct hashes, on any history, each position finds its own record |
| KvIndexer.KVIndexer.IndexBlock | indexer/kv_indexer.go:52-124 | the store becomes the replay of its history followed by exactly the block's records |
| KvIndexer.KVIndexer.BuildBatch | indexer/kv_indexer.go:55-119 | the batch holds exactly the writes of the block's records |
| KvIndexer.KVIndexer.IndexTx | indexer/kv_indexer.go:82-118 | one transaction's messages, numbered on from the block's counter |
| KvIndexer.KVIndexer.LoadFirstBlock | indexer/kv_indexer.go:189-200 | the least saved height, or -1 exactly when nothing was saved |
| KvIndexer.KVIndexer.LoadLastBlock | indexer/kv_indexer.go:176-187 | the greatest saved height, or -1 exactly when nothing was saved |
| FeeChecker.CeilIff | ante/evm/fee_checker.go:109 | rounding up gives the least whole amount not below the decimal |
| FeeChecker.EffectiveGasPrice | ante/evm/fee_checker.go:174-178 | the largest price within the fee cap and within base fee plus tip |
| FeeChecker.FindTipCap | ante/evm/fee_checker.go:67-81 | the first dynamic-fee option decides; without one, the largest 64-bit price |
| FeeChecker.TipCapIs | ante/evm/fee_checker.go:67-81 | the tip cap is that of the first dynamic-fee option, zero if it names none, and the largest 64-bit price without one |
| FeeChecker.BaseFeeIs | ante/evm/fee_checker.go:60-65 | a base fee that is unset or disabled is zero |
| FeeChecker.CheckDynamicFee | ante/evm/fee_checker.go:48-120 | rejects exactly negative tips, zero gas and offers below the base fee; otherwise charge and priority are as `Accepted` says |
| FeeChecker.AmountHolds | ante/evm/fee_checker.go:94-111 | the charge is at most the offer, at least the base fee's and at most base fee and tip's, rounded up, and exactly the latter when the offer covers it |
| FeeChecker.PriorityHolds | ante/evm/fee_checker.go:112-117 | the two truncating divisions give the whole units paid above the base fee, capped at the largest 64-bit number |
| FeeChecker.PriorityIsHeadersIff | ante/evm/fee_checker.go:20-28 | the priority is the effective price in units of the reduction, as the header says, exactly when the base fee is at most the remainder of the price, or what is paid above it fills the 64-bit range |
| FeeChecker.HeaderPriorityFails | ante/evm/fee_checker.go:112-117 | whatever the unit: two units for one unit of gas, at base fee and tip of one unit each, have priority one where the header gives two |
| FeeChecker.LimitedByOfferIff | ante/evm/fee_checker.go:97-111 | when the offer limits the price, it is charged in full exactly when the division by gas loses less than one coin |
| FeeChecker.GetTxPriority | ante/evm/fee_checker.go:152-172 | the loop's result in 64-bit range; division by zero exactly for a fee without gas |
| FeeChecker.CoinPriorityCounts | ante/evm/fee_checker.go:157-163 | a coin's priority is the whole number of units it pays for each unit of gas, capped at the largest 64-bit number |
| FeeChecker.PriorityIsMinIff | ante/evm/fee_checker.go:152-172 | it is the smallest coin's priority exactly when no coin's is zero or the last one's is |
| FeeChecker.ZeroIsForgotten | ante/evm/fee_checker.go:152-172 | whatever the unit, if it is more than one: a coin too small to count, followed by one that does, is forgotten |
| FeeChecker.ReachesIffPays | ante/evm/fee_checker.go:132-146 | reaching a required amount means paying the validator's positive price per unit of gas in some denomination |
| FeeChecker.CheckMinGasPrices | ante/evm/fee_checker.go:122-150 | insufficient exactly when prices are checked, one is positive, and none is paid; division by zero exactly for any other fee without gas; otherwise the fee is charged as offered |
| FeeChecker.CheckFee | ante/evm/fee_checker.go:28-58 | genesis and pre-London heights use validator prices, all others the dynamic fee, and each path accepts exactly under its own conditions, a disabled base fee counting as zero; priority is always in 64-bit range |

## Left out

- Elliptic curves, share proofs, signatures and the ante handler: parameters of the models that call them.
- Vote-extension validation by the SDK: `InjectedCommit.Certifies` states the check that the trim's comment names; the SDK's own code is not part of this model.
- Trim: voting powers are summed without 64-bit overflow, since CometBFT caps the total power; completeness assumes non-negative powers.
- PoisonCache.Cache.Get: assumes that a finalized epoch's inputs are frozen, and that the epoch is not 0, at which both callers have returned.
- DecryptShares: derivation of epoch shares from the node's key is a parameter.
- Complaint building, the extend-vote and verify-vote handlers: single-pass filters over keepers outside this model.
- TxStore, RecheckPool: all signers share one length, which may be any but seven, the length of the name of the unkeyed bucket; `TxKeys.JoinIsAmbiguous` shows why the keys need one length.
- EvmOrdering.TransactionsByPriceAndNonce.constructor: account queues are non-empty, as the pool's `Pending` hands them out.
- TrimLimits.ExactIffFine: beyond CometBFT's largest block of 100 MiB the failing commits hold extensions above 1 MiB; what an extension says is not modelled, only how long it is.
- BlockBuilding.HighestIffFeesAgree: all fees have 256 bits, as `currentBaseFee` and the EVM filter ensure; the minimum tip has already cut the pending lists.
- BlockIterator.EVMMempoolIterator.constructor: both iterators use the chain's coin denomination.
- RecheckPool.RecheckMempool.Insert: the SDK priority pool is a map from first signer and nonce with a size limit; a negative limit, which accepts and drops, is not modelled, and neither is the pool's own priority order.
- RecheckPool.RecheckMempool.RunRecheck: the latest state can be read; the waiting for a height around the snapshot is not part of this model.
- Removal outside of the recheck pass (mempool/recheck_pool.go:236-258): the same release step as after a pass.
- RecheckLoop, ResetLoop: safety over every run; that a step is eventually taken is up to the scheduler.
- Web3Codec.Unmarshal: inputs are shorter than 2^62 bytes, so that cursor arithmetic starts in range.
- Eip712Types: JSON is a finite tree with distinct names, not text; names with path characters of the JSON library, and title case beyond letters, digits and underscores, are outside the main statements.
- Payload flattening and the legacy reflection-based schema builder: string surgery on JSON text.
- KvIndexer.KVIndexer.IndexBlock: blocks hold fewer than 2^31 messages and heights are positive; database errors and event parsing are not modelled.
- FeeChecker: overflow panics of the decimal type are not modelled; coin amounts are not negative and denominations are found by scanning.
- FeeChecker.CheckMinGasPrices: gas is within the signed 64-bit range, which basic validation has established; division by zero is an error value here and a recovered panic there.
- Logging, metrics, timeouts and wall-clock time: no effect on what is stated.
- The modules under `x/`, precompiles, RPC, server and client code: thin layers over keepers and I/O.
