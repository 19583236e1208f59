# Chain and transaction pool core: a Dafny model

This project models the state-keeping core of the node and proves what its parts promise each other: the canonical
chain and its readers, the section indexer, gas and fee accounting, the transaction pool with its scheduler, and the
derivation path notation of the wallet.

| file | models |
|---|---|
| `ChainTree.dfy` | the block tree; a hash is the block it was computed from, so it is injective and fixes the ancestry |
| `HeaderChain.dfy` | header batches, rewinds, ancestor queries |
| `BlockChain.dfy` | full blocks, reorganisations, the transaction lookup index, side chain storage |
| `ChainReaders.dfy` | block hash access of the virtual machine, the header query of the wire protocol |
| `ChainIndexer.dfy` | the section indexer as a state machine over arbitrary interleavings, and its methods |
| `StateTransition.dfy`, `StateProcessor.dfy` | message application, the gas pool, the transactions of a block |
| `Heap.dfy` | the binary heap operations of Go's container/heap |
| `TxItems.dfy`, `TxSortedMap.dfy`, `TxList.dfy` | an account's list: plain nonce maps, and the heap, cache and caps that refine them |
| `TxPriced.dfy`, `TxLookup.dfy` | the lazily cleaned price heap, the lookup of all transactions, virtual nonces |
| `PoolAccount.dfy`, `PoolBook.dfy` | what the pool operations do to one account and to all lists; the nonce intervals |
| `PoolLevels.dfy`, `PoolQueueLimit.dfy`, `PoolReset.dfy` | the fairness limit on pending lists, the limit on queues, the transactions taken back by a reorganisation |
| `PoolLaws.dfy` | why transactions leave the pool and what the stages of a run achieve, in terms of what is pooled |
| `TxPool.dfy` | the pool itself: every operation, whole runs, and any sequence of events |
| `TxScheduler.dfy` | the request-coalescing loop in front of the background runs |
| `DerivationPath.dfy` | parser and printer of wallet paths |

Conventions of the model:

- The database is finite maps and sets. A transaction is a value with a fixed sender; distinct values have distinct hashes.
- Go's map iteration order, random tie breaks, clocks, the virtual machine, the state database and callbacks are
  parameters or free choices of a method.
- A run-time panic is an outcome that a contract names (`AddGas`, `Add`), or a precondition where the source has no other answer.
- The pool keeps its lists as nonce to transaction maps and works on them with the functions of `TxItems.dfy`
  (`Executable`, `AfterRun`, `Lowest` and so on); `TxList.List` is the proof that the heap and cache based list computes
  exactly those. The view of the pool as a value is called a book.
- Unsigned wrap-around is written out where it can be seen: virtual nonces, block number arithmetic of the readers, gas.

Properties that the code has only under a condition are stated with that condition, in both directions, next to an
example where it fails:

- header batches that were known beforehand (`KeepsFollowing`, `KnownTakeoverExample`);
- canonical entries left above a new head (`NothingAboveIff`, `LeftoverExample`), which mislead the readers of the
  canonical map: distant ancestors (`AnswersRightIff`), header queries (`BackwardRightIff`, `ForwardRightIff`,
  `MisledExample`) and the section indexer (`SectionsAreCanonical`, `StaleSectionsExample`);
- resets that lower a nonce (`RunSettlesIff`, `LoweredGapExample`);
- virtual nonces that fall behind the state in a reset (`RestsAbreastIff`, `FallenBehindExample`). An account is settled
  when its pending nonces are exactly those from the state nonce up to the virtual nonce; it is abreast when the virtual
  nonce is not below the state nonce, so that the next executable transaction will be promoted;
- slots freed for a new transaction, when the price heap holds one twice (`FreesWantedIff`, `RepeatedEntryExample`);
- full pools of large transactions without local accounts, which abort (`Add`, `AbortExample`);
- promotion of the largest nonce (`PromoteSettledIff`, `LargestNonceExample`).

## Model

| member | source | states |
|---|---|---|
| Headers.HeaderChain.constructor | core/headerchain.go:79-116 | a chain holding its genesis block is valid: parent-closed, exact total difficulties, canonical map equal to the head's path |
| Headers.HeaderChain.Open | core/headerchain.go:79-116 | a stored chain is opened at the header the head block marker names, or at genesis when that is not stored |
| Headers.HeaderChain.WriteHeaders | core/headerchain.go:149-297 | from any sound store: every header of a connected batch is stored with its exact total difficulty, counts and status are exact; a heavier last header becomes the head and a lighter one never, of equal weight a lower one becomes the head and a higher one never, and at equal number the coin decides; the head stays heaviest, and lowest of the heaviest, if it was; a canonical map that was the head's path still is iff no takeover by known headers happens (`KeepsFollowing`), in particular from a heaviest head whenever the batch holds an unknown header; an unknown ancestor changes nothing |
| Headers.HeaviestKeepsFollowing | core/headerchain.go:209-273 | from a heaviest head the only batches after which the map stops following the head are all-known ones of another head that takes over |
| Headers.HeaderChain.Serve | core/headerchain.go:149-297 | any sequence of imports and rewinds keeps the store parent-closed, total difficulties exact and canonical entries stored; imports never make the head lighter, or higher at the same weight, and keep it heaviest, and lowest of the heaviest; the map follows the head as long as no step is a takeover by known headers |
| Headers.ImportChooses | core/headerchain.go:213-224 | the head after an import is the better of the old head and the last header; no stored header is ever heavier than a best head, or as heavy and lower |
| Headers.StoreBatch | core/headerchain.go:157-196 | the accumulated difficulty of each stored header equals the sum along its ancestry; exactly the unknown headers are inserted and the first of them is found |
| Headers.MarkCanonical | core/headerchain.go:235-273 | deleting above, walking back to the canonical chain and writing the markers keeps every entry a stored header of its number, and turns the old head's path into the new one's iff no known header lies directly above the old head, when some header was unknown |
| Headers.WalkBack | core/headerchain.go:244-256 | from any map of stored headers the backward walk terminates where the map agrees with the chain of the batch's parent, and has written exactly that chain above |
| Headers.WalkedPath | core/headerchain.go:244-256 | if the map was the old head's path, it then is the path of the batch's parent as far as that reaches |
| Headers.HeaviestAfter | core/headerchain.go:209-224 | after an import the old head or the last header of the batch has maximal total difficulty |
| Headers.KnownTakeover | core/headerchain.go:261-273 | after a takeover by an all-known batch the canonical map is the new head's path iff that head is the old one |
| Headers.KnownTakeoverExample | core/headerchain.go:261-273 | a chain built by three imports whose map is not the path of its head |
| Headers.HeaderChain.SetHead | core/headerchain.go:558-635 | on any parent-closed store, whatever the canonical map: the rewind ends at the head's ancestor at the target, removes every header, total difficulty and canonical entry above it on all forks and keeps all below; a map that was the head's path is the new head's path; the target is the requested one unless the callback forces a lower one; every force is obeyed |
| Headers.UnforcedTarget | core/headerchain.go:582-589 | a callback can only lower the target, and one that never forces leaves it |
| Headers.ForcedObeys | core/headerchain.go:564-589 | the final target obeys every force that the callback gives on a block stepped onto, and is the requested one or one of those |
| Headers.LeftoverHeights | core/headerchain.go:600-606 | the first round finds every height above the head that still has headers |
| Headers.HeaderChain.GetAncestor | core/headerchain.go:420-452 | on any parent-closed store with canonical entries of stored headers: unknown starts and too low heights give nothing, a parent is exact, and a distant ancestor is the canonical entry if the canonical chain is met within the budget, else where the walk ends; the budget is spent on steps down to where the canonical chain is met and no further, and not at all on a parent |
| Headers.JumpIsWalk | core/headerchain.go:432-438 | on a linked map, one whose every entry has the entry below as its parent, a jump lands where the walk would |
| Headers.AnswersRightIff | core/headerchain.go:432-438 | all answers about distant ancestors are right, whenever given, iff canonical entries at least two apart are ancestors of each other, and neighbouring ones too where a stored header forks off above them |
| Headers.LinkedAnswer | core/headerchain.go:420-452 | on a linked map the answer is the exact ancestor, and it is given iff the canonical chain is met within the budget or the budget reaches the ancestor |
| Headers.LinkedIsTrusted | core/headerchain.go:420-452 | a linked map satisfies the condition |
| Headers.PathIsLinked | core/headerchain.go:235-273 | the path of a head is a linked map |
| Blocks.BlockChain.constructor | core/blockchain.go:709-735 | a chain holding its genesis block is valid, with the lookup index of that block |
| Blocks.FindFork | core/blockchain.go:2173-2217 | the walk ends at the highest common block and collects both branches and the deleted transactions; it fails iff no common block is reachable through stored blocks |
| Blocks.ForkPointExists | core/blockchain.go:2193-2217 | two chains of one parent-closed store always have a reachable fork point |
| Blocks.ForkIffStored | core/blockchain.go:2173-2217 | from a head whose ancestry is stored, the walk of a reorganisation succeeds iff the whole ancestry of the new block is stored |
| Blocks.BlockChain.WriteHeadBlock | core/blockchain.go:775-802 | the number, lookup entries and head are written; header and fast sync heads follow iff the block was not canonical |
| Blocks.BlockChain.Reorg | core/blockchain.go:2117-2262 | the new branch below its head becomes canonical and indexed, entries of transactions that only the old branch had are deleted, numbers are cleared from above the current block on |
| Blocks.ReorgIndex | core/blockchain.go:2234-2251 | the index after a reorganisation and the head write equals the index scanned from the new chain, although the new head's transactions were left out of the added ones |
| Blocks.BlockChain.WriteKnownBlock | core/blockchain.go:1482-1502 | whatever stored block becomes head, index and canonical map follow it and the chain stays valid; it fails without effect iff an ancestor of the block is known by its header only |
| Blocks.NothingAboveIff | core/blockchain.go:2252-2260 | nothing stays canonical above the new head iff, for a child of the old head, there was nothing above it and, for any other block, its branch has two blocks or it is at least as high as the old head |
| Blocks.Overtaken | core/blockchain.go:2252-2260 | four imports after which the map holds a block of the abandoned chain above the head |
| Blocks.LeftoverExample | core/blockchain.go:2252-2260 | one import more, and the entry above the head still remains |
| Blocks.ExtendHead | core/blockchain.go:1594-1623 | a child of the head always becomes the head, and entries above it remain |
| Blocks.BlockChain.WriteBlockWithoutState | core/blockchain.go:1467-1478 | the stored total difficulty stays exact and the store parent-closed |
| Blocks.BlockChain.WriteBlockWithState | core/blockchain.go:1506-1623 | a heavier block becomes the head and a lighter one does not, of equal weight a lower one becomes the head and a higher one does not, at equal number a head of the local miner stays, else its own block wins, else the coin decides; canonical map and index follow the head; a parent without total difficulty changes nothing, and a parent known by its header only lets the block be stored but not become head |
| Blocks.BlockChain.InsertSideBlocks | core/blockchain.go:1997-2044 | difficulties accumulated over a side chain equal the sums along the ancestry; it stops iff a block shares its state root with the canonical block of its number |
| Blocks.BlockChain.StoreHeaders | core/headerchain.go:157-195 | a header batch stored in the same database keeps all total difficulties exact and the block chain valid |
| Blocks.BlockChain.Serve | core/blockchain.go:1506-1623 | over any interleaving of full imports, side chains and header batches on one store, every total difficulty is the sum along its ancestry and the head never gets lighter |
| Blocks.IndexLocates | core/blockchain.go:781-783 | scanning a chain indexes exactly its transactions, each at the number of its block |
| Blocks.IndexUnique | core/blockchain.go:781-783 | with unique transactions the indexed number is the only one |
| Readers.HashReader.GetHash | core/evm.go:68-99 | for every sequence of queries the growing cache answers what a plain parent walk answers |
| Readers.WalkFindsAncestor | core/evm.go:84-97 | on a parent-closed store that walk yields the ancestor of the number, or nothing at or above the block |
| Readers.GetBlockHeaders | eth/handler.go:415-483 | on any such store: replies start at the origin, are stored and have numbers spaced skip + 1, in number mode modulo 2^64; they are along one chain for parents always, and for wider spacing if the canonical entries satisfy the exact condition of `BackwardRightIff` or `ForwardRightIff`; forward replies follow the step function to its end; on a linked map a short canonical reply means that the chain has no further header; the limits hold; a reverse hash query gets min(limit, number / (skip + 1) + 1) replies whenever skip is 0, or the map is linked and the origin's chain is canonical at some number at most 100 below it; if it is canonical at none of them, it gets what the first min(number, 100) numbers below hold |
| Readers.StepBack | eth/handler.go:439-447 | the reverse step as a function of map, origin and budget; exact ancestor under that condition |
| Readers.BackReaches | eth/handler.go:439-447 | going back from any origin, the query stops iff it is too close to the genesis block, or its 100 steps do not suffice and the origin's chain is not canonical within them |
| Readers.FallenCount | eth/handler.go:415-447 | the exact number of replies to a reverse hash query |
| Readers.StepForward | eth/handler.go:448-470 | the forward step as a function of map and origin, with the overflow case refused; a canonical descendant under that condition |
| Readers.BackwardRightIff | eth/handler.go:439-447 | all reverse steps stay on one chain iff all answers about distant ancestors are right |
| Readers.ForwardRightIff | eth/handler.go:448-470 | all forward steps stay on one chain iff canonical entries at least two apart are ancestors of each other |
| Readers.MisledExample | eth/handler.go:448-470 | a chain built by imports on which the grandparent of a header is answered wrongly and a forward query replies with two headers that are not on one chain |
| Indexer.ChainIndexer.Notify | core/chain_indexer.go:243-300 | without a reorganisation the known count grows iff a higher count of sections is complete under exactly the required confirmations and the checkpoint has been reached and matches, and then it is that count and the worker is woken, nothing else changing; a reorganisation cuts the known and stored counts to the sections that end at or below its head, not below the checkpoint, with their heads, and is cascaded iff that lowers the cascaded head |
| Indexer.NewHeadMeans | core/chain_indexer.go:243-300 | this of the notification as a function, by block numbers alone |
| Indexer.ChainIndexer.Start | core/chain_indexer.go:319-337 | the worker picks the first missing section and its base after rolling back stale sections |
| Indexer.ChainIndexer.ProcessSection | core/chain_indexer.go:388-417 | header by header processing, each read seeing an arbitrary database |
| Indexer.ProcessDescends | core/chain_indexer.go:388-417 | however the chain changed meanwhile, a processed section's head descends from its base by exactly the section size |
| Indexer.ProcessCompletes | core/chain_indexer.go:388-417 | over an unchanging linked chain a section is processed to its last canonical block |
| Indexer.ChainIndexer.Complete | core/chain_indexer.go:348-368 | the section is recorded iff it succeeded and its base is still the stored head; otherwise stale sections are dropped |
| Indexer.FinishMeans | core/chain_indexer.go:348-368 | a recorded section is the last stored one, with its head, and earlier heads stay; otherwise the known count falls to the stored one |
| Indexer.ChainIndexer.VerifyLast | core/chain_indexer.go:422-429 | stored sections above the checkpoint are dropped until the last is canonical |
| Indexer.VerifyDrops | core/chain_indexer.go:422-429 | exactly the sections above the checkpoint and above the last one that ends on the canonical chain are dropped |
| Indexer.ChainIndexer.Sections | core/chain_indexer.go:434-440 | the report after that roll-back, its last block in machine arithmetic; only sections that end off the chain were dropped |
| Indexer.ChainIndexer.SetValid | core/chain_indexer.go:479-491 | exactly the heads of removed sections are deleted |
| Indexer.ChainIndexer.Checkpoint | core/chain_indexer.go:130-143 | a checkpoint above the stored sections and the earlier checkpoint covers all sections up to it and keeps their heads; any other changes nothing |
| Indexer.StepKeeps | core/chain_indexer.go:197-382 | every event keeps stored section heads chained, each one section above its predecessor |
| Indexer.FreshInv | core/chain_indexer.go:103-122 | a new indexer satisfies the invariant |
| Indexer.RunKeeps | core/chain_indexer.go:197-382 | so does every sequence of reorganisations, notifications, queries and background work |
| Indexer.CatchesUp | core/chain_indexer.go:304-383 | over a chain that stands still the worker stores every known section, each with the canonical block at its end as head |
| Indexer.SectionsAreCanonical | core/chain_indexer.go:422-440 | after any such sequence, when more sections than the checkpoint's are reported, all reported heads from the checkpoint on are canonical iff the canonical entries at the section ends are ancestors of the last of them, which a linked map ensures |
| Indexer.HeadIsAncestor | core/chain_indexer.go:388-417 | the stored heads themselves are always ancestors of the last one |
| Indexer.StaleSectionsExample | core/chain_indexer.go:422-440 | a chain built by imports and an index of its old head: the last section passes the check and an earlier head is not canonical |
| Transition.IntrinsicGas | core/state_transition.go:109-143 | the result is the exact sum, and it fails iff that sum exceeds 64 bits |
| Transition.IntrinsicGasIs | core/state_transition.go:109-143 | that sum in numbers: 21000, or 53000 to create a contract, 4 for each zero byte and 16, before Istanbul 68, for each other |
| Transition.GasPool.AddGas | core/gaspool.go:29-35 | adds, or panics iff the sum would not fit |
| Transition.GasPool.SubGas | core/gaspool.go:39-45 | subtracts, or refuses iff the pool is smaller |
| Transition.StateTransition.PreCheck | core/state_transition.go:177-205 | nonce, funds and pool checks in order; on success all gas is bought and reserved |
| Transition.StateTransition.RefundGas | core/state_transition.go:281-301 | the capped refund is paid, unused gas returns to the pool, which never panics |
| Transition.StateTransition.TransitionDb | core/state_transition.go:220-279 | the whole application equals its description as a function of world, pool and message, error cases included; it succeeds iff the checked nonce is the account's, funds cover gas and value, and gas suffices for pool and intrinsic cost; then the machine starts with the gas paid for and, in a call but not in a creation, the sender's nonce raised by one, and ends with refund, return and fee settled |
| Transition.AppliesIff | core/state_transition.go:177-252 | a message is applied iff the consensus rules hold of the world before it |
| Transition.RejectionMeans | core/state_transition.go:177-252 | what each error says of the message, and what it leaves behind |
| Transition.ApplyPerforms | core/state_transition.go:220-301 | nonces, balances and gas the machine starts with, and what becomes of its outcome, for every account |
| Transition.NoReplay | core/state_transition.go:192-262 | if the machine lowers no nonce, an applied checked call is rejected as too low in every later world |
| Transition.ApplyConserves | core/state_transition.go:220-279 | an applied message conserves the total balance and takes from the pool what it is charged |
| Transition.SenderPaysRecipient | core/state_transition.go:177-301 | of every applied message, for every account: apart from what the machine moved, the sender loses and the fee recipient gains exactly the charged gas at the gas price; the sender could afford all gas beforehand; at least half of the consumed gas is charged |
| Transition.ChargedBounds | core/state_transition.go:281-301 | the refund is the counter or half of the consumed gas, whichever is smaller (section 6.2 of the Ethereum Yellow Paper) |
| Processor.Process | core/state_processor.go:58-107 | a block is processed iff all its ordinary transactions apply; then total balance is conserved, pool plus used gas is the limit, receipts add up, every account has what the machine moved to it less the fees of its receipts, the recipient all fees, and both kinds of transactions keep their order; each receipt tells whether its transaction failed and what it used; if the machine lowers no nonce, checked messages of a sender have higher nonces than its earlier checked calls, so none is applied twice |
| Processor.ApplyTransaction | core/state_processor.go:109-157 | one transaction has exactly the effect of applying its message |
| Processor.BlockAccounts | core/state_processor.go:77-107 | this accounting, fees and balances of every account included, holds after every transaction of every block |
| Processor.BlockRises | core/state_processor.go:77-107 | this order of nonces in every block, and that they are used up afterwards |
| Processor.AfterTells | core/state_processor.go:77-160 | each receipt tells what applying its transaction to the world before it came to |
| TxSortedMap.SortedMap.Put | core/tx_list.go:73-79 | refines a map update; the index stays a min-heap permutation of the keys, a cache is dropped |
| TxSortedMap.SortedMap.Forward | core/tx_list.go:84-98 | removes exactly the nonces below the threshold, in order, and slices the cache correctly |
| TxSortedMap.SortedMap.FilterRaw | core/tx_list.go:125-139 | removes exactly what the filter selects |
| TxSortedMap.SortedMap.Reheap | core/tx_list.go:114-121 | rebuilds a heap of exactly the keys |
| TxSortedMap.SortedMap.Cap | core/tx_list.go:143-164 | keeps exactly the lowest nonces, returns the rest from the highest down, and slices the cache correctly |
| TxSortedMap.SortedMap.Remove | core/tx_list.go:168-185 | deletes one nonce from map and heap |
| TxSortedMap.SortedMap.Ready | core/tx_list.go:194-209 | takes out exactly the maximal consecutive run from the least nonce, unless that is above the start |
| TxSortedMap.SortedMap.Flatten | core/tx_list.go:216-237 | the sorted content, whether cached or not |
| TxSortedMap.SortedMap.LastElement | core/tx_list.go:241-244 | the transaction of the highest nonce |
| TxItems.FlatUnique | core/tx_list.go:216-226 | a list has exactly one ascending listing |
| TxItems.LowestIsPrefix | core/tx_list.go:143-164 | the lowest transactions are the front of that listing |
| TxList.List.Add | core/tx_list.go:279-304 | accepted iff the nonce is free or the price beats the present one by the bump; the caps bound all content |
| TxItems.AcceptsIff | core/tx_list.go:279-294 | a present transaction is replaced iff the new price is higher and less than one unit short of the bump in percent |
| TxList.List.Filter | core/tx_list.go:322-351 | with or without the short circuit, what is removed, kept and invalidated is what the full filter gives |
| TxList.ShortCircuit | core/tx_list.go:324-326 | below the cached caps the full filter removes nothing |
| TxItems.FilterPartitions | core/tx_list.go:322-351 | kept, removed and invalidated parts partition the list |
| TxItems.ExecutableIsRun | core/tx_list.go:337-349 | on a gapless list the kept part is the run below the first unpayable nonce |
| TxList.List.Remove | core/tx_list.go:362-373 | removes a nonce and, in a strict list, everything above it |
| TxList.List.Forward | core/tx_list.go:309-311 | drops the nonces below a threshold |
| TxList.List.Cap | core/tx_list.go:355-357 | keeps the lowest nonces |
| TxList.List.Ready | core/tx_list.go:382-384 | takes out the executable run |
| TxPriced.PricedList.Put | core/tx_list.go:458-460 | the heap keeps covering the pool |
| TxPriced.PricedList.Removed | core/tx_list.go:465-480 | coverage and the bound on stale entries are kept, and three times the entries are at most four times the pool |
| TxPriced.PricedList.Cap | core/tx_list.go:484-511 | drops exactly the remote transactions below the price |
| TxPriced.PricedList.Underpriced | core/tx_list.go:515-537 | agrees with a scan of the whole pool |
| TxPriced.PricedList.Discard | core/tx_list.go:541-585 | drops no local transaction and none dearer than a kept remote one, stops as soon as the wanted slots are counted or no remote is left, and divides the entries of pooled transactions exactly into dropped and kept ones |
| TxPriced.SlotsNeeded | core/tx_pool.go:1608-1611 | as many slots of 32 kilobytes as the size needs |
| TxPriced.FreesWantedIff | core/tx_list.go:571-577 | the counted slots are freed iff no entry was dropped twice, and the wanted ones iff the repetitions do not exceed the surplus |
| TxPriced.SingleEntries | core/tx_list.go:564-577 | a heap that holds no pooled transaction twice yields no repetitions |
| TxPriced.DroppedTwice | core/tx_list.go:564-577 | a pooled remote transaction with two entries is dropped twice if more slots are wanted than the entries no dearer than it fill without one of its own |
| TxPriced.RepeatedEntryExample | core/tx_list.go:564-577 | a heap built by the list's own operations from which two slots are wanted, two counted and one is freed |
| TxPriced.ComesBack | core/tx_list.go:458-480 | a transaction that leaves the pool and comes back has two entries while under a quarter may be stale |
| TxPriced.StalesNonNegative | core/tx_list.go:440-480 | coverage and the bound imply that the stale counter is never negative |
| TxPriced.DrainStep | core/tx_list.go:488-505 | popping in price order keeps live transactions accounted for and uncounts stale ones |
| TxLookup.Lookup.Add | core/tx_pool.go:1587-1595 | a new transaction keeps the slot count exact |
| TxLookup.Lookup.Remove | core/tx_pool.go:1598-1606 | so does removing a known one |
| TxLookup.Noncer.Get | core/tx_noncer.go:45-55 | filling the cache changes no nonce |
| TxLookup.Noncer.Set | core/tx_noncer.go:59-64 | sets one virtual nonce |
| TxLookup.Noncer.SetIfLower | core/tx_noncer.go:68-79 | takes the minimum of old and new |
| PoolAccount.RemoveSettled | core/tx_pool.go:888-933 | removal keeps pending nonces the interval from state nonce to virtual nonce, queued ones at or above it |
| PoolAccount.EnqueueSettled | core/tx_pool.go:655-685 | so does queueing a transaction that is not below the state nonce and not pending |
| PoolAccount.PromoteSettled | core/tx_pool.go:1194-1255 | so does promotion |
| PoolAccount.PromoteSettledIff | core/tx_pool.go:703-738 | promotion keeps the interval iff it promotes no transaction of nonce 2^64 - 1, whose successor wraps |
| PoolAccount.LargestNonceExample | core/tx_pool.go:703-738 | an account whose only transaction has that nonce |
| PoolAccount.PromoteLifts | core/tx_pool.go:1194-1255 | after a reset that lowers no nonce, promotion extends the run at the state nonce and nothing queued lies below its end |
| PoolAccount.DemoteTrims | core/tx_pool.go:1392-1440 | demotion then leaves exactly a payable run from the state nonce on |
| PoolAccount.RefreshSettles | core/tx_pool.go:1080-1083 | setting the virtual nonce behind it settles the account |
| PoolAccount.RestsAbreastIff | core/tx_pool.go:1038-1084 | after a reset that lowers no nonce an account comes to rest settled, and abreast of the state iff no stale nonce left its pending list during the reset |
| PoolAccount.FallsBehind | core/tx_pool.go:905-916 | whenever the state passes a pending nonce and that transaction is dropped, the virtual nonce stays there and a payable transaction that arrives is not promoted |
| PoolAccount.FallenBehindExample | core/tx_pool.go:905-916 | such an account, with nonces 3 and 4 pending when the state moves to 5 |
| PoolAccount.RebaseLowers | core/tx_pool.go:1169-1180 | a reset to a lower nonce turns a settled account into one whose old run lies above the new nonce, or into one with nothing pending |
| PoolAccount.InsertLowered | core/tx_pool.go:655-685 | additions keep it such an account |
| PoolAccount.RemoveLowered | core/tx_pool.go:888-933 | removals keep it one or leave nothing pending |
| PoolAccount.VacantSettles | core/tx_pool.go:1038-1084 | with nothing pending the run always settles it |
| PoolAccount.LoweredSettlesIff | core/tx_pool.go:1392-1440 | after a reset to a lower nonce, if the pending lists need not be cut, the account settles iff promotion leaves no gap below a payable old run; demotion only looks for gaps at the front |
| PoolAccount.LoweredGapExample | core/tx_pool.go:1424-1434 | a settled account that is left with such a gap by a reset and one new transaction |
| PoolBook.RemovePooled | core/tx_pool.go:888-933 | removal takes one transaction out of the lists and loses no other |
| PoolBook.RemoveAllKeeps | core/tx_pool.go:599-604 | any sequence of removals keeps lists apart, none empty, and the nonce intervals |
| PoolBook.EnqueueAgrees | core/tx_pool.go:655-685 | the lookup stays the disjoint union of the lists when a transaction is queued |
| PoolBook.RoundLifts | core/tx_pool.go:1061-1067 | promoting all queues after a reset lifts every account |
| PoolBook.RoundTrims | core/tx_pool.go:1072-1074 | demoting all pending lists trims every account |
| PoolBook.RoundSettles | core/tx_pool.go:1080-1083 | the final loop settles every account |
| PoolBook.ResetLoosens | core/tx_pool.go:1172-1180 | a reset to any state, raising some nonces and lowering others, turns settled accounts into accounts of one of the two kinds |
| PoolBook.RebasedStanding | core/tx_pool.go:1105-1189 | for the whole pool: after a reset an account is abreast iff no stale transaction left its pending list in it |
| PoolBook.SettledStanding | core/tx_pool.go:576-650 | between resets additions, removals and evictions change no account's standing |
| PoolLevels.CapFacts | core/tx_pool.go:1295-1304 | dropping highest nonces one by one keeps exactly the lowest ones |
| PoolLevels.LevelCounts | core/tx_pool.go:1260-1267 | a pool cut to a level holds exactly the sum of the capped sizes |
| PoolLevels.WaterLevelUnique | core/tx_pool.go:1260-1342 | at most one level meets the description of the truncation |
| PoolLevels.LevelledTrimmed | core/tx_pool.go:1260-1342 | the truncation keeps payable runs from the state nonce on |
| PoolLevels.CapGapped | core/tx_pool.go:1295-1304 | cut to a level, an account keeps its gap iff the level exceeds the run below |
| PoolLevels.LooseSettlesIff | core/tx_pool.go:1061-1083 | after any reset an account settles iff it has no such gap or is cut to no more than the run below it, through promotion, demotion, both limits and the new virtual nonce |
| TxPool.TxPool.TruncatePending | core/tx_pool.go:1260-1342 | over the limit, every remote account keeps its lowest transactions up to one level, the largest whose total fits the limit, or the guaranteed allowance if none does; locals keep all |
| PoolLaws.LevelLaw | core/tx_pool.go:1260-1342 | the limit on pending transactions takes only the highest nonces of remote accounts |
| TxPool.TxPool.LowerTo | core/tx_pool.go:1290-1312 | whole rounds lower the level until the limit or the floor is met |
| TxPool.TxPool.MeetSpammers | core/tx_pool.go:1270-1314 | meeting offenders from the largest down keeps all that were met at one level |
| TxPool.TxPool.DropLast | core/tx_pool.go:1293-1305 | the highest pending transaction leaves all structures and the virtual nonce follows |
| TxPool.TxPool.TruncateQueue | core/tx_pool.go:1345-1387 | queues are cut from the latest heartbeat on, as far as the excess reaches; local queues are kept |
| PoolLaws.CutLaw | core/tx_pool.go:1345-1387 | the limit on queues takes only the highest nonces of the accounts it names |
| PoolQueueLimit.CutTotal | core/tx_pool.go:1345-1387 | exactly the excess is dropped, or all remote queues if they hold less |
| PoolQueueLimit.CutKeepsLowest | core/tx_pool.go:1371-1385 | every queue keeps its lowest nonces |
| PoolQueueLimit.CutInOrder | core/tx_pool.go:1361-1386 | an account loses something only if all accounts of later heartbeat lost everything |
| PoolReset.Reinject | core/tx_pool.go:1109-1167 | pools again exactly the transactions of the abandoned branch that the new branch lacks; none for a direct successor or a move over 64 heights; given up iff no fork point can be walked to |
| PoolReset.TxDifference | core/types/transaction.go:292-307 | keeps, in order, what the second list lacks |
| PoolReset.ReinjectsLost | core/tx_pool.go:1139-1165 | every transaction of the abandoned branch is on the new branch or pooled again, and no other is |
| TxPool.TxPool.constructor | core/tx_pool.go:259-285 | an empty pool is valid and settled |
| TxPool.TxPool.ValidateTx | core/tx_pool.go:525-567 | the first failing check in order, intrinsic gas included |
| TxPool.ValidIff | core/tx_pool.go:525-567 | valid iff not outdated, payable, within block gas, 128 kilobytes and price limit, and the gas covers the intrinsic cost |
| TxPool.TxPool.EnqueueTx | core/tx_pool.go:655-685 | accepted iff the queue has no better one of the nonce; lookup, slots and price heap follow; a heartbeat is recorded iff the account had none |
| TxPool.TxPool.PromoteTx | core/tx_pool.go:703-738 | the better one becomes pending, the worse leaves every structure, the virtual nonce is set; the heartbeat is bumped |
| TxPool.TxPool.RemoveTx | core/tx_pool.go:888-933 | the transaction leaves every structure, those above it return to the queue without refusal, the virtual nonce is lowered |
| TxPool.TxPool.Add | core/tx_pool.go:576-650 | refusals in order with no effect; a full pool without local accounts aborts iff the excess is larger than its heap; otherwise the cheapest remotes are dropped until exactly the excess is counted, or one slot per remote heap entry if local accounts are present and that is less; then the transaction replaces one of its nonce or joins the queue, or is refused; all structures agree; it brings in at most its transaction, and nothing leaves but what a full pool drops, remote and cheaper, or as cheap with a nonce not lower, than every remote one that stays, and what is outbid |
| TxPool.AddLaw | core/tx_pool.go:576-650 | this in terms of what is pooled before and after |
| TxPool.AddCapacity | core/tx_pool.go:592-606 | without local accounts, and unless an entry is dropped twice, an addition leaves at most as many transactions as the limits allow |
| TxPool.AbortExample | core/tx_list.go:561-562 | a pool that is filled by additions and aborts on the next one |
| TxPool.RoomFits | core/tx_pool.go:590-605 | unless an entry was dropped twice, the new transaction then fits, or only local transactions are left, or as many slots were freed as there were remote entries |
| TxPool.AddPreserves | core/tx_pool.go:576-650 | an addition with the removals that made room keeps the nonce intervals |
| TxPool.TxPool.AddTxs | core/tx_pool.go:838-850 | each transaction in turn, with lists and lookup agreeing after each, up to an abort under its exact condition; dirty accounts are exactly those that gained one without replacement |
| TxPool.TxPool.PromoteAccount | core/tx_pool.go:1198-1253 | a queued transaction leaves only if it is outdated, needs more funds or gas than available, or its sender is remote and as many lower nonces as the limit allows are still queued; pending ones stay and nothing enters; what stays queued is viable, within the limit if remote, and does not continue the pending run; promotion is a heartbeat, and an account without a queue has none |
| TxPool.TxPool.PromoteExecutables | core/tx_pool.go:1194-1255 | this for every given account, and no other account changes |
| PoolLaws.PromotionHolds | core/tx_pool.go:1194-1255 | this of a round over any accounts, in terms of what is pooled |
| TxPool.TxPool.DemoteAccount | core/tx_pool.go:1394-1438 | outdated and unpayable pending transactions leave, invalidated ones and runs behind a front gap return to the queue |
| TxPool.TxPool.DemoteUnexecutables | core/tx_pool.go:1392-1440 | this for every pending account: only outdated and unpayable transactions leave, only those behind an unpayable one or a front gap are queued, and what stays pending is viable and starts at the state nonce |
| PoolLaws.DemotionHolds | core/tx_pool.go:1392-1440 | this of the round, in terms of what is pooled |
| TxPool.TxPool.Reset | core/tx_pool.go:1105-1189 | given up without effect, or the state is replaced, virtual nonces forgotten and lost transactions added; accounts stay runs if no nonce is lowered; an account is abreast of the state iff it lost no stale pending transaction |
| TxPool.TxPool.RunReorg | core/tx_pool.go:1038-1084 | the stages of a run in order; from settled accounts a run that lowers no nonce ends with all accounts settled, each abreast of the state iff it was after the reset; with any reset each account is settled iff it is not left with a gap; a run adds nothing, and what it drops is outdated, unpayable, crowded out of its account's queue, or cut from a remote account over the global limits with lower nonces left; after a reset all that is pooled is viable |
| TxPool.RunLaw | core/tx_pool.go:1038-1084 | this of the stages of any run |
| TxPool.RunSettlesIff | core/tx_pool.go:1061-1083 | for the stages of a run: every account ends settled iff it is not left with a gap that the truncation did not cut away |
| TxPool.TxPool.SetGasPrice | core/tx_pool.go:425-434 | exactly the remote transactions below the price leave, with the usual postponements |
| TxPool.TxPool.Evict | core/tx_pool.go:363-378 | exactly the queued transactions of remote accounts whose heartbeat is older than the lifetime leave |
| TxPool.EvictLaw | core/tx_pool.go:363-378 | this in terms of what is pooled |
| TxPool.TxPool.Serve | core/tx_pool.go:320-392 | a trace of the pool in which each submission, run, price change and eviction did exactly what it should, each at its own clock reading; after all of them the lookup is the disjoint union of the lists, slots are exact, no list is empty and the price heap covers the pool; with states that lower no nonce every account is settled after every event, and abreast of the state iff its last reset took no stale transaction from its pending list; with resets to descendants only, every account is abreast after every event |
| TxPool.NeverBehind | core/tx_pool.go:1105-1189 | in a history whose resets move to descendants nothing is pooled again and no account falls behind |
| TxScheduler.StepKeeps | core/tx_pool.go:968-1035 | every event keeps the collected requests equal to the open tickets and every run faithful to its channel |
| TxScheduler.OneActive | core/tx_pool.go:968-1035 | in every reachable state at most one run is active |
| TxScheduler.ClosedByCarrier | core/tx_pool.go:981-1035 | a channel is closed by a run that carries every request waiting on it, except the one closed at shutdown, which has no run |
| TxScheduler.ResetSpans | core/tx_pool.go:994-1002 | a coalesced reset spans from the first old head to the last new head |
| TxScheduler.OnlyAsked | core/tx_pool.go:1004-1012 | every account of a run was asked for on its channel |
| TxScheduler.NextServes | core/tx_pool.go:980-1035 | a waiting request is served by the active run or by the one started when it ends |
| TxScheduler.ReorgLoop.OnReset | core/tx_pool.go:994-1002 | the loop's variables change as the machine prescribes |
| TxScheduler.ReorgLoop.OnPromote | core/tx_pool.go:1004-1012 | likewise for promotion requests |
| TxScheduler.ReorgLoop.OnRunEnds | core/tx_pool.go:1038-1039 | likewise when a run closes its channel |
| TxScheduler.ReorgLoop.OnDone | core/tx_pool.go:1023-1024 | likewise when a run is seen to have ended |
| TxScheduler.ReorgLoop.OnShutdown | core/tx_pool.go:1026-1032 | likewise for shutdown, which waits for the active run |
| DerivationPath.ParseDerivationPath | accounts/hd.go:68-118 | the path, or the error of the first part that does not parse |
| DerivationPath.String | accounts/hd.go:122-136 | the canonical text |
| DerivationPath.RoundTrip | accounts/hd.go:68-136 | printing then parsing returns the path iff it is not empty |
| DerivationPath.CanonicalPrint | accounts/hd.go:68-136 | whatever text is accepted, its printed form parses to the same path |
| DerivationPath.RelativeIsBelowRoot | accounts/hd.go:68-88 | a path that starts neither with a slash nor with m means the same below m/44'/60'/0'/0 |
| DerivationPath.ScanNumerals | accounts/hd.go:100-104 | components may be hexadecimal, octal, binary or signed |
| DerivationPath.TrimIs | accounts/hd.go:91-99 | white space is ignored at both ends, and only there |
| DerivationPath.ComponentRoundTrip | accounts/hd.go:88-116 | every 32-bit component, hardened or not, is read back |
| Heap.Push | core/tx_list.go:38-48 | container/heap on a slice: heap order and content are kept |
| Heap.Pop | core/tx_list.go:38-48 | a least element is removed |
| Heap.RemoveAt | core/tx_list.go:168-185 | any element can be removed by index |
| Heap.Init | core/tx_list.go:114-121 | any slice is put into heap order |

## Left out

- Block and header verification, the consensus engine, the virtual machine, tries and the state database: parameters or abstract maps.
- LRU caches of headers, difficulties and blocks: transparent to the modelled reads.
- The freezer and ancient store, fast sync receipts and trie garbage collection: dominated by code that is not modelled.
- `SetHeadBeyondRoot` beyond the header rewind: its search for a block with available state depends on the state database.
- The control flow of `insertChain` and `insertSideChain` around the storage phase, and the mid-batch import of known blocks.
- Blocks.BlockChain.StoreHeaders: only the storage phase of a header import works on the store shared with full blocks; its canonical markers are modelled on the header chain alone.
- Header import aborts by interrupt, delete callbacks, logs, events, metrics and journal files.
- Transaction events queued for the next run (`queueTxEvent`) and the broadcast at the end of `runReorg`.
- `addTxs` before its lock: the filter of known transactions and bad signatures and the merging of error slots.
- Index children beyond the notices sent to them; closing of indexers.
- Path iterators, JSON forms of paths, wallets and key stores.
- PoolReset.Reinject: heights are compared as integers, not through 64-bit floating point, and the new head is taken to be stored.
- TxPool.TxPool.constructor: the configuration is taken as already sanitised.
- TxPool.TxPool.Serve: of the heartbeats between events only that every queue has one; a panic of the source is the result `Aborted`, after which the model goes on.
- TxPool.TxPool.Evict: time is a number handed in; heartbeats come from the same clock.
- TxLookup.Noncer.Get: replacing the noncer at a reset is modelled as rebasing the same object.
- DerivationPath.ParseDerivationPath: integers follow the documented syntax of `big.Int.SetString` with base 0, whose code is not part of this model.
- Processor.Process: ends before the engine finalises the block.
