# Verified models of the chain and pool machinery

This project models, in Dafny, the parts of the go-ethereum fork under `IDWDetector/` whose correctness no single function
states, and proves what they promise.

- **Transaction pool** (`Transactions`, `NonceMaps`, `ContainerHeap`, `TxSortedMaps`, `TxLists`, `TxLookups`, `TxPricedLists`,
  `PoolInvariants`, `PoolOrders`, `Executables`, `Truncation`, `TxPools`, `PoolResets`). The nonce-sorted list with its heap and cache is a class that
  refines a plain map; the pool is a class over per-account lists, the lookup, the virtual nonces and the two price heaps. Every
  run of calls, chain resets included, keeps the tables exact and the accounts in order.
- **Reorg scheduler** (`ReorgSchedulers`). The event loop over any sequence of events: one run at a time, every request served
  by the run it was promised, resets that chain.
- **Header chain** (`Headers`, `HeaderChains`, `HashFns`). A store, total difficulties and a canonical index that always
  describe one chain, the heaviest one; ancestor lookups that agree with walking parent links.
- **Block chain reorg** (`BlockChains`). When the canonical index and the transaction lookup follow a switch of heads exactly.
- **Event feed** (`Feeds`). Exactly-once delivery by an in-place algorithm on an array, with removals in between.
- **Chain indexer** (`ChainIndexers`). Section heads that stay linked whatever happens while a section is processed unlocked.
- **Gas and ether** (`StateTransitions`). Conservation over a message and over a block.
- **Derivation paths** (`HdPaths`). Printing and parsing as inverses.

Hashes are modelled by what they are computed from, so that equal hashes mean equal contents and no header hashes to zero.
Choices the program leaves to its surroundings (map iteration order, ready channels, coin flips, the virtual machine, the
contents of the database at a moment) are parameters or nondeterministic choices, and every result holds for all of them.

Where a promise fails, the model keeps the code, gives a case where it fails, and proves exactly when it holds:

- Rewinding the header chain leaves nothing above the given number if and only if the head was above it, or nothing was stored
  above it before (`SetHead`, `SideBranchStays`).
- A reorg leaves the canonical index exact if and only if the old head is not higher than the new one or the new head's parent
  was not canonical (`Reorg`, `StaleEntry`).
- Looking up an ancestor of the zero hash gives an answer if and only if its number is above the head and the ancestor's is not
  (`GetAncestor`, `ZeroHasAncestor`).
- Buying gas overdraws no sender with the funds asked for if and only if there is no fee cap or the value makes up for the
  price above it (`NeverOverdrawn`, `SenderCanPay`, `Overdrawn`).
- A reset that lowers the state nonce of an account in order leaves it in order if and only if nothing was pending, nothing
  came back, the two meet, or the first transaction pending cannot be paid any more (`LoweredNonce`, `LoweredNonceGap`).
- An addition that fails leaves the pool as it was if and only if it is not a losing bid on a full pool with remote
  transactions (`Add`, `BidLostOnFullPool`).

`dafny verify dfyconfig.toml` checks the whole project.

## Model

| member | source | states |
|---|---|---|
| ContainerHeap.Init | IDWDetector/core/tx_list.go:116-123 | makes any slice a heap with the same entries |
| ContainerHeap.Push | IDWDetector/core/tx_list.go:75-81 | adds one entry and keeps the heap order |
| ContainerHeap.Pop | IDWDetector/core/tx_list.go:90-94 | takes out an entry that no other is less than, and keeps the order of the rest |
| ContainerHeap.Remove | IDWDetector/core/tx_list.go:176-182 | takes out the entry at an index and keeps the order of the rest |
| ContainerHeap.RootIsLeast | IDWDetector/core/tx_list.go:90-94 | no entry of a heap is less than its root |
| TxSortedMaps.TxSortedMap.Put | IDWDetector/core/tx_list.go:75-81 | refines a map update: the index stays a duplicate-free min-heap of exactly the keys, a cache is dropped or exact |
| TxSortedMaps.TxSortedMap.Forward | IDWDetector/core/tx_list.go:86-100 | removes exactly the nonces below the threshold and returns them in nonce order; the cache, if any, is the sorted rest |
| TxSortedMaps.TxSortedMap.Filter | IDWDetector/core/tx_list.go:107-114 | keeps exactly what the predicate rejects, returns the others each once, and rebuilds the index |
| TxSortedMaps.TxSortedMap.FilterOnly | IDWDetector/core/tx_list.go:127-141 | as Filter, leaving the index alone |
| TxSortedMaps.TxSortedMap.Reheap | IDWDetector/core/tx_list.go:116-123 | restores the index from the keys |
| TxSortedMaps.TxSortedMap.Cap | IDWDetector/core/tx_list.go:145-166 | keeps exactly the lowest nonces up to the threshold and returns the others from the highest down; the cache loses just its tail |
| TxSortedMaps.TxSortedMap.Remove | IDWDetector/core/tx_list.go:170-187 | removes one nonce from map, index and cache, and tells whether it was there |
| TxSortedMaps.TxSortedMap.Ready | IDWDetector/core/tx_list.go:196-211 | removes and returns in nonce order precisely the maximal consecutive run from the lowest nonce when that is not above start, and nothing otherwise |
| TxSortedMaps.TxSortedMap.Flatten | IDWDetector/core/tx_list.go:233-239 | the contents sorted by nonce, each once |
| NonceMaps.FlatUnique | IDWDetector/core/tx_list.go:218-228 | there is one listing in nonce order, so an exact cache is the one that sorting gives |
| TxSortedMaps.TxSortedMap.LastElement | IDWDetector/core/tx_list.go:243-246 | the transaction of the highest nonce |
| TxLists.TxList.Add | IDWDetector/core/tx_list.go:281-314 | accepts a transaction if its nonce is free or it outbids the old one by the price bump in both prices; on refusal nothing changes, else both caps cover it |
| TxLists.TxList.Forward | IDWDetector/core/tx_list.go:319-321 | drops exactly the nonces below the threshold |
| TxLists.TxList.Filter | IDWDetector/core/tx_list.go:332-361 | with the short circuit, what a full scan gives: the unpayable ones, in a strict list those that follow one, and the rest |
| TxLists.TxList.Cap | IDWDetector/core/tx_list.go:365-367 | keeps the lowest nonces |
| TxLists.TxList.Remove | IDWDetector/core/tx_list.go:372-383 | removes a nonce, and in a strict list all that follow it |
| TxLists.TxList.Ready | IDWDetector/core/tx_list.go:392-394 | the same on a list: what the pool promotes and what it leaves queued |
| ListValues.OutbidsIs | IDWDetector/core/tx_list.go:284-303 | the price bump as an inequality on both caps, up to the rounding of the threshold |
| ListValues.AddedSound | IDWDetector/core/tx_list.go:305-312 | after every Add the caps still bound every stored transaction |
| ListValues.ShortCircuit | IDWDetector/core/tx_list.go:333-336 | caps within the limits mean there is nothing to filter |
| ListValues.FilteredIs | IDWDetector/core/tx_list.go:332-361 | the list that Filter leaves, its drops and its invalids are those of a full scan, and the caps still hold |
| ListValues.FilterPartition | IDWDetector/core/tx_list.go:332-361 | removed, invalid and kept transactions partition the old contents |
| ListValues.FilterKeepsInterval | IDWDetector/core/tx_list.go:342-360 | a strict list on an interval is cut to a front part of it, and every invalid lies beyond the cut |
| ListValues.StaysContiguous | IDWDetector/core/tx_list.go:319-383 | a strict list without gaps has none after Forward, Cap, Remove and Filter |
| TxLookups.TxLookup.Add | IDWDetector/core/tx_pool.go:1763-1775 | files a transaction; the slot counter stays the sum of the slots held |
| TxLookups.TxLookup.Remove | IDWDetector/core/tx_pool.go:1778-1795 | forgets a hash, known or not; the slot counter stays exact |
| TxLookups.TxLookup.RemoteToLocals | IDWDetector/core/tx_pool.go:1799-1812 | moves exactly the remote transactions of the accounts to the locals, counts them, and loses none |
| Transactions.SlotsHold | IDWDetector/core/tx_pool.go:1827-1829 | so many slots of 32 KB hold the transaction, and one less does not |
| TxLookups.TxLookup.Get | IDWDetector/core/tx_pool.go:1704-1712 | finds the transaction of exactly the known hashes |
| TxNoncers.TxNoncer.Get | IDWDetector/core/tx_noncer.go:45-55 | the virtual nonce; filling the table on a read changes none |
| TxNoncers.TxNoncer.Set | IDWDetector/core/tx_noncer.go:59-64 | sets one virtual nonce and leaves the others |
| TxNoncers.TxNoncer.SetIfLower | IDWDetector/core/tx_noncer.go:68-79 | lowers one virtual nonce, never raises it |
| TxNoncers.TxNoncer.SetAll | IDWDetector/core/tx_noncer.go:82-87 | the listed accounts get their nonces, all others fall back to the state |
| TxPricedLists.LessIsOrder | IDWDetector/core/tx_list.go:431-455 | the price comparison is a strict weak order for every base fee |
| TxPricedLists.HigherIsDearer | IDWDetector/core/tx_list.go:431-455 | higher caps are dearer in either heap, whatever the base fee; among equals the lower nonce is |
| TxPricedLists.WhatDecides | IDWDetector/core/tx_list.go:431-473 | without a base fee the fee cap decides, then the tip; with one, first what a block would pay |
| TxPricedLists.TxPricedList.Put | IDWDetector/core/tx_list.go:508-514 | a remote transaction is in the heaps afterwards, a local one adds nothing |
| TxPricedLists.TxPricedList.Removed | IDWDetector/core/tx_list.go:519-527 | no transaction of the lookup is lost, whether the heaps are rebuilt or not |
| TxPricedLists.TxPricedList.Reheap | IDWDetector/core/tx_list.go:604-628 | the heaps hold exactly the remotes; a fifth, rounded down, floats, and none of it is better than one left urgent |
| TxPricedLists.TxPricedList.SetBaseFee | IDWDetector/core/tx_list.go:632-635 | rebuilt under the new fee, the heaps hold every remote |
| TxPricedLists.TxPricedList.UnderpricedFor | IDWDetector/core/tx_list.go:541-559 | tells whether every live entry of a heap is at least as good as the transaction, and pops stale entries only |
| TxPricedLists.TxPricedList.Underpriced | IDWDetector/core/tx_list.go:531-537 | the answer for both heaps as they were; no live entry is lost |
| TxPricedLists.TxPricedList.PricedOutMeans | IDWDetector/core/tx_list.go:531-559 | whatever the heaps: no transaction is underpriced without remotes or over one with lower caps, and each is if there are remotes and all have caps as high |
| TxPricedLists.TxPricedList.Rebalance | IDWDetector/core/tx_list.go:568-577 | the cheapest urgent entry floats, or goes if it is stale |
| TxPricedLists.TxPricedList.TakeCheapest | IDWDetector/core/tx_list.go:578-591 | the cheapest floating entry is taken, or goes if it is stale |
| TxPricedLists.TxPricedList.DiscardLoop | IDWDetector/core/tx_list.go:567-592 | ends, because twice the urgent plus the floating heap shrinks, with enough slots dropped or both heaps empty, and the heaps in proportion |
| TxPricedLists.TxPricedList.Discard | IDWDetector/core/tx_list.go:565-601 | succeeds if and only if forced or enough live slots are tracked; then it drops live entries for at least the slots, and not one more than needed; nothing left floating is cheaper than the last one dropped, nothing left urgent cheaper than one that came from there; a failure leaves every live entry in place |
| TxPricedLists.DiscardFrees | IDWDetector/core/tx_pool.go:693-708 | when live entries are unique, removing what an unforced Discard returned frees at least the slots asked for |
| TxPricedLists.DiscardMakesRoom | IDWDetector/core/tx_pool.go:693-708 | the same over the whole lookup, locals included |
| PoolInvariants.AccountUpdate | IDWDetector/core/tx_pool.go:655-841 | a change to one account that keeps its lists sound, disjoint and known keeps the whole pool exact |
| PoolInvariants.RemovalOrder | IDWDetector/core/tx_pool.go:1008-1036 | removing a transaction leaves the account on an interval that ends at its nonce, followers queued above |
| PoolInvariants.PromotionOrder | IDWDetector/core/tx_pool.go:1323-1345 | promotion extends the pending interval exactly to the new virtual nonce |
| PoolInvariants.PromotionInv | IDWDetector/core/tx_pool.go:1312-1373 | promotion keeps nonces disjoint and the lookup exact |
| PoolInvariants.DemotionInv | IDWDetector/core/tx_pool.go:1514-1565 | demotion keeps nonces disjoint and the lookup exact |
| PoolInvariants.ReplaceInv | IDWDetector/core/tx_pool.go:711-734 | replacing a pending transaction keeps the pool exact |
| PoolInvariants.EnqueueInv | IDWDetector/core/tx_pool.go:758-793 | queueing a transaction of a nonce that is not pending keeps the pool exact |
| PoolInvariants.ResetPromotion | IDWDetector/core/tx_pool.go:1156-1174 | after a reset that does not lower the state nonce, promotion leaves no gap from that nonce on |
| PoolInvariants.ResetDemotion | IDWDetector/core/tx_pool.go:1514-1565 | demotion then leaves the pending nonces gapless from the state nonce, the queued ones above |
| PoolInvariants.NextFound | IDWDetector/core/tx_pool.go:1185-1191 | one past the highest pending nonce ends the interval |
| Executables.PromotionKeeps | IDWDetector/core/tx_pool.go:1317-1365 | what promotion leaves queued is executable and within the cap, and nothing executable is lost but above a full queue |
| Executables.PromotionProgress | IDWDetector/core/tx_pool.go:1337-1345 | promotion goes on as long as it can: nothing of the new virtual nonce stays queued |
| Executables.DemotionKeeps | IDWDetector/core/tx_pool.go:1514-1565 | what demotion leaves pending is executable, and nothing executable is lost |
| Executables.LowestFirst | IDWDetector/core/tx_list.go:145-166 | a capped list keeps as many as the cap, or all, and those of the lowest nonces |
| PoolOrders.RemovalKept | IDWDetector/core/tx_pool.go:991-1037 | removing a transaction keeps every account in order, and its pending nonces without a gap from wherever they start |
| PoolOrders.PromotionFinds | IDWDetector/core/tx_pool.go:1317-1345 | with the virtual nonce at the state nonce, promotion finds a payable run that starts there, and what stays queued lies above it |
| PoolOrders.DemotionFits | IDWDetector/core/tx_pool.go:1514-1565 | demotion of what was pending and what was found below it leaves no gap if and only if there is nothing on one side, the two meet, or the first one pending cannot be paid |
| PoolOrders.LoweredNonce | IDWDetector/core/tx_pool.go:1156-1180 | after a reset that lowers the state nonce, promotion and demotion leave the account in order if and only if what was pending fits what comes back |
| PoolOrders.LoweredNonceGap | IDWDetector/core/tx_pool.go:1546-1559 | a case where it does not: pending nonces 5 and 6, the state nonce at 3, and only 3 coming back |
| Truncation.CutOne | IDWDetector/core/tx_pool.go:1411-1428 | an account cut by one keeps its lowest nonces |
| Truncation.CutOrder | IDWDetector/core/tx_pool.go:1411-1428 | an account in order stays in order when cut by one |
| Truncation.EqualizeRound | IDWDetector/core/tx_pool.go:1403-1431 | a round of cuts keeps the offenders level and stops short of the guaranteed slots |
| Truncation.CuttingEnd | IDWDetector/core/tx_pool.go:1396-1432 | ending within the first loop, the limits, the fairness and the undershoot hold |
| Truncation.LevelledEnd | IDWDetector/core/tx_pool.go:1434-1458 | ending after the last loop, so do they |
| Truncation.PopLongest | IDWDetector/core/tx_pool.go:1388-1401 | the priority queue gives up an account of the longest list |
| Truncation.DroppingStep | IDWDetector/core/tx_pool.go:1482-1504 | one account of truncateQueue goes altogether or keeps just the nonces that meet the limit |
| Truncation.DroppingEnd | IDWDetector/core/tx_pool.go:1481-1504 | at the end the limit is met exactly, or locals alone are left |
| TxPools.Sanitize | IDWDetector/core/tx_pool.go:189-224 | every workable limit stays and every other becomes its default; the price limit included |
| TxPools.TxPool.constructor | IDWDetector/core/tx_pool.go:279-332 | an empty pool is exact, every account is in order, and the price floor is the sanitized limit |
| TxPools.TxPool.EnqueueTx | IDWDetector/core/tx_pool.go:758-793 | queues a transaction or refuses it for its price; the lookup follows |
| TxPools.TxPool.Requeue | IDWDetector/core/tx_pool.go:1015-1018 | re-enqueueing demoted transactions rejects none, replaces none, and leaves the lookup alone |
| TxPools.TxPool.RemoveTx | IDWDetector/core/tx_pool.go:991-1037 | the hash is forgotten, followers are queued again, the virtual nonce falls to the gap; accounts in order stay in order |
| TxPools.TxPool.PromoteTx | IDWDetector/core/tx_pool.go:811-841 | moves the virtual nonce past the transaction, or forgets it if it is not the better one |
| TxPools.TxPool.PromoteQueue | IDWDetector/core/tx_pool.go:1317-1371 | one account: the due run of its usable queue becomes pending, the rest stays up to the cap, and the lookup follows |
| TxPools.TxPool.PromoteExecutables | IDWDetector/core/tx_pool.go:1312-1373 | this for every listed account in any order, the others untouched; it returns exactly the transactions that became pending; a queue that is not local is within its limit, a local one is not cut, nothing executable waits at a virtual nonce, and accounts in order stay in order |
| TxPools.TxPool.DemoteAccount | IDWDetector/core/tx_pool.go:1516-1564 | old and unpayable transactions go, followers of an unpayable one are queued, and so is all if the state nonce is missing |
| TxPools.TxPool.DemoteUnexecutables | IDWDetector/core/tx_pool.go:1514-1565 | this for every account, in any order; all that is left pending can be executed, and nothing executable is lost |
| TxPools.TxPool.CapByOne | IDWDetector/core/tx_pool.go:1411-1428 | one account loses its highest pending nonce, its virtual nonce follows, and it stays in order |
| TxPools.TxPool.TruncatePending | IDWDetector/core/tx_pool.go:1378-1460 | ends; only accounts that are not local and above the guaranteed slots are cut, and not below them; the limit is met or nothing more may be cut, earlier offenders end level, none spared is longer than one cut, and the undershoot is less than one round |
| TxPools.TxPool.TruncateQueue | IDWDetector/core/tx_pool.go:1463-1505 | locals are untouched, each queue keeps its lowest nonces, at most one is cut partly, and the limit is met exactly unless only locals are left |
| TxPools.Validate | IDWDetector/core/tx_pool.go:586-646 | accepts a transaction if and only if its type, size, value, gas, caps, tip, nonce, cost and intrinsic gas all pass |
| TxPools.TxPool.CheckPrice | IDWDetector/core/tx_pool.go:676-680 | whether every tracked remote is at least as good; nothing is lost |
| TxPools.TxPool.RemoveDropped | IDWDetector/core/tx_pool.go:704-708 | the discarded transactions leave pool and lookup, the heaps stay complete, order is kept |
| TxPools.TxPool.DiscardCheapest | IDWDetector/core/tx_pool.go:693-700 | what is discarded is remote, some remote goes if there is one and slots are wanted, and enough goes unless forced |
| TxPools.TxPool.MakeRoom | IDWDetector/core/tx_pool.go:693-708 | room is made of remote transactions, of at least one if there is one and of cheap ones, or the pool is as it was; order is kept |
| TxPools.TxPool.RoomError | IDWDetector/core/tx_pool.go:674-700 | which error a full pool gives, and when |
| TxPools.TxPool.RoomIs | IDWDetector/core/tx_pool.go:674 | a pool is full for a transaction exactly when the slots of all it knows and its own exceed the two global limits |
| TxPools.TxPool.EnsureRoom | IDWDetector/core/tx_pool.go:674-709 | which error a full pool gives, exactly; on an error, with room, or without remotes nothing changes, and otherwise something goes |
| TxPools.TxPool.ReplacePending | IDWDetector/core/tx_pool.go:711-734 | a pending transaction of the same nonce is replaced if outbid |
| TxPools.TxPool.EnqueueNew | IDWDetector/core/tx_pool.go:735-739 | otherwise the transaction is queued |
| TxPools.TxPool.MarkLocal | IDWDetector/core/tx_pool.go:740-745 | a new local account has no remote transactions afterwards |
| TxPools.TxPool.Insert | IDWDetector/core/tx_pool.go:710-753 | what is added, replaced, filed as local or remote and known afterwards, and that order is kept |
| TxPools.TxPool.LosingBid | IDWDetector/core/tx_pool.go:711-720 | a transaction that does not outbid a local one of its nonce is refused |
| TxPools.TxPool.AddValid | IDWDetector/core/tx_pool.go:674-753 | once valid, the outcome is that of making room and of the bid after it |
| TxPools.TxPool.Add | IDWDetector/core/tx_pool.go:655-753 | the error is the first of known, invalid, no room and a losing bid; an error changes nothing if and only if it is not a losing bid on a full pool with remote transactions; on success the transaction is in the pool and known, no other is new, and the slots of a remote one fit the limits; with room the tables follow exactly; order is kept |
| TxPools.BidLostOnFullPool | IDWDetector/core/tx_pool.go:674-720 | a case where an error changes the pool: a losing bid of a local account, for which the one remote transaction was discarded |
| TxPools.TxPool.AddTxsLocked | IDWDetector/core/tx_pool.go:941-953 | adds in turn, local or not: each transaction is known afterwards, or is refused because it was known, breaks a rule, does not outbid one of its nonce or finds no room; with room no other goes; the dirty accounts are exactly the senders of accepted ones that replaced nothing |
| TxPools.TxPool.Reset | IDWDetector/core/tx_pool.go:1293-1306 | virtual nonces start afresh and stay at or below the new state; every dropped transaction is added again in turn, against the new state and the old fork rules, and refused for one of those reasons only; order is kept from the new state nonces on |
| TxPools.TxPool.LastNonces | IDWDetector/core/tx_pool.go:1185-1190 | one past the highest pending nonce of every account |
| TxPools.TxPool.UpdateNonces | IDWDetector/core/tx_pool.go:1185-1191 | exactly the accounts without a gap are in order under the recomputed nonces |
| TxPools.TxPool.Revalidate | IDWDetector/core/tx_pool.go:1167-1180 | every queued account is promoted and every account demoted; no gap is left where the state nonce was not lowered, and where it was, exactly if the two sides fit |
| TxPools.TxPool.NewHead | IDWDetector/core/tx_pool.go:1156-1166 | how an account that was in order stands once the head is new |
| TxPools.TxPool.ResetAndRevalidate | IDWDetector/core/tx_pool.go:1156-1192 | after a reset an account that was in order is in order again if and only if its state nonce was not lowered or what was pending fits what came back, and everything pending can be executed |
| TxPools.TxPool.RunReorg | IDWDetector/core/tx_pool.go:1142-1199 | promotes the dirty accounts, or all after a reset with reinjection in turn and demotion, then cuts to the limits; the pool stays exact with complete heaps, accounts stay in order unless a reset lowers their nonce onto a misfit, and after a reset everything pending can be executed |
| TxPools.TxPool.SetGasPrice | IDWDetector/core/tx_pool.go:444-461 | a higher floor leaves exactly the remotes with a tip not below it |
| TxPools.TxPool.Step | IDWDetector/core/tx_pool.go:655-1565 | one call keeps the pool exact and in order, and does what it is for |
| TxPools.TxPool.Run | IDWDetector/core/tx_pool.go:655-1565 | so does every run of calls, resets included: nonces disjoint, lookup and slots exact, no list empty, every remote tracked, and [state nonce, virtual nonce) pending with the queue above for every account whose nonce no reset lowers |
| PoolResets.Reinjections | IDWDetector/core/tx_pool.go:1220-1283 | what a reset puts back is exactly what the old branch had above the latest common block and the new one has not; on a complete chain the walk always ends well |
| PoolResets.DroppedIs | IDWDetector/core/tx_pool.go:1254-1283 | what is put back is what the blocks of the old branch above the latest common block hold and those of the new one do not |
| PoolResets.WalkDown | IDWDetector/core/tx_pool.go:1254-1267 | walks one branch down, collecting its transactions |
| PoolResets.WalkBoth | IDWDetector/core/tx_pool.go:1268-1280 | walks both branches to the first block they share |
| ReorgSchedulers.ReorgLoop.Launch | IDWDetector/core/tx_pool.go:1084-1095 | launches a run with all that was merged if one is wanted and none is active |
| ReorgSchedulers.ReorgLoop.Receive | IDWDetector/core/tx_pool.go:1097-1137 | merges a request and answers it with the channel of the next run |
| ReorgSchedulers.ScheduleReorgLoop | IDWDetector/core/tx_pool.go:1072-1139 | over any events the history is one of merged requests and alternating launches and completions, each run done at the first signal after its launch; no request waits while no run is active, shutdown aside |
| ReorgSchedulers.NoOverlap | IDWDetector/core/tx_pool.go:1083-1128 | at most one run is active: each is done, at the first signal after its launch, before the next is launched |
| ReorgSchedulers.RequestServed | IDWDetector/core/tx_pool.go:1041-1059 | every request is merged into the very run whose channel its sender got, and that run promotes its accounts or resets to its head or a later one |
| ReorgSchedulers.DirtyIsUnion | IDWDetector/core/tx_pool.go:1108-1116 | a run promotes exactly the accounts asked for |
| ReorgSchedulers.LastEventsKept | IDWDetector/core/tx_pool.go:1118-1125 | the events of a run are exactly the last one of each sender and nonce |
| ReorgSchedulers.FirstReset | IDWDetector/core/tx_pool.go:1098-1106 | a merged reset starts at the old head of the first request |
| ReorgSchedulers.LastReset | IDWDetector/core/tx_pool.go:1098-1106 | and ends at the new head of the last |
| ReorgSchedulers.ResetsChain | IDWDetector/core/tx_pool.go:355-362 | each launched reset starts at the head where the one launched before it ended |
| Headers.AncestorStored | IDWDetector/core/headerchain.go:458-470 | ancestors of stored headers are stored, at the numbers their distance says |
| Headers.CanonLinked | IDWDetector/core/headerchain.go:542-544 | the canonical index is hash-linked down to the genesis |
| Headers.CanonUp | IDWDetector/core/headerchain.go:418-424 | down the index is up the parent links |
| ForkChoices.ReorgNeeded | IDWDetector/core/forkchoice.go:77-108 | fails exactly when a difficulty is missing; a header beyond the terminal difficulty wins, else the heavier, else the lower, else the one to preserve, else by the coin |
| HeaderChains.HeaderChain.Batch | IDWDetector/core/headerchain.go:217-250 | collects exactly the unknown headers with their total difficulties |
| HeaderChains.HeaderChain.WriteHeaders | IDWDetector/core/headerchain.go:209-261 | refuses a batch exactly when its parent is unknown; else stores it, parent-closed and weighed, and counts the new ones |
| HeaderChains.HeaderChain.DeleteAbove | IDWDetector/core/headerchain.go:154-161 | deletes exactly the entries above the new head |
| HeaderChains.HeaderChain.RewriteStale | IDWDetector/core/headerchain.go:162-180 | rewrites ancestors down to one the index has, never missing a parent |
| HeaderChains.HeaderChain.WriteCanonical | IDWDetector/core/headerchain.go:182-193 | writes the new headers at their numbers |
| HeaderChains.HeaderChain.Reorg | IDWDetector/core/headerchain.go:139-203 | the canonical index is exactly the ancestors of the new head |
| HeaderChains.HeaderChain.ChooseHead | IDWDetector/core/headerchain.go:286-306 | the head moves exactly when the fork choice says so and the header is not canonical already |
| HeaderChains.HeaderChain.WriteHeadersAndSetHead | IDWDetector/core/headerchain.go:270-306 | keeps the index exact; without a terminal difficulty the head is the heaviest header and never gets lighter |
| HeaderChains.HeaderChain.RewindOne | IDWDetector/core/headerchain.go:580-642 | the head moves to its parent, and its level is marked for deletion |
| HeaderChains.HeaderChain.LevelsAbove | IDWDetector/core/headerchain.go:614-622 | finds every level stored above the head |
| HeaderChains.HeaderChain.SetHead | IDWDetector/core/headerchain.go:574-651 | store, difficulties and index are cut at the number, so that exactly the headers up to it stay; nothing is left above it if and only if the head was above it or nothing was |
| HeaderChains.SideBranchStays | IDWDetector/core/headerchain.go:580 | a lighter, longer side branch survives rewinding to a number the head is not above |
| HeaderChains.HeaderChain.GetAncestor | IDWDetector/core/headerchain.go:406-438 | an answer for a hash that is not zero is what walking parent links gives; a stored header gets one if and only if within the budget it reaches a canonical ancestor or the one asked for, or that is its parent; the zero hash gets one exactly when its number is above the head and the ancestor is not |
| HeaderChains.ZeroHasAncestor | IDWDetector/core/headerchain.go:417-424 | the zero hash above the head gets a non-zero answer |
| HeaderChains.HeaderChain.Run | IDWDetector/core/headerchain.go:139-306 | every run of insertions and rewinds keeps store and index exact; over insertions the head stays heaviest |
| HeaderChains.LastIsHeaviest | IDWDetector/core/forkchoice.go:77-107 | along a batch without negative difficulties the weight does not fall |
| HeaderChains.HeaviestAfter | IDWDetector/core/forkchoice.go:77-107 | after a batch, its last header or the old head outweighs all stored ones |
| HeaderChains.ReorgDone | IDWDetector/core/headerchain.go:139-203 | a batch that agrees with the index at one number makes it the new chain |
| HashFns.HashFn.Get | IDWDetector/core/evm.go:76-107 | the true ancestor for every number below the reference, whatever was asked before; zero for every other |
| HashFns.HashFn.Walk | IDWDetector/core/evm.go:89-105 | the walk that grows the cache |
| BlockChains.BlockChain.Descend | IDWDetector/core/blockchain.go:1938-1955 | a chain is walked down to a number, never missing a block |
| BlockChains.BlockChain.FindFork | IDWDetector/core/blockchain.go:1938-1993 | ends at the latest common ancestor with both branches above it |
| BlockChains.BlockChain.WriteHeadBlock | IDWDetector/core/blockchain.go:738-759 | the block is the head and canonical, and its transactions, no others, are filed under its number |
| BlockChains.BlockChain.WriteNew | IDWDetector/core/blockchain.go:2014-2027 | all new blocks but the head become canonical, lowest first |
| BlockChains.BlockChain.DeleteCanonAbove | IDWDetector/core/blockchain.go:2034-2042 | all entries above a number go |
| BlockChains.BlockChain.Reorg | IDWDetector/core/blockchain.go:1925-2045 | with the head written afterwards the lookup is exact; the index is exact if and only if the old head is not higher or the new parent was not canonical |
| BlockChains.BlockChain.WriteKnownBlock | IDWDetector/core/blockchain.go:1163-1172 | the lookup holds exactly the transactions in the blocks of the new chain, each under the number of its block; both indexes are exact if and only if the switch is clean |
| BlockChains.BlockChain.WriteBlockAndSetHead | IDWDetector/core/blockchain.go:1270-1293 | stores a block with a known parent and switches to it when it is heavier; the lookup always locates exactly the transactions of the head's chain |
| BlockChains.ForkDepth | IDWDetector/core/blockchain.go:2014-2034 | two new blocks or more are exactly the case of a parent that is not canonical |
| BlockChains.DeepCanon | IDWDetector/core/blockchain.go:2014-2042 | with two new blocks or more the index is exact |
| BlockChains.ShallowCanon | IDWDetector/core/blockchain.go:2014-2042 | with fewer it is exact if and only if the old head is not higher |
| BlockChains.StaleEntry | IDWDetector/core/blockchain.go:2034-2042 | a heavy block on an old parent leaves entries of the old chain above it |
| BlockChains.LookupAfter | IDWDetector/core/blockchain.go:2028-2033 | deleting what only the old branch had, and writing the new one, gives the lookup of the new chain |
| ChainPaths.TxDifference | IDWDetector/core/blockchain.go:2031 | exactly the transactions of one list that are not in the other |
| ChainPaths.IndexOfPath | IDWDetector/core/blockchain.go:2014-2027 | the lookup of a chain is that of an ancestor with the blocks between written over it |
| ChainPaths.IndexLocates | IDWDetector/core/blockchain.go:744 | the lookup of a chain has exactly the transactions that some ancestor of its head holds, under the number of that ancestor |
| ChainPaths.NoRepeatIs | IDWDetector/core/blockchain.go:738-759 | that no transaction repeats means that none is held at two distances from the head |
| Feeds.Feed.Subscribe | IDWDetector/event/feed.go:72-92 | a channel waits in the inbox |
| Feeds.Feed.Remove | IDWDetector/event/feed.go:103-124 | one subscription leaves the inbox, or else the cases |
| Feeds.Feed.Find | IDWDetector/event/feed.go:213-220 | the first case of a channel, or none |
| Feeds.Feed.Delete | IDWDetector/event/feed.go:223-225 | closes the gap in place |
| Feeds.Feed.Deactivate | IDWDetector/event/feed.go:228-232 | exchanges two cases in place |
| Feeds.Feed.TrySends | IDWDetector/event/feed.go:159-165 | delivers to any of the cases left, each at most once |
| Feeds.Feed.RemoveDuring | IDWDetector/event/feed.go:171-177 | a case still active is lost, another just leaves; either way the removal goes on record |
| Feeds.Feed.Select | IDWDetector/event/feed.go:170-181 | one step of the loop: the next removal request, or a delivery to any active case |
| Feeds.Feed.Send | IDWDetector/event/feed.go:128-190 | ends; its record of deliveries and removals holds the requests received in their order, the count is that of the deliveries, every subscription at the start is delivered to or removed before that, and the cases left with those removed are the ones at the start |
| Feeds.ExactlyOnce | IDWDetector/event/feed.go:128-190 | over every such record, with distinct channels one gets the value exactly once if and only if it was subscribed at the start and not removed before |
| ChainIndexers.ChainIndexer.SetValidSections | IDWDetector/core/chain_indexer.go:479-491 | heads of later sections go, earlier ones stay |
| ChainIndexers.ChainIndexer.VerifyLastHead | IDWDetector/core/chain_indexer.go:422-429 | rolls back to the last section on the canonical chain, and no further |
| ChainIndexers.ChainIndexer.NewHead | IDWDetector/core/chain_indexer.go:243-300 | a reorg takes back the sections beyond its point, a head completes confirmed ones |
| ChainIndexers.ChainIndexer.Begin | IDWDetector/core/chain_indexer.go:317-337 | takes up the section after the last stored one |
| ChainIndexers.ChainIndexer.ResetFailed | IDWDetector/core/chain_indexer.go:392-395 | all sections go, without the lock |
| ChainIndexers.ChainIndexer.ProcessBlock | IDWDetector/core/chain_indexer.go:397-411 | fails if and only if the backend does or the canonical block of the number is unknown, not stored or no child of the last one; else goes on with it |
| ChainIndexers.ChainIndexer.ProcessSection | IDWDetector/core/chain_indexer.go:387-420 | on one chain that holds the section, with a backend that works, no block fails |
| ChainIndexers.ChainIndexer.ProcessNext | IDWDetector/core/chain_indexer.go:317-369 | then the section is stored on top of those the chain confirms, with its last block as head |
| ChainIndexers.ChainIndexer.Finish | IDWDetector/core/chain_indexer.go:348-369 | stores a section exactly when it was processed and the head before it is still there |
| ChainIndexers.ChainIndexer.Run | IDWDetector/core/chain_indexer.go:243-440 | whatever happens between the steps, section heads are those of the stored sections, each a section above the one before |
| ChainIndexers.ChainIndexer.Sections | IDWDetector/core/chain_indexer.go:434-440 | every section returned has its head on the canonical chain |
| ChainIndexers.AllOnChain | IDWDetector/core/chain_indexer.go:422-440 | if the last section head is on a chain, so are all before it |
| Gas.GasPool.AddGas | IDWDetector/core/gaspool.go:29-35 | adds gas; its callers keep it within 64 bits |
| Gas.GasPool.SubGas | IDWDetector/core/gaspool.go:39-45 | fails, changing nothing, exactly when there is too little |
| Gas.StorageKeysOf | IDWDetector/core/state_transition.go:151-154 | the keys of an access list are those of its parts together |
| Gas.IntrinsicIs | IDWDetector/core/state_transition.go:118-156 | the cost in numbers, by the bytes that are not zero and the keys of the access list |
| Gas.IntrinsicGas | IDWDetector/core/state_transition.go:118-156 | an error exactly when the data costs more than 64 bits hold, else the cost, which an access list alone can wrap |
| Gas.IntrinsicDataGas | IDWDetector/core/state_transition.go:118-150 | the divisions catch exactly the sums that would not fit |
| StateTransitions.StateTransition.BuyGas | IDWDetector/core/state_transition.go:196-216 | checks the funds the fee cap asks for and takes what the price asks for |
| StateTransitions.StateTransition.PreCheck | IDWDetector/core/state_transition.go:267-313 | nonce, rules and gas, the first failure first |
| StateTransitions.StateTransition.PreCheckSu | IDWDetector/core/state_transition.go:219-265 | rules and gas, from its own lines |
| StateTransitions.StateTransition.RefundGas | IDWDetector/core/state_transition.go:485-500 | sender and pool get back what is left and refunded; the pool cannot overflow |
| StateTransitions.StateTransition.TransitionDb | IDWDetector/core/state_transition.go:328-404 | computes the transition |
| StateTransitions.StateTransition.AfterGas | IDWDetector/core/state_transition.go:351-404 | its execution once gas is bought |
| StateTransitions.StateTransition.TransitionDbTest | IDWDetector/core/state_transition.go:407-483 | computes its own transition |
| StateTransitions.StateTransition.AfterGasTest | IDWDetector/core/state_transition.go:430-483 | its own execution once gas is bought |
| Transitions.NonceVerdict | IDWDetector/core/state_transition.go:270-282 | each nonce error comes exactly when the nonce is below, above or the last one, for messages that are not fake, and changes nothing |
| Transitions.ExecutedIfPasses | IDWDetector/core/state_transition.go:267-363 | a message reaches the machine if and only if it is due, priced, and covered by funds, block gas and intrinsic gas |
| Transitions.ErrorIs | IDWDetector/core/state_transition.go:196-363 | which error a message gets that is due |
| Transitions.ExecutedDoes | IDWDetector/core/state_transition.go:328-404 | what the machine is asked and what becomes of its answer, account by account |
| Transitions.TestIgnoresNonce | IDWDetector/core/state_transition.go:407-483 | the second transition does not depend on the nonce of the message |
| Transitions.GasConserved | IDWDetector/core/state_transition.go:485-505 | in both transitions, what a message uses is what the pool loses, and the refund is at most the quotient of what was used |
| Transitions.EtherConserved | IDWDetector/core/state_transition.go:328-483 | in both, all balances together fall by exactly the gas used times price less tip |
| Transitions.NothingBurnt | IDWDetector/core/state_transition.go:381-393 | before London they stay the same |
| Transitions.BaseFeeBurnt | IDWDetector/core/state_transition.go:381-393 | from London on they fall by the gas used times the base fee |
| Transitions.NeverOverdrawn | IDWDetector/core/state_transition.go:196-216 | buying gas overdraws no sender with the funds asked for if and only if those cover the price of the gas |
| Transitions.SenderCanPay | IDWDetector/core/state_transition.go:196-216 | they do without a cap, and with one if and only if the value makes up for the price above it; within the cap the value is left |
| Transitions.Overdrawn | IDWDetector/core/state_transition.go:196-404 | a transition that goes through and leaves its sender with less than nothing |
| Transitions.TransferCovered | IDWDetector/core/state_transition.go:360-363 | with a cap not below the price the transfer error never happens |
| Transitions.SameRules | IDWDetector/core/state_transition.go:219-313 | the rules of preCheckSu are those of preCheck after the nonce |
| Transitions.SameExecution | IDWDetector/core/state_transition.go:351-483 | the two tails, written twice, give the same result, state and gas |
| Transitions.SameWithoutNonceChecks | IDWDetector/core/state_transition.go:328-483 | unless the first fails for the nonce, the two transitions give the same result, state and gas |
| StateTransitions.RunBoth | IDWDetector/core/state_transition.go:328-483 | run side by side from the same state, so do the two methods |
| StateProcessors.ApplyTransaction | IDWDetector/core/state_processor.go:115-158 | the gas counter grows by what the pool loses |
| StateProcessors.Process | IDWDetector/core/state_processor.go:60-113 | pool and gas used always add up to the limit, cumulative gas is the running sum within the limit, each receipt is that of its transition, and each message was due; a failure is the first transition refused |
| StateProcessors.NoReplay | IDWDetector/core/state_processor.go:86-108 | in a block that goes through, messages of one sender have rising nonces, so none runs twice |
| StateProcessors.BlockEtherConserved | IDWDetector/core/state_processor.go:86-108 | over a block all balances together fall by what its transactions burn |
| HdPaths.ParseDerivationPath | IDWDetector/accounts/hd.go:68-118 | the components of the path, absolute or under the default root, or the first error |
| HdPaths.ParseComponents | IDWDetector/accounts/hd.go:88-117 | reads components in turn up to the first error |
| HdPaths.String | IDWDetector/accounts/hd.go:122-136 | the canonical notation |
| HdPaths.ParsePrint | IDWDetector/accounts/hd.go:68-136 | parsing a printed path gives it back; only the empty path is refused |
| HdPaths.ParsePrintParse | IDWDetector/accounts/hd.go:68-136 | for every accepted string, parsing, printing and parsing again is parsing once |
| HdPaths.Bounds | IDWDetector/accounts/hd.go:95-112 | 32 bits unhardened, 31 bits hardened, and no more |
| HdPaths.SpacedComponent | IDWDetector/accounts/hd.go:89-98 | white space around a component, its number and its marker is ignored |
| HdPaths.RelativePath | IDWDetector/accounts/hd.go:79-83 | a path without the m is the absolute one under the default root |
| HdPaths.Ambiguous | IDWDetector/accounts/hd.go:76-77 | a path that starts with nothing or a slash is refused |
| HdPaths.ComponentRead | IDWDetector/accounts/hd.go:90-116 | a printed component is read back, marker included |
| Numbers.DecimalRead | IDWDetector/accounts/hd.go:101 | decimal notation is read back in base 0, with or without a sign |
| Numbers.PrefixRead | IDWDetector/accounts/hd.go:101 | so is hexadecimal, binary and octal notation with its prefix |

## Left out

- Add: that a failed addition changes nothing is promised except for a losing bid on a full pool with remote transactions, where it is false.
- RunReorg: for an account whose nonce a reset lowers onto a misfit nothing is claimed, because the limits enforced afterwards may cut the gap away again.
- Step: of the effect of a call only the main part is stated; the whole is in the contract of the method it calls.
- HeaderChain: interrupts, the caches, the callbacks of SetHead and the 64-bit wrap of block numbers are not modelled.
- BlockChain: logs, events, receipts and the state database are not modelled; the genesis has the zero hash as parent.
- HashFn: the reference number is below the largest 64-bit number, and a reference numbered 0 has the zero hash as parent.
- ChainIndexer: checkpoints, child indexers and the throttling timer are not modelled.
- Feed: the element type checks and the channel values themselves are not modelled; the removals asked for during a Send are of subscriptions.
- Process: the balances moved by the DAO fork before the first transaction and the engine's Finalize after the last, which pays the block reward, are not modelled; BlockEtherConserved is about the transactions in between. Signature recovery is a message that is there or not, and the state's clean-up between transactions is a parameter.
- StateTransition: access list preparation and the virtual machine are part of an abstract machine that returns no more gas than it got and keeps the sum of balances.
- NoReplay: assumes of the abstract machine that it lowers no nonce and raises that of the creator of a contract, and of the clean-up that it keeps nonces.
- Numbers: the number syntax is that of Go's big integers in base 0, which is not part of this repository; invalid UTF-8 is not modelled.
- In the pool, per-account lists are values; that each operation of the list class computes on its value what the pool uses is stated in the contracts of the class.
- Heartbeats, journals, metrics, logs and event announcements of the pool.
- The 64-bit wrap of nonces in the pool.
- The count of stale entries in the price heaps, a heuristic that the program itself does not keep exact.
- The order in which truncateQueue visits accounts, which comes from heartbeats, is any order.
- Signature checks and intrinsic gas of pool transactions are attributes of a transaction.
- The detector under `IDWDetector/hunter`, whose package is not part of this model.
- Block insertion beyond setting the head, snapshots, the freezer and tries.
- RPC, console, light client, wallet and network code.
