# Cent: verified models of the node's core

Cent is a node for a proof-of-stake chain descended from Bitcoin. Several of its components keep
redundant state by hand that has to agree with something simple. This project models those components
in Dafny and proves that they do.

* **Address manager** (`AddrBook`, `AddrOps`, `AddrEffects`, `AddrMan`, `AddrCheck`): entries, an address
  index, a random order, the 1024 x 64 table of new and the 256 x 64 table of tried entries, counters and
  reference counts. `AddrBook.Consistent` is the invariant, stated once for every entry and slot;
  `AddrCheck` is the node's own `Check_`, in its loops, and says exactly how much of the invariant that
  tests. `AddrMan.AddrMan` holds the fields and does the work in place; `AddrOps` says what each operation
  does to the manager as a value, and `AddrEffects` what that comes to in plain numbers. `AddrSave`,
  `AddrRoundTrip`, `AddrFallback` and `AddrStore` are the file format.
* **Coin set** (`Coins`, `CoinView`, `CoinCache`, `CoinBlock`, `CoinConnect`, `CoinOutputs`, `CoinSupply`,
  `CoinHistory`): a stack of write-back caches over a database, transactions connected to it and
  disconnected again, the money supply, and what undoing the blocks of a whole chain restores. `CoinCache`
  and `CoinConnect` are the objects and loops; `CoinView` and `CoinBlock` the plain values they stand for.
  `CoinsCodec`, `CoinsStream`, `Compressor` (digits and exponents) and `CompressorWidth` (the same in 64
  bits) are the stored form.
* **Check queue** (`CheckQueue`, `CheckQueueLoop`): one master, any number of workers, one mutex, two
  condition variables. Every critical section is one step of a state machine; threads may wake without
  having been notified. `CheckQueueLoop` ties the queue object's methods to those steps.
* **Block tree** (`BlockTree`, `ActiveChain`, `BlockLinking`, `BestChain`, `BlockChecks`, `BlockIndex`,
  `BlockActivation`, `BlockInvalidation`, `BlockArrival`): the skip list, the indexed active chain, linking of
  blocks that arrive out of order, the search for the chain with the most work, the move to it step by step,
  blocks called invalid by the user, and whole histories of all that. `Valid` holds whoever calls the methods
  of the index; `Checked` is what `CheckBlockIndex` asserts beyond it, which rests on how blocks are accepted.
* **Integers and codecs** (`Words`, `UInt`, `UIntShift`, `UIntMul`, `UIntDiv`, `CompactForm`,
  `CompactWords`, `Digits`, `Base58`, `Base58Codec`): fixed-width integers over words, the compact target
  format, and Base58. `Arithmetic`, `Bits`, `Collections` and `Wrappers` hold what several modules share.
* **Stake modifier** (`StakeModifier`): the rounds that pick blocks for the next modifier.

Hashes, random numbers and clocks are parameters. Amounts, counters and identifiers are unbounded
integers except where a width matters, and there the width is written out: words of 32 bits, carries of
64 bits, the 256-bit target, the 64-bit modifier, the stored amounts. A `hide` statement at the start of a
proof only keeps the verifier from unfolding a definition that the proof does not need.

Five properties one might expect do not hold of the code. Each is stated with the exact condition under
which it does hold, and with a concrete case in which it does not:

* Undoing a block does not restore the coinstake flag of a transaction that the block fully spent, and reports
  unclean undo data for spent coins at height zero (`CoinBlock.DisconnectRestores`). Along a chain heights are
  positive, because the transactions of the genesis block are not connected (src/main.cpp:2094-2099), so that
  only the flag can be lost, and only once this or an earlier block has spent the empty first output of a
  coinstake (`CoinHistory.ChainUndone`). `CoinHistory.StakeFlagLost` is a chain in which it is lost, one block of
  proof of work and two of proof of stake at any heights; `CoinHistory.FlagLostIn` says that whatever other blocks
  and coins there are does not matter.
* Flushing a cache that never learned its best block writes a null best block into the cache below
  (`CoinView.FlushBestBlock`, `CoinView.FlushLosesBestBlock`).
* Clearing an address manager leaves its entries and its address index behind (`AddrOps.ClearConsistent`), for
  instance after one routable address was heard of (`AddrOps.ClearLeavesEntries`).
* Multiplying a number by itself in place yields zero, because the operand is cleared before it is read
  (`UIntMul.Multiply`, `UIntMul.SelfProductRight`, `UIntMul.SelfProductWrong`).
* Compressing an amount and decompressing it are not inverse on all 64-bit numbers, because both wrap
  (`CompressorWidth.CompressBothWays`, `CompressorWidth.WidthMatters`); they are on every amount of money
  (`CompressorWidth.MoneyFits`).

The node's check of an address manager tests less than the invariant: neither the order in which identifiers
were handed out nor addresses indexed without an entry; and looking up an address that is missing in the index
enters it there, under identifier 0 (`AddrCheck.PassesExact`).

Where comments and code disagree the model follows the code. The header comment of `CCoins` describes a
header code with one flag bit fewer and a mask count times eight; the code writes two flag bits and a
count times sixteen (src/coins.h:207). `CCoins::GetSerializeSize` still uses eight (src/coins.h:183), so
nothing is claimed about that size. A comment in
`SelectBlockFromCandidates` says that proof-of-stake blocks are always favored; `StakeModifier.StakeFavoured`
says over which blocks they are. The tests of the compressor expect 7 for a cent, which is right for a
hundredth of a coin; `CENT` is defined as a whole coin (src/amount.h:17), whose stored form is 9
(`Compressor.KnownAmounts`). Inside `MakeTried` the source lowers the counter of new entries before
it raises it again for the evicted entry; only the state at the end of the call is compared.

## Model

| member | source | states |
|---|---|---|
| AddrBook.SwapKeeps | src/addrman.cpp:101-119 | exchanging two places of the random order keeps the order and the stored positions inverse to each other, and everything else of the invariant |
| AddrBook.DeleteKeeps | src/addrman.cpp:121-133 | deleting an unreferenced entry outside the tried table keeps the invariant, although another entry takes its place in the random order |
| AddrBook.ClearNewKeeps | src/addrman.cpp:135-148 | emptying a new slot keeps the invariant; its occupant is deleted exactly when that was its last reference |
| AddrBook.ClearNewFrame | src/addrman.cpp:135-148 | emptying a new slot changes that slot and its occupant and nothing else |
| AddrBook.EvictKeeps | src/addrman.cpp:167-190 | moving a tried entry back to its new slot, whose occupant gives way, keeps the invariant |
| AddrOps.EvictEffect | src/addrman.cpp:167-190 | an evicted entry ends up in its own new slot with one reference, and only the slot's last occupant can disappear |
| AddrOps.MakeTriedEffect | src/addrman.cpp:150-196 | all new references of the entry go, the occupant of its tried slot is evicted, and the entry fills that slot |
| AddrOps.MakeTriedKeeps | src/addrman.cpp:150-196 | moving an entry to the tried table keeps the invariant: none of the assertions on the way can fail |
| AddrOps.GoodEffect | src/addrman.cpp:198-245 | a known address marked good is afterwards in its one tried slot with no new references and fresh times, and no other tried slot changes |
| AddrOps.GoodKeeps | src/addrman.cpp:198-245 | marking an address good keeps the invariant |
| AddrOps.PlaceEffect | src/addrman.cpp:291-311 | when a new slot is taken over, when the newcomer is dropped instead, and that every other entry is untouched |
| AddrOps.AddUnknownEffect | src/addrman.cpp:247-313 | an unknown address is kept exactly when its slot is free, or its occupant is terrible or has other references; the two tables change in that slot at most |
| AddrEffects.AddKnownEffect | src/addrman.cpp:247-313 | hearing again about a routable address: the time becomes what was heard less the penalty, at least zero, if the entry had none or the news is newer, penalty included, by more than an hour for addresses heard of within a day and a day for others; services are united; one more slot is won exactly if the news is newer than the time kept, the entry is not tried and has fewer than 8 references, the dice is divisible by 2 to their number, and the slot under this source is free or held by somebody else who is terrible; only that one is disturbed |
| AddrEffects.AddedEntry | src/addrman.cpp:285-289 | an unknown address that is kept is indexed under a new identifier with what was heard of it, the time less the penalty, one reference and no history |
| AddrEffects.AttemptEffect | src/addrman.cpp:315-332 | an attempt on an exactly known address sets the time of the last try and counts one attempt more, and nothing else; on another port or an unknown address nothing happens |
| AddrEffects.ConnectedEffect | src/addrman.cpp:472-490 | a connection to an exactly known address raises its time if that is more than 1200 seconds old, and changes nothing else |
| AddrEffects.TerribleExact | src/addrman.cpp:42-60 | an entry is terrible unless tried within the last 60 seconds, if its time is missing, over 600 seconds ahead or 30 days old, or if it failed 3 times without a success ever or 10 times without one for 7 days |
| AddrEffects.QuotaExact | src/addrman.cpp:453-455 | the quota is 23 percent of the entries rounded down, and 2500 if that is less |
| AddrEffects.SourceGroupSpread | src/addrman.cpp:22-28 | whatever is heard from one group of sources goes to at most 64 of the 1024 new buckets, which that group and the key select |
| AddrEffects.TriedGroupSpread | src/addrman.cpp:15-20 | the tried addresses of one group go to at most 8 of the 256 tried buckets, which that group and the key select |
| AddrEffects.BucketChoice | src/addrman.cpp:15-28 | which of those buckets it is depends, for new entries, on the groups of address and source only, and for tried ones on the group and the remainder by 8 of the hash of the whole address |
| AddrOps.AddKeeps | src/addrman.cpp:247-313 | hearing about any address, known or not, keeps the invariant |
| AddrOps.AttemptKeeps | src/addrman.cpp:315-332 | recording an attempt keeps the invariant |
| AddrOps.ConnectedKeeps | src/addrman.cpp:472-490 | recording a connection keeps the invariant |
| AddrOps.StepKeeps | src/addrman.cpp:198-332 | every operation keeps the invariant |
| AddrOps.EveryRunConsistent | src/addrman.cpp:374-449 | after every sequence of operations from an empty manager the invariant holds: exact counters and reference counts between 1 and 8, tried entries in their one slot, mutually inverse index, order and positions |
| AddrOps.ClearConsistent | src/addrman.h:428-446 | clearing gives a consistent manager exactly if it had no entries and no index to begin with |
| AddrOps.ClearLeavesEntries | src/addrman.h:428-446 | after hearing about any one routable address a manager is consistent, and clearing it leaves it inconsistent with the address still known |
| AddrCheck.Check | src/addrman.cpp:374-449 | the loops return zero exactly of a manager that passes the tests, and any other number only of one with the fault that number stands for: all counters, references counted down slot by slot, every tried entry met once; the lookups enter at most the address of entry 0; a consistent manager passes unchanged |
| AddrCheck.CheckEntries | src/addrman.cpp:383-408 | the tests of single entries with the number each returns, and the tried entries and reference counts collected on the way |
| AddrCheck.CheckTried | src/addrman.cpp:415-427 | succeeds exactly if every occupied tried slot is the one of a tried entry; nothing is left over exactly if every tried entry is in its slot |
| AddrCheck.CheckNew | src/addrman.cpp:429-440 | nothing is left over exactly if every new slot is one of a new entry and every reference count is the number of slots |
| AddrCheck.PassesExact | src/addrman.cpp:374-449 | passing is consistency less three things: identifiers in range, no stray indexed address, entry 0 indexed |
| AddrCheck.CompletedConsistent | src/addrman.cpp:398-399 | of the three the check itself brings about the last |
| AddrCheck.RandomLength | src/addrman.cpp:380-381 | the random order is as long as the two counters say |
| AddrCheck.ClearedPasses | src/addrman.h:428-446 | a cleared manager passes exactly if it had no entries, whatever is left in the index |
| AddrMan.AddrMan.SwapRandom | src/addrman.cpp:101-119 | the exchange in place computes the specified manager |
| AddrMan.AddrMan.Delete | src/addrman.cpp:121-133 | deletion in place computes the specified manager; its assertions hold |
| AddrMan.AddrMan.ClearNew | src/addrman.cpp:135-148 | emptying a slot of the table in place computes the specified manager |
| AddrMan.AddrMan.MakeTried | src/addrman.cpp:150-196 | the bucket loop and the eviction compute the specified manager and keep the invariant |
| AddrMan.AddrMan.FindNewBucket | src/addrman.cpp:221-238 | from any start the loop finds a bucket that holds the entry: the exit for "no bucket found" is never taken |
| AddrMan.AddrMan.Good | src/addrman.cpp:198-245 | marking an address good, in place |
| AddrMan.AddrMan.Add | src/addrman.cpp:247-313 | hearing about an address, in place, with the result saying whether it was unknown; what that comes to is AddKnownEffect, AddUnknownEffect and AddedEntry |
| AddrMan.AddrMan.Attempt | src/addrman.cpp:315-332 | recording an attempt, in place; what that comes to is AttemptEffect |
| AddrMan.AddrMan.Connected | src/addrman.cpp:472-490 | recording a connection, in place; what that comes to is ConnectedEffect |
| AddrMan.AddrMan.GetAddr | src/addrman.cpp:451-470 | at most the quota is handed out, nobody twice, nobody terrible, and everybody else if the quota is not reached; only the random order changes |
| AddrRoundTrip.RoundTrip | src/addrman.h:276-421 | loading what was saved from any consistent manager gives a consistent manager with the same entries and the same address in every new and tried slot, up to renumbering, and reads the stream to its end |
| AddrFallback.FallbackLoad | src/addrman.h:346-416 | under a header that makes the saved slots useless the same records still give a consistent manager, whatever the buckets hold: with every tried entry in its slot and, of the new ones, the first for each home slot, with one reference |
| AddrFallback.PruneEffect | src/addrman.h:405-416 | dropping the new entries without a reference drops exactly them, changes nothing else but the random order, and leaves the manager consistent |
| AddrFallback.LaterVersion | src/addrman.h:353-362 | in particular a saved manager whose version is a later one is read to its end in that way |
| AddrSave.SavedHeader | src/addrman.h:280-288 | the first six tokens of a saved manager |
| AddrSave.FlipMarkExact | src/addrman.h:287-288 | the mark on the number of buckets is bit 30 |
| AddrStore.Serialize | src/addrman.h:276-323 | the loops write exactly the specified stream |
| AddrStore.Unserialize | src/addrman.h:326-421 | the loops turn any stream into what the specification says, or fail when it does |
| AddrStore.SaveAndLoad | src/addrman.h:276-421 | saving a valid manager and loading it into a new one loses nothing |
| Coins.SameIsNormal | src/coins.h:147-157 | the source's equality is equality of coins with all pruned values identified with the empty ones |
| Coins.CleanupKeeps | src/coins.h:120-126 | dropping spent outputs at the end changes neither what is available nor whether coins are pruned |
| Coins.PutBackUndoes | src/coins.cpp:36-52 | putting a spent output back restores the outputs, even when the list had shrunk |
| Coins.SpentEmpty | src/coins.cpp:36-52 | the list is empty after a spend exactly if nothing is left |
| Coins.UndoExact | src/coins.cpp:36-52 | a spend keeps the output, and flags, height and version of its transaction exactly if no other output is available |
| CoinView.FetchKeeps | src/coins.cpp:86-102 | fetching into a cache, through any number of layers, changes nothing visible |
| CoinView.HaveCoinsExact | src/coins.cpp:143-151 | the test answers exactly "not pruned" |
| CoinView.GetBestBlockKeeps | src/coins.cpp:153-158 | asking for the best block changes nothing visible |
| CoinView.BeginModifyKeeps | src/coins.cpp:114-131 | opening an entry for modification changes nothing visible |
| CoinView.EndModifyPuts | src/coins.cpp:263-277 | closing it changes exactly that key, also when a fresh pruned entry is dropped |
| CoinView.FreshNeverFails | src/coins.cpp:165-200 | the assertion about fresh entries in the batch write holds |
| CoinView.FlushKeeps | src/coins.cpp:202-207 | flushing a layer changes no visible coins |
| CoinView.FlushBestBlock | src/coins.cpp:202-207 | flushing keeps the visible best block exactly if the layer knew it, lies on the database, or the layer below had nothing to lose |
| CoinView.FlushLosesBestBlock | src/coins.cpp:202-207 | three layers in which a flush loses the best block |
| CoinView.StepRefines | src/coins.cpp:86-207 | every operation on the top of any stack is the same operation on one plain map |
| CoinView.EveryRunRefines | src/coins.cpp:86-207 | every run of operations on a stack of caches is a run on one plain map from transaction to coins |
| CoinCache.CoinsCache.GetCoins | src/coins.cpp:86-112 | the cache object answers with what the stack shows |
| CoinCache.CoinsCache.ModifyCoins | src/coins.cpp:114-131 | opening an entry, in place, with its flags |
| CoinCache.CoinsCache.ModifierDone | src/coins.cpp:263-277 | closing an entry, in place |
| CoinCache.CoinsCache.BatchWrite | src/coins.cpp:165-200 | the loop that erases while it iterates merges the child's entries as specified |
| CoinCache.CoinsCache.Flush | src/coins.cpp:202-207 | flushing object into object is flushing the stack |
| CoinBlock.SpendInputsEffect | src/main.cpp:1820-1834 | spending a transaction's inputs removes exactly the emptied transactions and keeps the others' fields |
| CoinBlock.RestoreInputsExact | src/main.cpp:1993-2025 | restoring inputs in reverse order gives back the coins before the spends with the coinstake flags of emptied transactions cleared, and is clean exactly if none of them was at height zero |
| CoinBlock.DisconnectTxExact | src/main.cpp:1960-2026 | the same for a whole transaction: its outputs match, go, and its inputs come back |
| CoinBlock.DisconnectExact | src/main.cpp:1947-2038 | undoing a connected block gives back the coins up to the coinstake flags it lost, and says exactly when it is clean |
| CoinBlock.DisconnectRestores | src/main.cpp:1947-2038 | undoing a block restores the coin set and is clean if and only if all fully spent transactions were above height zero and none of them was a coinstake |
| CoinBlock.DisconnectRestoresRest | src/main.cpp:2005-2012 | whatever the block spends, every field but the coinstake flag is restored |
| CoinHistory.StakeFlagLost | src/main.cpp:2005-2012 | at any three rising heights around the last one for proof of work: a block of proof of work mints, one of proof of stake stakes, and the next one, with the paying output as its kernel, spends both outputs of that coinstake; undoing it is clean but gives the coinstake back without its flag |
| CoinHistory.FlagLostIn | src/main.cpp:2005-2012 | the same in any coins that still hold that coinstake, whatever else they hold |
| CoinHistory.ChainSound | src/main.cpp:2094-2099 | along every chain above the first block coins have positive heights, and coinstakes keep their empty first output as long as no block spends one |
| CoinHistory.StakeIsMarked | src/primitives/transaction.h:257-261 | a new coinstake comes with its empty first output, which is neither null nor unspendable |
| CoinHistory.BlockKeepsStakes | src/main.cpp:1820-1834 | a block that spends no such output empties no coinstake |
| CoinHistory.ChainUndone | src/main.cpp:1947-2038 | undoing any block of any chain restores every output and every field but the coinstake flag; it restores the coin set exactly if the block emptied no coinstake, and always as long as no block spent the empty first output of one |
| CoinConnect.UpdateCoinsOn | src/main.cpp:1820-1834 | the loop over the view does what the plain map specifies |
| CoinConnect.ConnectOn | src/main.cpp:2157-2200 | the transaction loop of connecting a block, over any stack of caches |
| CoinOutputs.ConnectShown | src/main.cpp:1820-1834 | a block connects exactly if every input of every transaction names an output that is unspent by its turn, none twice; then every output there is stands as the last transaction that made or spent it left it: absent if spent, or if its script starts with the byte 0x6a, otherwise with its own value and script, the height of the block, and the version and kind of its transaction |
| CoinOutputs.CreatedOutputs | src/coins.h:128-135 | of what a block creates exactly those outputs are available whose script does not start with the byte 0x6a (src/script/script.h:600-603) and that no later transaction of the block spends |
| CoinConnect.ConnectBlock | src/main.cpp:2086-2281 | the view must show the previous block as its best one, the assertion of the source; connecting succeeds exactly if every input is there, leaves every output as the block says (unspendable ones out), returns undo data for all transactions but the coinbase, and makes the block the best one shown |
| CoinConnect.DisconnectBlock | src/main.cpp:1947-2038 | the view must show this block as its best one, the assertion of the source; the loops over any stack of caches: of undo data that fits the block the resulting outputs are always stated, and all fields unless an output was put back into a missing transaction; undo data that does not fit stops the loop at that transaction, with the later ones undone and the best block kept |
| CoinOutputs.MatchExact | src/main.cpp:1976-1990 | when a transaction is undone, what is found of it matches exactly if it shows the outputs the transaction contributed, under the same kind, height and version; a negative version is not compared |
| CoinConnect.ConnectAndDisconnect | src/main.cpp:1947-2200 | on any stack of caches that shows the previous block as its best one, connecting and undoing a block brings back the best block shown; it brings back the coins and is clean if and only if the condition above holds |
| CoinSupply.UpdateCoinsBalance | src/main.cpp:1820-1834 | a transaction changes the total of unspent outputs by what it pays out, less what it takes in and what it makes unspendable |
| CoinSupply.BlockBalance | src/main.cpp:2157-2200 | the same for a block |
| CoinSupply.SupplyConserved | src/main.cpp:2202-2205 | along every chain of connected blocks the unspent outputs and the outputs dropped as unspendable add up to the recorded money supply |
| CheckQueue.StepKeeps | src/checkqueue.h:69-158 | every step of every thread keeps the invariant |
| CheckQueue.EveryRun | src/checkqueue.h:69-158 | the invariant holds in every state of every interleaving |
| CheckQueue.CountersExact | src/checkqueue.h:46-60 | total less idle is the number of threads that hold a batch; work to do is what is queued or held; every check added is queued, in exactly one batch, or reported |
| CheckQueue.ShareFair | src/checkqueue.h:105-110 | a batch is between one check and the batch size, and otherwise the number of queued checks divided by one more than all threads with the idle ones counted twice |
| CheckQueue.AddNotifies | src/checkqueue.h:146-158 | adding one check wakes the one worker picked if it sleeps, adding more wakes every worker that sleeps, and nobody else is woken |
| CheckQueue.SettleNotifies | src/checkqueue.h:80-85 | a worker that reports the last of the work wakes the master if that sleeps, and no report wakes anybody else |
| CheckQueue.WaitTruthful | src/checkqueue.h:91-100 | a wait returns true only if all checks added since the last one ran and passed, false only if one that ran failed, and nothing ran that was not added |
| CheckQueue.IdleBetweenWaits | src/checkqueue.h:164-190 | while nothing has been added since the last wait the queue is idle, so the assertion of the control object holds |
| CheckQueue.WaitLeavesIdle | src/checkqueue.h:91-100 | right after a wait the queue is idle and the master outside |
| CheckQueue.SleepingMaster | src/checkqueue.h:80-104 | a sleeping master whom nobody notified implies a worker that holds a batch |
| CheckQueue.NeverStuck | src/checkqueue.h:69-127 | while the master waits some thread can run a check, report, or answer a notification |
| CheckQueue.WorkShrinks | src/checkqueue.h:69-127 | such steps use up the remaining work, apart from waking up |
| CheckQueue.WaitBounded | src/checkqueue.h:69-127 | in every run, between two additions at most six such steps are made for each check left and one for each thread, however the threads interleave and wake, and another is possible as long as the master has not returned |
| CheckQueueLoop.SharedQueue.LoopTop | src/checkqueue.h:91-119 | returning, waiting and taking a batch from the end of the queue, on the shared fields |
| CheckQueueLoop.SharedQueue.ReportBatch | src/checkqueue.h:80-85 | the clean-up after a batch, and when the master is notified |
| CheckQueueLoop.SharedQueue.Add | src/checkqueue.h:146-158 | adding checks, and when one or all workers are notified |
| CheckQueueLoop.SharedQueue.Pop | src/checkqueue.h:111-117 | the batch is the end of the queue, last check first |
| CheckQueueLoop.RunBatch | src/checkqueue.h:121-124 | going through a batch is the thread's running steps; the result is true exactly if it was before and all checks pass |
| BlockTree.InvertLowestOneExact | src/main.cpp:3530-3531 | the lowest one bit becomes zero and every other bit stays, for every number |
| BlockTree.SkipGoesBack | src/main.cpp:3533-3543 | the skip height is below the height |
| BlockTree.SkipEvenExact | src/main.cpp:3530-3543 | the skip height of an even height is that height without its lowest one bit |
| BlockTree.SkipOddExact | src/main.cpp:3530-3543 | the skip height of an odd height is that height without the two lowest ones among its higher bits, or one if it has just one of them |
| BlockTree.GetAncestor | src/main.cpp:3545-3566 | through skip pointers the loop ends at the entry that a walk over parents reaches, at every height; other heights have none |
| BlockTree.BuildSkip | src/main.cpp:3573-3577 | a new entry's skip pointer is its ancestor at the skip height |
| BlockTree.AppendKeeps | src/main.cpp:2907-2913 | a tree and its skip list stay right when an entry is added |
| ActiveChain.BranchShows | src/chain.h:477-480 | slots that are linked by parents hold exactly the tip's ancestors |
| ActiveChain.ContainsExact | src/chain.h:519-523 | the membership test is true exactly of the tip and its ancestors |
| ActiveChain.Chain.SetTip | src/chain.cpp:13-24 | slot by slot the chain holds the new tip's ancestors, although the loop stops at the first match |
| ActiveChain.Chain.FindFork | src/chain.cpp:54-61 | the result is the highest block shared with the chain, and none only if no block is shared |
| ActiveChain.Chain.GetLocator | src/chain.cpp:26-52 | the locator holds ancestors at the specified heights and ends at height zero |
| ActiveChain.LocatorDescends | src/chain.cpp:26-52 | a locator's heights strictly fall |
| ActiveChain.LocatorLength | src/chain.cpp:26-52 | a locator has at most twelve entries plus the logarithm of its start's height |
| BlockLinking.ToGlobal | src/main.cpp:4229-4233 | local agreement of counts with parents means: nonzero exactly if all ancestors have data, and then the sum of their transactions |
| BlockLinking.LinkKeeps | src/main.cpp:2975-2994 | one turn of the queue keeps the linking invariant for everything not queued |
| BlockLinking.ReceiveWaits | src/main.cpp:2995-2998 | data below an unlinked parent waits, once, under that parent |
| BlockIndex.BlockIndex.AddToBlockIndex | src/main.cpp:2887-2955 | a new entry with parent, height, skip pointer and work keeps the whole invariant, and the assertions of the check if only the first block is without a parent; a known hash changes nothing |
| BlockIndex.BlockIndex.ReceivedBlockTransactions | src/main.cpp:2957-3002 | counts, waiting entries and candidates are exact after every arrival of data; linked entries do not change; the queue ends |
| BlockIndex.BlockIndex.Inspect | src/main.cpp:2633-2668 | reports the first failed or missing block between a candidate and the active chain, if any; the assertion about linked blocks holds |
| BlockIndex.BlockIndex.Discard | src/main.cpp:2650-2664 | marks or requeues exactly the path to that block and removes it from the candidates |
| BlockIndex.BlockIndex.GiveUp | src/main.cpp:2639-2666 | a failed block below the best candidate makes that the best invalid block if it has more work; then the path is discarded |
| BlockIndex.BlockIndex.FindMostWorkChain | src/main.cpp:2619-2672 | ends, returns the greatest candidate whose branch is usable, drops only candidates that are not, and never takes the missing-data branch in a linked index; there every candidate dropped has failed, whatever was marked lies off the chain right above a failed block and neither is a candidate any more, and the best invalid block has at least as much work as every candidate dropped |
| BlockIndex.CondemnedPath | src/main.cpp:2650-2664 | so from every block marked or dropped by the search a path off the active chain leads down to a block that had failed before, and every block on it has failed and is no candidate |
| BlockIndex.BlockIndex.InvalidBlockFound | src/main.cpp:1800-1818 | marking a block invalid keeps the invariant; the best invalid block is replaced only by one with more work |
| BlockIndex.BlockIndex.PruneBlockIndexCandidates | src/main.cpp:2674-2685 | removes exactly the candidates worse than the tip |
| BlockIndex.BlockIndex.DisconnectTip | src/main.cpp:2405-2444 | takes exactly the tip off the chain and keeps the invariant |
| BlockIndex.BlockIndex.ConnectTip | src/main.cpp:2456-2529 | puts a valid block on top and raises its validity, or marks it as invalid; keeps the invariant; the first block is taken as it is |
| BlockActivation.BackToFork | src/main.cpp:2698-2704 | disconnects exactly down to the fork, never below the root: what is left of the chain is the lower part of the branch to be activated, and nothing that was taken off belongs to that branch |
| BlockActivation.PathDown | src/main.cpp:2713-2720 | the list of blocks of the branch between two heights, found through skip pointers and parents |
| BlockActivation.TargetHeight | src/main.cpp:2713 | a batch ends 32 blocks further up, or at the top if that is nearer |
| BlockActivation.ConnectNext | src/main.cpp:2725-2739 | one block connected or found invalid, then the worse candidates deleted, of which some always remain |
| BlockActivation.ConnectBatch | src/main.cpp:2723-2746 | a batch of blocks, lowest first, until the tip has more work than before or one is invalid; then the best invalid block has at least the work of the lowest one, and otherwise it is the same as before |
| BlockActivation.ActivateBestChainStep | src/main.cpp:2691-2753 | one step in batches of 32: it ends with one more invalid block, with more work than before, or at the block searched for, connects no block beyond the first that gives more work, and keeps the candidates complete above the best block held so far |
| BlockActivation.ActivateBestChain | src/main.cpp:2763-2813 | the loop of searches and steps ends, whichever blocks connect; then the index is as the check demands, and the tip is the best of all linked blocks that had not failed and of which every block below connects |
| BlockActivation.MostWorkIsBest | src/main.cpp:2619-2672 | between two steps the search still returns the best linked block without a failed ancestor |
| BlockActivation.VettedStaysSound | src/main.cpp:2726-2733 | a block of which every block below connects is not marked as failed by the move |
| BlockInvalidation.InvalidateBlock | src/main.cpp:2818-2851 | calling any block but the first invalid cuts the chain just below it, marks it and the chain above and nothing else; candidates are exactly the old ones without those and every linked block no worse than the new tip, and the index is left as the check demands |
| BlockIndex.MissingNever | src/main.cpp:2642-2659 | the block that spoils a candidate of a linked index has failed; it does not lack data |
| BestChain.WorseOrders | src/main.cpp:114-133 | the comparator is irreflexive, transitive and total; more work wins, and at equal work the block linked earlier |
| BestChain.UsableExact | src/main.cpp:2633-2636 | looking only as far as the active chain decides whether all ancestors have data and have not failed |
| BlockChecks.MarkedChecks | src/main.cpp:4241-4244 | the marks of a search are set only below a block found invalid, and keep the other assertions of the check |
| BlockChecks.ScriptedChecks | src/main.cpp:4238-4240 | raising a connected block to valid scripts keeps every ancestor at least as valid |
| BlockChecks.ReceivedChecks | src/main.cpp:4229-4230 | valid transactions remain equivalent to their number being positive when data arrives |
| BlockChecks.OneRoot | src/main.cpp:4199-4202 | every entry has the genesis block as its first ancestor |
| BlockChecks.RootIsFirst | src/main.cpp:4223-4227 | that is the first block of the active chain |
| BlockArrival.AcceptBlockHeader | src/main.cpp:3330-3378 | a header is turned away exactly if its entry has failed, or if it is new and wrong or, the first block aside, its parent is unknown or has failed; a new one is indexed below the parent it names, with the work of the parent (or none) plus its proof; nothing else changes |
| BlockArrival.AcceptBlock | src/main.cpp:3391-3514 | a block with an unknown or failed parent or wrong work, a failed one, and a new one with a wrong header are turned away with nothing changed; of the others exactly those are accepted that are already stored or pass the checks; a new one is indexed below the parent it names, with the work of the parent (or none) plus its proof; data or failure are recorded, other entries change only by linking, and the index stays as the check demands |
| BlockArrival.NoneForgotten | src/main.cpp:2763-2813 | after a move no linked block is better than the tip unless it or a block below it was found wanting, called invalid by the user, or does not connect |
| BlockArrival.Replay | src/main.cpp:4175-4269 | in every history of arrivals, blocks called invalid and moves, everything the consistency check asserts holds: heights, skip pointers, counts, waiting entries, work, candidates, validity levels, failure flags, the one root; every entry has the work that the blocks of its branch prove together; every connected block connects, no block is called invalid without a cause, and after a move the tip is the best linked block without a failed ancestor |
| UInt.Add | src/arith_uint256.h:138-147 | addition modulo the width, also of a number to itself; no intermediate exceeds 64 bits |
| UInt.Negate | src/arith_uint256.h:80-87 | negation modulo the width |
| UInt.Subtract | src/arith_uint256.h:149-153 | subtraction modulo the width |
| UInt.Increment | src/arith_uint256.h:175-182 | adding one modulo the width |
| UInt.Decrement | src/arith_uint256.h:192-199 | subtracting one modulo the width |
| UIntShift.ShiftLeft | src/arith_uint256.cpp:57-72 | multiplication by a power of two modulo the width, for every distance |
| UIntShift.ShiftRight | src/arith_uint256.cpp:75-90 | division by a power of two, for every distance |
| UIntMul.MultiplyWord | src/arith_uint256.cpp:93-102 | multiplication by a word modulo the width; no intermediate exceeds 64 bits |
| UIntMul.Multiply | src/arith_uint256.cpp:105-118 | multiplication modulo the width for distinct operands, and zero for a number multiplied by itself in place |
| UIntMul.SelfProductRight | src/arith_uint256.cpp:105-118 | that zero is right exactly if the lower half of the number's bits is zero |
| UIntMul.SelfProductWrong | src/arith_uint256.cpp:105-118 | the number one, in every width, for which it is wrong |
| UIntMul.CompareTo | src/arith_uint256.cpp:147-156 | comparison of words from the top is comparison of numbers |
| UIntMul.BitLength | src/arith_uint256.cpp:195-208 | the number lies between the powers of two that the result names |
| UIntDiv.Divide | src/arith_uint256.cpp:121-144 | the floor of the quotient for every width; division by zero fails and has cleared the dividend |
| CompactForm.DecodeApproximates | src/arith_uint256.cpp:244-285 | decoding the compact form gives no sign, no more than the number, and loses less than a 2^-15 part |
| CompactForm.EncodeAgain | src/arith_uint256.cpp:244-285 | encoding the decoded number gives the same word |
| CompactForm.CompactMonotone | src/arith_uint256.cpp:263-285 | the compact form is monotone as an unsigned number |
| CompactForm.CompactFits | src/arith_uint256.cpp:263-285 | compact forms of 256-bit numbers fit 32 bits |
| CompactForm.KnownWords | src/test/arith_uint256_tests.cpp:421-528 | words of each size and the numbers and signs the tests expect for them |
| CompactForm.KnownNumbers | src/test/arith_uint256_tests.cpp:415-528 | numbers of each size and the words the tests expect for them |
| CompactWords.GetCompact | src/arith_uint256.cpp:263-285 | the method computes the compact form from bit length and shifts; both assertions hold |
| CompactWords.SetCompact | src/arith_uint256.cpp:244-261 | the method computes the magnitude modulo the width; the overflow flag is exact and the sign flag means a signed nonzero number |
| CompactWords.OverflowExact | src/arith_uint256.cpp:257-259 | the test on size and mantissa is true exactly of magnitudes beyond 256 bits |
| CompactWords.CompactRoundTrip | src/arith_uint256.cpp:244-285 | encode, decode and encode again, for every 256-bit number |
| Digits.DigitsUnique | src/base58.cpp:22-116 | value and number of leading zeros determine the digits, in every base |
| Base58.EncodeRoom | src/base58.cpp:92-93 | 138 characters per 100 bytes and one more always suffice |
| Base58.DecodeRoom | src/base58.cpp:34-35 | 733 bytes per 1000 characters and one more always suffice |
| Base58.AlphabetExact | src/base58.cpp:19-20 | the alphabet is all alphanumeric characters except 0, I, O and l, in the order of their codes |
| Base58.MulAdd | src/base58.cpp:41-47 | multiply and add in place, with the carry out of the top |
| Base58Codec.EncodeBase58 | src/base58.cpp:83-116 | the text has the value of the bytes and as many leading ones as they have leading zeros; the carry assertion holds |
| Base58Codec.DecodeBase58 | src/base58.cpp:22-66 | succeeds exactly on base58 characters with spaces around them, and gives the bytes with that value and those leading zeros; the carry assertion holds |
| Base58Codec.EncodeThenDecode | src/base58.cpp:22-116 | decoding undoes encoding for every byte string |
| Base58Codec.DecodeThenEncode | src/base58.cpp:22-116 | encoding undoes decoding for every text of base58 characters |
| CompressorWidth.CompressAmount | src/compressor.cpp:137-154 | in 64-bit arithmetic: the number with the amount's digits and exponent, modulo 2^64 |
| CompressorWidth.DecompressAmount | src/compressor.cpp:156-180 | in 64-bit arithmetic: the amount with the stored digits and exponent, modulo 2^64 |
| CompressorWidth.StoredFitsExact | src/compressor.cpp:137-154 | the stored form does not wrap exactly if the amount ends in a zero or nine times it, less a little, is below 2^64 |
| CompressorWidth.MoneyFits | src/compressor.cpp:137-154 | so it does not for any amount below 2^60 |
| CompressorWidth.CompressBothWays | src/compressor.cpp:137-180 | on every 64-bit number: decompressing undoes compressing exactly if the stored form does not wrap, and compressing undoes decompressing exactly if the amount does not |
| CompressorWidth.NoCoincidence | src/compressor.cpp:137-180 | no round trip comes back to its start after having wrapped |
| CompressorWidth.WidthMatters | src/compressor.cpp:137-180 | both directions do wrap: for the amount 2^64 - 1 and for the stored number 10^19 |
| Compressor.FormOf | src/compressor.cpp:125-154 | the stored form of any digits and exponent |
| Compressor.KnownAmounts | src/test/compress_tests.cpp:41-46 | the pairs of amount and stored form that the tests name, with a cent as a hundredth of a coin |
| CoinsCodec.RoundTrip | src/coins.h:200-263 | for all trimmed coins with something left, reading consumes exactly what was written, and undoes the writing if and only if no stored amount wraps |
| CoinsCodec.LoadedExact | src/compressor.h:108-121 | an amount, written as 64 bits and read as signed, comes back exactly if its stored form does not wrap |
| CoinsCodec.CodeFields | src/coins.h:200-213 | the low four bits of the header code are the two flags and the first two outputs; the rest counts nonzero mask bytes, less one if neither of those is left |
| CoinsCodec.ReadMaskExact | src/coins.h:242-253 | the mask reader stops exactly behind the last mask byte |
| CoinsCodec.BeyondMask | src/coins.cpp:17-34 | no output beyond the mask is left |
| CoinsStream.CalcMaskSize | src/coins.cpp:17-34 | the loops count the mask bytes up to the last nonzero one, and the nonzero ones |
| CoinsStream.Serialize | src/coins.h:200-227 | the loops write the specified stream; the assertion that something is left holds |
| CoinsStream.Unserialize | src/coins.h:230-263 | the loops read any stream as specified, or fail |
| CoinsStream.StoreAndLoad | src/coins.h:200-263 | what was stored is read back at the right indices, if and only if no stored amount wraps, and the rest of the stream is left |
| StakeModifier.SelectBlock | src/kernel.cpp:77-135 | picks the lightest free candidate up to the stop time, the first such on a tie, or the first free one if there is none; how many candidates lie up to the stop time is always defined; fails only if none is free |
| StakeModifier.Rounds | src/kernel.cpp:178-213 | every one of the rounds, as many as candidates up to 64, picks a block not picked before by that rule, and the modifier's bits are the picked blocks' entropy bits in order and no others |
| Bits.PackBit | src/kernel.cpp:206 | bit p of the packed number is entry p of the sequence |
| StakeModifier.StakeWeights | src/kernel.cpp:103-119 | proof-of-stake blocks weigh what their selection hash, under the older rule that of zero, is divided by 2^32, so less than 2^224 and under the older rule all the same; proof-of-work blocks weigh their selection hash |
| StakeModifier.StakeFavoured | src/kernel.cpp:116-120 | exactly the proof-of-work blocks with a selection hash of at least 2^224 lose to every proof-of-stake block |
| StakeModifier.SectionExact | src/kernel.cpp:56-62 | section n is 60 seconds times 63 divided by 63 + 2 (63 - n), rounded down |
| StakeModifier.SectionEnds | src/kernel.h:17-19 | the last section is the whole modifier interval of 60 seconds, and three times as long as the first |
| StakeModifier.IntervalExact | src/kernel.cpp:64-72 | the selection interval is 2087 seconds |
| StakeModifier.StopsAdvance | src/kernel.cpp:56-62 | sections of the selection interval grow and every round reaches further |
| StakeModifier.Sort | src/kernel.cpp:191 | a sorted permutation |
| StakeModifier.NextModifier | src/kernel.cpp:178-213 | the candidates start 2087 seconds before the current modifier minute and are exactly the recent blocks of the branch since then, sorted; the last round ends at that minute; rounds and bits are as above |

## Left out

- Choosing an address to connect to (`Select_`, `GetChance`): floating point and termination by chance.
- Interruption and shutdown of the check queue: nothing sets its quit flag.
- Databases, files, the network, user interface, cryptography, scripts and signatures: a check in the queue is an opaque result, the bottom coin view a map, a hash a parameter.
- Byte encodings of single numbers and scripts: streams are sequences of tokens. `CScriptCompressor` and `VARINT` are not part of this model.
- Overflow of 32-bit identifiers, heights, transaction counts and sequence numbers: these are unbounded integers.
- `SetBackend`, cache statistics, priorities, and the map of recently spent stakes, which no modelled property reads.
- Fees, rewards and the checks on them in connecting a block: the supply follows the recorded values in and out.
- `GetBlockTrust`, the stake-modifier checksums and the `pnext` pointers of index entries.
- Loading the block index from disk, and reconsidering blocks, also where accepting a block below a failed parent does so for a checkpoint: histories start from an empty index, and failure flags are never cleared.
- Failures of the system while blocks are connected or disconnected, blocks that may be corrupt rather than invalid, and the lock released between the steps of a move: a move runs to its end, and whether a block connects depends on the block and its ancestors only.
- The headers message, which indexes headers whose work was not checked; and blocks called invalid by the user before there is an active chain, or the first block, for which the source reads a tip that is not there: in histories the former do nothing.
- The order in which a `std::multimap` or a hash map keeps equal keys beyond insertion order, and pointers as such: entries of the block index are positions, with an arbitrary distinct address for the tie-breaker.
- `GetLastStakeModifier`, the modifier of the genesis block and of the block after it, and the early return while the current modifier is still in its interval: `StakeModifier.NextModifier` starts where a new modifier is due.
- CoinConnect.DisconnectBlock: once an output has been put back into a transaction that is missing, of that transaction only the outputs are stated, not flags, height and version.
- Base58Codec.DecodeBase58: characters are those of the C locale; the alphabet is given by its six ranges.
- StakeModifier.SelectBlock: of candidates that are not indexed only the early failure is modelled, not the partially set result.
- AddrMan.AddrMan.GetAddr: the random numbers are any function of the round; nothing is said about their distribution.
