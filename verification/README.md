# A verified model of the node's core data structures

This project models, in Dafny, the parts of a PIVX/Bitcoin-derived node whose correctness is hardest to see from the
code: the cache stack over the coin database with its undo data, the block tree and the choice of the best chain, the
address manager, the parallel check queue, the skip list with locators and block times, and the codecs for coins and
for base 58. `dafny verify dfyconfig.toml` checks all of it.

Classes and methods follow the C++ objects and loops. Each method is proved against a function on plain values, and
the theorems are about these functions. Functions that only compute (`Utxo.Connect`, `CheckQueue.Apply`,
`Base58.Encode`, `CoinsCodec.SerializeCoins`, ...) have no row in the table: the rows name the methods proved equal to
them and the lemmas about them.

## What is proved

**Coins and undo** (`Transactions`, `Coins`, `CoinMap`, `CoinsView`, `CoinsRuns`, `CoinsTip`, `Utxo`, `BlockUndo`,
`UndoProof`, `UndoExact`, `UndoReread`, `UndoFile`, `UndoFits`, `TipRuns`, `StakeFlag`, `Supply`). A stack of
write-back caches of any height answers every run of operations as a stack of plain maps from transaction ids to coins
would, pruned coins counting as absent. The flag invariant is local to each layer: an entry that is not dirty equals
what is below, a fresh entry is absent or pruned below, and every entry that is not fresh is cached by the parent.
Connecting a block and disconnecting it again reports clean and gives back all coins; the exact conditions for
complete equality, and for a clean reorganisation, are read off the coins and the blocks. All this also holds with
undo data that was written to files and read back, for whole runs of blocks at the tip. The money supply and the
redeemed zerocoins grow by exactly what the unspent coins gain plus what becomes unspendable.

**Check queue** (`CheckQueue`, `CheckQueueProof`, `CheckQueueRuns`). One step per critical section, with spurious
wake-ups. Every answer of Wait is right, no check is lost or taken twice, nothing leaks into the next round, and Wait
cannot deadlock or go on for ever on steps of its threads.

**Block tree and best chain** (`Tree`, `SkipList`, `Chain`, `BlockRank`, `BlockArrival`, `BestChain`, `ChainSteps`,
`ChainState`, `ChainRuns`, `ChainFailure`). Headers and data arrive in any order. nChainTx, mapBlocksUnlinked, the
candidate set and the failure marks stay exact, and `ActivateBestChain` ends with the best, in the comparator's order,
of all blocks whose chain is complete and connects, unless a block on the way is not undone cleanly; even then the
invariants hold, and the next activation that succeeds ends with the best. The proof carries a mark, the best block
reached: it is good, the tip does not pass it, and from it on the candidates are complete, even while the tip is worse
during a reorganisation or after a failed one. The loop ends because each turn finds a new invalid block, or a tip
with more work, or is the last.

**Locators and block times** (`Locator`, `BlockTime`). Two nodes find a common block at most twice as deep as their
fork with a locator of logarithmic length. The median of the last eleven times never decreases, and after the second
time protocol the times themselves increase by whole slots; both hold of every chain that accepted headers form.

**Address manager** (`Sets`, `AddrInfo`, `AddrTables`, `AddrMan`, `AddrRuns`, `AddrReports`, `AddrPeers`,
`AddrReload`). The five indexes and the counters stay consistent under every operation; the conditions are those of
the program's own check. Writing peers.dat and reading it into a new manager loses nothing.

**Codecs** (`VarInts`, `Compressor`, `ScriptCodec`, `CoinsCodec`, `CoinsStream`, `Numerals`, `Base58`, `Base58Proof`).
Writers and readers are inverse on all values the formats are meant for, the rest of a stream is not touched, and
every carry assertion and buffer bound of the base 58 code holds.

## Where the code does less than one may expect

- Undo data records that spent coins were a coinstake, but restoring them leaves that flag out
  (`src/main.cpp:2029-2032` against `src/coins.cpp:48`). So a reorganisation cannot disconnect a coinstake together
  with later blocks that spend all its outputs, the empty first one included: `UndoExact.ReorgUndone` is the exact
  condition, and `UndoExact.UndoExactly` the one for a single block. `StakeFlag.StakeFlagForgotten` gives, for every
  maturity, blocks for which this happens: an ordinary transaction takes both outputs of a coinstake as soon as it is
  mature. It needs somebody to spend the empty output, whose script is empty; whether an input satisfies a script is
  not part of the model. The run has to disconnect one block more than the maturity. A fork so deep is refused where
  that is 100, as on the main network (`src/chainparams.cpp:153`), unless `-maxreorg` is above its default of 100
  (`src/main.cpp:3455-3457`); it is possible at a maturity of 15 (`src/chainparams.cpp:252`).
- A block that is not undone cleanly stops `ActivateBestChain` with the tip part of the way down
  (`src/main.cpp:2809-2812`). The consistency check, which wants usable blocks from the tip on to be candidates
  (`src/main.cpp:4485-4491`), then fails exactly if the tip is not the best block reached, as long as no candidate
  sorts below that block (`ChainFailure.CandidateCheck`). From a tip that is the best block reached, a failed step
  breaks the check if and only if its first disconnection was clean (`ChainState.BlockManager.ActivateBestChainStep`).
  If the best usable block is good, this reads off what comes before the call: the check holds afterwards if and only
  if all blocks above the fork are undone cleanly, or already the tip is not (`ChainFailure.ActivateTowards`);
  `ChainFailure.CheckFails` is a run that breaks it. If a block turns out not to connect, later steps start from where
  it was met, and the condition is that on the tip reached. The check holds again once an activation succeeds, and
  never fails where all disconnections are clean (`ChainFailure.RunCleanly`).
- Flushing a cache whose hash is null overwrites its parent's best block (`src/coins.cpp:198`), although the database
  keeps its own. `CoinsView.CoinsViewCache.Flush` has the exact condition, `CoinsRuns.BestBlockForgotten` an example.
- `CAddrMan::Clear` leaves mapInfo and mapAddr as they are (`src/addrman.h:450-469`), so only a new manager is
  consistent after it. `AddrMan.AddrManager.Clear` is the exact condition, `AddrReports.ClearAfterUse` fails it after
  a single `Add`, and the model reads files into new managers only.
- `CAddrMan::Add_` reports a new address even if it deletes the entry again (`src/addrman.cpp:310-316`): the address
  is known afterwards if and only if its slot was available (`AddrMan.AddrManager.Add`, with the example
  `AddrReports.NewButGone`).
- Negative versions and heights are written as one byte and do not come back (`src/serialize.h:430-433`):
  `CoinsCodec.CoinsRoundTrip`. Undo records without a height do not keep the version, and heights from 2^30 on do not
  fit the code (`src/undo.h:41-60`): `CoinsStream.UndoRoundTrip`. The checksum of the undo file does not notice a
  changed version (`UndoFile.FileRoundTrip`), and `DisconnectBlock` allows for it (`src/main.cpp:2003-2010`):
  disconnecting stays clean, and restores coins with negative versions under other ones (`UndoReread.ReorgFromFiles`).
- A script longer than MAX_SCRIPT_SIZE is read back as a single OP_RETURN (`src/compressor.h:95-98`).

## Model

| member | source | states |
|---|---|---|
| `Coins.Coins.Cleaned` | src/coins.h:120-127 | the trailing spent outputs are gone, and coins are pruned exactly if nothing is left |
| `Coins.AllNullMeans` | src/coins.h:280-286 | pruned means that every output is null |
| `Coins.Trim` | src/coins.h:121-127 | what is cut off is null, what stays is a prefix that does not end in a null output, and nothing stays exactly if all are null |
| `Coins.Cleanup` | src/coins.h:121-127 | the popping loop ends with the trimmed list |
| `Coins.NullUnspendable` | src/coins.h:129-136 | exactly the outputs with an unspendable script are nulled |
| `Coins.ClearUnspendable` | src/coins.h:129-136 | the loop followed by the clean-up gives the coins without unspendable outputs |
| `Coins.WithoutUnspendableTwice` | src/coins.h:129-136 | clearing unspendable outputs is idempotent |
| `CoinsView.CoinsViewDB.GetCoins` | src/txdb.cpp:35-38 | the database answers as the map of unspent coins does, pruned and missing coins being the same |
| `CoinsView.CoinsViewDB.WriteCoins` | src/txdb.cpp:18-24 | writing coins, or erasing them when pruned, is one update of that map |
| `CoinsView.CoinsViewDB.BatchWrite` | src/txdb.cpp:53-72 | exactly the dirty entries are written, the map becomes the one the cache showed, and a null hash leaves the best block |
| `CoinsView.CoinsViewCache.constructor` | src/coins.cpp:79 | a new cache shows what its base shows |
| `CoinsView.CoinsViewCache.FetchCoins` | src/coins.cpp:86-102 | finding or caching an entry changes no view of the stack and keeps the flag invariant |
| `CoinsView.CoinsViewCache.GetCoins` | src/coins.cpp:104-112 | the answer is that of the plain map, whatever is cached |
| `CoinsView.CoinsViewCache.HaveCoins` | src/coins.cpp:143-151 | true exactly for coins with an output left in the plain map |
| `CoinsView.CoinsViewCache.GetBestBlock` | src/coins.cpp:153-158 | the hash of this cache or, if null, of the stack below, without changing any view |
| `CoinsView.CoinsViewCache.SetBestBlock` | src/coins.cpp:160-163 | only the hash of this cache changes |
| `CoinsView.CoinsViewCache.ModifyCoins` | src/coins.cpp:114-131 | hands out the coins of the plain map, marks the entry dirty, and marks it fresh only if the base has none; no view changes yet |
| `CoinsView.CoinsViewCache.Release` | src/coins.cpp:278-286 | the modified coins replace the old ones in the view of this cache only; erasing a fresh pruned entry loses nothing |
| `CoinsView.CoinsViewCache.BatchWrite` | src/coins.cpp:165-200 | a child that keeps the flag invariant is taken over exactly: the view becomes what the child showed, so the assertion about fresh entries never fails |
| `CoinsView.CoinsViewCache.Flush` | src/coins.cpp:165-207 | the level below shows what this one showed, this cache is empty, and deeper levels are unchanged; the best block stays if and only if this cache names one, lies over the database, or the cache below shows the same block as the level under it |
| `CoinsRuns.Execute` | src/test/coins_tests.cpp:66-170 | one operation on the stack answers as a stack of plain maps and steps like one |
| `CoinsRuns.Run` | src/test/coins_tests.cpp:66-170 | every run of reads, modifications, pushes, drops and flushes over a stack of any height is answered as plain maps would answer it |
| `CoinsRuns.FlushNameless` | src/coins.cpp:153-207 | a child with a null hash replaces its parent's best block by the one below the parent |
| `CoinsRuns.BestBlockForgotten` | src/coins.cpp:153-207 | a concrete stack in which a best block is set and then forgotten |
| `BlockUndo.HaveInputs` | src/coins.cpp:237-249 | all inputs are available in the view, for transactions that spend coins |
| `BlockUndo.IsOutputAvailable` | src/coins.cpp:251-254 | available in the plain map |
| `BlockUndo.GetOutputFor` | src/coins.cpp:214-219 | the output of the plain map |
| `BlockUndo.GetValueIn` | src/coins.cpp:221-235 | nothing for a coinbase, what zerocoin inputs claim, and otherwise the sum of the inputs in the plain map, which does not change |
| `BlockUndo.RedeemZerocoins` | src/main.cpp:2208-2223 | the zerocoins a transaction redeems, by their denominations |
| `BlockUndo.SpendOutput` | src/main.cpp:1767-1769 | one available output is spent in the view, with its undo record, and the assertion that it can be spent holds |
| `BlockUndo.UpdateCoins` | src/main.cpp:1761-1775 | through the caches exactly what UpdateTx does to a plain map, with the same undo records |
| `BlockUndo.CheckMature` | src/main.cpp:1804-1815 | the maturity rule on the plain map |
| `BlockUndo.CheckTransaction` | src/main.cpp:2172-2258 | accepts and rejects as ConnectTx does, and counts value out less value in, zerocoins included |
| `BlockUndo.ConnectTransactions` | src/main.cpp:2169-2268 | the transaction loop over caches gives the outcome, the view, the undo data and the minted value of Connect on a plain map; only the first transaction has no undo entry |
| `BlockUndo.RestoreOutput` | src/main.cpp:2021-2042 | one input is restored as RestoreAt does on a plain map, with the same verdict |
| `BlockUndo.RemoveOutputs` | src/main.cpp:1998-2014 | the outputs a transaction added are compared and removed, with the same verdict |
| `BlockUndo.DisconnectTransaction` | src/main.cpp:1992-2043 | one transaction is undone, or refused when the undo data has the wrong number of inputs |
| `BlockUndo.DisconnectTransactions` | src/main.cpp:1949-2044 | the loop over caches gives the view and the verdict of Disconnect on a plain map, and is inconsistent exactly when that has no result |
| `UndoProof.SpendRestoreOne` | src/main.cpp:2021-2042 | restoring a spent output gives back the coins, less the stake flag if it was the last output |
| `UndoProof.SpendRestoreAll` | src/main.cpp:2016-2043 | several inputs, also of one transaction, are restored in reverse order |
| `UndoProof.OutputsCleared` | src/main.cpp:1998-2014 | the outputs of a connected transaction are recognised and removed |
| `UndoProof.TxUndone` | src/main.cpp:1952-2044 | connecting and undoing one transaction |
| `UndoProof.BlockUndone` | src/main.cpp:1952-2044 | undoing a block after later blocks were undone: clean exactly if no coinstake of the block lost its flag to them |
| `UndoProof.DisconnectUndoesConnect` | src/main.cpp:1931-2044 | for every connected block, in-block spends included, disconnecting with its undo data reports clean and restores every coin except the stake flag of fully spent coinstakes |
| `UndoProof.ChainUndone` | src/main.cpp:2808-2812 | any run of blocks is undone up to the stake flags lost on the way |
| `UndoExact.SpendAtMeans` | src/coins.cpp:36-52 | spending takes exactly one outpoint away, and leaves a full undo record exactly if it was the last |
| `UndoExact.LostInBlockMeans` | src/main.cpp:2025-2033 | the coins that lose their stake flag are those whose unspent outputs are all spent by the block |
| `UndoExact.UndoExactly` | src/main.cpp:2025-2033 | disconnecting restores exactly the coins there were if and only if the block does not spend all unspent outputs of any coinstake |
| `UndoExact.LostInChainMeans` | src/main.cpp:2025-2033 | the coins that lose their stake flag over a run of blocks are those whose unspent outputs are all spent by the run |
| `UndoExact.StakeStays` | src/main.cpp:1804-1815 | the coins of a coinstake are untouched at the end of its own block, as they are too young |
| `UndoExact.ReorgUndone` | src/main.cpp:2808-2812 | a run of blocks is disconnected cleanly if and only if no coinstake of it has all its outputs spent by later blocks of the run; the coins lose the stake flag exactly where the run spends all unspent outputs, and are the same if and only if that concerns no coinstake |
| `StakeFlag.BlockChecked` | src/consensus/tx_verify.cpp:57-124 | the blocks of the example pass the checks on inputs and output values, and have the shape of proof-of-stake blocks; sizes, coinbase scripts and cold staking are left out |
| `StakeFlag.StakeFlagForgotten` | src/main.cpp:2029-2032 | for every maturity, height, value and ordinary script, a run of such blocks that connects and whose disconnection is not clean |
| `UndoReread.ClearAged` | src/main.cpp:2003-2010 | the outputs of a transaction are recognised alike if its coins came back with another version, as a negative version is replaced before the comparison |
| `UndoReread.BlockAged` | src/main.cpp:1952-2044 | with undo data from a file a block is undone cleanly exactly when it is with the original data, and restores the same coins but for negative versions |
| `UndoReread.BlockFromFile` | src/main.cpp:1945-2044 | with undo data from a file a block is undone to exactly the coins there were if and only if no transaction whose unspent outputs it spends all is a coinstake or has a negative version |
| `UndoReread.ReorgFromFiles` | src/main.cpp:2808-2812 | the same for any run of blocks, which is undone cleanly if and only if it is with the original data |
| `UndoFile.SizeRoundTrip` | src/serialize.h:331-386 | a size comes back if and only if it is at most MAX_SIZE |
| `UndoFile.SizeUnique` | src/serialize.h:356-386 | no size is read from other bytes than those it is written as |
| `UndoFile.SerializeBlockUndo` | src/serialize.h:731-737 | the nested loops write sizes and records |
| `UndoFile.UnserializeBlockUndo` | src/serialize.h:761-776 | the nested loops read them, and fail exactly when the stream ends early or a size is bad |
| `UndoFile.BlockUndoRead` | src/undo.h:41-92 | the undo data of a block come back, each record as far as it does, and nothing behind them is touched |
| `UndoFile.WriteUndoFile` | src/main.cpp:6073-6084 | the data and a checksum over the block before and the data |
| `UndoFile.ReadUndoFile` | src/main.cpp:6096-6112 | fails on a stream that ends early, a bad size, or a checksum that is not that of what was read, written once more |
| `UndoFile.FileRoundTrip` | src/main.cpp:6062-6113 | what was written is accepted for the same block and comes back if and only if no record with a height has a negative version and none without a height has one at all; the checksum never notices such a version |
| `UndoFits.BlockUndoFits` | src/main.cpp:1761-1775 | if coins and block fit the formats, so do the undo data and the coins after the block |
| `CoinsTip.ConnectTip` | src/main.cpp:2537-2568 | a block is connected in a child cache and flushed, or the tip's coins stay as they were |
| `CoinsTip.DisconnectTip` | src/main.cpp:2493-2498 | a block is disconnected in a child cache and flushed; unclean or inconsistent undo data changes nothing |
| `CoinsTip.ConnectThenDisconnect` | src/main.cpp:2482-2569 | the round trip of one block through the caches always succeeds and restores coins and best block, up to stake flags |
| `TipRuns.ConnectStored` | src/main.cpp:2315-2322 | connecting through a child cache and writing the undo file; a rejected block leaves the tip's coins and writes nothing |
| `TipRuns.DisconnectStored` | src/main.cpp:1942-1950 | disconnecting with the undo file; nothing changes if it cannot be read or is not clean |
| `TipRuns.ConnectRun` | src/main.cpp:2832-2853 | blocks are connected at the tip up to the first that is rejected |
| `TipRuns.DisconnectRun` | src/main.cpp:2808-2812 | blocks are disconnected at the tip, the last first, down to the first that is not undone cleanly, with the coins and the best block of that place |
| `TipRuns.CleanAtMeans` | src/main.cpp:2003-2010 | a block of such a run is undone cleanly if and only if the blocks above it leave an output to each coinstake it made |
| `TipRuns.AttemptsOf` | src/main.cpp:2808-2812 | so the clean and unclean attempts that the block tree is told of are those that the blocks determine |
| `TipRuns.ConnectAndDisconnect` | src/main.cpp:2799-2864 | through caches and undo files, any run of blocks that connects is undone down to the first block whose coinstakes are not spared; if none, best block and coins are as before, up to stake flags and negative versions of transactions that the run uses up |
| `Supply.TotalPut` | src/coins.h:280-286 | the total value of a map changes by what one entry changes |
| `Supply.SpendAllTotal` | src/coins.cpp:221-235 | spending the inputs lowers the total by exactly their value |
| `Supply.TxTotal` | src/main.cpp:2208-2264 | one transaction changes the total by its outputs less the coins it spends less what is unspendable |
| `Supply.SupplyConserved` | src/main.cpp:2275-2277 | for every connected block, the change of nMoneySupply and the zerocoins redeemed are together the change of the unspent total and the value made unspendable |
| `Supply.ChainSupply` | src/main.cpp:2275-2277 | the same over any run of blocks |
| `CheckQueue.BatchLength` | src/checkqueue.h:109 | a batch has at least one check and no more than there are |
| `CheckQueueProof.AddInv` | src/checkqueue.h:145-157 | adding checks keeps the accounting of every check |
| `CheckQueueProof.ReportInv` | src/checkqueue.h:77-88 | reporting a batch, or entering, keeps it, and a notified master can leave |
| `CheckQueueProof.LeaveInv` | src/checkqueue.h:91-99 | the master leaves with the right answer and resets the flag |
| `CheckQueueProof.TakeInv` | src/checkqueue.h:109-118 | taking a batch keeps it, whatever its length |
| `CheckQueueProof.AllReported` | src/checkqueue.h:91-99 | when nTodo is zero and the queue empty, every added check has been reported and the flag is the answer |
| `CheckQueueProof.StepInv` | src/checkqueue.h:68-157 | every step of every thread keeps the invariant |
| `CheckQueueRuns.WaitIsRight` | src/checkqueue.h:138-142 | in every interleaving, every Wait answers true if and only if all checks added for it pass |
| `CheckQueueRuns.NothingLost` | src/checkqueue.h:54-59 | at every moment each check is queued, held by a thread or reported, and nTodo counts the first two |
| `CheckQueueRuns.SkipsOnlyAfterFailure` | src/checkqueue.h:117-123 | a thread skips checks only if a check of this round fails |
| `CheckQueueRuns.IdleBetweenRounds` | src/checkqueue.h:163-189 | between rounds the queue is idle whatever the workers do, so the controller's assertion holds and no verdict leaks |
| `CheckQueueRuns.WaitingMaster` | src/checkqueue.h:90-103 | a waiting master means an empty queue and a worker that still owes a report |
| `CheckQueueRuns.NoDeadlock` | src/checkqueue.h:79-103 | while the master is inside Wait, some thread can take a step of its own |
| `CheckQueueRuns.OwnStepsWork` | src/checkqueue.h:75-125 | every such step uses up a bounded amount of work |
| `CheckQueueRuns.WaitReturns` | src/checkqueue.h:138-142 | hence no run of own steps is longer than the work there is, and when it is used up the master has left |
| `Tree.PathAt` | src/chain.h:181-188 | the ancestor at each height is at that height, and its path is the part below |
| `Tree.PathWork` | src/main.cpp:3064 | an ancestor has less work |
| `SkipList.LowestOne` | src/main.cpp:3783 | what turning off the lowest set bit does to odd and to even numbers |
| `SkipList.AndBits` | src/main.cpp:3783 | the bitwise and, bit by bit |
| `SkipList.GetSkipHeight` | src/main.cpp:3786-3795 | the skip height is below the height |
| `SkipList.BlockIndex.GetAncestor` | src/main.cpp:3797-3818 | the fast walk returns what following the parents returns, for every height, never through a null pointer and never past the target |
| `SkipList.BlockIndex.AddBlock` | src/main.cpp:3825-3829 | a new block gets its height, its work and a skip pointer to its own ancestor, and keeps everybody else's |
| `Chain.ActiveChain.WriteDown` | src/chain.cpp:20-23 | stops at the first block already in place, with everything above written |
| `Chain.WrittenDown` | src/chain.cpp:20-23 | what lies below that block is right as well |
| `Chain.ActiveChain.SetTip` | src/chain.cpp:13-24 | after any sequence of calls the vector is the whole path to the tip |
| `Chain.ActiveChain.FindFork` | src/chain.cpp:55-64 | the highest block that is both in the chain and on the path to the argument |
| `Locator.LocatorOf` | src/chain.cpp:26-53 | the entries are the path's blocks at the heights of the doubling schedule, by whichever of the two look-ups |
| `Locator.GetLocator` | src/chain.cpp:26-53 | the same, by default for the tip |
| `Locator.HeightsShape` | src/chain.cpp:26-53 | the heights descend strictly from the block to genesis |
| `Locator.LengthBound` | src/chain.cpp:26-53 | at most 12 entries and one more for each doubling of the height |
| `Locator.FirstShared` | src/main.cpp:658-670 | the first entry at or below a fork at f is at most twice as deep as f, and f itself if that is at most 11 deep |
| `Locator.FindForkInGlobalIndex` | src/main.cpp:658-670 | the first entry that is known and in the chain, or genesis |
| `Locator.Sync` | src/main.cpp:658-670 | a locator read against a chain sharing exactly heights 0 to f yields a shared block r with r at most f, n - r at most 2(n - f), and r = f if n - f is at most 11 |
| `BlockTime.SortSorts` | src/chain.cpp:163 | sorting gives a sorted permutation |
| `BlockTime.MedianAtLeast` | src/chain.cpp:163-164 | the median is at least m exactly if at most half of the window, rounded down, is below m |
| `BlockTime.GetMedianTimePast` | src/chain.cpp:153-165 | the walk, the buffer and the sort compute the median of the last eleven times or of all |
| `BlockTime.MinPastBlockTime` | src/chain.cpp:134-149 | the bound of each time protocol and of the transition |
| `BlockTime.CheckBlockTime` | src/main.cpp:3416-3439 | off a regression test network, a time that is not too far in the future is accepted if and only if the new block passes the checks in the tree it is added to; too old means that at most half of the last eleven times, rounded down, are below it or, after the transition, that the parent's is not |
| `BlockTime.AllCheckedGrows` | src/main.cpp:3429-3435 | adding a block that passes keeps every other block checked |
| `BlockTime.AcceptHeaders` | src/main.cpp:3537-3596 | however headers arrive and whatever the clock says, every chain of accepted blocks is a checked one |
| `BlockTime.MedianNeverDecreases` | src/main.cpp:3429-3431 | a time above the median never lowers it, however short the chain |
| `BlockTime.MedianGrowsWithHeight` | src/main.cpp:3429-3431 | along any checked chain before the second time protocol the median never decreases |
| `BlockTime.TimesIncreaseAfterV2` | src/chain.cpp:134-149 | after the transition every block is at least one time slot later than its parent; the transition block may be earlier by less than the difference of the drifts |
| `BlockRank.LessIsTotal` | src/main.cpp:131-148 | the comparator is a strict total order |
| `BlockRank.EndOf` | src/main.cpp:2734-2737 | the ordered set has a first and a last element, and this finds it |
| `BlockArrival.LinkKeepsLinkage` | src/main.cpp:3093-3110 | linking a block and queueing its waiting children keeps nChainTx right for all blocks not in the queue |
| `BlockArrival.LinkKeepsDeferred` | src/main.cpp:3105-3111 | and keeps mapBlocksUnlinked exact |
| `BlockArrival.ReceiveStranded` | src/main.cpp:3113-3117 | a block without a linked parent is filed under it |
| `BlockArrival.ChainTxMeans` | src/main.cpp:4472-4473 | nChainTx is the sum of nTx along the path if all of it has data, and 0 otherwise |
| `BlockArrival.UnlinkedExactly` | src/main.cpp:4492-4509 | a block is in mapBlocksUnlinked, once and under its parent, if and only if it has data and an ancestor has none, unless its parent is marked failed |
| `BlockArrival.OrderDoesNotMatter` | src/main.cpp:3075-3120 | nChainTx depends on headers and data, not on the order of arrival |
| `BestChain.LinkKeepsCandidates` | src/main.cpp:3102-3104 | a linked block joins the candidates unless it sorts below the tip, and all usable blocks that do not are candidates |
| `BestChain.PruneKeepsCandidates` | src/main.cpp:2783-2793 | pruning keeps every usable block that does not sort below the tip or the mark |
| `BestChain.FailedTaints` | src/main.cpp:2745-2775 | every block above a failed one has an invalid block on its path |
| `BestChain.TipIsBest` | src/main.cpp:4485-4491 | once the tip is the last candidate, it is the only one, and no usable block sorts above it |
| `ChainSteps.RejectKeepsArrival` | src/main.cpp:3646-3652 | marking a block without data, or a linked one, as failed keeps the arrival invariant |
| `ChainSteps.MarkIsTip` | src/main.cpp:2893-2900 | when the last candidate is the tip it is also the best block reached |
| `ChainSteps.BelowIsNoCandidate` | src/main.cpp:2783-2793 | a block from which the tip has gone down is no candidate, although its chain is complete and connects |
| `ChainSteps.StillBeaten` | src/main.cpp:2893-2911 | as long as the last candidate is not the tip, it is better than the tip and all blocks below it |
| `ChainSteps.OfferedFromTheMark` | src/main.cpp:4485-4491 | with no candidate below the best block reached, the usable blocks from the tip on are candidates if and only if the tip is that block |
| `ChainSteps.AimIsLast` | src/main.cpp:2727-2780 | a best usable block that is good is the last usable candidate |
| `ChainSteps.NextIsToward` | src/main.cpp:2832-2853 | no block fails on the path to a good block, and no candidate gets below the best block reached |
| `ChainSteps.LedMeans` | src/main.cpp:2808-2812 | a step succeeds if and only if all blocks above the fork are undone cleanly; otherwise the tip stays if and only if the first is not |
| `ChainSteps.LedOn` | src/main.cpp:2886-2911 | once on the path to a good block, later steps disconnect nothing and cannot fail |
| `ChainState.BlockManager.constructor` | src/main.cpp:4277-4312 | the genesis block is linked, a candidate and the tip |
| `ChainState.BlockManager.AcceptBlockHeader` | src/main.cpp:3537-3596 | a new header that passes its checks is added below a known parent that has not failed, with everything else unchanged; any other is refused |
| `ChainState.BlockManager.AddToBlockIndex` | src/main.cpp:3025-3072 | height, work and skip pointer of the new block; all invariants stay |
| `ChainState.BlockManager.RejectBlock` | src/main.cpp:3646-3652 | a block whose data is refused is marked and nothing else changes |
| `ChainState.BlockManager.LinkAll` | src/main.cpp:3089-3112 | the queue empties, all that can be linked is, and no candidate leaves or changes its sort key |
| `ChainState.BlockManager.ReceivedBlockTransactions` | src/main.cpp:3075-3120 | all invariants stay for data in any order, and the sort key of a candidate does not change |
| `ChainState.BlockManager.FirstUnusable` | src/main.cpp:2742-2778 | the walk to the active chain meets no block without data, and finds a failed block if there is one |
| `ChainState.BlockManager.RemoveChain` | src/main.cpp:2757-2772 | exactly the blocks above the failed one are marked, and exactly they and it stop being candidates |
| `ChainState.BlockManager.FindMostWorkChain` | src/main.cpp:2727-2780 | ends, as the candidates shrink, with the last candidate, whose whole path is usable |
| `ChainState.BlockManager.PruneBlockIndexCandidates` | src/main.cpp:2783-2793 | exactly the candidates that sort below the tip are erased |
| `ChainState.BlockManager.DisconnectTip` | src/main.cpp:2482-2521 | the parent becomes the tip and the invariants stay, or the block is not undone cleanly and nothing changes |
| `ChainState.BlockManager.DisconnectTo` | src/main.cpp:2808-2812 | the tip goes down the old path to the fork, or stays at the first block that is not undone cleanly, after one attempt for each block |
| `ChainState.BlockManager.DisconnectToFork` | src/main.cpp:2805-2812 | a failure leaves the tip where it was exactly if the first attempt is not clean; if the tip was the best block reached, the candidates are complete from the tip on exactly if it is still there |
| `ChainState.BlockManager.ConnectTip` | src/main.cpp:2533-2606 | called only with a child of the tip; connects and prunes, or marks the block as failed |
| `ChainState.BlockManager.ActivateBatch` | src/main.cpp:2818-2855 | at most 32 blocks at a time, each on top of the one before |
| `ChainState.BlockManager.ActivateBestChainStep` | src/main.cpp:2799-2864 | ends at the target, at a tip with more work than before, or with one more failed block; fails exactly if a block is not undone cleanly, with the tip on the old path, as far down as attempts were clean, and the candidates as before; from the best block reached, these are then complete from the tip on if and only if the first attempt was not clean |
| `ChainState.BlockManager.ActivateBestChain` | src/main.cpp:2871-2954 | terminates; unless a block is not undone cleanly, the best of all blocks whose chain is complete and connects is the tip and the only candidate; otherwise a better candidate is left, and the best block reached is never forgotten; with no candidate below that block, the candidates are complete from the tip on if and only if the tip is that block; and if the best usable block is good, outcome, number of attempts and final tip follow from which of the blocks above the fork are undone cleanly |
| `ChainState.BlockManager.CheckBlockIndex` | src/main.cpp:4415-4556 | the conditions of the consistency check hold of every block; that usable blocks are candidates, from the best block reached on; ChainFailure.CandidateCheck has the condition for the tip |
| `ChainRuns.Run` | src/main.cpp:3537-3780 | after any run of headers, data and activations, failed ones included, an activation that succeeds makes the best block whose chain is complete and connects the tip, and it succeeds unless one more block is not undone cleanly |
| `ChainFailure.CandidateCheck` | src/main.cpp:4485-4491 | as long as no candidate sorts below the best block reached, the candidate condition of the consistency check holds if and only if that block is the tip |
| `ChainFailure.RunCleanly` | src/main.cpp:4485-4491 | over every run of headers, data and activations in which all disconnections are clean, that condition holds after every event |
| `ChainFailure.ActivateTowards` | src/main.cpp:2799-2864 | from a tip that is the best block reached and towards a good block: afterwards the condition holds if and only if all blocks above the fork are undone cleanly, or already the first is not |
| `ChainFailure.CheckFails` | src/main.cpp:2809-2812 | a concrete run of headers, data and two activations after which the tip is a good block and no candidate |
| `ChainRuns.GoodMeans` | src/main.cpp:2742-2778 | such a block is one whose whole path has data and connects |
| `ChainRuns.SameOutcome` | src/main.cpp:131-148 | two runs over the same headers and data end with the same work, and with the same tip unless another such block has as much work |
| `AddrTables.CreateKeeps` | src/addrman.cpp:90-100 | a new entry keeps all five indexes consistent |
| `AddrTables.SwapKeeps` | src/addrman.cpp:102-120 | swapping two places keeps vRandom and nRandomPos inverse |
| `AddrTables.DropKeeps` | src/addrman.cpp:122-134 | deleting an entry without references |
| `AddrTables.UnlinkKeeps` | src/addrman.cpp:136-149 | emptying a new slot takes exactly one reference, and there was one to take |
| `AddrTables.LinkKeeps` | src/addrman.cpp:306-309 | filling an empty new slot adds exactly one |
| `AddrTables.PromoteKeeps` | src/addrman.cpp:192-196 | entering the tried table |
| `AddrTables.DemoteKeeps` | src/addrman.cpp:171-179 | leaving the tried table |
| `AddrMan.AddrManager.constructor` | src/addrman.h:471-474 | a new manager is consistent |
| `AddrMan.AddrManager.Clear` | src/addrman.h:450-469 | the result is consistent if and only if mapInfo and mapAddr were empty, which Clear does not make them |
| `AddrMan.AddrManager.Create` | src/addrman.cpp:90-100 | the new entry, its address and its place |
| `AddrMan.AddrManager.SwapRandom` | src/addrman.cpp:102-120 | the two places are swapped and no entry changes otherwise |
| `AddrMan.AddrManager.Delete` | src/addrman.cpp:122-134 | the entry, its address and its place are gone, and no other entry changes; both assertions hold |
| `AddrMan.AddrManager.ClearNew` | src/addrman.cpp:136-149 | the slot is empty, its entry is gone exactly if that was its last reference, and no other entry changes |
| `AddrMan.AddrManager.LeaveNew` | src/addrman.cpp:153-163 | after the loop over all buckets no reference is left, so the assertion holds |
| `AddrMan.AddrManager.Evict` | src/addrman.cpp:169-191 | the evicted entry stays known, new again with one reference |
| `AddrMan.AddrManager.MakeTried` | src/addrman.cpp:151-197 | the entry is in its tried slot without references, the slot's former entry is new again, the other slots are as before |
| `AddrMan.AddrManager.FindBucket` | src/addrman.cpp:228-243 | a bucket is always found, so the exit for a missing one is never taken |
| `AddrMan.AddrManager.Good` | src/addrman.cpp:199-249 | an address known with this port ends in the tried table with fresh statistics; for any other nothing changes |
| `AddrMan.AddrManager.Insert` | src/addrman.cpp:295-315 | takes the slot if it is empty or its entry may be overwritten, else deletes an entry without references, with its address, and changes nothing else; at most the slot's former entry is touched |
| `AddrMan.AddrManager.AddKnown` | src/addrman.cpp:260-287 | refreshes the entry, which never loses references or changes its place |
| `AddrMan.AddrManager.Add` | src/addrman.cpp:251-317 | reports exactly whether the address was routable and unknown; a new address is known afterwards if and only if its slot was available, and otherwise nothing has changed |
| `AddrReports.AddTwice` | src/addrman.cpp:295-315 | of two addresses for one slot, the second is reported as new although it is not kept, unless the first has become terrible |
| `AddrReports.NewButGone` | src/addrman.cpp:295-315 | two concrete addresses for which this happens |
| `AddrReports.ClearAfterUse` | src/addrman.h:450-469 | a manager that has taken in any address is inconsistent once it is cleared |
| `AddrMan.AddrManager.Attempt` | src/addrman.cpp:319-339 | only this entry's attempt fields change; a failure counts once between successes |
| `AddrMan.AddrManager.Connected` | src/addrman.cpp:486-504 | only the time changes, at most every 20 minutes |
| `AddrMan.AddrManager.GetAddr` | src/addrman.cpp:465-484 | different addresses of entries that are not terrible, at most 23 percent and at most 2500; only the order of vRandom changes |
| `AddrMan.AddrManager.Check` | src/addrman.cpp:396-424 | every condition that the check asks of an entry, with the reference count equal to the number of new slots and exactly one tried slot |
| `AddrMan.AddrManager.CheckCounts` | src/addrman.cpp:390-462 | the counters, and that the three tables name exactly the right entries |
| `AddrRuns.Run` | src/addrman.cpp:388-462 | after every run from a new manager all these conditions hold |
| `AddrPeers.WriteEntries` | src/addrman.h:309-331 | the entries of one kind in order; neither counter assertion fails |
| `AddrPeers.Serialize` | src/addrman.h:298-345 | the file describes the tables: new entries, tried entries, and for each bucket the numbers of its slots |
| `AddrReload.LoadTried` | src/addrman.h:388-407 | no tried entry is lost to a collision |
| `AddrReload.ReadKeeps` | src/addrman.h:409-425 | each number of a row finds its entry and its empty slot, with a reference to spare |
| `AddrReload.Prune` | src/addrman.h:427-437 | exactly the entries without references are deleted, the others stay, and nothing changes if there is none |
| `AddrReload.Unserialize` | src/addrman.h:348-443 | a file of consistent tables is read without losing anything, into a consistent manager with the key of the file |
| `AddrReload.WriteAndRead` | src/addrman.h:298-443 | writing and reading keeps the key, all entries with what is saved of them, their reference counts, and both tables slot by slot, up to renumbering |
| `Base58.CharIsInAlphabet` | src/base58.cpp:20-21 | the alphabet is the six runs of characters |
| `Base58.MulAdd` | src/base58.cpp:41-47 | the carry loop multiplies the buffer and adds the digit, and nothing is carried out |
| `Base58.EncodeFits` | src/base58.cpp:92 | 138 digits for 100 bytes are enough, because 256^19 is below 58^26 |
| `Base58.DecodeFits` | src/base58.cpp:34 | 733 bytes for 1000 digits are enough, because 58^86 is below 256^63 |
| `Base58.EncodeBase58` | src/base58.cpp:84-117 | zero bytes become ones, the rest is the number in base 58 |
| `Base58.DecodeBase58` | src/base58.cpp:23-67 | spaces around are skipped, ones become zero bytes, the rest is the number; fails exactly as Decode does |
| `Base58Proof.DecodeEncode` | src/base58.cpp:23-117 | every byte string comes back |
| `Base58Proof.EncodeDecode` | src/base58.cpp:23-117 | every text without spaces that decodes comes back |
| `Base58Proof.Decodable` | src/base58.cpp:36-40 | a text without spaces decodes if and only if all its characters are in the alphabet |
| `Base58Proof.SpacesAround` | src/base58.cpp:25-27 | spaces around a text make no difference |
| `Base58Proof.DecodeBase58Check` | src/base58.cpp:138-153 | nothing is returned unless the text, its length and its checksum are right |
| `Base58Proof.EncodeBase58Check` | src/base58.cpp:129-136 | the text of the bytes with their checksum, which decodes to the bytes |
| `Base58Proof.CheckRoundTrip` | src/base58.cpp:129-153 | bytes with their checksum come back |
| `Base58Proof.CheckUnique` | src/base58.cpp:129-153 | exactly one text without spaces decodes to given bytes with a right checksum |
| `VarInts.WriteVarInt` | src/serialize.h:426-440 | the buffer written backwards is the variable length integer; a negative number is a single byte |
| `VarInts.ReadVarIntFrom` | src/serialize.h:443-455 | the reading loop, with the wrap-around of its type |
| `VarInts.ReadWritten` | src/serialize.h:389-413 | what is written is read back and nothing behind it is touched |
| `VarInts.SignedReadWritten` | src/serialize.h:426-455 | a signed number comes back if and only if it is not negative; otherwise its last seven bits do |
| `VarInts.PrefixFree` | src/serialize.h:389-413 | no number is written like the beginning of another |
| `VarInts.VarIntSize` | src/serialize.h:425-428 | the buffer of the writer is long enough |
| `Compressor.CompressAmount` | src/compressor.cpp:138-155 | the dividing loop computes the packed form of mantissa and exponent |
| `Compressor.DecompressAmount` | src/compressor.cpp:157-181 | the multiplying loop computes the unpacked form |
| `Compressor.AmountRoundTrip` | src/compressor.cpp:129-181 | amount compression is a bijection of the natural numbers |
| `Compressor.CompressedFits` | src/compressor.cpp:138-155 | below 2^60 the compressed amount fits 64 bits |
| `ScriptCodec.Compress` | src/compressor.cpp:44-73 | the first byte is below 6 and announces the length |
| `ScriptCodec.DecompressCompress` | src/compressor.cpp:44-127 | each of the special scripts comes back |
| `ScriptCodec.ScriptRoundTrip` | src/compressor.h:70-103 | a script of at most the allowed size comes back, a longer one as an unspendable one, and nothing behind it is touched |
| `ScriptCodec.OutRoundTrip` | src/compressor.h:120-133 | an output with an amount below 2^60 and a script of allowed size comes back |
| `CoinsCodec.MaskComesBack` | src/coins.h:245-254 | the reader stops exactly at the end of the mask and has all availability bits |
| `CoinsCodec.CodeMeans` | src/coins.h:208-243 | the header code carries the four flags and the byte count |
| `CoinsCodec.OutsComeBack` | src/coins.h:255-260 | all unspent outputs come back at their places |
| `CoinsCodec.CoinsRoundTrip` | src/coins.h:201-264 | coins that are not pruned come back without trailing null outputs, and unchanged if there were none, if and only if version and height are not negative; the rest of the stream is untouched |
| `CoinsStream.CalcMaskSize` | src/coins.cpp:17-34 | the counting loops agree with the mask that is written and read |
| `CoinsStream.Serialize` | src/coins.h:201-228 | the loops write that stream, and the header code is never negative |
| `CoinsStream.Unserialize` | src/coins.h:231-264 | the loops read it, and fail exactly when the stream ends early |
| `CoinsStream.UndoRoundTrip` | src/undo.h:41-60 | an undo record comes back if and only if its height is below 2^30 and its version is not negative or, without a height, is 0 |

## Left out

- Coins are values that operations take and return, not objects changed in place; the caches that hold them are classes.
- The block index is one object with maps from block names to heights, parents, work and flags, so that a block is named by
  a number that also stands for its address in the comparator. Aliasing between index entries is not modelled.
- The two bucket tables of the address manager are finite maps from slots to entry numbers; an absent slot is the -1 of the
  arrays. Keyed hashes are arbitrary functions with the source's ranges, and random numbers are arbitrary.
- Integers are unbounded. Sums of amounts, sequence numbers and times do not wrap; only the variable length integers have the
  width of their type. nServices is a set of bits.
- Script execution, signatures, sigop limits, money ranges, value-in against value-out, block rewards, the end of zerocoin
  transactions and the other rules of ConnectBlock: they only reject more blocks. The zerocoin database and the parsing of
  zerocoin scripts: what an input redeems is part of the input.
- Whether a block connects is, for the block tree, a fixed property of the block; that a forgotten stake flag also lifts the
  maturity rule for those coins is not seen there. Whether a block is undone cleanly may differ from one attempt to the
  next; other disk errors do not occur. The link to the coin model is `TipRuns`: which attempts are clean for a run of
  blocks that was connected through the caches; the two models share no state.
- Pruned block files: the branch of FindMostWorkChain for missing data is shown not to be taken.
- InvalidateBlock, ReconsiderBlock, loading the index from disk, validity levels above "has transactions", pindexBestInvalid
  and the fork warnings.
- The block tree starts with the genesis block active; the moment before it is not modelled.
- fQuit of the check queue, which nothing sets, and exceptions in checks.
- `SetBackend` of the coin views, which breaks the relation between a cache and its parent on purpose.
- `GetSerializeSize` of coins, which uses another factor for the header code than `Serialize`.
- File positions and the headers of undo files. A block's undo file is written whenever the block is connected; the code
  keeps the one from the first time. The hash of the checksum is any function.
- The versions and heights of coins in the database itself after a restart: only undo data is read back in the runs.
- The limits on the size of allocations while a vector is read.
- `Select_` and `GetChance`, which only choose.
- Versions of peers.dat other than 1, a changed number of buckets, and files that no consistent manager wrote.
- Public key arithmetic: a valid full key is taken to be what its short form expands to.
- Hexadecimal output of the one-argument DecodeBase58, and texts with zero characters, which a C string cannot hold.
- The number of steps of GetAncestor, for which the code has simulation results only.
- AddrMan.AddrManager.Good: requires a positive time, because the program's check refuses tried entries without one.
- AddrMan.AddrManager.Attempt: requires a time that is not negative, for the same reason.
- AddrReload.Unserialize: requires a file that describes consistent tables.
- ChainState.BlockManager.AcceptBlockHeader: takes the outcomes of CheckBlockHeader and ContextualCheckBlockHeader as given;
  of these checks, the model has the one on the block time.
- ChainState.BlockManager.CheckBlockIndex: the condition that usable blocks are candidates is stated from the best block
  reached on, because it fails between the tip and that block after a failed disconnection; `ChainFailure` has the exact
  condition.
- StakeFlag.BlockChecked: leaves out the checks on sizes, coinbase scripts and cold staking outputs.
- UndoReread.ReorgFromFiles: for records with heights from 2^30 on, `CoinsStream.UndoRoundTrip` only says that they do not
  come back; `UndoFits` and `TipRuns` require lower heights, and outputs that the format can hold.
- CoinsCodec.CoinsRoundTrip: requires coins that are not pruned, as the assertion of the writer does, and fewer than
  2^31 - 16 outputs, so that the header code fits its type.
