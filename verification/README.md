# A verified model of the node's core data structures

This project models, in Dafny, the parts of the node whose correctness does not show
from reading one function: a stack of write-back caches over the chain state, the
address manager, proofs of inclusion, a work queue shared by threads, lossy caches and
filters, big-integer arithmetic, checksummed encodings, and the assembly of blocks. Each
part is a set of modules named after the component; what the source promises is stated as
lemmas over all inputs, all runs or all interleavings, and loops and objects of the source
are methods and classes proved against the same specifications.

`dafny verify dfyconfig.toml` checks the whole project.

## Components

- **Chain state caches** (`Coins`, `CoinsCache`, `CoinsRun`, `CoinsShielded`). A cache shows
  its own entries over what its parent shows. The invariant says that the DIRTY and FRESH
  flags tell the truth about the parent. From it follows that every erase and skip is
  invisible, that flushing refines writing straight to the parent, and that the layers of a
  stack of any depth behave like a list of independent layers: a new one copies the top, a
  flush copies it down, and a dropped layer leaves no trace. Pruned and absent coins are the
  same.
- **Address manager** (`AddrTables`, `AddrInv`, `AddrOps`, `AddrRun`, `AddrMan`). Five
  redundant structures and their counters stay consistent under every operation, so the
  checks the manager makes on itself never fail; `AddrCheck` says exactly what these see.
  `AddrStats` says what is learned about an entry over a run: one failure is counted per
  success, and times and services only grow.
  `AddrSpread` proves the design goal that nobody fills the tables from one place.
  `AddrFile`, `AddrLoad`, `AddrRoundTrip` and `AddrDisk` prove the file round trip, and
  `AddrParse` which streams are read at all; `AddrAnyFile` says what holds whatever they say.
- **Partial Merkle trees** (`MerkleTree`, `MerkleProof`, `PartialMerkle`, `MerkleSize`; section "Partial
  Merkle branch format" of BIP 37). Soundness with an explicit collision as the only way
  out, completeness with the exact condition, the packing of bits, and how many are stored.
- **Check queue** (`CheckQueue`, `CheckQueueRun`). A state machine with one step per
  critical section and per check; the verdict, the counters, freedom from deadlock and a
  bound on the number of steps hold in every interleaving.
- **Cuckoo cache** (`Cuckoo`, `CuckooCache`). Conservation for any chain of displacements
  and the bound on the current epoch over every sequence of calls.
- **Eviction tree** (`TxTree`, `TxSearch`, `MempoolLimit`; section "Specification" of
  ZIP 401). The sum tree, exact weighted selection, and when 32 bits are enough for it.
- **256-bit integers and compact targets** (`Limbs`, `Arith`, `ArithMul`, `ArithShift`,
  `ArithDiv`, `Compact`). Every limb loop against the number it stands for.
- **Bech32 and Base58** (`Bech32Code`, `Bech32`, `Bech32Errors`, `Digits`, `Base58`; section "Bech32" of
  BIP 173). Round trips in both directions, error detection, and the buffer sizes.
- **Block index, rolling filter, block assembly** (`Chain`, `ChainSteps`, `Bloom`,
  `Miner`). `ChainSteps` proves the bound of 110 steps back that src/chain.cpp:116-117 reports.
- `Common`, `Powers`, `Bits8`, `Bits64` hold shared vocabulary.

## Where code and documentation part

The model follows the code.

- The comment at src/cuckoocache.h:419-420 says the first displacement goes to the first
  location; the code takes the second (`Cuckoo.NextFollows`).
- src/cuckoocache.h:348 computes the epoch size in 32 bits, so very large tables get a
  smaller epoch than 45 percent; `Cuckoo.EpochIs45Percent` says exactly which.
- src/coins.cpp:478-537 overwrites the best block and anchors of the parent even with ones
  that were never loaded; `CoinsCache.CoinsViewCache.Flush` says exactly when that shows,
  and `CoinsRun.FlushForgets` builds a case.
- src/coins.h:514-522 asks callers of ModifyNewCoins for a new transaction;
  `Coins.NewCoins` says exactly what goes wrong otherwise.
- src/merkleblock.cpp:148-179 signals failure by a zero root; `PartialMerkle.Soundness`
  therefore speaks of nonzero roots, and `PartialMerkle.ZeroRootProvesNothing` says why.
- src/merkleblock.h:47 bounds the flag bits by twice the hashes less one; nodes with one
  child break that bound, and `MerkleSize.FlagBitBound` says exactly when.
- A default element counts as present in a fresh cuckoo cache
  (`Cuckoo.FreshClaimsDefault`).
- src/addrman.h:447-467 clears the tables and counters but not the two maps, which
  `AddrRun.ClearedIsConsistent` shows to be right only when these are empty; reading is
  modelled into a freshly constructed manager.
- src/addrman.cpp:510-512 stores a 64-bit time in 32 bits, so a late enough connection sets
  the time of an entry back; `AddrStats.ConnectedGoesBack` says exactly when.
- src/mempool_limit.cpp:57-71 narrows weights to 32 bits; `TxSearch.SearchIsRight` says
  exactly for which trees the search is still right.
- src/arith_uint256.cpp:70-83 clears the target before it reads the factor, so a number
  multiplied by itself in place gives zero (`ArithMul.MulSelf`).
- A separator typed for a data character of a Bech32 string may go unnoticed;
  `Bech32Errors.SeparatorErrorIsRejected` says exactly when.
- The comment at src/mempool_limit.h:56 puts the low-fee limit at 10000; the constant in
  src/policy/fees.h:16 is 1000.

## Model

| member | source | states |
|---|---|---|
| `Coins.CleanPrunedIsEmpty` | src/coins.h:114-119 | a cleaned-up transaction with nothing left to spend has no outputs and no memory usage, so testing for an empty list is testing for unspent outputs |
| `Coins.CloseCoins` | src/coins.cpp:642-659 | ending a modification keeps every flag truthful although trailing spent outputs are cut off and a fresh, fully spent entry is erased |
| `Coins.NewCoins` | src/coins.h:514-522 | declaring an entry new without asking the parent is safe if and only if the parent shows no unspent output; otherwise closing it fully spent brings the parent's coins back |
| `Coins.DropCoins` | src/coins.cpp:550-557 | forgetting an unmodified entry is invisible |
| `Coins.MergeCoinsSound` | src/coins.cpp:493-520 | each of the flag cases of a merge (skip, take over, erase, overwrite) shows the child's coins over the grandparent and leaves a truthful entry |
| `Coins.MergeLeavesNoTrace` | src/coins.cpp:487-520 | a merge leaves nothing to be written for coins that were created and spent in between, and does not touch the entry of coins that were not modified |
| `Coins.MergeAllCoins` | src/coins.cpp:493-520 | merging all entries of a child leaves a parent that shows over the grandparent exactly what the child showed over the parent, with truthful flags |
| `Coins.MergeAllAnchors` | src/coins.cpp:445-476 | the same for anchors; an existing tree is kept, which is right when roots do not collide |
| `CoinsCache.MergeCoinsEntry` | src/coins.cpp:493-520 | one entry is merged as specified, all others stay, and the usage counter moves by what was added |
| `CoinsCache.MergeAnchorEntry` | src/coins.cpp:452-474 | the same for one anchor |
| `CoinsCache.MergeNullifiersInto` | src/coins.cpp:423-443 | the loop merges every nullifier of the child as specified |
| `CoinsCache.CoinsViewCache.SetBestBlock` | src/coins.cpp:419-421 | the cache shows the block just set; nothing else it shows changes |
| `CoinsCache.CoinsViewCache.EnterAnchor` | src/coins.cpp:208-222 | the anchor is shown as entered or removed, and the best anchor of its pool alone is replaced |
| `Coins.MergeAllNullifiers` | src/coins.cpp:423-443 | the same for nullifiers |
| `Coins.StoreAllCoins` | src/txdb.cpp:172-183 | writing the dirty entries of a child leaves a database that stores exactly the unspent coins the child showed |
| `Coins.StoreAllAnchors` | src/txdb.cpp:142-159 | writing the dirty anchors leaves a database that shows the anchors of the child, the empty tree being implied |
| `Coins.UsageOfClosing` | src/coins.cpp:647-659 | the change of the usage counter at the end of a modification is the change of the summed usage, also when the entry is erased |
| `Coins.UsageOfAnchor` | src/coins.cpp:191-223 | entering a new anchor changes the summed usage by the usage of its tree |
| `Coins.ScriptsAddUp` | src/coins.h:236-243 | scripts of up to 28 bytes take no memory, and each longer one an allocation |
| `Coins.OutputsTake` | src/coins.h:236-243 | beside its scripts, a transaction takes forty bytes an output and the overhead of one allocation |
| `CoinsCache.CoinsDB.BatchWrite` | src/txdb.cpp:161-200 | the database ends up showing the child's coins and nullifiers, its anchors and the empty trees, and those hashes that are not null |
| `CoinsCache.CoinsDB.GetAnchorAt` | src/txdb.cpp:53-75 | a tree is returned exactly for shown anchors, and has the asked root; the empty tree is always there |
| `CoinsCache.MergeCoinsInto` | src/coins.cpp:493-520 | the loop over the child's entries merges every one of them and keeps the usage counter equal to the summed usage |
| `CoinsCache.MergeAnchorsInto` | src/coins.cpp:445-476 | the loop over the child's anchors merges every one of them and keeps the usage counter exact |
| `CoinsCache.CoinsViewCache.OverCache` | src/coins.cpp:85 | a new cache over a cache is valid and shows what that one shows |
| `CoinsCache.CoinsViewCache.FetchCoins` | src/coins.cpp:101-117 | filling the caches below changes nothing shown at any level; FRESH is set for a pruned parent entry truthfully |
| `CoinsCache.CoinsViewCache.GetCoins` | src/coins.cpp:333-340 | returns what is shown (pruned and absent being the same) and changes nothing shown |
| `CoinsCache.CoinsViewCache.HaveCoins` | src/coins.cpp:381-388 | true exactly when an unspent output is shown |
| `CoinsCache.CoinsViewCache.ModifyCoins` | src/coins.cpp:342-361 | opens the shown coins for modification with truthful flags and an exact usage counter, nothing shown having changed |
| `CoinsCache.CoinsViewCache.Close` | src/coins.cpp:647-659 | the view afterwards shows the coins written, tidied; flags and usage stay right; flag, height and version stay as they are |
| `CoinsCache.CoinsViewCache.ModifyNewCoins` | src/coins.cpp:363-370 | the cache stays valid if and only if the parent shows no unspent output of the transaction |
| `CoinsCache.CoinsViewCache.Uncache` | src/coins.cpp:550-557 | nothing shown changes, and the usage counter stays exact |
| `CoinsCache.CoinsViewCache.HaveInputs` | src/coins.cpp:628-640 | true exactly for a coinbase or when every spent output is available in what is shown |
| `CoinsShielded.HaveShieldedRequirements` | src/coins.cpp:584-626 | true exactly when no nullifier is spent and every anchor is shown or, for a joinsplit, is the root after an earlier one of the transaction; the view stays the same |
| `CoinsShielded.OneMoreTree` | src/coins.cpp:607-612 | the intermediate trees are those after the joinsplits so far, by their roots |
| `CoinsShielded.MetIsAllowed` | src/coins.cpp:584-626 | the tests made note by note amount to this: nothing the transaction spends is spent already, and every anchor is known where it is used |
| `CoinsShielded.NoDoubleSpend` | src/coins.cpp:590-620 | no transaction with a spent nullifier anywhere meets the requirements |
| `CoinsShielded.SpentStays` | src/coins.cpp:318-331 | over every run that neither unspends it nor discards a layer, on whatever layers, a spent note stays spent |
| `CoinsShielded.NeverTwice` | src/coins.cpp:590-620 | so no later transaction of such a run can spend it |
| `CoinsShielded.TreesAreGrown` | src/coins.cpp:598-612 | when the anchors are known, the tree at each of them is one that is shown, grown by the commitments of earlier joinsplits of the transaction, in their order |
| `CoinsCache.CoinsViewCache.GetAnchorAt` | src/coins.cpp:120-164 | a tree is found exactly for shown anchors and has the asked root, through any number of caches |
| `CoinsCache.CoinsViewCache.GetNullifier` | src/coins.cpp:166-189 | returns whether the nullifier is shown as spent, filling the caches without changing anything shown |
| `CoinsCache.CoinsViewCache.SetNullifiers` | src/coins.cpp:318-331 | exactly the given nullifiers change in what is shown |
| `CoinsCache.CoinsViewCache.GetBestBlock` | src/coins.cpp:395-400 | returns the shown best block and loads it |
| `CoinsCache.CoinsViewCache.GetBestAnchor` | src/coins.cpp:402-417 | returns the shown best anchor of a pool and loads it |
| `CoinsCache.CoinsViewCache.PushAnchor` | src/coins.cpp:191-243 | the tree becomes an anchor and the best one unless it already is the best; usage stays exact |
| `CoinsCache.CoinsViewCache.PopAnchor` | src/coins.cpp:245-316 | the best anchor stops being one and the new root becomes the best, unless it already is |
| `CoinsCache.CoinsViewCache.BatchWrite` | src/coins.cpp:478-537 | a cache takes over a child and then shows exactly what the child showed; its hashes become the child's even when those are not loaded |
| `CoinsCache.CoinsViewCache.Flush` | src/coins.cpp:539-548 | the parent then shows exactly the coins, nullifiers and anchors this cache showed, deeper layers are untouched, and the cache is empty, valid and shows the same; the best block and each best anchor survive if and only if they are loaded here or the parent shows what lies below it |
| `CoinsRun.Step` | src/coins.cpp:101-557 | one operation on a stack of caches does to what every layer shows what it does to a list of layers, raw flushes included |
| `CoinsRun.Run` | src/coins.cpp:101-557 | every run of reads, modifications, creations, stacking, flushing, unstacking and discarding over any number of layers does to all of them, and to the hashes they have loaded, what it does to a list of layers; a transaction may be created whenever neither the top nor the next layer shows an unspent output of it |
| `CoinsRun.RunRespectsSame` | src/coins.cpp:101-557 | what a run does, and whether it is legal, depends only on what the layers show and have loaded |
| `CoinsRun.LayersAreInvisible` | src/coins.cpp:539-548 | in runs that discard no layer, set no null hash and flush only as below, the top shows what the same operations do to one flat view, however they are layered |
| `CoinsRun.FlushShowsSame` | src/coins.cpp:478-548 | a flush changes nothing that is shown if and only if the best block and both anchors are loaded, or the next layer has nothing of its own there, and, on the database, the empty trees are anchors already |
| `CoinsRun.DiscardUndoes` | src/main.cpp:3058-3069 | a layer that is stacked, changed at will and discarded leaves what every layer shows |
| `CoinsRun.ReconnectIsLegal` | src/main.cpp:2313-2328 | a transaction spent to nothing in one flushed layer can be created anew in the next, whatever it was before, and only it changes |
| `CoinsRun.WrittenIsShown` | src/coins.h:114-119 | coins that are modified or created are shown on top, and on a flush one layer below, with the same coinbase flag, height and version and the same output at every unspent position, or not at all when nothing is unspent; nothing else changes |
| `CoinsRun.SpentOnce` | src/coins.cpp:37-44 | an output that is set to null is spent, and every other output of the transaction stays as it is |
| `CoinsRun.BestBlockIsShown` | src/coins.cpp:419-421 | a best block that is set is shown, and shown below after a flush; nothing else changes |
| `CoinsRun.ReadIsLoaded` | src/coins.cpp:395-417 | reading the best block or an anchor keeps its hash in the cache and changes nothing that is shown |
| `CoinsRun.UnstackPassesOn` | src/coins.cpp:539-548 | unstacking drops the top layer, leaves what it showed to the next and does not touch the others; discarding just drops it |
| `CoinsRun.PopUndoesPush` | src/coins.cpp:192-293 | a pushed tree is shown and best, and popping back to the best one before takes it away and changes nothing else; pushing the best one again changes nothing |
| `CoinsRun.UnspendUndoes` | src/coins.cpp:318-331 | setting nullifiers changes these alone, and setting them back leaves no trace |
| `CoinsRun.FlushForgets` | src/coins.cpp:478-537 | a layer that never loaded its best block makes its parent forget the one it had set |
| `CoinsRun.FlushAll` | src/coins.cpp:539-548 | reading the best block and anchors and flushing, layer after layer, leaves a database that stores exactly the coins the top showed and shows its nullifiers and best hashes, and its anchors together with the empty trees |
| `CoinsRun.EmptyMakesTheDifference` | src/txdb.cpp:53-75 | the database shows just what the top showed if and only if that showed the empty trees |
| `AddrInv.SwapKeepsInv` | src/addrman.cpp:93-111 | exchanging two places of the random order keeps all five structures consistent |
| `AddrInv.CreateKeepsInv` | src/addrman.cpp:81-91 | a new address gets an unused id; it is the one entry without a slot until it gets one |
| `AddrInv.DeleteKeepsInv` | src/addrman.cpp:113-125 | removing an entry without slots leaves the maps inverse and the random order a permutation |
| `AddrInv.ClearNewKeepsInv` | src/addrman.cpp:127-140 | clearing a slot touches no entry but its occupant, which goes when that was its last slot |
| `AddrInv.DemoteKeepsInv` | src/addrman.cpp:161-182 | an entry that leaves the tried table ends up untried with exactly the one slot its source gives it, and at most that slot's occupant is touched |
| `AddrInv.MakeTriedKeepsInv` | src/addrman.cpp:142-188 | the entry is tried, in its one right slot, and in no new slot; at most the displaced tried entry and the occupant of its home slot are touched |
| `AddrOps.UntriedIsInSomeBucket` | src/addrman.cpp:219-234 | the search for a bucket in Good_ always succeeds, so its early exit is unreachable |
| `AddrOps.GoodKeepsConsistent` | src/addrman.cpp:190-240 | a known address with this port is tried afterwards with its times set; any other report changes nothing; the tables stay consistent |
| `AddrOps.PlaceKeepsConsistent` | src/addrman.cpp:286-306 | an entry gets the slot exactly when it is open or already its own, and is gone exactly when it ends up with no slot |
| `AddrOps.AddKeepsConsistent` | src/addrman.cpp:242-308 | an unknown address is kept if and only if its slot is free, its occupant is terrible, or the occupant has another slot; tried entries and known addresses are never lost |
| `AddrRun.GoodTimes` | src/addrman.cpp:190-211 | the recorded times stay as Check_ demands if and only if the reported time is positive or the address unknown |
| `AddrRun.AddTimes` | src/addrman.cpp:242-308 | adding never breaks the recorded times |
| `AddrRun.ShuffleKeeps` | src/addrman.cpp:474-493 | the shuffle of GetAddr_ only permutes entries, and what has been passed stays passed |
| `AddrRun.AnswerIsFair` | src/addrman.cpp:474-493 | an answer lists only entries that are not terrible, at most the limit, and all of them when it falls short of it; the limit is the largest number up to 2500 that is at most 23 percent of the entries |
| `AddrMan.Step` | src/addrman.cpp:190-513 | one call of a public operation is one step of a run |
| `AddrMan.Run` | src/addrman.cpp:190-513 | any calls with positive times, one after another, do what a run does to the tables, and the check passes at the end |
| `AddrRun.ConsistentPassesCheck` | src/addrman.cpp:397-472 | consistent tables pass every test of Check_ if and only if the key is not null |
| `AddrCheck.CheckIsExact` | src/addrman.cpp:397-472 | for any tables, Check_ passes if and only if the key is not null, times are not negative, addresses lead to their entries, and order, slots, references and counters are all right |
| `AddrCheck.CheckDecides` | src/addrman.cpp:397-472 | with ids in range and no address missing or too many, which it does not test, Check_ decides whether the tables are consistent |
| `AddrRun.ExecKeepsInvariant` | src/addrman.cpp:190-330 | each public operation with a positive time keeps the whole invariant |
| `AddrRun.EveryRunPassesCheck` | src/addrman.cpp:397-472 | every run of operations with positive times, from any consistent tables, ends in tables that pass Check_ with any key but the null one |
| `AddrRun.FreshManagerIsConsistent` | src/addrman.h:469-472 | a new manager is consistent |
| `AddrRun.ClearedIsConsistent` | src/addrman.h:447-467 | clearing empties both tables, the random order and the counters but no map, and so leaves a consistent manager if and only if it knew no address |
| `AddrMan.AddrMan.Clear` | src/addrman.h:447-467 | in place: everything but the two maps is reset |
| `AddrStats.RefreshedGrown` | src/addrman.cpp:251-259 | hearing of an address again adds its services, and unless the penalty is negative moves its time to the one reported less the penalty exactly when that is later by more than the update interval or no time was known |
| `AddrStats.RefreshedGoesBack` | src/addrman.cpp:253-256 | hearing of an address sets its time back if and only if the penalty is negative, the time less the penalty is late enough, and it wraps to one before the known time; no caller passes a negative penalty |
| `AddrStats.NegativePenaltyGoesBack` | src/addrman.cpp:253-256 | with a penalty of minus one, a time known as 1 and reported as 2^32 - 1 becomes 0 |
| `AddrStats.AttemptedGrown` | src/addrman.cpp:324-329 | an attempt not dated before the last success counts a failure exactly when asked to and none was counted since that success; the time of the attempt is recorded |
| `AddrStats.SecondFailureUncounted` | src/addrman.cpp:326-329 | of two failures in a row the second goes uncounted if and only if the first was not dated before the last success |
| `AddrStats.ConnectedFollows` | src/addrman.cpp:495-513 | a connection sets the time of its entry, in 32 bits, exactly when more than 20 minutes later, and leaves what else was learned of every entry |
| `AddrStats.ConnectedGoesBack` | src/addrman.cpp:510-512 | it sets the time back if and only if it is more than 20 minutes later and wraps to one before the known time |
| `AddrStats.WrapGoesBack` | src/addrman.cpp:510-512 | a connection at time 2^32 does so to every known time but the last 20 minutes of the clock |
| `AddrStats.AddFollows` | src/addrman.cpp:242-308 | adding any address leaves each surviving entry with its address, source, successes and failures, and services not fewer; its time is not earlier unless the penalty is negative; no old id comes back |
| `AddrStats.StepFollows` | src/addrman.cpp:242-330 | the same for every operation but a success, with the failures counted exactly |
| `AddrStats.RunFollows` | src/addrman.cpp:242-330 | over every run without a success, an entry gains exactly one failure if one was reported for its address and port and none had been counted since the last success, and none otherwise; services only grow, and so do times when no penalty is negative and connections are dated within 32 bits |
| `AddrStats.RunKeepsTried` | src/addrman.cpp:242-330 | no run without a success changes the tried table |
| `AddrStats.GoodForgets` | src/addrman.cpp:207-210 | a success clears the failures of its entry and keeps the time of the last counted one |
| `AddrStats.OneFailurePerSuccess` | src/addrman.cpp:190-330 | from a success to the next, whatever else happens, the entry stays known and tried and has one failure exactly when a countable one was reported, otherwise none |
| `AddrSpread.SlotChance` | src/addrman.cpp:251-307 | a report gives a known entry one more slot if and only if the entry is untried and has fewer than eight, the report is newer than what is then known, the random number is a multiple of 2^n for the n slots it has, and the slot is free or held by another, terrible entry; otherwise the count stays |
| `AddrSpread.NewEntryIs` | src/addrman.cpp:279-306 | an address heard of for the first time, if it is kept, has one slot, no attempts and no successes, and its time set back by the penalty but not below zero |
| `AddrSpread.BucketsOfRange` | src/addrman.cpp:11-24 | an address range has eight tried buckets at most, and a range of sources 64 new ones |
| `AddrSpread.SlotDependsOnRanges` | src/addrman.cpp:18-30 | the new bucket depends on the two ranges alone, the position on bucket and address, and both are within the tables |
| `AddrSpread.RangeIsBounded` | src/addrman.h:126-128 | in consistent tables no address range has more than 512 tried entries |
| `AddrSpread.SourcesAreBounded` | src/addrman.h:119-121 | whatever a range of sources reports to a new manager, over every run, it holds at most 4096 new entries |
| `AddrSpread.TerribleIs` | src/addrman.cpp:32-50 | an entry is terrible if and only if it is outdated or failing and was not tried within the last minute |
| `AddrSpread.SuccessIsNotForgotten` | src/addrman.cpp:32-50 | after a success and until the next, whatever else happens, an entry never fails and becomes terrible only by being outdated |
| `AddrMan.AddrMan.constructor` | src/addrman.h:447-467 | an empty manager, valid, with the last success at time 1 |
| `AddrMan.AddrMan.SwapRandom` | src/addrman.cpp:93-111 | in place: two entries trade places in the random order |
| `AddrMan.AddrMan.ClearNew` | src/addrman.cpp:127-140 | in place: the occupant loses the slot and is deleted when it was its last |
| `AddrMan.AddrMan.LeaveNew` | src/addrman.cpp:144-152 | in place, bucket after bucket: the entry is in no new bucket |
| `AddrMan.AddrMan.Demote` | src/addrman.cpp:161-182 | in place: an evicted tried entry takes the new slot of its own source |
| `AddrMan.AddrMan.FindBucket` | src/addrman.cpp:219-229 | the search from a random bucket finds one exactly when there is one |
| `AddrMan.AddrMan.Place` | src/addrman.cpp:286-306 | in place: the slot is given, refused, or the entry deleted as specified |
| `AddrMan.AddrMan.Delete` | src/addrman.cpp:113-125 | in place: the tables afterwards are those after removing the entry |
| `AddrMan.AddrMan.MakeTried` | src/addrman.cpp:142-188 | in place, with the loop over all new buckets: the tables are those with the entry moved |
| `AddrMan.AddrMan.Good` | src/addrman.cpp:190-240 | in place, with the search for a bucket: the manager stays valid and its tables are those of the specification |
| `AddrMan.AddrMan.Add` | src/addrman.cpp:242-308 | in place: the manager stays valid, and the result says whether an address was new |
| `AddrMan.AddrMan.Attempt` | src/addrman.cpp:310-330 | in place: only the attempt statistics of a known address change |
| `AddrMan.AddrMan.Connected` | src/addrman.cpp:495-513 | in place: only the time of a known address changes |
| `AddrMan.AddrMan.GetAddr` | src/addrman.cpp:474-493 | in place, with the shuffling loop: the manager stays valid and the answer is the fair one |
| `AddrFile.StreamRoundTrip` | src/addrman.h:292-445 | a file whose counts match its lists and limits is read back from its stream exactly |
| `AddrFile.BucketsRoundTrip` | src/addrman.h:325-339 | the bucket lists, each preceded by its length, are read back exactly |
| `AddrLoad.ListsAreCounted` | src/addrman.h:307-324 | exactly nNew entries have references and exactly nTried are tried, so the asserts on the counts never fire |
| `AddrLoad.LoadTriedReads` | src/addrman.h:370-409 | loading the entries of consistent tables renumbers them in file order and drops none, each tried entry landing in its old slot |
| `AddrLoad.ParsedCounts` | src/addrman.h:370-376 | every stream that parses holds as many new entries as it says |
| `AddrParse.ParsedIs` | src/addrman.h:341-428 | a stream is read as a file if and only if it holds key size 32, counts within 65536 and 16384, and as many entries, buckets and indexes as it says; what follows does not matter |
| `AddrParse.RefusedFor` | src/addrman.h:348-369 | which streams are refused for the key size, the new count or the tried count, in the order of the tests |
| `AddrAnyFile.AnyFileIsSound` | src/addrman.h:341-444 | whatever stream parses, every entry of the tables read from it sits where it hashes to, tried entries in exactly one slot and untried ones in one to eight that are counted, and the random order is a permutation |
| `AddrAnyFile.ForeignFile` | src/addrman.h:370-388 | of a file with another version or bucket count, each slot that new entries call home goes to the first that does, and no other slot is taken |
| `AddrFile.FlipIs` | src/addrman.h:358-361 | marking the bucket count changes bit 30 and nothing else |
| `AddrLoad.LoadBucketsOrdered` | src/addrman.h:370-427 | whatever the file, the random order stays a permutation of the entries while loading |
| `AddrLoad.PrunedInfos` | src/addrman.h:429-439 | pruning deletes exactly the untried entries without a slot and changes no other |
| `AddrLoad.LoadedArePlaced` | src/addrman.h:429-439 | whatever the file, each entry read from it was tried or has a slot |
| `AddrRoundTrip.CountersFit` | src/addrman.h:362-368 | the counters of consistent tables never exceed the limits at which a reader rejects a file |
| `AddrRoundTrip.PlaceBuckets` | src/addrman.h:411-427 | the stored bucket lists give every slot its old entry back, under its new number, with exact reference counts |
| `AddrRoundTrip.PruneNothing` | src/addrman.h:429-439 | the final pruning removes nothing when every untried entry has a slot |
| `AddrRoundTrip.SameIsConsistent` | src/addrman.h:342-445 | tables that are the same up to renumbering are consistent as well |
| `AddrRoundTrip.FileRoundTrip` | src/addrman.h:292-445 | writing consistent tables, parsing the stream and loading it into a fresh manager gives the same tables up to numbering, random order and memory-only fields, and they are consistent |
| `AddrRoundTrip.NothingIsForgotten` | src/addrman.h:292-445 | address, source, last success, attempts, references and table of each entry survive; the last try and the last counted attempt start anew |
| `AddrRoundTrip.ReloadedRunPassesCheck` | src/addrman.h:342-445 | tables that were written and read back pass Check_, and so they do after every further run with positive times, with any key but the null one |
| `AddrDisk.Serialize` | src/addrman.h:292-339 | the loops write exactly that file; what is written parses and loads back as the same tables |
| `AddrDisk.Unserialize` | src/addrman.h:342-445 | the loops fill a fresh manager with the tables of the file, or report why the stream cannot be read |
| `AddrDisk.PruneNew` | src/addrman.h:429-439 | in place: the untried entries that found no slot are deleted |
| `MerkleTree.WidthIsCeiling` | src/merkleblock.h:66-68 | a node is in the tree exactly when its first leaf is |
| `MerkleTree.Split` | src/merkleblock.cpp:61-76 | the leaves below a node are those below its one or two children |
| `MerkleTree.LeavesIncrease` | src/merkleblock.cpp:96-130 | whatever the data, matches are reported at strictly increasing positions below the node |
| `MerkleTree.NodeSoundness` | src/merkleblock.cpp:96-130 | a traversal that comes out at the true hash of a node reports true ids, or the two traversals part at an explicit collision of the pair hash |
| `MerkleTree.ExtractExtends` | src/merkleblock.cpp:96-130 | a traversal that is not bad is the same whatever data follows |
| `MerkleProof.MatchedIsExact` | src/merkleblock.cpp:78-94 | the reported positions are all matched ones of a range, each once, in order |
| `MerkleProof.NodeCompleteness` | src/merkleblock.cpp:78-130 | a traversal of what was stored for a node consumes exactly that, returns the true hash and exactly the matches, and is bad if and only if two visited siblings are equal |
| `MerkleProof.FewHashes` | src/merkleblock.h:36-40 | at most one hash per leaf, and at most one plus matches times height, are stored |
| `MerkleSize.BitsAreCounted` | src/merkleblock.h:47 | the flag bits are twice the hashes less one, plus the visited inner nodes with a single child |
| `MerkleSize.InnerNodesArePaired` | src/merkleblock.cpp:89-92 | a node with a right neighbour has no single children below it |
| `MerkleSize.FlagBitBound` | src/merkleblock.h:47 | the documented bound on the flag bits holds if and only if no level of odd width has a match below the parent of its last node |
| `MerkleSize.FiveTransactions` | src/merkleblock.h:47 | five transactions with a match on the last need five bits for two hashes |
| `PartialMerkle.PackingRoundTrip` | src/merkleblock.h:88-105 | unpacking packed bits gives the bits followed by zeros up to a full byte |
| `PartialMerkle.Soundness` | src/merkleblock.cpp:148-179 | if a nonzero true root comes out, the leaves of the traversal are at increasing positions and its matches are the ids there, or the traversal and the true tree part at a node they agree on, which yields two different pairs with one hash |
| `PartialMerkle.NothingIsLeftOver` | src/merkleblock.cpp:172-177 | what is accepted is still accepted with more data if and only if there is no further hash and the bits fill the same number of bytes |
| `PartialMerkle.OnlyBlocksAreAccepted` | src/merkleblock.cpp:150-161 | nothing comes out for no transactions, more than 33333, more hashes than transactions, or fewer bits than hashes |
| `PartialMerkle.ZeroRootProvesNothing` | src/merkleblock.cpp:148-179 | zero stands for failure: if the true root were zero, a failing extraction would vouch for any id |
| `PartialMerkle.Completeness` | src/merkleblock.cpp:132-179 | building, packing, unpacking and extracting returns exactly the chosen ids in order, and the root if and only if all siblings on the way differ; with the bounds on the number of hashes |
| `PartialMerkle.PartialMerkleTree.constructor` | src/merkleblock.cpp:132-144 | stores exactly the bits and hashes of the block for the chosen transactions |
| `PartialMerkle.PartialMerkleTree.Unserialize` | src/merkleblock.h:88-105 | reads the bits of the bytes, least significant first |
| `PartialMerkle.PartialMerkleTree.PackBits` | src/merkleblock.h:88-105 | packs the bits so that they are read back with zero padding |
| `PartialMerkle.PartialMerkleTree.TraverseAndBuild` | src/merkleblock.cpp:78-94 | appends exactly what is to be stored for a node |
| `PartialMerkle.PartialMerkleTree.TraverseAndExtract` | src/merkleblock.cpp:96-130 | advances both cursors, collects matches and marks bad data as the traversal says |
| `PartialMerkle.PartialMerkleTree.ExtractMatches` | src/merkleblock.cpp:148-179 | returns root and matches, with zero for every failure, and a failure sticks to the object |
| `PartialMerkle.RelayMatches` | src/merkleblock.cpp:132-179 | the calls in sequence deliver the chosen ids and, if all siblings differ, the root |
| `CheckQueue.BatchSize` | src/checkqueue.h:106-111 | a batch has at least one check and no more than are queued |
| `CheckQueue.BatchIsFair` | src/checkqueue.h:106-111 | a batch is as large as an equal share of the queue among all threads allows, up to the configured size, and at least one |
| `CheckQueue.WorkIsAnnounced` | src/checkqueue.h:150-162 | adding wakes workers alone: one for a single check if one sleeps, all for more, none for none |
| `CheckQueue.ReportNotifies` | src/checkqueue.h:81-87 | a worker that finishes the last of the work wakes the master if it sleeps; a report wakes nobody else |
| `CheckQueue.TakeKeepsTallies` | src/checkqueue.h:106-120 | taking a batch moves checks from the queue to a thread without changing what is left to do |
| `CheckQueue.VerdictIsRight` | src/checkqueue.h:92-101 | when nothing is left to do, the flag says whether all checks of the round succeed |
| `CheckQueue.LeaveKeepsInv` | src/checkqueue.h:92-101 | the master leaves behind a clean state: no failure leaks into the next round |
| `CheckQueue.StepKeepsInv` | src/checkqueue.h:70-162 | every critical section and every check run keeps: nTodo equals queue plus batches in flight, nIdle and nTotal are exact, failures are real and none is forgotten, a sleeping master has an empty queue and is told of the end |
| `CheckQueueRun.WaitIsRight` | src/checkqueue.h:70-162 | in every interleaving of a master and any number of workers, spurious wake-ups included, Wait returns true if and only if all checks added since it last returned succeed |
| `CheckQueueRun.RunsGoOn` | src/checkqueue.h:70-162 | whatever step the threads allow continues a run: the counters never stand in its way |
| `CheckQueueRun.SleepingMasterHasHelp` | src/checkqueue.h:80-105 | while the master sleeps and has not been notified, some worker holds a batch |
| `CheckQueueRun.NoDeadlock` | src/checkqueue.h:70-128 | while the master waits, some thread can take a step that needs no spurious wake-up |
| `CheckQueueRun.StepDecreases` | src/checkqueue.h:70-128 | every such step brings the end of the round nearer |
| `CheckQueueRun.WaitReturns` | src/checkqueue.h:70-128 | a Wait returns within a bounded number of steps with a cause, whatever spurious wake-ups lie between them |
| `CheckQueueRun.CausedStepsAre` | src/checkqueue.h:70-128 | the steps with a cause are counted one by one |
| `Cuckoo.Scale` | src/cuckoocache.h:242-252 | a 32-bit hash is scaled to its exact share of the table, rounded down |
| `Cuckoo.LocsAre` | src/cuckoocache.h:242-252 | each of the eight locations comes from a hash of its own |
| `Cuckoo.NextFollows` | src/cuckoocache.h:419-430 | a displaced element goes to the location after the one it had, cyclically, and a new one that finds no room to its second |
| `Cuckoo.ChainConserves` | src/cuckoocache.h:406-440 | for any chain of displacements, all that was kept or in hand is kept or dropped, no kept slot is freed, every element sits where it hashes and none twice |
| `Cuckoo.InsertConserves` | src/cuckoocache.h:392-440 | an insert adds its element and loses at most one kept element, possibly its own |
| `Cuckoo.ContainsIsExact` | src/cuckoocache.h:469-479 | an element other than the default one is found if and only if it sits anywhere in the table; a kept one always is |
| `Cuckoo.FreshClaimsDefault` | src/cuckoocache.h:339-352 | the default element is found in a fresh cache although it was never inserted |
| `Cuckoo.ErasePlaces` | src/cuckoocache.h:469-479 | erasing releases that element and no other |
| `Cuckoo.EpochCheckReleases` | src/cuckoocache.h:288-320 | the epoch check releases only elements of the old epoch, and only when it scans |
| `Cuckoo.EpochCheckWaits` | src/cuckoocache.h:288-320 | elements are released only when the current epoch is full; then exactly the old ones are, and otherwise nothing changes but the counter, which puts off the next scan until the epoch may be full |
| `Cuckoo.KeptWithinEpoch` | src/cuckoocache.h:288-461 | an insert that does not end the epoch keeps every element but one it may drop |
| `Cuckoo.EpochsLast` | src/cuckoocache.h:288-320 | over every run, between two ends of epochs there are at least as many inserts as an epoch has elements |
| `Cuckoo.InsertsAre` | src/cuckoocache.h:392-440 | the inserts among some operations are counted one by one |
| `Cuckoo.EpochCheckMakesRoom` | src/cuckoocache.h:288-320 | after the check there is room for one more element of the current epoch within the bound |
| `Cuckoo.InsertSound` | src/cuckoocache.h:392-440 | an insert keeps the table sound and the epoch bounded, and conserves what the check left |
| `Cuckoo.EveryRunIsSound` | src/cuckoocache.h:288-479 | over every run, kept current-epoch entries plus the counter never exceed epoch_size + max(1, epoch_size/16), and the table stays sound |
| `Cuckoo.EpochIs45Percent` | src/cuckoocache.h:340-348 | the epoch is 45 percent of the table if and only if 45 times its size is below 2^32, and smaller otherwise |
| `Cuckoo.EpochOfLargeTable` | src/cuckoocache.h:348 | a table of 95443718 entries, the smallest failing one, has an epoch of one |
| `CuckooCache.BitFlags.BitSet` | src/cuckoocache.h:90-93 | setting a packed flag changes that flag and no other |
| `CuckooCache.BitFlags.BitUnset` | src/cuckoocache.h:101-104 | clearing a packed flag changes that flag and no other |
| `CuckooCache.BitFlags.BitIsSet` | src/cuckoocache.h:111-114 | reads the flag |
| `CuckooCache.Cache.constructor` | src/cuckoocache.h:339-352 | a fresh table with all flags set and the epoch size as computed in 32 bits |
| `CuckooCache.Cache.EpochCheck` | src/cuckoocache.h:288-320 | the scanning and ageing loops do what the specification of the check says |
| `CuckooCache.Cache.Insert` | src/cuckoocache.h:392-440 | the loops insert as specified, and the dropped element is the one left in hand; one step of a run |
| `CuckooCache.Cache.DisplaceAll` | src/cuckoocache.h:406-440 | the displacement loop is the specified chain |
| `CuckooCache.Cache.Contains` | src/cuckoocache.h:469-479 | finds and on request releases as specified, without changing the table; one step of a run |
| `TxTree.Propagated` | src/mempool_limit.cpp:49-55 | back propagation changes exactly the proper ancestors |
| `TxTree.AddSums` | src/mempool_limit.cpp:79-90 | adding a node keeps every stored weight equal to the sum over proper descendants |
| `TxTree.RemovalSums` | src/mempool_limit.cpp:92-118 | so does removing one, although the last node takes its place |
| `TxTree.RemoveIndexes` | src/mempool_limit.cpp:92-118 | the id map stays inverse to the array, and exactly that transaction is gone |
| `TxTree.RemovalTotal` | src/mempool_limit.cpp:92-118 | the total loses exactly the weight of the removed transaction |
| `TxTree.RootIsTotal` | src/mempool_limit.cpp:73-76 | the weight at the root is the sum over all transactions |
| `TxTree.FindByEvictionWeight` | src/mempool_limit.cpp:57-71 | with nonnegative weights of which each node and all to the left below it have less than 2^31, the search ends at a live node below where it started |
| `TxTree.FindIsInterval` | src/mempool_limit.cpp:57-71 | a weight selects a transaction if and only if it falls into that transaction's interval, whose length is its eviction weight |
| `TxTree.IntervalFits` | src/mempool_limit.cpp:57-71 | all intervals lie within the total |
| `TxTree.EvictableFits` | src/mempool_limit.cpp:59-60 | totals below 2^31 are such weights |
| `TxSearch.SearchFinds` | src/mempool_limit.cpp:57-71 | for such weights the search in 32 bits takes at most a step for every node and finds what it should |
| `TxSearch.SearchIsRight` | src/mempool_limit.cpp:57-71 | with positive weights, every weight below the total leads to the transaction whose interval holds it if and only if each node and all to the left below it weigh less than 2^31 |
| `TxSearch.MissesNode` | src/mempool_limit.cpp:57-71 | the last weight of the first node that weighs more never leads to it |
| `TxSearch.HeavySearchNeverEnds` | src/mempool_limit.cpp:57-71 | with one transaction of weight 2^31 the search does not end after any number of steps |
| `MempoolLimit.WeightedTxTree.GetTotalWeight` | src/mempool_limit.cpp:73-76 | is the sum over all transactions held |
| `MempoolLimit.WeightedTxTree.BackPropagate` | src/mempool_limit.cpp:49-55 | the loop up the tree propagates as specified |
| `MempoolLimit.WeightedTxTree.Add` | src/mempool_limit.cpp:79-90 | exactly one new transaction is held afterwards, or nothing changes when it is held already |
| `MempoolLimit.WeightedTxTree.Remove` | src/mempool_limit.cpp:92-118 | exactly that transaction is gone; removing twice changes nothing |
| `MempoolLimit.WeightedTxTree.MaybeDropRandom` | src/mempool_limit.cpp:120-133 | drops nothing within the limit, else exactly the transaction whose interval holds the random weight |
| `MempoolLimit.WeightedTxTree.RemoveAll` | src/txmempool.cpp:1254 | in place: a transaction and its descendants leave the tree one by one, as far as they are held |
| `MempoolLimit.WeightedTxTree.EnsureSizeLimit` | src/txmempool.cpp:1247-1256 | each eviction happens with the cost over the limit, to the transaction whose interval holds the next random number modulo the total weight, and takes with it exactly what the pool removes for its sake; it ends within the limit, and the remembered ones are those dropped, in order |
| `Arith.Add` | src/arith_uint256.h:141-151 | the limb loop adds modulo the width, also onto itself |
| `Arith.Increment` | src/arith_uint256.h:179-186 | the carry loop adds one modulo the width |
| `Arith.Decrement` | src/arith_uint256.h:196-203 | the borrow loop subtracts one modulo the width |
| `Arith.Negate` | src/arith_uint256.h:83-90 | complement and increment negate modulo the width |
| `Arith.Subtract` | src/arith_uint256.h:153-157 | adding the negation subtracts modulo the width |
| `Arith.CompareTo` | src/arith_uint256.cpp:111-121 | the sign of the difference of the numbers |
| `Arith.Bits` | src/arith_uint256.cpp:173-187 | the position of the highest set bit plus one, zero for zero |
| `Arith.BitsUnique` | src/arith_uint256.cpp:173-187 | the bit length of a number is unique |
| `ArithMul.NoOverflow` | src/arith_uint256.cpp:57-83 | limb products with carries fit into 64 bits and leave 32-bit carries |
| `ArithMul.MulWord` | src/arith_uint256.cpp:57-67 | multiplies by a word modulo the width |
| `ArithMul.Mul` | src/arith_uint256.cpp:69-83 | multiplies by another number modulo the width |
| `ArithMul.MulSelf` | src/arith_uint256.cpp:70-83 | with the target as factor the result is zero |
| `ArithShift.ShiftLeft` | src/arith_uint256.cpp:23-38 | multiplies by a power of two modulo the width, for every shift |
| `ArithShift.ShiftRight` | src/arith_uint256.cpp:40-55 | divides by a power of two rounding down, for every shift |
| `ArithDiv.Divide` | src/arith_uint256.cpp:85-109 | the exact quotient for every nonzero divisor, with the remainder left over; zero and a failure otherwise |
| `Compact.OverflowIsExact` | src/arith_uint256.cpp:220-223 | the overflow flag is set if and only if mantissa * 256^(exponent-3) does not fit into 256 bits |
| `Compact.Truncates` | src/arith_uint256.cpp:207-248 | encoding and decoding cuts a number off downward by less than one part in 2^15, flags no overflow, and flags a sign only when one was asked for and the number is not zero |
| `Compact.EncodingIsStable` | src/arith_uint256.cpp:207-248 | encoding again what was decoded gives the same encoding |
| `Compact.ShortIsExact` | src/arith_uint256.cpp:207-248 | numbers of up to two bytes come back exactly |
| `Compact.SetCompact` | src/arith_uint256.cpp:207-225 | sets the number a compact form stands for and both flags |
| `Compact.GetCompact` | src/arith_uint256.cpp:227-248 | returns the compact form |
| `Bech32Code.StepLinear` | src/bech32.cpp:37-94 | the checksum step is linear over exclusive or |
| `Bech32Code.StepInjective` | src/bech32.cpp:37-94 | for a fixed symbol the step is injective on 30-bit remainders |
| `Bech32Code.OneChangeShows` | src/bech32.cpp:37-94 | changing one symbol changes the remainder, at every length |
| `Bech32Code.BurstShows` | src/bech32.cpp:37-94 | so does any change within six neighbouring symbols |
| `Bech32Code.AppendAdds` | src/bech32.cpp:37-94 | appending up to six symbols adds their packed form to the remainder for zeros |
| `Bech32Code.ChecksumVerifies` | src/bech32.cpp:118-139 | an input followed by its checksum leaves remainder one |
| `Bech32Code.ChecksumIsUnique` | src/bech32.cpp:118-139 | no other six symbols do |
| `Bech32.DecodeEncode` | src/bech32.cpp:147-192 | decoding an encoding gives back readable part and values, up to 1023 characters |
| `Bech32.EncodeDecode` | src/bech32.cpp:147-192 | every accepted string is, in lower case, the encoding of what it decodes to |
| `Bech32.AcceptedStrings` | src/bech32.cpp:162-192 | a string decodes to a readable part and values if and only if it has at most 1023 characters, does not mix cases, and in lower case encodes them, with a nonempty part from ! to ~ without capitals |
| `Bech32.CaseIsIgnored` | src/bech32.cpp:162-192 | a string of one case is read like the same string in lower case |
| `Bech32.OneErrorIsDetected` | src/bech32.cpp:118-125 | changing one symbol of a valid string makes the checksum fail |
| `Bech32.BurstIsDetected` | src/bech32.cpp:118-125 | so does changing any of six neighbouring symbols |
| `Bech32Errors.DataErrorIsRejected` | src/bech32.cpp:162-192 | any other character, up to case and but for the separator, in place of a data character of an accepted string makes decoding fail |
| `Bech32Errors.SeparatorErrorIsRejected` | src/bech32.cpp:171-190 | a separator in its place goes unnoticed if and only if six characters follow and the remainder up to there is that of the longer readable part, whatever follows |
| `Bech32Errors.SeparatorGoesUnnoticed` | src/bech32.cpp:171-190 | it does in the string of a1sslx8k and its checksum |
| `Bech32.RevSymbol` | src/bech32.cpp:14-26 | the two character tables are inverse up to case |
| `Bech32.PolyMod` | src/bech32.cpp:37-94 | the loop computes the remainder of the whole input |
| `Bech32.ExpandHRP` | src/bech32.cpp:103-115 | high bits, a zero and low bits of the readable part |
| `Bech32.VerifyChecksum` | src/bech32.cpp:118-125 | whether the remainder is one |
| `Bech32.CreateChecksum` | src/bech32.cpp:128-139 | the six symbols that make the checksum verify |
| `Bech32.Encode` | src/bech32.cpp:147-159 | the string of the values with their checksum, empty when a value is not a symbol |
| `Bech32.CheckCharacters` | src/bech32.cpp:163-170 | passes exactly printable strings that do not mix cases |
| `Bech32.ReadValues` | src/bech32.cpp:175-183 | reads the values exactly when all characters are symbols |
| `Bech32.Decode` | src/bech32.cpp:162-192 | accepts exactly the well-formed strings whose checksum verifies |
| `Digits.CanonicalIsUnique` | src/base58.cpp:16-95 | a number has one digit sequence without leading zeros |
| `Digits.ConvertBack` | src/base58.cpp:16-95 | changing the base and back, leading zeros kept, gives the same digits |
| `Base58.EncodeRoom` | src/base58.cpp:71 | 58^(138n/100+1) exceeds 256^n for every n, so the base-58 buffer never overflows |
| `Base58.DecodeRoom` | src/base58.cpp:28 | 256^(733n/1000+1) exceeds 58^n for every n, so the byte buffer never overflows |
| `Base58.MulAdd` | src/base58.cpp:35-42 | the carry loop multiplies and adds in place, and no carry is left when there is room |
| `Base58.Rebase` | src/base58.cpp:72-87 | the loops rewrite a number from one base in another, given room for it |
| `Base58.ReadDigits` | src/base58.cpp:30-34 | reads a word exactly when all its characters are in the alphabet |
| `Base58.DecodeEncode` | src/base58.cpp:62-95 | decoding an encoding gives back the bytes, leading zeros included |
| `Base58.EncodeDecode` | src/base58.cpp:16-60 | every accepted string is, without spaces around it, the encoding of its bytes |
| `Base58.BlanksAreIgnored` | src/base58.cpp:18-20 | blanks before and after an encoding are ignored |
| `Base58.OnlyEncodings` | src/base58.cpp:16-60 | a string is accepted only if it is the encoding of its bytes with blanks around it |
| `Base58.Alphabet` | src/base58.cpp:13-14 | the digits are the numbers and letters in their order, without 0, O, I and l |
| `Base58.EncodeBase58` | src/base58.cpp:62-95 | the loops compute the encoding, with the assertion on the carry proved |
| `Base58.DecodeBase58` | src/base58.cpp:16-60 | the loops compute the decoding, with the assertion on the carry proved |
| `Chain.GetSkipHeight` | src/chain.cpp:107-119 | a skip pointer always goes to a lower height |
| `Chain.LowestOneGoes` | src/chain.cpp:107-108 | clearing the lowest one turns 2^k (2m + 1) into 2^k 2m |
| `Chain.SkipClearsBits` | src/chain.cpp:111-119 | even heights skip by clearing one bit and odd ones by clearing two above the last, so the parity stays |
| `Chain.BlockIndex.GetAncestor` | src/chain.cpp:121-145 | following skip pointers gives the block that walking back one by one gives, in exactly the steps of StepsDown when all pointers are set |
| `ChainSteps.FewSteps` | src/chain.cpp:115-117 | going back between any two of the first 2^18 heights takes at most 110 steps |
| `ChainSteps.WalkIsShort` | src/chain.cpp:121-145 | below height 2^l, with l at least 4, it takes at most Inside(l - 1) + max(l - 4, (l + 3) / 2) steps |
| `ChainSteps.InsideIs` | src/chain.cpp:121-145 | where Inside(k) is (k - 1)(k + 7) / 4, rounded down, so that the steps grow with the square of the bits |
| `ChainSteps.StepsInside` | src/chain.cpp:121-145 | from an even height down to that without its lowest bit k, at most Inside(k) steps, one to the end and Second(k) to the place before it |
| `Chain.BlockIndex.BuildSkip` | src/chain.cpp:152-156 | the new pointer is the ancestor at the skip height, and the index stays right |
| `Chain.CChain.Contains` | src/chain.h:558-560 | a block is in the chain if and only if it is the tip or one of its ancestors |
| `Chain.CChain.SetTip` | src/chain.cpp:14-24 | every entry is the tip's ancestor at its height, although the loop stops where the old chain agrees |
| `Chain.ChainFollows` | src/chain.cpp:14-24 | a chain starts without predecessor, and the entry at each height is the predecessor of the next |
| `Chain.CChain.HeightOfTip` | src/chain.h:570-573 | the height is that of the tip, and -1 without one |
| `Chain.CChain.FindFork` | src/chain.cpp:54-63 | the highest block of the chain among a block and its ancestors, none exactly when there is none |
| `Chain.LocatorHeights` | src/chain.cpp:26-52 | locator heights start at the block, fall strictly and end at zero |
| `Chain.CChain.GetLocator` | src/chain.cpp:26-52 | lists the ancestors at exactly these heights, through the chain or through skip pointers |
| `Bloom.WipeAt` | src/bloom.cpp:220-228 | the masked wipe unsets exactly the cells of one generation |
| `Bloom.SetLabelAt` | src/bloom.cpp:237-239 | writing a label changes that cell and no other |
| `Bloom.MarkKeeps` | src/bloom.cpp:232-240 | inserting a key never ages the cells of another, even where it overwrites their labels |
| `Bloom.WipeKeeps` | src/bloom.cpp:214-229 | wiping the generation about to be reused leaves all cells set in this and the last one |
| `Bloom.WipeKeepsOwned` | src/bloom.cpp:214-229 | the label about to be reused is that of the generation that falls out of the window, so nothing older is left |
| `Bloom.FastMod` | src/bloom.cpp:208-210 | a 32-bit hash is scaled to its exact share of the data, rounded down, which is an index |
| `Bloom.InsertKeepsInv` | src/bloom.cpp:212-241 | every insert keeps: keys of the last three generations are set, no older than their generation, and every set cell carries the label of such a key |
| `Bloom.RecentIsContained` | src/bloom.cpp:212-261 | each of the last 2*nEntriesPerGeneration + nEntriesThisGeneration keys is contained, or all if there are fewer |
| `Bloom.CellIsExact` | src/bloom.cpp:212-241 | a cell is set if and only if a key of the retention window hashes to it |
| `Bloom.ContainsIsExact` | src/bloom.cpp:249-261 | a key is claimed if and only if each of its cells is one of a key of the window |
| `Bloom.RollingBloomFilter.constructor` | src/bloom.cpp:173-198 | half of nElements, rounded up, to a generation, and an empty window |
| `Bloom.RollingBloomFilter.Insert` | src/bloom.cpp:212-241 | in place: the retention window is contained afterwards |
| `Bloom.RollingBloomFilter.WipeGeneration` | src/bloom.cpp:220-228 | the masking loop over pairs of words wipes the current generation |
| `Bloom.RollingBloomFilter.Contains` | src/bloom.cpp:249-261 | true exactly when all cells of the key are set, each by a key of the window |
| `Bloom.RollingBloomFilter.Reset` | src/bloom.cpp:269-275 | an empty window |
| `Miner.OrderedMore` | src/miner.cpp:352-370 | a transaction with all parents in the block can be appended |
| `Miner.TurnstileMore` | src/miner.cpp:318-347 | so can one that overdraws no shielded pool, with every prefix staying nonnegative |
| `Miner.DeltasAreTakings` | src/miner.cpp:324-329 | what the tracked values lose is what the transactions take: the sum of valueBalance, and the sum of vpub_new less that of vpub_old |
| `Miner.TurnstileIsCover` | src/miner.cpp:318-347 | the turnstile holds if and only if no prefix of the block takes more out of a pool than was in it |
| `Miner.OverdrawingIsTaking` | src/miner.cpp:331-340 | a transaction overdraws a pool if and only if with it the block would take more than was there |
| `Miner.TotalsMore` | src/miner.cpp:357-360 | a transaction adds its size, operations and fee to the totals |
| `Miner.LowFeeIs` | src/miner.cpp:407-408 | the fee test in terms of the rate, the size and the fee themselves |
| `Miner.StillWaiting` | src/miner.cpp:417-425 | transactions that do not wait for the new member still miss a parent, so none waits whose parents are all in the block |
| `Miner.AllAhead` | src/miner.cpp:380-392 | the transaction taken next is the best that could still be added, also when it had to wait |
| `Miner.GreedyMore` | src/miner.cpp:413-416 | adding such a one keeps the block greedy by score |
| `Miner.BlockAssembler.constructor` | src/miner.cpp:89-121 | an empty block with reserved coinbase size and operations, exactly clamped limits, and pool tracking only when both values are known |
| `Miner.BlockAssembler.IsStillDependent` | src/miner.cpp:267-276 | true exactly when a parent is not in the block |
| `Miner.BlockAssembler.TestForBlock` | src/miner.cpp:278-350 | accepts a transaction if and only if it fits and, with pools tracked, the pools have what the block with it takes; finishes the block and counts late tries exactly as the source does |
| `Miner.BlockAssembler.UnfitIs` | src/miner.cpp:280-316 | a transaction fits if and only if the block with it stays below the size and 20000 signature operations and has final, unexpired transactions alone |
| `Miner.BlockAssembler.FinishedIs` | src/miner.cpp:280-307 | a block is finished only after more than fifty late tries or when nothing of a hundred bytes, or nothing with a signature operation, fits any more |
| `Miner.BlockAssembler.AddToBlock` | src/miner.cpp:352-370 | the block stays ordered with exact sums |
| `Miner.BlockAssembler.AddScoreTxs` | src/miner.cpp:372-428 | ends, and leaves a block with each transaction once, parents first, exact sums under their limits, and nonnegative pools after every prefix; whenever one was added, each of higher score was in the block, missed a parent, no longer fit, or had overdrawn a pool after some prefix; it stops when that holds of all, when the best one left pays too little, or when the block is finished for one of the three reasons of the source, with late tries counted at most once for each transaction left out as too large; the bounds on the pools are stated in the amounts themselves |
| `Bech32Code.StepXor` | src/bech32.cpp:37-94 | a symbol enters the remainder by exclusive or |
| `Bech32Code.FoldInjective` | src/bech32.cpp:37-94 | different remainders stay different whatever symbols follow |
| `Coins.WriteOpenCoins` | src/coins.h:420-433 | writing through an open modifier keeps every flag truthful |

## Left out

- Sockets, RPC, logging, LevelDB and file access: plumbing around what is modelled.
- Keys, signatures, shielded proofs and hash internals: the pair hash, the bucket hashes, the filter and cache hashes and the check results are parameters.
- Note commitment trees: a tree is a value with a root; roots are taken not to collide where a cache keeps an existing tree (src/coins.cpp:445-476).
- Coins.UsageOfClosing: counts the outputs and scripts a transaction holds, not the spare capacity of its vectors.
- CoinsShielded.HaveShieldedRequirements: trees of commitments never fill up.
- GetValueIn and GetOutputFor (src/coins.cpp:563-582): a sum over what HaveInputs has found.
- Serialization of coins (src/coins.h:157-215) and database statistics: not part of this model.
- AddrMan.AddrMan.Good: the bucket and slot tables are maps of the taken slots, not arrays filled with -1, as in all members of the address manager.
- AddrMan.AddrMan.GetAddr: random numbers and the time are inputs, as everywhere; selection by chance (src/addrman.cpp:52-66 and 332-394) uses floating point and is left out.
- AddrDisk.Unserialize: takes the whole stream apart before filling the manager, so what a failed read leaves behind half filled is not captured.
- PartialMerkle.PartialMerkleTree.constructor: node positions and widths are unbounded numbers; the 32-bit ones of the source agree for every block that passes the size check.
- The two constructors of merkle blocks (src/merkleblock.cpp:12-59) only prepare the lists of ids and matches.
- CheckQueue.StepKeepsInv: has no quit flag, which the source never sets; a condition variable notified once wakes one of its sleepers, chosen freely.
- CuckooCache.Cache.constructor: takes the depth limit as a parameter, because the source computes a logarithm in floating point; the memory ordering of the atomic flags is left out.
- TxTree.FindByEvictionWeight: is the search where 32 bits are enough; TxSearch.Search is the one for any weights, with indexes that do not wrap.
- MempoolLimit.WeightedTxTree.MaybeDropRandom: takes the random weight as a parameter below the total, and needs positive eviction weights, which every mempool entry has, with a total below 2^31, so that the random weight fits as well; 64-bit overflow of the totals is left out.
- MempoolLimit.WeightedTxTree.EnsureSizeLimit: which transactions the pool removes along with one, and in which order, is a parameter.
- The list of recently evicted transactions (src/mempool_limit.cpp:14-41): forgets by age and length; only what is added to it is modelled.
- ArithMul.Mul: is for two distinct numbers; ArithMul.MulSelf is the other case.
- Conversion to and from text and doubles, and the bitwise operators of the integers: easy next to the rest.
- Bech32.Decode: characters beyond the printable ones are all rejected alike; errors in the readable part and the stronger distance properties of the code are left out.
- Base58Check and addresses (src/base58.cpp:102-140): a hash comparison on top of the encoding.
- Chain.CChain.GetLocator: lists blocks in place of their hashes; the predecessor and height of an index entry are fixed at construction.
- Bloom.RollingBloomFilter.constructor: takes the number of hash functions and words as parameters, because the source computes them in floating point, and needs at least one element; Murmur hashing is a parameter.
- Miner.BlockAssembler.constructor: joins configuration, reset and the start values of the shielded pools; the coinbase transaction, subsidies and the header are left out.
- Miner.BlockAssembler.AddScoreTxs: whether a transaction is final or expired at this height is part of the entry; the lists of fees and operations per transaction are left out.
