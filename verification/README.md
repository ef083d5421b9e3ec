# Anoncoin Core: verified models of its algorithms

This project models the self-contained algorithms of the Anoncoin node in Dafny and proves what
they are for. Code that changes things step by step is modelled as classes and loops; each method
is proved to do what a function over values says, and the properties are lemmas about those
functions. `dafny verify dfyconfig.toml` checks everything.

| modules | what they model |
|---|---|
| `MerkleTree`, `Block` | the iterative Merkle tree with its mutation flag, and branch proofs |
| `PartialMerkleTree`, `PartialMerkleProof`, `MerkleBlock`, `Bits` | the recursive hash, the depth-first encoding of a partial tree, its extractor on arbitrary input and exactly what that accepts, and the packing of flag bits |
| `Coins`, `CoinsCache`, `CoinsViewCache`, `CoinsWrites` | stacks of coin caches with DIRTY and FRESH flags against plain maps, and what their flushes write |
| `UpdateCoins`, `UndoCoins` | applying transactions through such a stack, and disconnecting blocks from it |
| `CoinsSerializer`, `Compressor`, `VarInt`, `Amount` | the stored form of coins, amounts, scripts and variable-length integers |
| `CheckQueue`, `CheckQueueSteps`, `CheckQueueRuns` | the parallel check queue: one mutex, one master, any number of workers, every interleaving |
| `AddrMan`, `AddrManEffects`, `CAddrMan`, `AddrManFile`, `AddrManLoad` | the address manager's redundant indexes, who is displaced and what is recorded, saving and restoring it, and reading any file |
| `Transactions`, `Miner`, `Heap` | what a list of transactions that connects satisfies, and block template selection from a heap |
| `Chain`, `Median` | the index of the active chain, fork search, locators, and the median-time rule |
| `Consensus`, `Uint256`, `Bignum` | the subsidy schedule, chain work, compact difficulty |
| `Base58`, `Radix`, `Powers` | radix conversion in fixed buffers, and its arithmetic |
| `Common` | hashes as numbers, and the block size limit |
| `Bloom` | Bloom filters and the rolling pair of them |
| `LockedPages` | reference counts of locked memory pages |

## Modelling decisions

- A 256-bit hash is an unbounded natural number and the node hash is a function parameter. Where a
  property needs it, the function is assumed injective, and no leaf to be one of its values; no
  function into 256 bits could be injective in two arguments.
- Other hashes, the curve, clocks, random numbers and script checks are parameters
  or arbitrary choices, and nothing is assumed of them beyond what a lemma says.
- Integers are unbounded; where the width matters it is written out: 64 bits for compressed
  amounts, 32 bits for header times, compact forms and tree widths, 256 bits for work.
- The source's assertions are preconditions of the step that makes them, or assertions in the
  method, and are proved to hold; where one can fail, the method reports it.
- A `hide` statement only narrows what the solver looks at in one proof; it assumes nothing.

## Where the code differs from what is said about it

- `BuildMerkleTree` sets its flag for more lists than it has to: two equal transactions are
  flagged although no shorter list has their root (`MerkleTree.FlaggedWithoutShorterTwin`). The
  lists that can be shortened are exactly those with twins below the top level.
- The documentation of partial trees bounds the flag bits by 2N-1 and the size by 10 + ceil(32.25 N)
  bytes. Every single-child node that the encoding descends through costs one bit more, so the
  first bound holds exactly under the condition of `PartialMerkleTree.FlagBitsAsRemarkedIff`
  (three transactions with the last one matched break it), and the second exactly under that of
  `PartialMerkleTree.SizeAsRemarkedIff` (1028 transactions, all matched, exceed it by a byte).
- Flushing a cache while another cache lives on top of it changes no lookup, but can make the FRESH
  assertion of that other cache fail or make its flush lose a spend. `CoinsCache.FlushBelowChildIff`
  says exactly when, with `CoinsCache.FlushUnderLiveChild` and `CoinsCache.SpendIsLost` as cases. Runs
  may flush any layer; a run that flushes only the top needs no condition
  (`CoinsCache.TopFlushesAreAllowed`).
- A flush of a cache that does not know its best block overwrites the one of its parent;
  `CoinsCache.FlushKeepsBestBlockIff` says exactly when the best block survives, and
  `CoinsCache.FlushForgetsBestBlock` is a case where it does not.
- The table of variable-length integers in `serialize.h` is wrong for 16511, which takes two bytes, and for 65535
  (`VarInt.DocumentedNumbers`).
- Disconnecting a block restores the coins before it unless a transaction overwrote unspent ones
  (`UndoCoins.UndoIsRightIff`) or spent the last output of coins of height zero (`UndoCoins.OriginAtZeroIsLost`).
- Height 77777 falls between the two early subsidies and gets the regular one (`Consensus.EarlySupply`).
- A negative version or height does not come back from the stored coins;
  `CoinsSerializer.RoundTripIffNonNegative` is exact (version -1 comes back as 127).
- `SetPort` in `Good_` and `Add_` changes the address that slot positions depend on without moving
  the entry. Whether the slots of the known entry fit the new port decides everything:
  `AddrMan.GoodKeepsCheckIff` and `AddrMan.AddKeepsCheckIff` say that exactly then the consistency
  check is kept and the assertion in `MakeTried` passed, `AddrMan.GoodAbortsIff` says when that
  assertion fails, and `AddrMan.RunIsSafeIff` carries this over to runs. `AddrMan.PortChangeBreaksCheck`
  and `AddrMan.PortChangeFailsAssertion` are cases. Where an address always comes with one port every
  run is safe.
- `CAddrMan::Clear` leaves `mapInfo` and `mapAddr` as they are, so a cleared manager is consistent
  only if it was empty (`CAddrMan.CAddrMan.ClearedIsConsistentIff`, and `ClearLeavesAnEntry` for a
  case). Restoring is proved for a manager that has held nothing.
- `UpdateTime` cannot pass the timestamp check on top of a median equal to the last 32-bit time;
  `Chain.UpdateTime` is exact for every clock, and `Chain.LastTimeBlocksMining` builds such a block.
- Reading a peers file does not check it. `AddrManLoad.AnyFileIsConsistentIff` says exactly which files give
  a consistent manager; `AddrManLoad.TriedWithoutSuccess` and `AddrManLoad.AddressTwice` are files that do not.
- A Bloom filter whose derived number of hash functions is zero answers every question from the start,
  because only the rolling pair starts out as empty (`Bloom.CBloomFilter.constructor`).
- Locking a range that reaches the last page of the address space never ends
  (`LockedPages.LastPageIsNeverPassed`).
- The subsidy is defined for heights below 64 halving periods; shifting by more is undefined.

## Model

| member | source | states |
|---|---|---|
| MerkleTree.TopLevelIsRoot | src/block.cpp:109-128 | the level at the height of the tree is the root alone |
| MerkleTree.FlatEndsInRoot | src/block.cpp:104-128 | the stored node list ends in the root for every non-empty list |
| MerkleTree.SameRootSameHeight | src/block.cpp:67-128 | under an injective hash, two lists of one tree height and one root are equal, or the longer one ends in twins below the top level |
| MerkleTree.TwinsAreFlagged | src/block.cpp:113-116 | twins below the top level set the mutation flag |
| MerkleTree.DuplicatesAreDetected | src/block.cpp:67-128 | two lists of leaves with one root are equal or differ in length, and then the longer one is flagged |
| MerkleTree.DistinctIsNotFlagged | src/block.cpp:111-117 | a list without repetition is never flagged |
| MerkleTree.TwinsCanBeDropped | src/block.cpp:89-101 | a last element that repeats the one before it does not change the next level |
| MerkleTree.ShorterTwinIffTwinsBelowTop | src/block.cpp:67-102 | a list of leaves has a shorter list with the same root if and only if it ends in twins at a level below the top |
| MerkleTree.FlaggedWithoutShorterTwin | src/block.cpp:111-116 | the flag is stricter than needed: two equal transactions are flagged although no shorter list has their root |
| Block.CBlock.BuildMerkleTree | src/block.cpp:104-128 | the loops leave all levels in the node list, return the root (0 for no transactions), and set the flag exactly when some level ends in twins |
| Block.CBlock.BuildLevel | src/block.cpp:111-120 | one round of the outer loop appends the next level and reports whether this one ends in twins |
| Block.CBlock.GetMerkleBranch | src/block.cpp:130-144 | the loop collects the sibling of the path at each level, or the last node of the level past its end, building the tree first if need be |
| Block.CBlock.CheckMerkleBranch | src/block.cpp:146-159 | the loop folds the branch into the leaf by the bits of the index; index -1 gives 0 |
| Block.BranchLeadsToRoot | src/block.cpp:130-159 | checking the branch of any transaction gives the root |
| Block.FoldIsSound | src/block.cpp:146-159 | a branch of the right length that gives the root is the branch of that leaf at that index |
| Block.BranchCheckIffGenuine | src/block.cpp:130-159 | the check succeeds if and only if leaf and branch are the genuine ones |
| PartialMerkleTree.CalcHashIsLevelNode | src/merkleblock.cpp:64-79 | the recursive node hash equals the node of the iteratively built level |
| PartialMerkleTree.CalcHashAtTopIsRoot | src/merkleblock.cpp:64-79 | the recursive hash at the top is the root of the iterative builder |
| PartialMerkleTree.LevelsStayDistinct | src/merkleblock.cpp:64-79 | all levels over distinct transactions are free of repetition |
| PartialMerkleTree.SiblingsDiffer | src/merkleblock.cpp:122-126 | over distinct transactions no two siblings are equal, so the extractor's check for equal siblings rejects nothing genuine |
| PartialMerkleTree.ExtractOfEncode | src/merkleblock.cpp:81-133 | walking over an encoding, wherever it stands in the arrays, consumes exactly it and returns the node and the matched leaves |
| PartialMerkleTree.ExtractionIsComplete | src/merkleblock.cpp:135-182 | extracting from the built tree, also with padding bits, gives the root and exactly the matched transactions in order |
| PartialMerkleTree.EncodingIsSmall | src/merkleblock.h:37-41 | at most one hash per leaf and at most one plus the height for each match; the number of flag bits within the height of twice the hashes |
| PartialMerkleTree.BitsCountNodes | src/merkleblock.cpp:81-97 | there is one flag bit less than twice the hashes, and one more for each single-child node that the encoding descends through |
| PartialMerkleTree.SinglesAreTails | src/merkleblock.cpp:81-97 | those nodes are the last ones of their levels, where the level below is odd and something is matched under them |
| PartialMerkleTree.FlagBitsAsRemarkedIff | src/merkleblock.h:48-49 | the remarked bound of 2N-1 flag bits holds if and only if nothing is matched from the first leaf of such a node on |
| PartialMerkleTree.MoreFlagBitsThanRemarked | src/merkleblock.h:48-49 | a case where it does not: two hashes of three transactions need four bits |
| PartialMerkleTree.HashesCountPairs | src/merkleblock.cpp:81-97 | the number of hashes is one plus the two-child nodes that the encoding descends through, so it depends on the matches alone |
| PartialMerkleTree.SizeAsRemarkedIff | src/merkleblock.h:32-35 | the remarked guarantee of 10 + ceil(32.25 N) bytes, exactly, in numbers counted on the matches and for every count that fits its field: it holds below 253 hashes, up to 65535 if single-child nodes cost no byte, or at most two while the flag bytes have a short length, and never above |
| PartialMerkleTree.LargerThanRemarked | src/merkleblock.h:32-35 | a case where it fails: 1028 transactions, all matched |
| PartialMerkleProof.ReadPart | src/merkleblock.cpp:99-133 | a walk over arbitrary bits and hashes that ends well at the right node value has read exactly some part of the tree below that node, with the matches of that part |
| PartialMerkleProof.ExtractOfPart | src/merkleblock.cpp:99-133 | conversely the walk over what spells out a part ends well, with the node and the matches |
| PartialMerkleProof.ExtractionIff | src/merkleblock.cpp:151-182 | for arbitrary content, extraction gives the Merkle root of a list of the announced length if and only if the bits and hashes spell out a part of its tree without equal siblings, down to the last hash and up to the padding of the last byte of bits |
| PartialMerkleProof.AcceptedIsProof | src/merkleblock.cpp:151-182 | what is accepted spells out a part, and the matches are its matched leaves |
| PartialMerkleProof.ProofIsAccepted | src/merkleblock.cpp:151-182 | what spells out a part is accepted |
| PartialMerkleProof.ExtractionIsSound | src/merkleblock.cpp:151-182 | in particular the matches are a subsequence of the list, in order |
| PartialMerkleProof.NothingIsUnused | src/merkleblock.cpp:173-180 | and every stored hash is a node of the tree and was used, and fewer than eight flag bits are left over |
| Bits.ValueIsTheByte | src/merkleblock.h:98-103 | bit p of a byte is worth two to the power of p |
| MerkleBlock.CPartialMerkleTree.constructor | src/merkleblock.cpp:135-147 | a tree built from a list and matches holds the encoding of the whole tree |
| MerkleBlock.CPartialMerkleTree.CalcTreeHeight | src/merkleblock.cpp:140-143 | the loop finds the height at which the tree is one node wide |
| MerkleBlock.CPartialMerkleTree.TraverseAndBuild | src/merkleblock.cpp:81-97 | the recursion appends the encoding of its subtree to both arrays |
| MerkleBlock.CPartialMerkleTree.IsParentOfMatch | src/merkleblock.cpp:82-85 | the loop decides whether a match lies among the leaves below the node |
| MerkleBlock.CPartialMerkleTree.TraverseAndExtract | src/merkleblock.cpp:99-133 | the recursion with its counters and flag does what the walk function says, for arbitrary content |
| MerkleBlock.CPartialMerkleTree.ExtractMatches | src/merkleblock.cpp:151-182 | the entry point with all its checks does what the extraction function says, of which `PartialMerkleProof.ExtractionIff` says what it accepts |
| MerkleBlock.CPartialMerkleTree.PackBits | src/merkleblock.h:101-103 | packing keeps the bits in order and pads with zeros to whole bytes |
| MerkleBlock.CPartialMerkleTree.Receive | src/merkleblock.h:90-99 | unpacking gives eight bits per byte and clears the bad flag |
| MerkleBlock.Relay | src/merkleblock.h:89-106 | building, packing, unpacking and extracting gives the root and exactly the matched transactions |
| MerkleBlock.TreeWidthFitsWord | src/merkleblock.h:67-69 | the width computation stays within 32 bits up to 2^30 transactions |
| Coins.CleanupKeepsOutputs | src/coins.h:112-117 | trimming keeps every available output and leaves nothing exactly when all is spent |
| CoinsCache.FetchKeepsView | src/coins.cpp:92-120 | fetching through the stack returns the unspent coins of the view and changes what no layer stands for |
| CoinsCache.BeginModifyKeepsView | src/coins.cpp:122-138 | opening a modifier marks the entry and keeps the view and the flag invariant |
| CoinsCache.EndModifyIsPut | src/coins.cpp:272-280 | closing a modifier has the effect of one update of the plain map |
| CoinsCache.FreshAssertionHolds | src/coins.cpp:170-182 | where every entry to hand over finds its place the assertion on FRESH entries holds |
| CoinsCache.BatchWriteLookup | src/coins.cpp:170-205 | then the parent answers every lookup after the batch write as the child did |
| CoinsCache.BatchWriteKeepsInv | src/coins.cpp:170-205 | a batch write keeps the flag invariant of the parent |
| CoinsCache.FlushMovesViewDown | src/coins.cpp:207-211 | and after a flush the base stands for the child's view before it, and the child is unchanged as a view |
| CoinsCache.FlushIsRightIff | src/coins.cpp:170-211 | a flush meets the assertion and moves the view down if and only if every DIRTY entry that is not FRESH has an entry in the parent, or is pruned with nothing below to spend |
| CoinsCache.FlushCopiesLayer | src/coins.cpp:207-211 | flushing a cache at any depth, also below live ones, copies its map one layer down and changes no other layer and no lookup above |
| CoinsCache.StepRefinesPlain | src/coins.cpp:92-211 | every operation on a stack of caches, flushes below live caches included, is that operation on plain maps, keeps the invariant and meets the assertion, if what is flushed finds its place |
| CoinsCache.RunRefinesPlain | src/coins.cpp:92-211 | the same for every run of operations |
| CoinsCache.StepKeepsBacked | src/coins.cpp:92-211 | as long as only the top is flushed, every entry that is not FRESH has one in the parent |
| CoinsCache.TopFlushesAreAllowed | src/coins.cpp:170-211 | so a run that flushes only the top needs no condition: every flush finds its entries' places |
| CoinsCache.FreshStackIsGood | src/coins.cpp:85-85 | a new cache over a database of trimmed coins satisfies the invariant, and its entries are backed |
| CoinsCache.ReadsSeePlainMap | src/coins.cpp:113-156 | reads through a good stack see exactly the plain map; pruned counts as absent |
| CoinsCache.FlushBelowChildIff | src/coins.cpp:170-211 | after a flush of the parent of a live cache the assertion for that cache holds if and only if its DIRTY unpruned entries are FRESH, and its flush is right if and only if it has no spend either that is not FRESH |
| CoinsCache.FlushUnderLiveChild | src/coins.cpp:178-182 | a case where the assertion fails |
| CoinsCache.SpendIsLost | src/coins.cpp:174-186 | a case where it holds and the flush loses a spend |
| CoinsCache.FlushKeepsBestBlockIff | src/coins.cpp:158-163 | a flush keeps the best block if and only if the cache knows it, or its parent is the database, does not know it, or agrees with its own parent |
| CoinsCache.FlushForgetsBestBlock | src/coins.cpp:158-163 | a case where it is forgotten |
| CoinsWrites.ReadsWriteNothing | src/coins.cpp:92-120 | a read of any layer leaves what every layer would hand over to its base as it is |
| CoinsWrites.ModifierWritesOne | src/coins.cpp:122-138 | a modifier adds its transaction to that, and takes it out again if it leaves nothing and the base has nothing |
| CoinsWrites.StepKeepsLean | src/coins.cpp:92-211 | after every operation an entry is FRESH wherever its base has nothing to spend |
| CoinsWrites.StepKeepsTidy | src/coins.cpp:92-211 | and no entry to be handed over is both pruned and FRESH, except under an open modifier |
| CoinsWrites.NothingNeedlessIsWritten | src/coins.cpp:170-211 | over every run a flush hands over only coins to be had and spends of coins that the layer below has: what was made and spent within a cache is never written |
| UpdateCoins.ModifyIsPut | src/coins.cpp:122-138 | a modifier, from opening to closing, hands out the current coins and puts one entry into the map of the top cache |
| UpdateCoins.SpendEach | src/main.cpp:1514-1527 | the loop over distinct unspent inputs finds every output it asserts, and leaves all other outputs |
| UpdateCoins.UpdateIsUpdateCoins | src/main.cpp:1511-1531 | through any stack of caches the inputs are found and spent, the top stands for the unspent outputs without them and with the new ones, new coins carry the height and version of their transaction and whether it is a coinbase, and all others keep theirs |
| UndoCoins.RestoredIs | src/main.cpp:1718-1735 | restoring a spent output gives back the coins that it was spent from, whether some were left or they were pruned and forgotten |
| UndoCoins.RestoreUndoesAll | src/main.cpp:1716-1736 | whatever stack stands for the coins after the spends stands for those before them once all inputs are restored, and every check on the way is passed |
| UndoCoins.UndoUndoesUpdate | src/main.cpp:1691-1736 | the same for a whole transaction whose coins were new |
| UndoCoins.UndoIsRightIff | src/main.cpp:1691-1736 | undoing a transaction gives back the coins there were if and only if it overwrote none |
| UndoCoins.OriginAtZeroIsLost | src/main.cpp:1720-1727 | coins of height zero come back without their origin, which is why the genesis block must not be connected |
| UndoCoins.CleanRestoreIff | src/main.cpp:1720-1732 | a restore is reported clean exactly if spending again would give back the coins and the undo information, and something says where the coins come from |
| UndoCoins.CleanRemovalIff | src/main.cpp:1695-1704 | what is found of a transaction passes exactly if it is what the transaction made, but for a negative version that storing has lost |
| UndoCoins.DisconnectUndoesConnect | src/main.cpp:1664-1748 | disconnecting a block from any stack that stands for the coins it left, flushed or not, gives back exactly the coins before it and reports it clean |
| UndoCoins.ReadOfWriteUndo | src/undo.h:38-54 | stored undo information comes back, a negative version modulo 128 |
| UndoCoins.StoredUndoIff | src/undo.h:38-54 | what spending records comes back if and only if it records no negative version |
| UndoCoins.ConnectTx | src/main.cpp:1511-1531 | the loops of `UpdateCoins` on the cache objects spend the inputs, add the outputs and collect the undo information |
| UndoCoins.RestoreInputs | src/main.cpp:1716-1736 | the loop that restores the inputs, last one first, and whether it is clean |
| UndoCoins.DisconnectTx | src/main.cpp:1689-1736 | one transaction is undone, or its undo data has the wrong size |
| UndoCoins.DisconnectBlock | src/main.cpp:1664-1748 | the loop over the block, last transaction first: it undoes all of it and says whether it was clean, or gives up on undo data of the wrong shape |
| CoinsViewCache.CCoinsViewCache.FetchCoins | src/coins.cpp:92-111 | looks up, and otherwise copies the base's coins in, marking pruned ones FRESH |
| CoinsViewCache.CCoinsViewCache.HaveCoins | src/coins.cpp:149-156 | the answer and the cached entries are those of a fetch |
| CoinsViewCache.CCoinsViewCache.ModifyCoins | src/coins.cpp:122-138 | the entry is there, marked DIRTY, FRESH if the base had none, and the modifier is open |
| CoinsViewCache.CCoinsViewCache.ReleaseModifier | src/coins.cpp:272-280 | trims the coins and drops a FRESH pruned entry |
| CoinsViewCache.CCoinsViewCache.BatchWrite | src/coins.cpp:170-205 | the loop over the child's entries merges them as the specification says, given the asserted condition |
| CoinsViewCache.CCoinsViewCache.Flush | src/coins.cpp:207-211 | writes the entries to the base and empties the cache; if every entry finds its place the base stands for the former view |
| CoinsViewCache.CCoinsViewCache.GetBestBlock | src/coins.cpp:158-163 | returns the best block of the first layer that knows one and changes no lookup |
| CoinsSerializer.CalcMaskSize | src/coins.cpp:17-33 | counts the mask bytes up to the last that is not zero, and those not zero among them |
| CoinsSerializer.BeyondMask | src/coins.cpp:17-33 | no available output lies beyond the mask |
| CoinsSerializer.GroupIsZeroIff | src/coins.cpp:22-26 | a mask byte is zero exactly when none of its eight outputs is available |
| CoinsSerializer.HeaderSaysIt | src/coins.h:178-189 | the header code is not negative and carries the coinbase bit, the first two availability bits and the number of non-zero mask bytes |
| CoinsSerializer.ReadOfMask | src/coins.h:214-228 | the reader finds the end of the mask by counting non-zero bytes: exactly the bytes written |
| CoinsSerializer.ReadOfOutputs | src/coins.h:229-235 | available outputs come back in their places, all others null |
| CoinsSerializer.ReadOfSerialize | src/coins.h:178-238 | reading what was written gives the trimmed coins and leaves the rest of the stream; negative versions and heights come back modulo 128 |
| CoinsSerializer.RoundTripIffNonNegative | src/coins.h:178-238 | trimmed unpruned coins come back unchanged if and only if version and height are not negative |
| CoinsSerializer.NegativeVersionIsLost | src/coins.h:178-238 | a case that does not: version -1 comes back as 127 |
| CoinsSerializer.FirstExample | src/coins.h:38-51 | the first example in the documentation, for any key hash |
| CoinsSerializer.SecondExample | src/coins.h:53-71 | the second one, with two mask bytes |
| CoinsSerializer.SerializeLoop | src/coins.h:178-204 | the writing loops produce the specified stream |
| CoinsSerializer.WriteMask | src/coins.h:190-196 | the nested loops write the mask bytes |
| CoinsSerializer.WriteAvailable | src/coins.h:197-201 | the loop writes the available outputs in order |
| CoinsSerializer.UnserializeLoop | src/coins.h:207-238 | the reading loops compute the specified result, also on streams that end early |
| CoinsSerializer.ReadMaskLoop | src/coins.h:216-228 | the mask loop |
| CoinsSerializer.ReadOutputsLoop | src/coins.h:229-235 | the output loop |
| VarInt.ReadOfWrite | src/serialize.h:301-331 | reading what was written gives the number and leaves the rest; a negative number comes back modulo 128 |
| VarInt.WriteOfRead | src/serialize.h:301-331 | writing what was read gives the bytes that were consumed: the code is bijective |
| VarInt.WritesBytes | src/serialize.h:301-316 | what is written are bytes |
| VarInt.WriteStandsFor | src/serialize.h:264-271 | what is written for a number stands for it as documented: the sum of the digits at their places, all but the last counted one up and with the high bit set |
| VarInt.SizeIff | src/serialize.h:274-274 | a number takes at most k bytes if and only if it is less than 128 + 128^2 + ... + 128^k |
| VarInt.DocumentedNumbers | src/serialize.h:280-285 | the documented table, with the entries for 16511 and 65535 as the code writes them |
| VarInt.WriteVarInt | src/serialize.h:301-316 | the two loops write the specified bytes |
| VarInt.ReadVarInt | src/serialize.h:318-331 | the loop reads the specified number |
| Compressor.DecompressOfCompress | src/compressor.cpp:144-187 | every amount comes back |
| Compressor.CompressOfDecompress | src/compressor.cpp:144-187 | every code is the code of an amount |
| Compressor.CompressFitsWord | src/compressor.cpp:144-161 | the code of an amount up to the maximum of money fits 64 bits |
| Compressor.KnownAmounts | src/test/compress_tests.cpp:42-49 | the pairs of amount and code that the tests give |
| Compressor.CompressAmountLoop | src/compressor.cpp:144-161 | the loop strips up to nine zeros and computes the code |
| Compressor.DecompressAmountLoop | src/compressor.cpp:163-187 | the loop puts the zeros back |
| Compressor.ScriptOfCompressed | src/compressor.cpp:50-133 | a script that compresses has the special size of its code and is restored exactly |
| Compressor.SpecialForms | src/compressor.cpp:50-80 | the six special forms and their codes, with the parity of a full key in its code |
| Compressor.ScriptSizes | src/compressor.h:20-27 | the documented sizes: 21 or 33 bytes for special forms, one byte more than the script up to 121 bytes, and two up to 16505 |
| Compressor.ReadOfWriteScript | src/compressor.h:67-92 | every script comes back, compressed or not |
| Compressor.ReadOfWriteTxOut | src/compressor.h:109-121 | every output with an amount that is not negative comes back |
| CheckQueue.NextBatchSize | src/checkqueue.h:107-111 | the largest batch that the limit and a fair share of the queue allow, but always one check and no more than are queued |
| CheckQueue.BatchIsTheBack | src/checkqueue.h:112-118 | a batch is the back of the queue, last check first |
| CheckQueueSteps.StepIsDefined | src/checkqueue.h:89-105 | in every reachable state the counters are not negative, and a thread that wakes was counted idle |
| CheckQueueSteps.StepKeepsInv | src/checkqueue.h:70-159 | every critical section, check execution and controller step keeps the accounting of counters, checks and failures |
| CheckQueueRuns.PossibleIsLegal | src/checkqueue.h:70-159 | every run of enabled steps is one in which the counters never go wrong |
| CheckQueueRuns.RunKeepsInv | src/checkqueue.h:70-159 | the same for every interleaving |
| CheckQueueRuns.InitIsGood | src/checkqueue.h:132-132 | a new queue satisfies it |
| CheckQueueRuns.EveryVerdictIsTheConjunction | src/checkqueue.h:70-159 | in every interleaving each `Wait` returned the conjunction of all checks added for it, and no check runs more often than it was added |
| CheckQueueRuns.VerdictsOnlyGrow | src/checkqueue.h:92-101 | verdicts once returned stay |
| CheckQueueRuns.VerdictEndsControl | src/checkqueue.h:141-144 | with its verdict a controller is done, and the next one can be constructed |
| CheckQueueRuns.IdleBetweenControllers | src/checkqueue.h:185-192 | whenever a controller can be constructed the queue is idle, so its assertion holds |
| CheckQueueRuns.SleepingMasterIsOwedWork | src/checkqueue.h:81-105 | a master that waits without a pending signal has a worker at work |
| CheckQueueRuns.AddWakes | src/checkqueue.h:147-158 | adding one check signals a sleeping worker if there is one, and adding several leaves none asleep |
| CheckQueueRuns.WorkIsUnderway | src/checkqueue.h:77-158 | in every interleaving, while checks are queued and a worker sleeps some thread is signalled or at work, and no thread holds a batch above the limit |
| CheckQueueRuns.ProgressIsMade | src/checkqueue.h:77-127 | every progress step lowers a measure or completes a `Wait` |
| CheckQueueRuns.ProgressIsPossible | src/checkqueue.h:77-127 | while the master is in `Wait` a progress step is enabled: no deadlock |
| CheckQueueRuns.WaitReturns | src/checkqueue.h:141-144 | a run of progress steps longer than the measure contains the return of `Wait` |
| CheckQueue.CCheckQueue.Enter | src/checkqueue.h:78-121 | a critical section: accounting for the last batch, notifying the master of the last element, then return, sleep or take a batch |
| CheckQueue.CCheckQueue.Resume | src/checkqueue.h:102-121 | the critical section continued after waking |
| CheckQueue.CCheckQueue.Proceed | src/checkqueue.h:92-120 | the part of it from the test of the queue on |
| CheckQueue.CCheckQueue.Add | src/checkqueue.h:147-158 | checks are appended and counted, and one worker or all are notified |
| CheckQueue.CCheckQueue.RunBatch | src/checkqueue.h:122-126 | a batch is fine if the flag was and all its checks are, even though checks after a failure are skipped |
| AddrMan.CreateIsConsistent | src/addrman.cpp:179-199 | a created entry is consistent but not yet counted nor placed |
| AddrMan.SwapKeepsConsistency | src/addrman.cpp:201-219 | swapping two places keeps everything |
| AddrMan.DeleteIsConsistent | src/addrman.cpp:221-233 | deleting an unreferenced entry keeps everything |
| AddrMan.DeleteSparesOthers | src/addrman.cpp:221-233 | a delete removes that entry only, and moves others at most within the random order |
| AddrMan.ClearNewIsConsistent | src/addrman.cpp:259-276 | freeing a new slot keeps everything, deleting the entry with its last reference |
| AddrMan.OccupyIsConsistent | src/addrman.cpp:506-509 | taking a free slot keeps everything while the entry has fewer than eight |
| AddrMan.DetachIsConsistent | src/addrman.cpp:280-290 | in a consistent manager the loop over the buckets frees every slot of the entry, so that the assertion after it holds |
| AddrMan.DemoteIsConsistent | src/addrman.cpp:296-318 | moving a tried entry back to the new table keeps everything |
| AddrMan.PromoteIsConsistent | src/addrman.cpp:319-323 | taking the tried slot completes the move |
| AddrMan.MakeTriedKeepsCheck | src/addrman.cpp:278-324 | the whole move keeps the consistency check, and the entry is tried afterwards |
| AddrMan.MakeTriedLosesAtMostOne | src/addrman.cpp:278-324 | the only entry that a move can lose is the one the evicted entry displaces from its new slot |
| AddrMan.NewEntryIsFound | src/addrman.cpp:379-396 | a new entry is in some new bucket, so the search in `Good_` finds one |
| AddrMan.SetPortKeepsCheckIff | src/addrman.cpp:352-352 | changing an entry, its port included, keeps the check if and only if the port leads to the slots it already holds |
| AddrMan.LeavesAllOnlyIfFit | src/addrman.cpp:280-290 | conversely that assertion holds only if every slot of the entry is at its position |
| AddrMan.GoodKeepsCheckIff | src/addrman.cpp:334-402 | for every known address, whatever the port: `Good_` passes its assertion and keeps the check if and only if the entry's slots fit the port, and then the entry ends up tried |
| AddrMan.GoodAbortsIff | src/addrman.cpp:278-290 | the assertion fails exactly for a new entry with slots that fit the port and slots that do not |
| AddrMan.PlaceNewKeepsCheck | src/addrman.cpp:495-515 | placing in the new table, with or without displacement, keeps it; an entry that finds no place is deleted |
| AddrMan.AddKeepsCheckIff | src/addrman.cpp:404-517 | `Add_` keeps it, for every clock, random number and penalty, if and only if it does not set a port that the slots of the known entry do not fit |
| AddrMan.AttemptKeepsCheck | src/addrman.cpp:519-540 | `Attempt_` keeps it |
| AddrMan.ConnectedKeepsCheck | src/addrman.cpp:702-728 | `Connected_` keeps it |
| AddrMan.ShuffleKeepsCheck | src/addrman.cpp:664-700 | the shuffle of `GetAddr_` keeps it and permutes the random order |
| AddrMan.StepIsSafeIff | src/addrman.cpp:586-660 | every operation passes its assertions and keeps the check if and only if the port it sets fits |
| AddrMan.RunIsSafeIff | src/addrman.cpp:586-660 | the same for every run |
| AddrMan.EveryRunIsConsistent | src/addrman.cpp:586-660 | every run from an empty manager in which an address always comes with one port is safe |
| AddrMan.PortChangeBreaksCheck | src/addrman.cpp:349-354 | a concrete manager that `Good_` with another port makes inconsistent |
| AddrMan.PortChangeFailsAssertion | src/addrman.cpp:349-354 | a concrete manager where the assertion fails |
| AddrManEffects.PlacingDisplaces | src/addrman.cpp:492-515 | an entry gets the slot if it is free, held by a terrible entry, or, for an entry without a slot, held by one that has another; only the holder can go, if it has no other |
| AddrManEffects.UnknownIsAddedIff | src/addrman.cpp:488-516 | an unknown address is known after `Add_` if and only if its slot is free, its holder is terrible or has another slot; it is recorded as announced, and nobody goes but a holder without another slot |
| AddrManEffects.KnownGainsIff | src/addrman.cpp:435-515 | a known address gets one more slot if and only if it is not tried, has fewer than eight, the announcement is news, a draw of one in two to the number of its slots succeeds, and the slot is free or held by another, terrible entry |
| AddrManEffects.AddLosesOnlyTerrible | src/addrman.cpp:498-506 | an entry that `Add_` loses is terrible and held the slot of the announcement and no other |
| AddrManEffects.MakeTriedMoves | src/addrman.cpp:278-324 | the exact tables after a move: the tried slot, the new slot of the source for who was there, and nothing else |
| AddrManEffects.StepRecords | src/addrman.cpp:334-540 | what each operation records of an address: port, services, last success, last try and attempts; everything else stays |
| AddrManEffects.AttemptsAdd | src/addrman.cpp:537-539 | over a run that never loses an address, attempts add up, and its last success and its source stay |
| AddrManEffects.AttemptsSinceGood | src/addrman.cpp:372-375 | `nAttempts` counts the attempts since the address was last marked good |
| AddrManEffects.AnnouncementRefreshes | src/addrman.cpp:436-440 | after an announcement the recorded time lags at most an hour or a day behind it, and it changes only forwards |
| AddrManEffects.ConnectionRefreshes | src/addrman.cpp:723-727 | after a connection it lags at most 20 minutes behind the clock |
| AddrManEffects.TerribleIff | src/addrman.cpp:49-68 | except in the minute after a try, an address is terrible exactly for one of five reasons, in seconds and attempts |
| AddrManEffects.TerribleStays | src/addrman.cpp:49-68 | a terrible address that does not come from the future stays terrible until something is recorded of it |
| AddrManEffects.RecentlyGoodIsNotTerrible | src/addrman.cpp:49-68 | an address that was seen and was good within a week is not terrible, however often it failed |
| CAddrMan.CAddrMan.constructor | src/addrman.h:578-581 | a new manager is empty and consistent |
| CAddrMan.CAddrMan.Create | src/addrman.cpp:179-199 | adds the entry to all indexes under a new id |
| CAddrMan.CAddrMan.SwapRandom | src/addrman.cpp:201-219 | exchanges two places |
| CAddrMan.CAddrMan.Delete | src/addrman.cpp:221-233 | moves the entry to the end of the random order and removes it from all indexes |
| CAddrMan.CAddrMan.ClearNew | src/addrman.cpp:259-276 | frees the slot, and deletes its entry with the last reference |
| CAddrMan.CAddrMan.LeaveNewBuckets | src/addrman.cpp:280-290 | the loop frees, in each bucket, the slot at the entry's position if the entry is there, and counts down |
| CAddrMan.CAddrMan.MakeTried | src/addrman.cpp:278-324 | does what the specification says, or reports that the assertion after the loop fails |
| CAddrMan.CAddrMan.Evict | src/addrman.cpp:296-318 | moves the holder of a tried slot back to the new table |
| CAddrMan.CAddrMan.Find | src/addrman.cpp:92-103 | found exactly if the address is known |
| CAddrMan.CAddrMan.FindNewBucket | src/addrman.cpp:379-389 | the loop from a random start finds a bucket exactly if there is one |
| CAddrMan.CAddrMan.Good_ | src/addrman.cpp:334-402 | for every address and port: does what the specification says or reports the failed assertion, and is consistent afterwards if and only if the port fits |
| CAddrMan.CAddrMan.Add_ | src/addrman.cpp:404-517 | the same, without an assertion to fail, and reports a new entry as the code does |
| CAddrMan.CAddrMan.Multiplies | src/addrman.cpp:468-487 | the tests for one more slot, the last of them with the loop that doubles the odds against it |
| CAddrMan.CAddrMan.PlaceNew | src/addrman.cpp:495-515 | the placement at the end of `Add_` |
| CAddrMan.CAddrMan.Attempt_ | src/addrman.cpp:519-540 | updates the statistics |
| CAddrMan.CAddrMan.Connected_ | src/addrman.cpp:702-728 | updates the time |
| CAddrMan.CAddrMan.GetAddr_ | src/addrman.cpp:664-700 | returns the shareable addresses of a random selection, at most the documented share, and only permutes the random order |
| CAddrMan.CAddrMan.ShareIsLimited | src/addrman.cpp:669-671 | the share is at most 625 and the largest number of at most 70 percent that is |
| CAddrMan.PickedIff | src/addrman.cpp:676-698 | what is shared are the recorded addresses of entries that are neither terrible nor private |
| CAddrMan.CAddrMan.Draw | src/addrman.cpp:678-679 | one round of the shuffle |
| CAddrMan.CAddrMan.WriteEntries | src/addrman.h:371-390 | the loops list new or tried entries by id, number them, and never reach the asserted counter too early |
| CAddrMan.CAddrMan.WriteBuckets | src/addrman.h:391-404 | the loops list for each bucket the indexes of its entries by position |
| CAddrMan.CAddrMan.Serialize | src/addrman.h:358-405 | the file is the specified one |
| CAddrMan.CAddrMan.Clear | src/addrman.h:558-576 | all tables and counters are reset, `mapInfo` and `mapAddr` are not |
| CAddrMan.CAddrMan.ClearedIsConsistentIff | src/addrman.h:558-576 | a cleared manager is consistent if and only if it held nothing |
| CAddrMan.CAddrMan.ClearLeavesAnEntry | src/addrman.h:558-576 | a case where it is not |
| CAddrMan.CAddrMan.ReadNewEntries | src/addrman.h:431-472 | the loop over new entries, with the fallback placement if the stored table cannot be used |
| CAddrMan.CAddrMan.ReadTriedEntries | src/addrman.h:475-515 | the loop over tried entries, counting those lost to collisions |
| CAddrMan.CAddrMan.ReadPositions | src/addrman.h:517-533 | the loops over the stored buckets |
| CAddrMan.CAddrMan.PruneUnplaced | src/addrman.h:535-545 | the loop that deletes new entries without a reference |
| CAddrMan.CAddrMan.Unserialize | src/addrman.h:408-551 | reading any file into a manager that has held nothing does what the specification says; the deletions meet their assertions |
| AddrManFile.CountersMatch | src/addrman.h:372-390 | in a consistent manager the two counters equal the numbers of entries listed |
| AddrManFile.ListedIsInOrder | src/addrman.h:371-381 | the number given to an entry is its place in the list |
| AddrManFile.DeleteKeepsOrder | src/addrman.h:537-545 | deletions while pruning keep the random order intact for every file |
| AddrManFile.EntriesComeBack | src/addrman.h:431-515 | of a written file all new and tried entries are read back in order, none lost to a collision |
| AddrManFile.BucketsAreRead | src/addrman.h:517-533 | every index goes back to its slot and is counted |
| AddrManFile.UnserializeOfSerialize | src/addrman.h:358-551 | reading what a consistent manager wrote gives the same tables and counters up to a renaming of ids, and is consistent |
| AddrManFile.RenamedKeepsCheck | src/addrman.cpp:586-660 | a manager with renamed ids is as consistent as the original |
| AddrManLoad.NewEntriesAreRead | src/addrman.h:431-472 | the new entries of any file are read under their indexes, with every table and counter right, and every address known |
| AddrManLoad.TriedEntriesAreRead | src/addrman.h:475-515 | so are the tried entries, in order after them, with those lost to collisions taken off the count |
| AddrManLoad.UnplacedAreDeleted | src/addrman.h:535-545 | the deletions at the end take exactly the entries without a slot, and their addresses, whoever else has them |
| AddrManLoad.AnyFileIsConsistentIff | src/addrman.h:408-551 | reading any file gives a consistent manager if and only if each entry that is kept has its address to itself among all that were read, a success time that is not negative, and a success on record if it is tried |
| AddrManLoad.AnyFileGivesConsistent | src/addrman.h:408-551 | in particular a file that lists no address twice and has sensible success times, whatever its buckets say and whether they can be used or not |
| AddrManLoad.TriedWithoutSuccess | src/addrman.h:475-515 | a file that does not: a tried entry without a success |
| AddrManLoad.AddressTwice | src/addrman.h:431-472 | another: two new entries with one address |
| AddrManLoad.PlacedByFormat | src/addrman.h:462-472 | buckets of another version or count are ignored, and the first entry with a slot by its own source has it; otherwise only the buckets place new entries |
| Base58.EncodeSizeSuffices | src/base58.cpp:76-77 | the 138/100 buffer holds every number of that many bytes |
| Base58.DecodeSizeSuffices | src/base58.cpp:33-34 | the 733/1000 buffer holds every number of that many digits |
| Base58.MultiplyAdd | src/base58.cpp:80-86 | the carry loop multiplies the buffer in place and adds a digit; what does not fit is the carry |
| Base58.FillBase58 | src/base58.cpp:76-89 | for every input the final carry is zero and the buffer holds the same number |
| Base58.FillBase256 | src/base58.cpp:33-50 | for every word of digits the carry is zero and the buffer holds the same number; other characters are refused |
| Base58.SkipZeros | src/base58.cpp:70-75 | counts leading zeros |
| Base58.Translate | src/base58.cpp:94-100 | writes the leading ones and the digits |
| Base58.EncodeBase58 | src/base58.cpp:68-106 | the encoder computes the specified string |
| Base58.DecodeBase58 | src/base58.cpp:22-66 | the decoder, with its spaces, refusals and end of string, computes the specified result |
| Base58.DecodeOfEncode | src/base58.cpp:22-106 | every byte string comes back |
| Base58.EncodeOfDecode | src/base58.cpp:22-106 | every string over the alphabet comes back |
| Base58.LeadingOnes | src/base58.cpp:68-97 | there are as many leading ones as leading zero bytes |
| Base58.AlphabetIsReadable | src/base58.h:8-12 | the alphabet is all digits and letters in order, except the four that look like others |
| Base58.DecodeCheckIffEncodeCheck | src/base58.cpp:113-142 | any string decodes with a valid checksum to some bytes if and only if, up to its first NUL and without spaces around it, it is their checked encoding |
| Radix.StripIsDigits | src/base58.cpp:90-93 | a digit buffer without its leading zeros is the one normal form of its value |
| Consensus.GetBlockValue | src/consensus.cpp:373-387 | the subsidy of the height plus the fees |
| Consensus.HalvedHalves | src/consensus.cpp:384-384 | each period pays half of what the one before paid, rounded down |
| Consensus.SubsidyHalves | src/consensus.cpp:373-387 | from height 77779 on the subsidy is half of what it was one period before |
| Consensus.EarlySupply | src/consensus.cpp:377-385 | the supply while the subsidy is fixed by hand, with the regular subsidy at height 77777 |
| Consensus.OutstandingFalls | src/consensus.cpp:373-387 | one block mints what it takes from the outstanding amount, but for what a halving rounds off |
| Consensus.SupplyIs | src/consensus.cpp:373-387 | the supply at every height after that, exactly |
| Consensus.SupplyEndsAt | src/consensus.cpp:373-387 | 1570959 coins at the first regular halving, and 3103959 less 13 units a block of one period in the end |
| Consensus.SupplyStaysBelowMaxMoney | src/consensus.cpp:373-387 | all subsidies together never reach the maximum of money |
| Consensus.GetWorkProof | src/consensus.cpp:427-434 | 2^256/(T+1) rounded down for every target but 0, which gives 0, and the largest, which cannot be divided by |
| Consensus.WorkFallsWithTarget | src/consensus.cpp:421-434 | a larger target never stands for more work, and every target for some |
| Uint256.Divide | src/uint256.cpp:91-114 | shift-and-subtract division computes the quotient and refuses zero |
| Bignum.CBigNum.SetCompact | src/bignum.h:296-312 | the number that the compact form stands for |
| Bignum.CBigNum.GetCompact | src/bignum.h:314-337 | 32 bits of the compact form by size, mantissa and sign, which is the whole of it if and only if the size fits a byte |
| Bignum.TopBytes | src/bignum.h:314-333 | correcting for the sign bit afterwards gives the exponent that leaves room for it from the start |
| Bignum.MantissaBounds | src/bignum.h:328-333 | the mantissa leaves the sign bit free and has at least 16 bits for large numbers |
| Bignum.FromToCompact | src/bignum.h:296-337 | reading the compact form back gives the rounded number with its sign |
| Bignum.CompactIsScaled | src/bignum.h:296-312 | for every form, also those that `GetCompact` never gives: the mantissa at its size, with what lies below the last byte dropped |
| Bignum.CompactIsExact | src/bignum.h:296-337 | a number that was read from a compact form is not rounded when it is written |
| Bignum.RoundTripIsClose | src/bignum.h:296-337 | rounding is downwards by at most one part in 2^15, and exact below 2^23 |
| Bignum.RoundTripIsStable | src/bignum.h:296-337 | a second round trip changes neither number nor form |
| Bignum.CompactKeepsOrder | src/bignum.h:314-337 | compact forms are ordered as the numbers |
| Bignum.TargetsFit | src/bignum.h:316-335 | every number below 2^256 has a 32-bit form |
| Chain.CBlockIndex.PathOfAncestor | src/chain.h:320-322 | the path of an ancestor is the front of the path |
| Chain.CBlockIndex.AncestorIsOnPath | src/chain.h:320-322 | the ancestor at a height is the block of the path at that height |
| Chain.CChain.constructor | src/chain.h:379-381 | a new chain is empty and valid |
| Chain.CChain.ContainsIffAncestorOfTip | src/chain.h:408-411 | a block is contained exactly if it is the tip or an ancestor of it |
| Chain.CChain.NextIsTheActiveChild | src/chain.h:413-419 | the successor is the child on the active chain, and missing only for the tip and for blocks elsewhere |
| Chain.CChain.SetTip | src/chain.cpp:14-24 | despite the early stop the index is the path of the new tip |
| Chain.CChain.StopIsRight | src/chain.cpp:20-23 | where an old entry is already in place, so is everything below it |
| Chain.CChain.FindFork | src/chain.cpp:61-67 | the result is common to both branches, and nothing above it is |
| Chain.AgreementIsDownwardClosed | src/chain.cpp:61-67 | branches that agree at a height agree below it |
| Chain.CChain.GetTheRightLocator | src/chain.cpp:31-59 | entry i is the ancestor at the distance of i single steps, doubling after ten, and the list ends with the genesis block |
| Chain.CChain.EitherLookupIsRight | src/chain.cpp:46-52 | the index and the walk down give the same ancestor |
| Chain.LocatorHeightsFall | src/chain.cpp:38-56 | heights fall strictly from the start to zero |
| Chain.LocatorIsShort | src/chain.cpp:38-56 | at most 12 + log2(height) entries |
| Chain.LocatorIsNearFork | src/chain.cpp:44-55 | the first entry a peer knows is the start, or less than twice as far below it as the fork |
| Chain.CBlockIndex.GetMedianTimePast | src/chain.h:263-275 | the middle of the sorted times of the last eleven blocks, or of as many as there are |
| Chain.CBlockIndex.MedianDoesNotFallBelowParents | src/consensus.cpp:167-170 | a header later than its parent's median does not lower the median, also while the window fills up |
| Chain.CBlockIndex.MedianNeverFalls | src/consensus.cpp:167-170 | along every branch whose headers pass the check the median never falls |
| Chain.UpdateTime | src/miner.cpp:106-109 | for every clock: the stored time passes the check if and only if the clock fits 32 bits and the median is not the last of them, or what is left of the clock passes; it is the least time that passes and is not before a clock that fits |
| Chain.LastTimeBlocksMining | src/miner.cpp:106-109 | a block tree with that median, on top of which no clock leads to a time that passes |
| Median.MiddleIsTheMedian | src/chain.h:273-274 | the middle element is the one value with at most half of the window below it and more than half at or below it |
| Median.MedianDoesNotFall | src/chain.h:263-275 | gaining a time above the median and losing at most one does not lower it |
| Transactions.UnspentHasSource | src/main.cpp:1511-1531 | whatever is unspent was so at the start or was made by an earlier transaction |
| Transactions.UnspendableIff | src/coins.h:119-125 | only outputs whose script begins with OP_RETURN are dropped as unspendable |
| Transactions.ParentsComeFirst | src/main.cpp:1562-1563 | in a list that connects, an input that is not in the base view is an output of an earlier transaction |
| Transactions.NothingIsSpentTwice | src/main.cpp:1511-1531 | two transactions of a list that connects share no input, if hashes are new and distinct |
| Transactions.TransactionConservesMoney | src/main.cpp:1511-1531 | spending the inputs and adding the outputs lowers the unspent money by the fee and what is unspendable |
| Transactions.MoneyIsConserved | src/main.cpp:1592-1613 | over a whole list the unspent money falls by the fees, which are not negative, and what is unspendable, and by nothing else |
| Miner.LinkInputs | src/miner.cpp:176-209 | an orphan record is made exactly if a parent is not in the chain; it depends on all such parents and is filed under each |
| Miner.CollectPool | src/miner.cpp:159-238 | ready candidates are queued once each, all others have one record filed under each of their parents |
| Miner.QueueDependers | src/miner.cpp:320-335 | after a choice the queue gains exactly the candidates that became ready, each once, however many inputs come from that parent |
| Miner.AllReleased | src/miner.cpp:320-335 | what becomes ready by a choice is what its dependers release |
| Miner.FirstTime | src/miner.cpp:325-333 | a record that comes up again is not queued again |
| Miner.ReadyIff | src/miner.cpp:176-209 | a candidate is ready if and only if it is final, no coinbase, and each input is of a transaction in the chain or chosen |
| Heap.FrontIsGreatest | src/miner.cpp:251-254 | in a heap under an order the front is a greatest element |
| Heap.PushHeap | src/miner.cpp:330-331 | the last element joins the heap in front of it, and nothing is lost |
| Heap.PopHeap | src/miner.cpp:251-257 | the front leaves as a greatest element, and the rest is a heap |
| Heap.MakeHeap | src/miner.cpp:246-247 | any vector becomes a heap of the same elements |
| Miner.ComparerIsOrder | src/miner.cpp:82-104 | the comparer is an order that the heap functions can work with, by fee and by priority |
| Miner.Heapify | src/miner.cpp:279-285 | at the start and when the order changes the queue is made a heap under the comparer that holds from then on |
| Miner.PermutedEntries | src/miner.cpp:247-331 | rearranging the queue does not change what it holds |
| Miner.Consider | src/miner.cpp:259-301 | accepted exactly if it fits, and from then on ordered by fee exactly if it was so before or this ends the priority area; what is not accepted has a reason |
| Miner.CreateNewBlock | src/miner.cpp:159-346 | the selection is the greedy one: each round considers a ready candidate that none of the others outranks by the order of that round, by fee or by priority, and adds it exactly if it fits; the chosen list connects, has no transaction twice, keeps the size and sigop limits; a candidate is considered exactly if all its pool parents are chosen; the coinbase gets subsidy plus fees |
| Miner.NobodyIsOvertaken | src/miner.cpp:249-257 | no candidate is considered twice, and none that was ready is overtaken by one that it outranks |
| Miner.PriorityAreaComesFirst | src/miner.cpp:279-285 | the order changes at most once, and what is added in rounds before that belongs into the priority area |
| Miner.ParentStandsBefore | src/miner.cpp:51-58 | every parent that is not in the chain stands before its child |
| Miner.TemplateMintsTheSubsidy | src/miner.cpp:342-346 | nothing is spent twice and the block mints exactly the subsidy, less what is made unspendable |
| Bloom.Hashing.BitsStay | src/bloom.cpp:66-77 | adding a key clears no bit |
| Bloom.Hashing.OnlyHashedBits | src/bloom.cpp:66-77 | adding a key sets no bit but its own |
| Bloom.Hashing.TakenKeysAreThere | src/bloom.cpp:66-107 | a filter has all bits of every key it has taken since it was cleared |
| Bloom.SizedIsValid | src/bloom.cpp:31-58 | the derived sizes respect the limits of the protocol where they must, stay within the ideal number of bits, and give a filter hash functions only if it has data, and fewer than it has bits for each element |
| Bloom.KnownSizes | src/test/bloom_tests.cpp:30-46 | the filter of the tests has 3 bytes and 5 hash functions, and the limit of size is just enough for 20000 elements at one in a thousand |
| Bloom.CBloomFilter.constructor | src/bloom.cpp:29-48 | a filter of the derived sizes, within the limits; a fresh one answers every question if its number of hash functions comes out as zero, and none otherwise |
| Bloom.CBloomFilter.Rolling | src/bloom.cpp:50-58 | an empty filter of the derived sizes, without limits |
| Bloom.CBloomFilter.Insert | src/bloom.cpp:66-77 | exactly the bits of the key are added; a full filter does not change |
| Bloom.CBloomFilter.Contains | src/bloom.cpp:93-107 | true if full, or not empty and all bits of the key are set |
| Bloom.CBloomFilter.Clear | src/bloom.cpp:123-128 | the filter is as new |
| Bloom.CRollingBloomFilter.constructor | src/bloom.cpp:218-227 | two empty filters and a period of twice the number of elements |
| Bloom.CRollingBloomFilter.Insert | src/bloom.cpp:229-241 | through staggered clears and the wrap-around each filter holds exactly the keys since its own last clear, and the counter advances |
| Bloom.CRollingBloomFilter.Contains | src/bloom.cpp:243-249 | the answer of the older filter, which is true for each of the last nElements keys inserted since the last clear |
| Bloom.CRollingBloomFilter.Clear | src/bloom.cpp:251-256 | nothing is answered any more |
| LockedPages.TouchedPages | src/allocators.h:53-56 | the pages from that of the first byte to that of the last are those with a byte of the range |
| LockedPages.LastPageIsNeverPassed | src/allocators.h:56-56 | with addresses that wrap around, the loop over a range that reaches the last page never ends |
| LockedPages.LockedPageManagerBase.LockRange | src/allocators.h:47-67 | for any other range within the address space each page is counted once more, and a page is locked exactly if its count is positive |
| LockedPages.LockedPageManagerBase.UnlockRange | src/allocators.h:69-90 | each page is counted once less, the last one unlocks it |
| LockedPages.LockKeepsMatch | src/allocators.h:47-67 | counts stay equal to the numbers of live ranges on each page |
| LockedPages.UnlockKeepsMatch | src/allocators.h:69-90 | the same when a live range ends |
| LockedPages.LiveRangeIsCounted | src/allocators.h:79-80 | the assertion holds when a live range is unlocked |
| LockedPages.NothingLiveNothingLocked | src/allocators.h:41-44 | the destructor's assertion holds when all ranges have been unlocked |

## Left out

- Networking, RPC, wallet, databases, scripts and signatures: not modelled.
- MerkleBlock.CPartialMerkleTree.TraverseAndExtract: the arithmetic of positions is unbounded; `MerkleBlock.TreeWidthFitsWord` shows that widths fit 32 bits for every count the entry point accepts.
- MerkleBlock.CPartialMerkleTree.Receive: the byte stream around the three fields is not modelled, only the bit packing.
- CoinsViewCache.CCoinsViewCache.BatchWrite: the child's map is passed as a value instead of being erased while it is read; the entries are taken in any order.
- UpdateCoins.UpdateIsUpdateCoins: the transaction version is a parameter, because transactions are without one here.
- UndoCoins.DisconnectBlock: where undo data is read from, and the best block that is set at the end, are not modelled; `requires` that the first transaction alone is a coinbase, which block validation has checked.
- UndoCoins.DisconnectUndoesConnect: the stack stands for the same coins in memory; a negative version that was lost in between by storing it is corrected by the code only for the comparison, and not modelled beyond `IsCleanRemoval`.
- CoinsViewCache.CCoinsViewCache.ModifyCoins: the modifier's access to the coins is the pair of `ModifyCoins` and `ReleaseModifier`; what happens between them is one new value of the coins.
- `SetBackend`, `GetStats`, `AccessCoins` beyond the fetch, and cache sizes.
- CoinsSerializer.SerializeLoop: `GetSerializeSize` is left out; the memory needed by a hostile mask is not bounded, as in the code.
- VarInt.WriteVarInt: numbers are unbounded; the width of the buffer and wrap-around in reading are not modelled.
- Compressor.ScriptOfCompressed: the curve is a parameter that restores what it compressed.
- CheckQueueRuns.EveryVerdictIsTheConjunction: every critical section is one step; the memory model, `fQuit` and thread interruption are not modelled, and spurious wake-ups of waiting threads are allowed.
- CheckQueueRuns.WaitReturns: says that progress steps run out, not that the scheduler takes them.
- AddrMan.EveryRunIsConsistent: runs are `Add`, `Good`, `Attempt`, `Connected` and `GetAddr` with positive clocks; the hashes of I2P destinations and the normalisation of such addresses are left out.
- CAddrMan.CAddrMan.GetAddr_: whether an address is private is an arbitrary predicate, and one call reads the clock once. `Select_` and `GetChance` (random retry, floating point) are left out.
- CAddrMan.CAddrMan.Unserialize: `requires` a manager that has held nothing, because `Clear` leaves old entries in `mapInfo` and `mapAddr`; the stream is its sequence of values, entries are already normalised, and the key read from the file is the manager's key; a file that ends early throws in the code and is not modelled.
- AddrManFile.UnserializeOfSerialize: last-try times are not stored and come back as zero; only the low eight service bits come back, as the reader masks them.
- Base58.DecodeCheckIffEncodeCheck: the checksum is any function to four bytes.
- Miner.CreateNewBlock: priorities, fee rates and P2SH counts are arbitrary functions; the branch for a pool transaction with an unknown input, the command-line limits, the header fields, the final validity test and logging are left out. The coinbase transaction is represented by its value.
- Heap.PopHeap: which of several greatest elements leaves first is that of the textbook algorithm, not of a particular standard library.
- Miner.TemplateMintsTheSubsidy: needs that no pool transaction has unspent outputs in the chain already, which the pool checks when it admits a transaction.
- Transactions.MoneyIsConserved: coinbase maturity and scripts are part of an arbitrary predicate of `CheckInputs`.
- Chain.CBlockIndex.AncestorIsOnPath: `GetAncestor` is repeated `pprev`; the skip list is not part of this model.
- Chain.CChain.GetTheRightLocator: entries are the blocks themselves instead of one of their two hashes; the step is unbounded, although at heights above a billion its last doubling would leave 32 bits.
- Consensus.GetBlockValue: `requires` a height below 64 halving periods, because the shift is undefined above.
- Bloom.CBloomFilter.constructor: arithmetic is over the reals and the logarithm of the rate is a parameter; `requires` elements to divide by and a number of bits that an unsigned word can be converted from, without which the code has no defined result. Serialization, `UpdateEmptyFull` and `IsRelevantAndUpdate` are left out.
- Bloom.CRollingBloomFilter.constructor: `requires` that twice the number of elements fits 32 bits; wrap-around of it is not modelled.
- Bloom.CRollingBloomFilter.Contains: false positives are allowed, as in the code; their rate is not modelled.
- LockedPages.LockedPageManagerBase.LockRange: `requires` a range that the loop comes to the end of; the system call always succeeds.
- LockedPages.LockedPageManagerBase.UnlockRange: the same.
- The difficulty retargeting algorithms, checkpoints and the rest of the header checks.
- `limitedmap`, `mruset`, alerts, fee formatting and version strings.
