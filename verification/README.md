# Verification of the node's core data structures

A Dafny model of the parts of the node on which its state depends, with proofs of what these parts promise.
`dafny verify dfyconfig.toml` checks all of it.  Nothing of the original program is run.

Six components are modelled, each in its own modules:

- **Unspent outputs** (`CoinsSpec`, `CoinsView`, `Connection`, `Supply`, `BlockEffects`, `BlockConnection`,
  `Reorganisation`; stored form in `Compressor`, `CoinsEncoding`, `CoinsStream`, `CoinsExamples`).  Stacks of
  write-back caches of any depth behave like one plain map.  What a connected block leaves behind is told output by
  output.  Connecting a block and disconnecting it again is the identity, exactly when no coinstake
  transaction loses its last unspent output: `DisconnectBlock` does not restore the stake flag, so the flag is gone
  from then on (src/main.cpp:2103-2106); `StakeIsLost` shows an input for it.  The money supply is what is unspent
  plus what was burned.
- **The block tree** (`BlockIndexes`, `ActiveChain`, `Download`, `BlockTrees`, `BlockLinking`, `BestChainSpec`,
  `BlockTreeCheck`, `BestChain`).  The skip list agrees with parent pointers.  Blocks may arrive in any order.  For
  any outcome of every attempt to connect or disconnect, activating the best chain ends, and on success no linked
  block without a failed ancestor has more work than the tip, or as much and was received before it: of equally
  heavy blocks, the one received first stays.  Every valid tree with an active chain passes the program's own check.
  Locators have exactly the heights promised, and lead close to the fork.  Blocks are fetched in order, and the peer
  that holds up the others is named exactly when there is one.
- **The check queue** (`CheckQueueSpec`, `CheckQueue`).  A master and any number of workers as a state machine over
  critical sections: every wait returns the conjunction of the checks added, and no wait is stuck.
- **The address manager** (`AddrManSpec`, `AddrMan`, `AddrManEffects`, `AddrManCheck`, `AddrManFormat`,
  `AddrManRebuild`, `AddrManStore`).  Five redundant tables stay consistent under arbitrary hashes and random choices,
  the program's own check passes exactly on consistent states, and writing and reading loses nothing; read by a
  program with another number of buckets, what is written loses no tried address.
- **Multi-limb arithmetic and compact targets** (`Limbs`, `LimbLemmas`, `ShiftLemmas`, `DivisionLemmas`,
  `ArithUint`, `CompactSpec`, `CompactTarget`).
- **Base 58** (`Base58Spec`, `Base58Text`, `Base58`).  The buffers are always large enough, by an inequality between
  powers that is proved for all lengths, and encoding and decoding are inverse.

Where the original changes objects in place, the model has a class whose methods make the same changes; a
ghost function gives the value of the object, and each method is proved to change it as a pure function or a
stated relation says.  The main theorems are lemmas about these.  `Common` has what several components share.

Where the code does not do what it seems to, or what is said about it, the model follows the code:

- The comment on the stored form of an entry (src/coins.h:32-38) names three flag bits where the code has four: it
  also stores whether the entry is a coinstake.
- The examples given with that form (src/coins.h:40-71) therefore have another header, 8 for 4 and 17 for 9;
  `FirstExample` and `SecondExample` give the bytes that are written.
- Of the examples of variable-length integers (src/serialize.h:379-384), that for 16511 has a byte too many, and that
  for 65535 a wrong one; `VarIntExamples` gives the right ones.
- `Flush` passes the best block down even if it is still null (src/coins.cpp:204), which the parent then forgets;
  `CoinsViewCache.Flush` says exactly when, and `FlushForgetsBestBlock` shows a case.
- `Add_` answers true for a new address even if it is thrown away at once (src/addrman.cpp:247-313), so that `Add`
  reports it as added (src/addrman.h:488); `SecondIsThrownAway` shows a case.
- Negative versions are stored as their lowest digit only; `NegativeVersionIsLost` shows an entry.
- Amounts whose compressed form has more than 64 bits are not read back, and no others (`AmountIff`).  They lie above
  2 to the 60, far above the highest legal amount, which blocks are checked against (src/main.cpp:1002).
- `GetSerializeSize` takes factor 8 where `Serialize` takes 16 (src/coins.h:182, 206); `CoinsStream.GetSerializeSize`
  says exactly when the size is right all the same, and `SizeIsTooSmall` shows an entry for which it is not.

## Model

| member | source | states |
|---|---|---|
| AddrManSpec.SwapRandomKeeps | src/addrman.cpp:101-119 | swapping two places of vRandom keeps every table and counter consistent, and moves nothing else |
| AddrManSpec.DeleteKeeps | src/addrman.cpp:121-133 | removing an entry without references keeps the invariant and removes exactly that entry |
| AddrManSpec.ClearNewKeeps | src/addrman.cpp:135-148 | freeing a slot keeps the invariant, whether or not its last reference goes with it |
| AddrManSpec.AddRefKeeps | src/addrman.cpp:302-305 | a new reference from a free slot keeps counts equal to references |
| AddrManSpec.PlaceKeeps | src/addrman.cpp:291-311 | placing an entry, displacing an occupant, or giving it up all end in a consistent state |
| AddrManSpec.RegisterKeeps | src/addrman.cpp:284-289 | a newly created entry is the only one without a reference |
| AddrManSpec.RefreshKeeps | src/addrman.cpp:256-264 | updating a known entry keeps consistency |
| AddrManSpec.AddKeeps | src/addrman.cpp:247-313 | Add keeps consistency for every address, penalty, time, hash and random choice |
| AddrManSpec.NewAddressStoredIff | src/addrman.cpp:284-312 | a new address is always reported as added, but stored if and only if its slot was free or its occupant may be displaced |
| AddrManSpec.SecondIsThrownAway | src/addrman.cpp:284-312 | two addresses of the same bucket and position are added to an empty object: the second is reported as added, but not stored |
| AddrManSpec.UnlistKeeps | src/addrman.cpp:152-162 | taking all references of an entry out of the new table leaves it as the only one without any |
| AddrManSpec.EvictKeeps | src/addrman.cpp:170-178 | freeing a tried slot leaves the evicted entry as the only one to be placed |
| AddrManSpec.DemoteKeeps | src/addrman.cpp:180-189 | the evicted entry finds a place in the new table |
| AddrManSpec.EnterTriedKeeps | src/addrman.cpp:191-195 | entering the free tried slot restores full consistency |
| AddrManSpec.MakeTriedKeeps | src/addrman.cpp:150-196 | moving an entry to the tried table, with or without eviction, keeps consistency, and the entry is tried afterwards |
| AddrManSpec.GoodKeeps | src/addrman.cpp:198-245 | Good keeps consistency and leaves the entry of that service tried; what else it does is said by AddrManEffects.GoodEffect |
| AddrManSpec.AttemptKeeps | src/addrman.cpp:315-332 | Attempt keeps consistency |
| AddrManSpec.ConnectedKeeps | src/addrman.cpp:477-495 | Connected keeps consistency |
| AddrManSpec.ShuffleFinds | src/addrman.cpp:461-474 | whatever is drawn, the list has the first good entries of the shuffled vRandom, and every lookup succeeds |
| AddrManSpec.GetAddrKeeps | src/addrman.cpp:451-475 | GetAddr keeps consistency and answers with addresses of stored entries only, within the limit |
| AddrManSpec.ApplyKeeps | src/addrman.h:465-570 | any operation with any arguments keeps consistency |
| AddrManSpec.EveryRunIsConsistent | src/addrman.h:465-570 | every run of operations from the empty object is consistent throughout |
| AddrManEffects.MakeTriedEffect | src/addrman.cpp:150-196 | the entry takes its slot in the tried table, whose occupant goes back to the new table with one reference; all slots of both tables, who is tried, and which entries are gone; what is known of the others stays |
| AddrManEffects.GoodEffect | src/addrman.cpp:198-245 | after Good at a time, the entry has no attempts, its last success and last try are that time, and everything else of it is as before; nothing that is known of other entries changes; all slots of both tables |
| AddrManEffects.UnknownIsLeft | src/addrman.cpp:198-213 | Good, Attempt and Connected change nothing if the service is unknown, or known under another port |
| AddrManEffects.AttemptEffect | src/addrman.cpp:315-332 | one more attempt, and its time; nothing else changes, of this entry or of others |
| AddrManEffects.ConnectedEffect | src/addrman.cpp:477-495 | the time is brought up to date if it is more than twenty minutes old; nothing else changes |
| AddrManEffects.TerribleIff | src/addrman.cpp:34-52 | not tried within a minute, and from the future, or not seen for thirty days, or tried three times without any success, or ten times without one for a week |
| AddrManEffects.AddNewEffect | src/addrman.cpp:284-312 | what is entered for a new address, with its time less the penalty; the slot it takes, and whom it displaces; nothing known of others changes |
| AddrManEffects.RefreshedTimeIs | src/addrman.cpp:257-261 | when a known address gets a new time, and which: an hour, or a day if it was not seen lately, must lie between them |
| AddrManEffects.AddKnownEffect | src/addrman.cpp:256-311 | for a known address: its time and services, exactly when it gets a further reference, and where |
| AddrManEffects.AttemptsAreCounted | src/addrman.h:465-570 | in any run, while an entry is there, its attempts are those made since its service was last reached |
| AddrManEffects.GetAddrKeepsRecords | src/addrman.cpp:451-475 | GetAddr changes only the order of vRandom |
| AddrManEffects.NodeLimitIs | src/addrman.cpp:453-459 | 23 in a hundred, rounded down, but at least 4 and at most 2500 |
| AddrMan.AddrMan.constructor | src/addrman.h:448-451 | a fresh object is empty |
| AddrMan.AddrMan.Clear | src/addrman.h:428-446 | tables and counters are emptied, the two dictionaries are not |
| AddrMan.AddrMan.Find | src/addrman.cpp:76-87 | finds the entry of an address if and only if there is one |
| AddrMan.AddrMan.SwapRandom | src/addrman.cpp:101-119 | in place, exactly the change of the specification |
| AddrMan.AddrMan.Delete | src/addrman.cpp:121-133 | in place, exactly the change of the specification |
| AddrMan.AddrMan.Create | src/addrman.cpp:89-99 | in place, the new entry gets the next id and the last place of vRandom |
| AddrMan.AddrMan.ClearNew | src/addrman.cpp:135-148 | in place, exactly the change of the specification |
| AddrMan.AddrMan.MakeTried | src/addrman.cpp:150-196 | both loops and the eviction, in place, exactly the change of the specification; all its assertions hold |
| AddrMan.AddrMan.FindReference | src/addrman.cpp:224-239 | starting anywhere, some bucket with a reference is found: the way out without one is never taken |
| AddrMan.AddrMan.Good | src/addrman.cpp:198-245 | in place, exactly the change of the specification, whose effect is given by AddrManEffects.GoodEffect; the object is valid again |
| AddrMan.AddrMan.Add | src/addrman.cpp:247-313 | in place, exactly the change and the answer of the specification |
| AddrMan.AddrMan.Attempt | src/addrman.cpp:315-332 | in place, exactly the change of the specification |
| AddrMan.AddrMan.Connected | src/addrman.cpp:477-495 | in place, exactly the change of the specification |
| AddrMan.AddrMan.GetAddr | src/addrman.cpp:451-475 | in place, exactly the change and the list of the specification |
| AddrManCheck.ConsistentPasses | src/addrman.cpp:374-448 | every consistent state with a key passes all checks, so the check returns 0 after every operation |
| AddrManCheck.PassesIffConsistent | src/addrman.cpp:374-448 | of states with the right dimensions and lookups, the check passes on the consistent ones and on no others |
| AddrManCheck.ConsistentListing | src/addrman.cpp:398-398 | in a consistent state the lookups of the check insert nothing |
| AddrManCheck.CheckTried | src/addrman.cpp:413-424 | the loop over the tried table succeeds if and only if every tried entry stands once, where it should |
| AddrManCheck.CheckNew | src/addrman.cpp:427-438 | counting references down succeeds if and only if every count is the number of references |
| AddrManCheck.CheckEntry | src/addrman.cpp:382-406 | the conditions on one entry, both ways |
| AddrManCheck.Check | src/addrman.cpp:374-448 | the whole check succeeds if and only if its conditions hold of the state before; it changes nothing but missing listings |
| AddrManFormat.OrderInvertsRank | src/addrman.h:287-308 | the numbers given to entries while writing are exactly their places in the stream |
| AddrManFormat.ReadNewLoads | src/addrman.h:346-364 | reading the new entries back gives each its number, its place in vRandom and its address |
| AddrManFormat.ReadTriedLoads | src/addrman.h:367-384 | no tried entry is lost, since its slot is free |
| AddrManFormat.ReadBucketsLoads | src/addrman.h:387-403 | every reference comes back in its own bucket and position |
| AddrManFormat.NothingToPrune | src/addrman.h:405-415 | no entry is left without a reference |
| AddrManFormat.RoundTrip | src/addrman.h:275-421 | writing any consistent state and reading it into an empty object loses nothing (both loss counters are 0) and gives a consistent state equal up to ids |
| AddrManRebuild.StreamIs | src/addrman.h:275-306 | the header, and each entry at its number behind it, with the fields that are stored |
| AddrManRebuild.RanksRise | src/addrman.h:286-306 | new entries are written before tried ones, each by rising ids |
| AddrManRebuild.FirstIsPlaced | src/addrman.h:352-362 | an entry gets the place of its first source exactly if none before it has the same one |
| AddrManRebuild.PruneForgets | src/addrman.h:405-415 | exactly the entries without references are deleted, and counted |
| AddrManRebuild.ForeignIsRead | src/addrman.h:325-421 | a consistent state written by another version, or for another number of buckets, with any references: all tried entries come back where they were, new ones exactly if they are the first with their place, with one reference there; the result is consistent, and the number lost is right |
| AddrManStore.Serialize | src/addrman.h:275-323 | the loops write exactly the stream of the specification |
| AddrManStore.Unserialize | src/addrman.h:325-421 | for every stream, good or bad, the loops do exactly what the specification reads from it |
| CoinsSpec.PrunedIffTrimmedAway | src/coins.h:119-125 | an entry is fully spent if and only if nothing is left after clean-up |
| CoinsSpec.SpendRecords | src/coins.cpp:36-52 | spending keeps an entry well kept and records enough to put the output back |
| CoinsSpec.SpendThenRestore | src/main.cpp:2090-2113 | restoring a spent output gives the entry back, but for the stake flag after the last one |
| CoinsSpec.CreatedIsWellKept | src/coins.h:90-134 | a created entry has no unspendable outputs, no blank end, and is stable under clearing |
| BlockEffects.CreatedIs | src/coins.h:90-134 | the entry created has the flags, version and height of its transaction, and exactly its spendable outputs |
| CoinsSpec.ConnectKeepsMap | src/main.cpp:1918-1932 | connecting keeps all entries well kept |
| CoinsSpec.RevertUndoesApply | src/main.cpp:2063-2118 | one change and its reversal are the identity unless a coinstake entry loses its last output |
| CoinsSpec.DisconnectKeepsDamage | src/main.cpp:2073-2083 | a lost stake flag never comes back: it is noticed, or stays |
| CoinsSpec.DisconnectUndoesConnectIff | src/main.cpp:2063-2118 | disconnecting is clean and gives back the same map if and only if no change took the last unspent output of a coinstake transaction |
| CoinsSpec.StakeIsLost | src/main.cpp:2103-2106 | an input that loses the flag: both outputs of a coinstake transaction are spent, then given back without it, and nothing is found amiss |
| CoinsView.WriteOne | src/coins.cpp:165-200 | entries of a child may be written down one by one in any order without changing what is seen through it |
| CoinsView.AddClean | src/coins.cpp:86-102 | pulling an entry up changes nothing |
| CoinsView.AbsorbWrites | src/coins.cpp:165-200 | taking over a dirty entry is storing it in the plain map, and an entry unknown to the parent must be FRESH |
| CoinsView.MarkDirty | src/coins.cpp:114-131 | handing out an entry changes nothing that is seen |
| CoinsView.Rewrite | src/coins.cpp:263-277 | writing a modified entry back, or forgetting it, is storing it in the plain map |
| CoinsView.CoinsViewCache.constructor | src/coins.cpp:79-79 | a new cache over any stack shows the same map |
| CoinsView.CoinsViewCache.FetchCoins | src/coins.cpp:86-102 | through any number of layers, the entry is found if there is one, and nothing seen changes |
| CoinsView.CoinsViewCache.GetCoins | src/coins.cpp:104-112 | the answer is that of the plain map |
| CoinsView.CoinsViewCache.HaveCoins | src/coins.cpp:143-151 | true if and only if the plain map has an unspent entry, though only emptiness is looked at |
| CoinsView.CoinsViewCache.GetBestBlock | src/coins.cpp:153-158 | the best block of the nearest layer that knows it |
| CoinsView.CoinsViewCache.SetBestBlock | src/coins.cpp:160-163 | sets it and nothing else |
| CoinsView.CoinsViewCache.ModifyCoins | src/coins.cpp:114-131 | hands out the plain map's entry, or a blank one, without changing what is seen |
| CoinsView.CoinsViewCache.BatchWrite | src/coins.cpp:165-200 | what is seen becomes what the child saw; the FRESH assertion holds |
| CoinsView.CoinsViewCache.Flush | src/coins.cpp:202-207 | what is seen does not change, the parent now shows it too, and the best block is kept if and only if the cache knew it or the parent has nothing to lose |
| CoinsView.FlushForgetsBestBlock | src/coins.cpp:202-207 | a case in which a flush of an unasked cache makes its parent forget the best block |
| CoinsView.CoinsModifier.Cleanup | src/coins.h:119-125 | drops exactly the spent outputs at the end |
| CoinsView.CoinsModifier.ClearUnspendable | src/coins.h:127-134 | blanks exactly the unspendable outputs |
| CoinsView.CoinsModifier.FromTx | src/coins.h:90-98 | the entry a transaction creates, which is described by BlockEffects.CreatedIs |
| CoinsView.CoinsModifier.Spend | src/coins.cpp:36-52 | spends if and only if the output is there; metadata goes with the last output |
| CoinsView.CoinsModifier.Release | src/coins.cpp:263-277 | what is seen changes to the modified entry, fully spent ones vanish |
| Connection.ConnectConcat | src/main.cpp:1918-1932 | a sequence of changes can be made if and only if its parts can one after the other, with the same result |
| Connection.DisconnectConcat | src/main.cpp:2063-2118 | undoing in reverse order splits the same way |
| Connection.HaveInputsIff | src/coins.cpp:233-245 | inputs that are all there, and all different, can be spent one after another, and only those |
| Connection.TxConnects | src/main.cpp:1918-1932 | a well-formed new transaction can be connected if and only if its inputs are there |
| Connection.NextTxConnects | src/main.cpp:2241-2281 | so for each transaction of a block, including those spending outputs made earlier in the block |
| Supply.TotalPut | src/coins.h:90-134 | storing an entry changes the total by exactly its value |
| Supply.ConnectConservesValue | src/main.cpp:2247-2294 | unspent plus burned grows by exactly what is minted, over any changes |
| Supply.TxMints | src/main.cpp:2261-2275 | a transaction mints its outputs less its inputs as they were before it |
| BlockEffects.TxEffect | src/main.cpp:1918-1932 | after a transaction, exactly the outputs it spends are gone, and its own spendable ones are there; nothing else has changed |
| BlockEffects.BlockEffect | src/main.cpp:2241-2281 | after a block, an output is available if and only if it was before or was made by the block, and is not spent by it; each is what it was or what its transaction says; each new entry has the flags and version of its transaction and the height of the block; what is spent was there |
| BlockEffects.UntouchedIff | src/main.cpp:2070-2086 | removing outputs is clean if and only if the entry says of them, and of itself, what the transaction says |
| BlockEffects.GivenBack | src/main.cpp:2094-2113 | giving back an input is clean if and only if the output is spent and height data fit; then it is there again, and nothing else has changed |
| BlockConnection.HaveInputs | src/coins.cpp:233-245 | true if and only if all inputs are there |
| BlockConnection.GetValueIn | src/coins.cpp:221-231 | the value of the inputs |
| BlockConnection.UpdateCoins | src/main.cpp:1918-1932 | the view and the undo records are those of the specification; every spend succeeds |
| BlockConnection.ConnectBlock | src/main.cpp:2247-2370 | succeeds if and only if all inputs are there when needed; then undo records and money supply are those of the specification, and the view has exactly what BlockEffects.BlockEffect says, with flags, versions and height of each entry |
| BlockConnection.RemoveOutputs | src/main.cpp:2070-2086 | removes the outputs and tells whether they were as created |
| BlockConnection.RestoreInput | src/main.cpp:2094-2113 | gives one input back; clean if and only if the specification says so |
| BlockConnection.DisconnectBlock | src/main.cpp:2058-2137 | fails if and only if undo data do not fit; clean if and only if the specification is, and then the view is as before |
| Reorganisation.BlockRoundTripIff | src/main.cpp:2042-2137 | connecting and disconnecting a block is the identity if and only if it kept all stakes |
| Reorganisation.ChainRoundTripIff | src/main.cpp:2493-2536 | the same for any number of blocks |
| Reorganisation.ChainGrows | src/main.cpp:2544-2600 | a further connected block extends the chain, its undo data and its supply |
| Reorganisation.SupplyIsUnspentOrBurned | src/main.cpp:2288-2294 | from nothing, the money supply is the sum of all unspent and all burned outputs |
| Compressor.WriteVarInt | src/serialize.h:400-415 | the loop writes the encoding |
| Compressor.VarIntRoundTrip | src/serialize.h:400-430 | every number that fits its type is read back, and nothing after it is touched |
| Compressor.VarIntIff | src/serialize.h:363-378 | each number is written by exactly one sequence of bytes that has the form and the meaning documented |
| Compressor.VarIntExamples | src/serialize.h:379-384 | the examples documented, two of them corrected |
| Compressor.DecompressCompressed | src/compressor.cpp:137-180 | every amount is decompressed from its compressed form |
| Compressor.CompressDecompressed | src/compressor.cpp:137-180 | every number is the compressed form of what it decompresses to |
| Compressor.CompressedFits | src/compressor.cpp:137-154 | amounts of up to 60 bits do not overflow when compressed |
| Compressor.CompressedIs | src/compressor.cpp:137-154 | the compressed form of an amount from its digits and its number of trailing zeros |
| Compressor.AmountExamples | src/test/compress_tests.cpp:41-46 | the pairs of the tests |
| Compressor.AmountIff | src/compressor.cpp:137-180 | of all numbers of 64 bits, exactly those whose compressed form has no more than 64 bits are read back |
| Compressor.CompressAmount | src/compressor.cpp:137-154 | the loop, with 64-bit wrap-around; its assertion on the digit holds |
| Compressor.DecompressAmount | src/compressor.cpp:156-180 | the loop, with 64-bit wrap-around |
| Compressor.SpecialScript | src/compressor.cpp:44-129 | a special script is what its compressed form decompresses to, and that form names its kind |
| Compressor.ShortFormIff | src/compressor.cpp:12-72 | exactly the scripts that pay to a key, a key hash or a script hash have a short form, and this is it, byte by byte |
| Compressor.ScriptRoundTrip | src/compressor.h:70-97 | every script whose length can be written is read back |
| Compressor.TxOutRoundTripIff | src/compressor.h:113-127 | an output of any value of 64 bits is read back if and only if its compressed amount fits 64 bits |
| Compressor.LargestAmountIsLost | src/compressor.h:113-127 | the largest value of 64 bits wraps around when compressed and does not come back |
| CoinsEncoding.MaskRoundTrip | src/coins.h:238-249 | the loop that skips zero bytes reads exactly the mask bytes written |
| CoinsEncoding.MaskIsNeeded | src/coins.cpp:17-34 | an entry ending in an unspent output needs all its mask bytes |
| CoinsEncoding.OutsRoundTrip | src/coins.h:218-257 | the outputs come back in their places, each as what is read back of it |
| CoinsEncoding.CodeFields | src/coins.h:206-206 | the header gives back all flags and the number of mask bytes |
| CoinsEncoding.EntryRoundTrip | src/coins.h:198-262 | an entry is read to its end and no further, each number as what is read back of it |
| CoinsEncoding.EntryRoundTripIff | src/coins.h:198-262 | it comes back the same if and only if neither version nor height is negative, all compressed amounts fit 64 bits, and the header fits 32 |
| CoinsExamples.FirstExample | src/coins.h:40-53 | all bytes of the first documented entry, but for its header |
| CoinsExamples.SecondExample | src/coins.h:55-71 | all bytes of the second documented entry, but for its header |
| CoinsEncoding.MaskCutShort | src/coins.h:238-249 | with fewer mask bytes asked for than there are, reading ends before the last one |
| CoinsEncoding.NegativeVersionIsLost | src/coins.h:198-262 | an entry of version -1 comes back with version 127 |
| CoinsStream.CalcMaskSize | src/coins.cpp:17-34 | both numbers, from the nested loops |
| CoinsStream.Serialize | src/coins.h:198-226 | writes the encoding of every entry not fully spent; its assertion holds |
| CoinsStream.Unserialize | src/coins.h:228-262 | for every stream, reads what the specification reads |
| CoinsStream.GetSerializeSize | src/coins.h:175-196 | never more than what is written if the header fits, and exactly that if and only if the header taken with factor 8 is as long as the one written with 16 |
| CoinsStream.SizeIsTooSmall | src/coins.h:182-182 | an entry of 66 unspent outputs, whose size is one too small |
| CheckQueueSpec.BatchSize | src/checkqueue.h:109-109 | a batch has at least one check and no more than the queue |
| CheckQueueSpec.BatchIsShare | src/checkqueue.h:109-109 | it is an equal share among all threads and one more for each that is idle, but at least one and at most the size of a batch |
| CheckQueueSpec.PoppedAre | src/checkqueue.h:111-117 | no check is lost or doubled between queue and batch |
| CheckQueueSpec.StepKeeps | src/checkqueue.h:68-129 | every critical section of every thread keeps the invariant, and each session finds the queue idle |
| CheckQueueSpec.EveryRunIsSafe | src/checkqueue.h:68-198 | on every interleaving: unfinished checks are those queued or held; each wait returned the conjunction of its session's checks; idle between sessions |
| CheckQueueSpec.IdleIff | src/checkqueue.h:160-164 | the three counters compared tell exactly whether work is left or a failure is known, in every reachable state |
| CheckQueueSpec.StepShrinks | src/checkqueue.h:79-125 | each step a thread makes by itself brings the end of the wait nearer |
| CheckQueueSpec.SomeoneCanStep | src/checkqueue.h:93-105 | the master never sleeps unnotified unless a worker holds checks; with no workers it does the work itself |
| CheckQueueSpec.WaitReturns | src/checkqueue.h:137-140 | waiting takes a bounded number of steps and is never stuck |
| CheckQueue.CheckQueue.Add | src/checkqueue.h:142-154 | the fields and the notification |
| CheckQueue.CheckQueue.LoopTop | src/checkqueue.h:74-92 | the first part of the critical section |
| CheckQueue.CheckQueue.Resume | src/checkqueue.h:93-118 | the part after having slept |
| CheckQueue.CheckQueue.TakeOrWait | src/checkqueue.h:93-118 | taking a batch, sleeping or returning |
| CheckQueue.RunBatch | src/checkqueue.h:120-123 | the conjunction of what was known and the batch, though checks after a failure are skipped |
| CheckQueue.CheckQueue.IsIdle | src/checkqueue.h:160-164 | true if and only if nothing is queued, no thread holds checks and none added since the last wait fails; always true outside of sessions |
| CheckQueue.CheckQueueControl.constructor | src/checkqueue.h:182-190 | the assertion that the queue is idle when a session begins holds |
| BlockIndexes.InvertsLowestOne | src/main.cpp:3598-3598 | the lowest one of a number is taken off |
| BlockIndexes.SkipsBack | src/main.cpp:3601-3610 | skip heights are lower, so walking ends |
| BlockIndexes.EvenSkipsTo | src/main.cpp:3601-3610 | an even height skips to where its lowest one is taken off |
| BlockIndexes.OddSkipsTo | src/main.cpp:3601-3610 | an odd height skips to just above where the two lowest ones of the height below it are taken off |
| BlockIndexes.BlockIndex.constructor | src/main.cpp:3640-3644 | the skip pointer built leads to the ancestor at the skip height |
| BlockIndexes.BlockIndex.GetAncestor | src/main.cpp:3612-3633 | the skip list agrees with walking parents, for every height |
| BlockIndexes.BlockIndex.RaiseValidity | src/chain.h:372-382 | raises if and only if not failed and lower |
| BlockIndexes.AncestorOfAncestor | src/main.cpp:3612-3633 | ancestors of ancestors |
| BlockIndexes.WorkGrows | src/main.cpp:3019-3019 | with positive proof, descendants have more work |
| ActiveChain.Chain.SetTip | src/chain.cpp:49-60 | although it stops early, every height ends up with the tip's ancestor |
| ActiveChain.Chain.FindFork | src/chain.cpp:91-98 | the deepest block in common, or none if there is none |
| ActiveChain.Chain.GetLocator | src/chain.cpp:62-89 | ancestors at exactly these heights: ten below the start one by one, then at distances that double, down to genesis; at most 12 plus the logarithm of the height |
| ActiveChain.FindForkInGlobalIndex | src/main.cpp:579-591 | the first known entry on the chain, or genesis |
| ActiveChain.LocatorLeadsToFork | src/main.cpp:579-591 | a locator of any block leads to its highest entry at or below the fork |
| ActiveChain.LocatorOfChainBlock | src/main.cpp:579-591 | a locator of a chain block leads to that block |
| ActiveChain.LocatorIsDense | src/main.cpp:579-591 | the entry found lies no further below the fork than the fork lies below the start, by eleven blocks less |
| Download.LastCommonAncestor | src/main.cpp:441-457 | the deepest common ancestor; the final assertion holds |
| Download.ProcessBlockAvailability | src/main.cpp:405-418 | the best known block is updated if and only if the announced one is known and no worse |
| Download.MissingAreNeeded | src/main.cpp:505-537 | what is listed is needed, in rising order, so each once |
| Download.NeededAreMissing | src/main.cpp:505-537 | nothing needed is left out before an invalid block |
| Download.FetchTowards | src/main.cpp:486-539 | the two loops give exactly the first blocks needed within the window; the last common block and the staller are exactly those that LastCommonIsRight and StallerIsRight describe |
| Download.FindNextBlocksToDownload | src/main.cpp:461-541 | all cases of a call, with the window computed on entry, the best known block brought up to date, and the last common block and the staller as in FetchTowards |
| Download.StallerIsRight | src/main.cpp:521-537 | a peer is named if and only if all blocks of the window are valid and here or on their way, the next one is needed, and the lowest on its way comes from another peer, which is the one named |
| Download.LastCommonIsRight | src/main.cpp:510-520 | the last common block is the highest that is here with all its ancestors, up to the first invalid one, the end of the window and the number asked for |
| Download.ScheduleIsWithinWindow | src/main.cpp:461-541 | at most count distinct blocks, all needed, all within 1024 of the common block |
| BlockTrees.LessIsTotal | src/main.cpp:110-129 | the comparator orders any two different entries |
| BlockTrees.MarkingBlocked | src/main.cpp:2739-2741 | marking descendants of failed blocks makes no difference to which blocks descend from one |
| BlockTrees.FailedIsBelowInvalid | src/main.cpp:4331-4334 | a block descends from a failed one if and only if it descends from one in which an error was found |
| BlockLinking.ChainTxIsSum | src/main.cpp:4321-4323 | nChainTx is non-zero if and only if all blocks up to it have data, and then is the sum of their transactions |
| BlockLinking.SequenceNumbersDiffer | src/main.cpp:3068-3071 | sequence numbers of different blocks differ |
| BlockLinking.HeaderKeepsValid | src/main.cpp:2975-3042 | a new header leaves everything valid |
| BlockLinking.AddToBlockIndex | src/main.cpp:2975-3042 | the entry of a hash, new if and only if there was none |
| BlockLinking.LinkOneKeeps | src/main.cpp:3064-3082 | linking one block and queueing its waiting children keeps the invariant |
| BlockLinking.LinkQueued | src/main.cpp:3058-3082 | ends with all that can be linked linked, and nothing else changed |
| BlockLinking.DataKeepsValid | src/main.cpp:3083-3087 | a block that waits is valid; entered nowhere, it would not be |
| BlockLinking.ReceivedBlockTransactions | src/main.cpp:3045-3090 | the tree is valid afterwards, whatever the order of arrival, and blocks that are newly linked have higher sequence numbers than all before; blocks known to be invalid, and their children, are turned down before (src/main.cpp:3468, 3527) |
| BlockLinking.RejectedKeepsValid | src/main.cpp:3555-3559 | finding the data of a block wrong, which are not stored then, leaves everything valid |
| BlockLinking.RejectBlock | src/main.cpp:3555-3559 | marks the block in place |
| BestChainSpec.ConnectKeepsReady | src/main.cpp:2826-2832 | connecting a block and pruning keeps the candidates complete above the best tip so far |
| BestChainSpec.DisconnectKeepsReady | src/main.cpp:2789-2792 | disconnecting keeps them complete |
| BestChainSpec.RaiseKeepsReady | src/main.cpp:2338-2338 | finding a block valid that can be connected keeps statuses right: only blocks whose parents have been connected are valid beyond their transactions |
| BestChainSpec.InvalidKeepsReady | src/main.cpp:1898-1916 | finding a block invalid keeps them complete |
| BestChainSpec.SweepKeepsReady | src/main.cpp:2729-2753 | sweeping out unusable candidates keeps them complete |
| BestChainSpec.ConnectKeepsHeading | src/main.cpp:2810-2833 | the target stays the best candidate while the tip moves towards it |
| BlockTreeCheck.LinkedIffNothingMissing | src/main.cpp:4322-4323 | nChainTx is zero if and only if data are missing on the way to genesis |
| BlockTreeCheck.ValidatedInOrder | src/main.cpp:4328-4330 | a block validated up to a level descends from blocks validated as far |
| BlockTreeCheck.ValidPasses | src/main.cpp:4265-4406 | a valid tree passes the program's own check, if and only if it has an active chain or no more than one entry |
| BestChain.LastCandidate | src/main.cpp:2711-2718 | the greatest candidate |
| BestChain.DropChain | src/main.cpp:2731-2752 | drops exactly candidates that descend from the unusable block |
| BestChain.TestPath | src/main.cpp:2720-2758 | a candidate is usable if nothing on its way has failed or lacks data; the assertion on nChainTx holds |
| BestChain.FindMostWorkChain | src/main.cpp:2707-2760 | the greatest candidate that can be used; only unusable ones are dropped, and only descendants of failed blocks marked |
| BestChain.DisconnectTip | src/main.cpp:2493-2536 | the tip's parent becomes the tip, or nothing happens |
| BestChain.ConnectTip | src/main.cpp:2544-2600 | the block's parent is the tip whenever it is called; the block is found valid and becomes the tip, or is found invalid, or nothing happens but that it may have been found valid |
| BestChain.PruneBlockIndexCandidates | src/main.cpp:2763-2773 | drops exactly the candidates worse than the tip, and never all |
| BestChain.ActivateBestChainStep | src/main.cpp:2779-2844 | ends at the target, in a better position, at an invalid block or at an error, with all invariants |
| BestChain.BestCandidateIsBestOfAll | src/main.cpp:137-137 | a tip that is the greatest candidate is the greatest of all linked blocks not known to be invalid |
| BestChain.NothingLeft | src/main.cpp:2714-2716 | candidates run out only if a former tip has been found invalid |
| BestChain.ActivateBestChain | src/main.cpp:2851-2904 | ends, for any outcomes; on success every other linked block without failed ancestors has less work than the tip, or as much and a higher sequence number, or the same number and a higher address; nothing changes if the tip was best already; the program's own check passes |
| BestChain.FirstReceivedStays | src/main.cpp:110-129 | a tip that was best stays the best when blocks are linked later that have no more work |
| BestChain.ReceiveAndActivate | src/main.cpp:3045-3090 | receiving a block and activating the best chain leaves the active chain as it is, if the tip was best and no usable newly linked block has more work |
| ArithUint.BaseUint.constructor | src/arith_uint256.h:53-59 | a number of up to 64 bits |
| ArithUint.BaseUint.Copy | src/arith_uint256.h:40-44 | the same limbs in a new place |
| ArithUint.BaseUint.Assign | src/arith_uint256.h:110-117 | a number of up to 64 bits |
| ArithUint.BaseUint.GetLow64 | src/arith_uint256.h:267-271 | the value modulo 2 to the 64 |
| ArithUint.BaseUint.AddAssign | src/arith_uint256.h:138-147 | addition modulo 2 to the width, also of a number to itself |
| ArithUint.BaseUint.Negate | src/arith_uint256.h:80-87 | negation modulo 2 to the width |
| ArithUint.BaseUint.Increment | src/arith_uint256.h:175-182 | adding one modulo 2 to the width |
| ArithUint.BaseUint.SubAssign | src/arith_uint256.h:149-153 | subtraction modulo 2 to the width |
| ArithUint.BaseUint.MulSmall | src/arith_uint256.cpp:92-101 | the product with a limb modulo 2 to the width |
| ArithUint.BaseUint.MulAssign | src/arith_uint256.cpp:104-117 | the product modulo 2 to the width, but zero if a number is multiplied by itself in place; so it is right exactly if the objects differ or the square is zero |
| ArithUint.BaseUint.ShiftLeft | src/arith_uint256.cpp:58-72 | multiplication by a power of two modulo 2 to the width, for every shift |
| ArithUint.BaseUint.ShiftRight | src/arith_uint256.cpp:75-89 | division by a power of two, for every shift |
| ArithUint.BaseUint.CompareTo | src/arith_uint256.cpp:146-155 | the order of the values |
| ArithUint.BaseUint.Bits | src/arith_uint256.cpp:196-208 | one more than the place of the highest bit |
| ArithUint.BaseUint.DivAssign | src/arith_uint256.cpp:120-143 | quotient and remainder, failing if and only if the divisor is zero |
| Limbs.ValSplit | src/arith_uint256.cpp:58-89 | limbs split into a lower and a higher part |
| ShiftLemmas.LeftDone | src/arith_uint256.cpp:65-71 | all limbs moved add up to the shifted value |
| ShiftLemmas.RightDone | src/arith_uint256.cpp:82-88 | all limbs moved add up to the divided value |
| DivisionLemmas.DivideStep | src/arith_uint256.cpp:134-141 | one bit of the quotient keeps dividend equal to quotient times divisor plus rest |
| DivisionLemmas.SetBit | src/arith_uint256.cpp:137-137 | the bit set was not set before |
| CompactSpec.OverflowIff | src/arith_uint256.cpp:256-259 | the overflow flag is set if and only if the number meant has more than 256 bits |
| CompactSpec.RoundsDown | src/arith_uint256.cpp:244-285 | a compact form stands for the number rounded down to its mantissa, never overflows, and keeps the sign |
| CompactSpec.CompactIsFixed | src/arith_uint256.cpp:244-285 | encoding again gives the same compact form |
| CompactSpec.CompactIsMonotone | src/arith_uint256.cpp:263-285 | a larger number has no smaller compact form |
| CompactSpec.MeantExamples | src/test/arith_uint256_tests.cpp:423-525 | examples of the tests: compact forms and the numbers they mean |
| CompactSpec.CompactExamples | src/test/arith_uint256_tests.cpp:483-525 | examples of the tests: numbers and their compact forms |
| CompactTarget.TopBytesAre | src/arith_uint256.cpp:266-280 | moving a byte out when the sign bit would be hit is choosing one byte more |
| CompactTarget.SetCompact | src/arith_uint256.cpp:244-261 | value, sign and overflow |
| CompactTarget.GetCompact | src/arith_uint256.cpp:263-285 | the compact form; both assertions hold |
| Base58Spec.EnoughDigits | src/base58.cpp:97-97 | digits of one base suffice for those of another whenever the ratio does |
| Base58Spec.EncodeBufferSuffices | src/base58.cpp:97-97 | 58 to the buffer size exceeds 256 to the number of bytes, for every number of bytes |
| Base58Spec.DecodeBufferSuffices | src/base58.cpp:34-34 | 256 to the buffer size exceeds 58 to the number of digits, for every number of digits |
| Base58Spec.RepOfNum | src/base58.cpp:83-116 | digits without leading zeros are what their number is written as |
| Base58Text.DigitOfChar | src/base58.cpp:20-20 | every digit is found where it stands in the alphabet |
| Base58Text.AlphabetInOrder | src/base58.cpp:20-20 | digits, capitals and small letters without 0, I, O and l, in rising order |
| Base58Text.TextExamples | src/test/data/base58_encode_decode.json:3-13 | three examples of the tests |
| Base58Text.DecodeEncoded | src/base58.cpp:22-116 | decoding what was encoded gives the same bytes, leading zeros included |
| Base58Text.EncodeDecoded | src/base58.cpp:22-116 | encoding what was decoded gives the same string without the spaces around it |
| Base58.MultiplyAdd | src/base58.cpp:102-108 | multiplying and adding in the buffer, with nothing carried out of it |
| Base58.EncodeBase58 | src/base58.cpp:83-116 | the loops give the encoding |
| Base58.DecodeBase58 | src/base58.cpp:22-66 | the loops accept and decode exactly what the specification does |
| Base58.EncodeBase58Check | src/base58.cpp:128-135 | the encoding with four bytes of hash |
| Base58.DecodeBase58Check | src/base58.cpp:137-155 | accepts and decodes exactly what the specification does |
| Base58.CheckedRoundTrip | src/base58.cpp:128-155 | what was encoded with a checksum is decoded |
| Base58.AcceptedIff | src/base58.cpp:137-155 | a string is accepted if and only if it is, but for spaces around it, an encoding with its checksum |

## Left out

- Disk, LevelDB, sockets, messages, RPC, wallets, logging and locks: the database below the caches is a map, undo data are values, a stream is a sequence.
- Scripts, signatures, and hash functions: hashes are parameters; the address manager's bucket hashes are reduced to their ranges, and a hash used as a checksum to having at least four bytes.
- Elliptic curves: validity and decompression of public keys are parameters, of which it is assumed that a valid full key can be computed from its short form.
- `Select_`, `GetChance` and `GetPriority`: floating point, and termination only with probability one.
- `InvalidateBlock`, `ReconsiderBlock`, checkpoints, pindexBestInvalid and fork warnings.
- `nRounds` of an output, which lives in memory only; mapStakeSpent and the transaction filters touched by `DisconnectBlock`.
- `CheckQueueSpec.EveryRunIsSafe`: fQuit is never set in the original, so workers do not leave the loop here; a critical section is one step, and a batch is evaluated in one step outside the lock.
- `CheckQueueSpec.WaitReturns`: wake-ups without notification are covered by the safety results but not counted here.
- `CoinsView.CoinsViewCache.ModifyCoins`: the entry is copied out and written back by `Release`, instead of being shared while it is modified; as in the original, one modification at a time, and the layers below are left alone meanwhile.
- `BlockConnection.ConnectBlock`: covers what is done to the view, the undo data and the money supply; requires what block checks guarantee (one coinbase, first; no input twice; values not negative) and that the block's transactions have no unspent entry, which is not enforced for blocks that have a hash (src/main.cpp:2216).
- `BlockConnection.RestoreInput`: when it is not clean, the view is left open, since what a fully spent entry still says about itself is not seen from outside.
- `BlockConnection.DisconnectBlock`: when it is not clean, the contents of the view are left open, for the same reason.
- `BlockLinking.AddToBlockIndex`: headers have a known parent, as `AcceptBlockHeader` sees to; stake fields, pindexBestHeader and pnext.
- `BlockLinking.ReceivedBlockTransactions`: nChainTx and nSequenceId do not wrap around at 32 bits; data are received once for each block.
- `BlockTreeCheck.ValidPasses`: the conditions that the check asserts of every entry; the walk that visits the entries is not modelled.
- `BestChain.DisconnectTip`: disconnecting a block succeeds or fails; coins, memory pool and wallets are not part of this model of the tree.
- `BestChain.ConnectTip`: the same, with any outcome; what `ConnectBlock` does to the coins is modelled in `BlockConnection`.
- `BestChain.ActivateBestChainStep`: warnings about forks and the best invalid chain.
- `BestChain.ActivateBestChain`: connecting a block is any of its outcomes; corrupted copies, which leave a block as it is, may come up only a bounded number of times, since otherwise it need not end.
- `BestChain.FindMostWorkChain`: the set ordered by the comparator is a set of which the greatest is taken.
- `Download.FindNextBlocksToDownload`: blocks on their way are a map from hashes to peers; the peer's other counters are left out.
- `AddrManStore.Serialize`: the items of the stream are typed and not broken down into bytes; what the address records contain is kept as a value.
- `AddrManStore.Unserialize`: into an object with empty dictionaries only, since `Clear` leaves them as they are (src/addrman.h:428-446).
- `AddrManCheck.Check`: tells only whether the check succeeds, not the number of the first failing condition.
- `ArithUint.BaseUint.ShiftLeft`: bitwise or is a function on naturals, proved to be addition where no bits overlap.
- `Compressor.ScriptRoundTrip`: the length of a script, plus 6, fits 32 bits.
- `CoinsEncoding.EntryRoundTripIff`: the last output is unspent and spent ones are blank, as clean-up leaves them; indices of outputs do not wrap around at 32 bits.
- `Base58.DecodeBase58`: the string is what comes before the terminating null character.
