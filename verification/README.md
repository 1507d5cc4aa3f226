# Models of a sharded blockchain emulator, with proofs

This project models the parts of the emulator whose behaviour is spread over many
calls: the journalled EVM state, the storage layers of an account, the trie
iterator and key encodings, the byte-code interpreter's discipline, SSTORE
metering, the Broker2Earn allocator and its ledger, CLPA graph partitioning, and
the normal case of PBFT. What the source updates in place is a class whose methods
are proved against pure transition functions; what is promised over whole runs is
proved about those functions.

| files | component |
|---|---|
| `Basics`, `EvmWorld`, `EvmWorldProofs`, `EvmReads`, `Journal`, `JournalProofs`, `JournalLogs`, `JournalReads`, `StateDB` | mutators, what getters answer after them, their journal entries, snapshots and reverts, replay on followers |
| `StorageLayers`, `StateObject` | the dirty, pending, origin and uncommitted layers over the storage trie |
| `TriePreOrder`, `TrieReach`, `TrieIterator`, `TrieEncoding` | the explicit-stack iterator with seek, and the key encodings (hex-prefix encoding is Appendix C of the Ethereum Yellow Paper) |
| `CodeBitmap`, `EvmMachine` | packed JUMPDEST bitmap and its caches; program counter, stack and memory of the interpreter loop |
| `SstoreMetering` | net gas metering under EIP-1283 and EIP-2200 |
| `FiniteSums`, `BrokerMessages`, `Rounding`, `Relaxation`, `Allocator` | one Broker2Earn allocation |
| `Rebalance`, `BrokerBooks`, `BrokerLedger`, `BrokerCommittee` | moving a broker's money between shards, locking it, releasing it |
| `GraphCuts`, `Clpa` | cut statistics, their incremental update, the partitioning loop |
| `PbftNode`, `PbftSystem` | one node's handlers; all nodes of a shard as a step system |
| `PbftOrder`, `PbftOvertaking`, `PbftProgress` | in which order a node applies the proposals and a run that breaks it; quorums are acted on and nothing delivered is missed |

## How the source is read

- Go's map iteration order, `sort.Slice` with a floating-point key, and
  `Random_choice` are arbitrary choices. CLPA's floating-point score is any function.
- Balances and values are unbounded integers where the source uses `big.Int`; 64-bit
  and 256-bit wrap-around is written out in the EVM parts (`Low64`, `Wrap256`,
  `Wrap64`).
- The journal keeps the low 64 bits of a balance, forgets replaced code, and undoes
  an overwriting `CreateAccount` by dropping the account. So a mutator's own journal
  leads back, and replays, only under conditions; these are stated as predicates on
  the state before the call (`Undoable`, `Replayable`) and proved necessary and
  sufficient.
- `copy()` drops the shard id of an entry. Replay never reads it, but
  `journal.revert` does, so a copied journal reverts on shard 0 only (`CopyReverts`).
- `commitStorage` before `updateTrie` leaves a stale marker; the next `updateTrie`
  then takes an error branch exactly at the keys concerned (`EarlyCommitIsRefused`).
  Markers are exact throughout a run if and only if no commit does that
  (`ExactIffCommitsReady`, `EarlyCommitWitness`), and the error branch is reachable
  after a run exactly at the keys struck by such a commit and not healed since
  (`RefusedIffStruck`).
- `changeShardRecompute` miscounts self-loops, by exactly their number
  (`ShiftIsExact`, `SelfLoopMiscounted`).
- URFA's search for a second broker tests the broker next in line at every turn, so
  the second broker is always the next one or there is none (`OfferRest`).
- `handlePrePrepare` broadcasts a Prepare whatever its checks say, and vote maps are
  keyed by the decoded pointer, so a duplicated message counts twice
  (`DuplicatesCountTwice`); the step system therefore delivers a broadcast to a node
  at most once.
- `handlePrePrepare` raises the stage whenever it is called and `handleCommit` does not
  compare sequence ids, so two PrePrepares let a follower take Commits of the second
  and apply that one first (`Overtaken`). A node applies in proposal order exactly as
  long as every Commit that completes a quorum carries the node's own sequence id
  (`OrderIffInTurn`).
- A broker-1 transaction reported again after it was settled releases the lock of
  another one; money is conserved all the same (`ConfirmExactIff`,
  `RepeatedReportTakesAnother`). A report of a negative value conserves money too, but
  overdraws the sender's shard if that holds less (`ConfirmBookedIff`).
- A condition variable's wait is a handler that is not enabled yet; `Propose` is one
  step, taken when `sequenceLock` is free.
- The source keeps one pair of broker books per transaction type. They share no
  state, so one `TypeLedger` object stands for one type, and it skips reported
  transactions of other types.

## Model

| member | source | states |
|---|---|---|
| EvmWorldProofs.UndoRestoresIff | vm/state/journal.go:504-758 | reverting the entries a mutator appended gives back the whole earlier state if and only if the account was new or held a balance below 2^64 and, for SetCode, no code, and CreateAccount overwrote nothing |
| EvmWorldProofs.LargeBalanceForgotten | vm/state/state_object.go:474-480 | a balance of 2^64 is not restored |
| EvmWorldProofs.OldCodeForgotten | vm/state/journal.go:653-658 | replaced code is not restored |
| EvmWorldProofs.OverwrittenAccountForgotten | vm/state/statedb.go:696-698 | a live account overwritten by CreateAccount is not restored |
| EvmWorldProofs.RedoReproducesIff | vm/state/journal.go:508-730 | executing the entries a mutator appended on the earlier state reproduces its result, logs apart, if and only if the new balance is below 2^64; refunds come out right modulo 2^64 |
| EvmWorldProofs.RedoCore | vm/state/journal.go:747-748 | Execute neither reads nor writes logs |
| EvmWorldProofs.TransientBack | vm/state/transient_storage.go:36-50 | writing back the previous value restores the nested map exactly, emptied inner maps included |
| EvmWorldProofs.PerformValid | vm/state/transient_storage.go:36-50 | every mutator keeps maps free of zero values and empty inner maps |
| EvmReads.AccountsRead | vm/state/statedb.go:355-568 | after any run of mutators, every getter's answer told from the run alone: a balance is credits less debits since it was last set, modulo 2^256; nonce, code and every storage slot are their last write; flags, liveness and committed storage follow creation and destruction; nothing else changes them |
| EvmReads.TransientReads | vm/state/statedb.go:570-588 | transient storage answers the last write |
| EvmReads.RefundReads | vm/state/statedb.go:338-351 | the refund is what was added less what was taken back, modulo 2^64 |
| EvmReads.LogsRead | vm/state/statedb.go:293-303 | each transaction's logs are those it added, in order, numbered over all transactions |
| EvmReads.PanicsIff | vm/state/statedb.go:345-351 | a run stops exactly at a SubRefund that exceeds the counter or a CreateContract on a missing account |
| EvmReads.PayMoves | chain/blockchain.go:543-550 | a covered transfer lowers the payer's balance and raises the payee's by its value and changes no other |
| EvmReads.PaymentsConserve | chain/blockchain.go:543-550 | no list of transfers behind CanTransfer changes the sum of the balances of the accounts involved, and none wraps |
| JournalProofs.RunSound | vm/state/journal.go:91-200 | over every run, revision ids increase strictly, indices never decrease, dirty counts are exact, every revision can still be undone, and a snapshot is within reach or gone for good |
| JournalProofs.RevertToSnapshotRestores | vm/state/journal.go:99-112 | after any run with nested snapshots and reverts, reverting to an id panics if it was invalidated, and otherwise restores accounts, storage, transient storage, logs, refund, flags, entries, revisions and dirty counts, ripemd's count apart |
| JournalProofs.RevertedIdsStayInvalid | vm/state/journal.go:99-112 | a revert invalidates its id and every later one, for every run that follows |
| JournalProofs.ReplayReproduces | chain/blockchain.go:380-383 | executing the journal entries that survive since a snapshot on the snapshot's state reproduces the live state, whatever inner frames were reverted |
| JournalProofs.CopyReplays | vm/state/journal.go:215-226 | executing the surviving entries of a copied journal reproduces the live state too |
| JournalProofs.CopyReverts | vm/state/journal.go:215-226 | a copied journal reverts as the original on shard 0 and reverts nothing elsewhere |
| JournalProofs.AppendAllIs | vm/state/journal.go:115-120 | appended entries are counted exactly, a second time for a touched ripemd |
| JournalProofs.UnwindIs | vm/state/journal.go:136-200 | reverting to an index drops the entries from it on, undoes them last first, and keeps the dirty counts exact |
| JournalReads.ReadsAsIfKept | vm/state/journal.go:91-200 | after any run with nested snapshots and reverts, every account, slot, transient slot, log and the refund read as if only the mutators that no revert took back had run |
| JournalReads.RunMirrors | vm/state/journal.go:91-200 | the live state, and every state within reach of a revert, is that of the surviving mutators |
| JournalReads.DirtiesCover | vm/state/journal.go:115-200 | after any such run, an account without a dirty count is as it was at the start, the new-contract flag apart |
| JournalLogs.LogRevertNeverPanics | vm/state/journal.go:750-758 | after any run, reverting to a valid snapshot never slices an empty log list nor lowers a log count of zero |
| JournalLogs.RunLogs | vm/state/statedb.go:293-303 | over every run the journal holds no more log entries than there are logs |
| StateDBObjects.JournalLog.Search | vm/state/journal.go:101-103 | the binary search finds the first revision id that is at least the given one |
| StateDBObjects.StateDB.Append | vm/state/journal.go:115-120 | one entry and its dirty count |
| StateDBObjects.StateDB.CreateObject | vm/state/statedb.go:669-681 | is the CreateAccount transition |
| StateDBObjects.StateDB.GetOrNewStateObject | vm/state/statedb.go:656-665 | returns the live account or journals a new one |
| StateDBObjects.StateDB.GetBalance | vm/state/statedb.go:367-374 | reads a balance and may create the account, which is journalled |
| StateDBObjects.StateDB.AddBalance | vm/state/state_object.go:453-464 | is the AddBalance transition, touch of an empty account included |
| StateDBObjects.StateDB.SubBalance | vm/state/state_object.go:467-472 | is the SubBalance transition, modulo 2^256 |
| StateDBObjects.StateDB.SetBalance | vm/state/state_object.go:474-484 | is the SetBalance transition; the entry holds the low 64 bits |
| StateDBObjects.StateDB.SetNonce | vm/state/state_object.go:565-575 | is the SetNonce transition |
| StateDBObjects.StateDB.SetCode | vm/state/state_object.go:550-563 | is the SetCode transition |
| StateDBObjects.StateDB.SetState | vm/state/state_object.go:211-238 | is the SetState transition; an unchanged value journals nothing |
| StateDBObjects.StateDB.SelfDestruct | vm/state/statedb.go:539-555 | clears the balance and sets the flag, each journalled only if it changes |
| StateDBObjects.StateDB.SelfDestruct6780 | vm/state/statedb.go:557-566 | destroys only a contract made in the same transaction |
| StateDBObjects.StateDB.CreateContract | vm/state/statedb.go:705-711 | sets the flag once; a missing account is a nil dereference |
| StateDBObjects.StateDB.SetTransientState | vm/state/statedb.go:570-578 | is the SetTransientState transition |
| StateDBObjects.StateDB.SetTransient | vm/state/transient_storage.go:36-50 | the nested update in canonical form |
| StateDBObjects.StateDB.AddRefund | vm/state/statedb.go:338-341 | is the AddRefund transition, modulo 2^64 |
| StateDBObjects.StateDB.SubRefund | vm/state/statedb.go:345-351 | is the SubRefund transition, refused exactly when the counter is too small |
| StateDBObjects.StateDB.AddLog | vm/state/statedb.go:293-303 | is the AddLog transition |
| StateDBObjects.StateDB.Snapshot | vm/state/journal.go:91-96 | is the Snapshot transition |
| StateDBObjects.StateDB.Revert | vm/state/journal.go:136-200 | the backward loop is the unwinding of the journal |
| StateDBObjects.StateDB.UndoChange | vm/state/journal.go:504-758 | every entry's Revert |
| StateDBObjects.StateDB.RevertToSnapshot | vm/state/journal.go:99-112 | is the RevertTo transition, and panics exactly when that one does |
| StorageLayers.ReadsRefineFlatMap | vm/state/state_object.go:161-277 | over every interleaving of reads, SetState, finalise, updateTrie and commitStorage, reads agree with one flat map that only SetState changes |
| StorageLayers.MarkersExact | vm/state/state_object.go:241-365 | if every commit follows an updateTrie that left no marker, then always: an unmarked key has its committed value in the trie, a marked one holds the trie's value and differs from pending, and no error branch is reachable |
| StorageLayers.ExactIffCommitsReady | vm/state/state_object.go:241-414 | from an exact start, the markers are exact throughout a run if and only if every commit of it finds no marker |
| StorageLayers.RefusedIffStruck | vm/state/state_object.go:241-414 | after any run from an exact start, updateTrie would take an error branch at a key if and only if some commit found a marker there and since then neither was the trie updated nor a change of that key finalised |
| StorageLayers.RefusedStep | vm/state/state_object.go:241-414 | the refused keys after each operation: a commit refuses what is marked, updateTrie clears all, finalise clears the keys it changes |
| StorageLayers.EarlyCommitWitness | vm/state/state_object.go:381-414 | one write, finalised and committed without updateTrie, whose slot the next updateTrie refuses |
| StorageLayers.ApplyKeeps | vm/state/state_object.go:161-414 | one operation at one key: value, caches and marker |
| StorageLayers.UpdateTrieSyncs | vm/state/state_object.go:287-365 | after updateTrie the trie is the committed view, and the flat map exactly where nothing is dirty |
| StorageLayers.CommitKeepsIff | vm/state/state_object.go:381-414 | commitStorage keeps a key's marker exact if and only if updateTrie had cleared it |
| StorageLayers.EarlyCommitIsRefused | vm/state/state_object.go:287-365 | otherwise the next updateTrie takes an error branch at exactly those keys and leaves the trie behind |
| StorageLayers.DiffIsExact | vm/state/state_object.go:381-414 | the emitted diff holds exactly the keys changed since the last commit, with their new and old values |
| StateObjects.StateObject.GetCommittedState | vm/state/state_object.go:172-208 | pending, then origin, then the trie, and caches what it read |
| StateObjects.StateObject.GetState | vm/state/state_object.go:161-169 | the flat value and the committed one |
| StateObjects.StateObject.SetState | vm/state/state_object.go:211-238 | the write to the dirty layer |
| StateObjects.StateObject.FinaliseStorage | vm/state/state_object.go:241-277 | the loop over the dirty layer, in any order |
| StateObjects.StateObject.UpdateTrieStorage | vm/state/state_object.go:287-365 | the loops over the uncommitted layer, in any order, with the refused keys |
| StateObjects.StateObject.CommitStorage | vm/state/state_object.go:381-414 | the loop over the pending layer, in any order |
| TriePreOrder.PreOrderSorted | vm/trie/iterator.go:562-602 | the recursive walk, value slot before children 0 to 15, never goes back in path order |
| TriePreOrder.PreOrderDistinct | vm/trie/iterator.go:562-602 | the walk visits every node once |
| TriePreOrder.FromTargetExact | vm/trie/iterator.go:562-567 | from the first visit that reached a target on, exactly the visits that reached it follow |
| TrieReach.PreOrderExact | vm/trie/iterator.go:471-492 | a walk visits a node under a path if and only if the path leads to it over short keys and slots of full nodes |
| TrieReach.LeavesTerminate | vm/trie/iterator.go:212-214 | a path ends in the terminator exactly at a value |
| TrieReach.GetIffLeads | vm/trie/trie.go:155-189 | a lookup of a key finds a value if and only if the key leads to it |
| TrieReach.LeavesAreEntries | vm/trie/trie.go:155-189 | the leaves of a walk are exactly the pairs of key and value that lookups find |
| TrieIterator.NodeIterator.constructor | vm/trie/iterator.go:164-173 | a new iterator has left the walk from the start key on |
| TrieIterator.NodeIterator.Next | vm/trie/iterator.go:284-301 | yields the next node of the recursive walk, or skips what is below the current one |
| TrieIterator.NodeIterator.Peek | vm/trie/iterator.go:333-362 | finds the next node without consuming it |
| TrieIterator.NodeIterator.PeekSeek | vm/trie/iterator.go:365-393 | skips no node at or past the key |
| TrieIterator.NodeIterator.Seek | vm/trie/iterator.go:303-320 | leaves exactly the part of the walk from the first node at or past the key |
| TrieIterator.NodeIterator.FindChild | vm/trie/iterator.go:444-468 | the next non-nil slot in iteration order |
| TrieIterator.NodeIterator.NextChild | vm/trie/iterator.go:471-494 | the next child in walk order |
| TrieIterator.NodeIterator.NextChildAt | vm/trie/iterator.go:498-539 | the child closest to the key; the children passed over lie before it |
| TrieIterator.NodeIterator.ClosestChild | vm/trie/iterator.go:512-523 | the loop over siblings stops at the last one that may still lead to the key |
| TrieIterator.NodeIterator.Push | vm/trie/iterator.go:541-547 | consumes one node of the walk |
| TrieIterator.NodeIterator.Pop | vm/trie/iterator.go:549-556 | restores the parent's path |
| TrieIterator.SeekExact | vm/trie/iterator.go:303-320 | a node is yielded after seeking if and only if its path is at or past the start key |
| TrieIterator.YieldsExactly | vm/trie/iterator.go:284-556 | the walk from a start key holds exactly the nodes that some path at or past it leads to, sorted and without repetition, leaves being the entries of the trie |
| TrieIterator.Walk | vm/trie/iterator.go:284-301 | draining a new iterator yields exactly the nodes of the trie at or past the start key, each once and in order; the leaves among them are exactly the entries that lookups find |
| TrieEncoding.CompactRoundTrip | vm/trie/encoding.go:37-94 | compactToHex undoes hexToCompact for every nibble key with or without terminator |
| TrieEncoding.HexToCompactInjective | vm/trie/encoding.go:37-51 | different keys have different compact forms |
| TrieEncoding.KeybytesRoundTrip | vm/trie/encoding.go:96-119 | hexToKeybytes undoes keybytesToHex |
| TrieEncoding.CompactIsHexPrefix | vm/trie/encoding.go:37-53 | byte by byte the hex-prefix encoding of Appendix C of the Yellow Paper |
| TrieEncoding.HexIsNibbles | vm/trie/encoding.go:96-105 | two nibbles a byte, the higher first, and the terminator |
| TrieEncoding.EncodeCompact | vm/trie/encoding.go:37-51 | the buffer it fills is the compact form |
| TrieEncoding.EncodeCompactInPlace | vm/trie/encoding.go:55-80 | overwriting its own input gives the same bytes |
| TrieEncoding.PackInPlace | vm/trie/encoding.go:75-77 | every pair of nibbles is read before its place is overwritten |
| TrieEncoding.Flags | vm/trie/encoding.go:55-72 | terminator and parity decide the first byte |
| TrieEncoding.DecodeNibbles | vm/trie/encoding.go:121-125 | packs pairs of nibbles |
| TrieEncoding.DecodeKeybytes | vm/trie/encoding.go:96-105 | unpacks bytes and adds the terminator |
| TrieEncoding.DecodeCompact | vm/trie/encoding.go:82-94 | drops the flags according to the first nibble |
| CodeBitmap.ComputeBitmap | vm/analysis.go:64-118 | bit i is set exactly when byte i is PUSH data of the linear walk; every packed write stays inside len/8+5 bytes |
| CodeBitmap.SetN | vm/analysis.go:37-43 | marks the next up to 7 positions, across a byte boundary |
| CodeBitmap.Set8 | vm/analysis.go:45-49 | marks the next 8 positions |
| CodeBitmap.Set16 | vm/analysis.go:51-56 | marks the next 16 positions |
| CodeBitmap.MarkData | vm/analysis.go:82-117 | marks exactly the data bytes of one PUSH |
| CodeBitmap.CodeSegment | vm/analysis.go:59-61 | reads one bit |
| CodeBitmap.MarkedNext | vm/analysis.go:75-118 | the bitmap stays exact from one instruction to the next |
| CodeBitmap.DataBetween | vm/analysis.go:75-118 | between an instruction and the next there is no boundary |
| CodeBitmap.Contract.IsCode | vm/contract.go:87-116 | whichever cache answers, the answer is that of a fresh analysis |
| CodeBitmap.Contract.ValidJumpdest | vm/contract.go:71-83 | valid exactly at a JUMPDEST on an instruction boundary |
| EvmMachine.SizeCoversTouched | vm/memory_table.go:19-121 | a memory size that does not overflow covers every range the operation touches, both ranges of calls and of MCOPY, and zero-length ranges anywhere |
| EvmMachine.RoundedUp | vm/common.go:63-69 | rounding to words covers the size and is refused exactly above 2^64-32 |
| EvmMachine.CoveredByRounded | vm/interpreter.go:246-258 | after the resize every touched range lies inside memory |
| EvmMachine.SizeIsNeeded | vm/memory_table.go:19-121 | a memorySize function answers exactly one past the last byte its operation touches, or overflows when that does not fit 64 bits; operations that touch nothing ask for nothing |
| EvmMachine.GrownIsLeast | vm/interpreter.go:239-287 | memory after the resize is the shortest whole words that hold it and every range touched |
| EvmMachine.HighByteFirst | vm/memory.go:53-62 | the first byte of a word counts most |
| EvmMachine.BoundaryKept | vm/instructions.go:625-649 | stepping over an instruction or jumping to a valid destination keeps the counter on a boundary |
| EvmMachine.JumpWraps | vm/instructions.go:625-635 | a jump to 0 passes through 2^64-1 and arrives |
| EvmMachine.StoreThenLoad | vm/instructions.go:587-605 | MLOAD reads the word that MSTORE wrote |
| EvmMachine.WordRoundTrip | vm/memory.go:53-62 | the bytes of a number are read back as that number |
| EvmMachine.GetData | vm/common.go:38-48 | a window of a buffer, with zeros past its end |
| EvmMachine.Machine.Step | vm/interpreter.go:206-305 | one turn ends exactly as stack, code and input say (underflow, overflow, size overflow, bad jump, stop, error or going on); if it goes on, memory is the old one grown by no more than needed and changed as the operation says, the stack holds what the operation leaves, and the counter is at the next instruction or the destination of a taken jump |
| EvmMachine.Machine.Run | vm/interpreter.go:206-305 | over every run, whatever calls return or fail to, the counter is on a boundary or past the end, the stack holds at most 1024 items, memory is a multiple of 32 bytes and never shrinks |
| EvmMachine.Machine.Prepare | vm/interpreter.go:226-288 | stack bounds exact; memory grows to just what the operation needs, or stays as it is when the turn stops here; size overflow exact |
| EvmMachine.Machine.Expand | vm/interpreter.go:239-287 | memory resized to the least size needed, or the overflow reported |
| EvmMachine.Machine.ExecStack | vm/instructions.go:651-1100 | pushes, duplications, exchanges, PC, MSIZE and stack-only operations leave exactly their results and touch no memory |
| EvmMachine.Machine.ExecStore | vm/instructions.go:594-607 | MSTORE, MSTORE8 and MCOPY leave exactly their bytes in memory |
| EvmMachine.Machine.ExecCopyFrom | vm/instructions.go:380-470 | CODECOPY from the code and the other copies from the incoming buffer |
| EvmMachine.Machine.ExecCallFrom | vm/instructions.go:835-968 | a call leaves its result and, when it returns data, that data in its return range |
| EvmMachine.Machine.Advance | vm/interpreter.go:298-304 | the increment leads to the next instruction or to the jump's destination, both boundaries |
| EvmMachine.Machine.Execute | vm/instructions.go:587-1092 | every table entry stays within its stack items and memory ranges, leaves on the stack and in memory what the operation computes, and ends as its arguments say |
| EvmMachine.Machine.ExecBytes | vm/instructions.go:238-965 | the operations on memory change only the ranges they touch |
| EvmMachine.Machine.ExecPush | vm/instructions.go:1060-1092 | pushes the number of the data bytes, zeros past the end of the code, and steps over them |
| EvmMachine.Machine.ExecDup | vm/stack.go:100-102 | copies the n-th item to the top |
| EvmMachine.Machine.ExecSwap | vm/stack.go:51-98 | exchanges the top with the n-th item below |
| EvmMachine.Machine.ExecJump | vm/instructions.go:625-649 | jumps exactly to valid destinations |
| EvmMachine.Machine.ExecMcopy | vm/eips.go:264-274 | every byte of the destination becomes the byte the source range held before, overlapping or not, and no other changes |
| EvmMachine.Machine.ExecCall | vm/instructions.go:835-965 | the arguments are the bytes of the argument range; the return range takes the return data there is, or nothing when the call failed; no other byte changes |
| EvmMachine.Machine.ExecMstore | vm/instructions.go:594-605 | writes the 32 big-endian bytes of the value, or its lowest byte, and nothing else |
| EvmMachine.Machine.ExecMload | vm/instructions.go:587-592 | pushes the number of the 32 bytes at the offset |
| EvmMachine.Machine.ExecCopy | vm/instructions.go:380-503 | writes a window of the buffer, zeros past its end, and nothing else; RETURNDATACOPY refuses exactly a window that is not inside the buffer |
| EvmMachine.Machine.ExecRead | vm/instructions.go:238-256 | the bytes of the range |
| EvmMachine.Machine.Read | vm/memory.go:72-92 | the bytes of a range inside memory |
| EvmMachine.Machine.Write | vm/memory.go:38-50 | changes only the range |
| EvmMachine.Machine.Resize | vm/memory.go:65-69 | grows with zeros, never shrinks |
| SstoreMetering.NetCost | vm/gas_table.go:138-224 | over any writes to any slots, gas minus net refund is the no-op price per write plus a potential of each slot's original and present value; the counter never falls below what may still be taken back |
| SstoreMetering.GasAndRefund | vm/gas_table.go:138-224 | over any writes, gas is the no-op price of each plus the surcharge of each departure from an original value; the counter gains the clearing refund of each slot cleared now and the reset refund of each return |
| SstoreMetering.WriteClosed | vm/gas_table.go:138-224 | the same for one write; SubRefund takes exactly the clearing refund that falls away |
| SstoreMetering.SubRefundCovered | vm/gas_table.go:138-224 | at every write the counter covers what SubRefund takes |
| SstoreMetering.WriteCovered | vm/gas_table.go:138-224 | the same for the i-th write of a list, with a bound on the counter |
| SstoreMetering.WriteBalances | vm/gas_table.go:138-167 | one write, for both schedules |
| SstoreMetering.StepCost | vm/gas_table.go:138-224 | one write among many slots |
| SstoreMetering.NothingOwedAtStart | vm/gas_table.go:138-224 | a transaction starts with nothing owed |
| SstoreMetering.RevertsStayCovered | vm/gas_table.go:138-224 | whatever was written, snapshotted and reverted before, the counter covers what SubRefund takes for the next write, and slots, refund and net refund are those of the surviving writes |
| SstoreMetering.PlayAsIfKept | vm/state/journal.go:672-733 | over any interleaving of writes, snapshots and reverts, a revert takes slots and refund back to what the surviving writes alone would have left |
| SstoreMetering.RoomFits | vm/state/statedb.go:338-341 | a counter with room for 19800 per action never wraps |
| SstoreMetering.Storage.GasSStore | vm/gas_table.go:138-167 | the branches compute the schedule's gas and refund movements, the counter modulo 2^64 |
| SstoreMetering.Storage.GasSStoreEIP2200 | vm/gas_table.go:184-224 | the sentry refuses a call with 2300 gas or less and touches nothing; otherwise as gasSStore |
| SstoreMetering.Storage.Perform | vm/state/statedb.go:338-351 | one write, snapshot or revert on the 64-bit counter; it panics exactly on an uncovered SubRefund or a revert to a snapshot that is gone |
| SstoreMetering.Storage.Execute | vm/gas_table.go:138-224 | over a run of metered writes, snapshots and reverts whose true counter fits 64 bits, it panics exactly at a revert to a snapshot that is gone, never in SubRefund |
| Rounding.Round | supervisor/Broker2Earn/rounding.go:16-93 | for all in-range picks: it terminates, every transaction with a candidate broker is considered exactly once, by its first candidate in visiting order, what is returned is what greedy placement of those choices gives, no transaction twice and no broker beyond its balance |
| Rounding.DrainBroker | supervisor/Broker2Earn/rounding.go:53-90 | one broker's list is emptied with the index maps exact throughout |
| Rounding.BuildIndex | supervisor/Broker2Earn/rounding.go:36-50 | the position maps give every transaction's true index in every list |
| Rounding.CutOut | supervisor/Broker2Earn/rounding.go:79-88 | splicing a transaction out of all its lists keeps the index exact |
| Rounding.LowerTail | supervisor/Broker2Earn/rounding.go:84-87 | lowers the positions behind a cut by one and no others |
| Rounding.CutColumn | supervisor/Broker2Earn/rounding.go:81-88 | one list and its positions after a cut |
| Rounding.PlacedWithin | supervisor/Broker2Earn/rounding.go:69-78 | no broker is assigned more than its balance |
| Rounding.PlacedOnce | supervisor/Broker2Earn/rounding.go:71-78 | only considered messages are placed, each at most once |
| Rounding.LeftOutDoesNotFit | supervisor/Broker2Earn/rounding.go:71-78 | a message left out does not fit its broker even at the end |
| Rounding.PlacedAt | supervisor/Broker2Earn/rounding.go:52-90 | a choice is placed if and only if its broker could still front it when it was considered |
| Relaxation.Relax | supervisor/Broker2Earn/URFA.go:15-117 | for every sort and broker order, the offers are those of filling brokers one after the other, for different input transactions and known brokers |
| Relaxation.OfferOne | supervisor/Broker2Earn/URFA.go:53-115 | one turn of the filling loop |
| Relaxation.OfferRest | supervisor/Broker2Earn/URFA.go:94-106 | the search offers the rest to the next broker or to none |
| Relaxation.FillSound | supervisor/Broker2Earn/URFA.go:51-116 | every offer goes to one broker, or to one and the next, fits the first, and finds it not filled beyond its balance |
| Relaxation.FillPicks | supervisor/Broker2Earn/URFA.go:51-116 | offers are for different input transactions, each with at least one known broker |
| Relaxation.CandidateIff | supervisor/Broker2Earn/URFA.go:51-117 | a transaction is offered to exactly the broker being filled, and to the next as well if it fills the first and the next could front the rest; to none if all are full, it exceeds the broker, or it fills the last one |
| Relaxation.OfferedIff | supervisor/Broker2Earn/URFA.go:51-117 | so it gets an offer if and only if none of the three holds |
| Relaxation.FillFull | supervisor/Broker2Earn/URFA.go:51-117 | no broker is left before it is loaded to its balance; the last one is by the transaction that is not offered |
| Allocator.Allocate | supervisor/Broker2Earn/B2E.go:19-77 | allocated and rest partition the input; only cross-shard transactions are allocated, none twice, none beyond a broker's total; and what is allocated is, round by round, what relaxing and rounding place on what the round before left |
| Allocator.RoundKeeps | supervisor/Broker2Earn/B2E.go:53-70 | every round keeps the running balances non-negative and equal to totals less allocations |
| Allocator.RelaxAndRound | supervisor/Broker2Earn/B2E.go:57-58 | different pending transactions within every balance, namely the choices that fit, among choices that consider every offer made to the pending transactions in some order |
| Allocator.PlacedIff | supervisor/Broker2Earn/B2E.go:53-70 | in every round a pending transaction is placed if and only if it was offered and the broker that considered it could still front it |
| Allocator.PassPlacesSome | supervisor/Broker2Earn/B2E.go:53-70 | a round in which every pending value is below every running balance places something |
| Allocator.AllocatesSome | supervisor/Broker2Earn/B2E.go:19-77 | so an allocation of at least one round takes something if every value is below every broker's total |
| Allocator.OneRound | supervisor/Broker2Earn/B2E.go:53-70 | placed, charged, and what is left pending |
| Allocator.AllRounds | supervisor/Broker2Earn/B2E.go:53-70 | each round works on what the one before left, in the other buffer |
| Allocator.Charge | supervisor/Broker2Earn/B2E.go:61-65 | subtracts each broker's share |
| Allocator.Difference | supervisor/Broker2Earn/B2E.go:78-90 | keeps, in order, the messages whose transaction is not in the other list |
| Allocator.Accumulate | supervisor/Broker2Earn/B2E.go:38-48 | sums every broker's shards |
| Allocator.CrossShardOnly | supervisor/Broker2Earn/B2E.go:30-34 | keeps exactly the cross-shard messages, in order |
| Rebalance.CoverAll | supervisor/committee/committee_broker_b2e.go:485-520 | in any shard order, all deficits are covered if and only if the broker's total suffices; changes sum to zero and no shard both gives and receives |
| Rebalance.CoverShard | supervisor/committee/committee_broker_b2e.go:490-517 | one deficit is covered from other shards in any order, or everything else is used up |
| BrokerLedger.GenerateMoves | supervisor/committee/committee_broker_b2e.go:448-552 | at most one move per broker and shard, which says exactly the change that covers the deficits; where a broker's total suffices, every slot is left with what is about to be locked on it |
| BrokerLedger.PeekChange | supervisor/committee/committee_broker_b2e.go:461-483 | balances less what is about to be locked, slot by slot |
| BrokerLedger.HandleMoves | supervisor/committee/committee_broker_b2e.go:425-446 | applies every shard's moves |
| BrokerLedger.ApplyList | supervisor/committee/committee_broker_b2e.go:430-443 | one shard's moves; with every step covered no balance is negative in between |
| BrokerLedger.EveryMoveCovered | supervisor/committee/committee_broker_b2e.go:425-446 | no balance is negative at any point while the moves are applied |
| BrokerLedger.MovesSuffice | supervisor/committee/committee_broker_b2e.go:389-392 | after the moves every slot has what is about to be locked on it |
| BrokerLedger.LockToken | supervisor/committee/committee_broker_b2e.go:401-424 | value moves from balance to lock on the recipient's shard, slot by slot |
| BrokerLedger.LockStep | supervisor/committee/committee_broker_b2e.go:401-424 | no balance is negative after any number of the messages |
| BrokerLedger.ClaimTotal | supervisor/committee/committee_broker_b2e.go:401-424 | over all shards, a broker locks what it fronts |
| BrokerCommittee.Settle | supervisor/committee/committee_broker_b2e.go:389-392 | rebalancing and locking keep available plus locked equal to the stake and nothing negative, and exact locks exact; slot by slot, a shard short of its claims only receives, any other only gives |
| BrokerCommittee.LockCovers | supervisor/committee/committee_broker_b2e.go:288-290 | the insufficient-lock skip never fires for a transaction in flight |
| BrokerCommittee.ConfirmKeeps | supervisor/committee/committee_broker_b2e.go:291-298 | releasing the lock of a transaction in flight to the sender's shard keeps available plus locked equal to the stake, nothing negative, and locks equal to what is in flight |
| BrokerCommittee.ConfirmExactIff | supervisor/committee/committee_broker_b2e.go:288-298 | a covered report leaves exact locks exact if and only if the transaction was in flight or carries no value |
| BrokerCommittee.RepeatedReportTakesAnother | supervisor/committee/committee_broker_b2e.go:288-298 | of two cross-shard transactions in flight, one is settled and then reported again: exact locks are exact after the first report and not after the second, and what is left locked no longer covers the other transaction |
| BrokerCommittee.ConfirmBookedIff | supervisor/committee/committee_broker_b2e.go:288-298 | a covered report leaves nothing negative if and only if the sender's shard can take the value |
| BrokerCommittee.ConfirmOne | supervisor/committee/committee_broker_b2e.go:279-298 | any report, of a negative value too, keeps available plus locked equal to the stake; one of no negative value leaves nothing negative; a transaction in flight is settled |
| BrokerCommittee.SettleReported | supervisor/committee/committee_broker_b2e.go:288-298 | skipped when the lock is too small, settled otherwise |
| BrokerCommittee.ConfirmAll | supervisor/committee/committee_broker_b2e.go:279-309 | any list of reports keeps available plus locked equal to the stake, and without negative values nothing becomes negative; if only transactions in flight are reported, all are settled and paid back on their senders' shards |
| BrokerCommittee.Classify | supervisor/committee/committee_broker_b2e.go:348-380 | self-transfers dropped, cross-shard transactions made messages, the rest passed on |
| BrokerCommittee.InnerClassified | supervisor/committee/committee_broker_b2e.go:348-380 | the transactions of one shard come out in order, each once |
| BrokerCommittee.CrossClassified | supervisor/committee/committee_broker_b2e.go:348-380 | the cross-shard ones in order in messages of the first broker |
| BrokerCommittee.SpotsExact | supervisor/committee/committee_broker_b2e.go:348-380 | the positions of either kind are increasing and are all there are, self-transfers apart |
| BrokerCommittee.TypeLedger.constructor | broker/broker.go:73-82 | equal balances on all shards, nothing locked |
| BrokerCommittee.TypeLedger.DealTxByBroker | supervisor/committee/committee_broker_b2e.go:339-399 | the batch is split fairly into sent and kept messages, what is sent is locked and in flight, every slot is accounted for, the ledger's invariant holds again, and exact locks stay exact |
| BrokerCommittee.TypeLedger.HandleBlockInfo | supervisor/committee/committee_broker_b2e.go:263-314 | for any report, available plus locked stays the stake, and nothing becomes negative unless a negative value is reported; as long as only transactions in flight are reported, they leave the in-flight set, their value returns on the senders' shards, and locks stay exact, over every interleaving with allocations |
| GraphCuts.MoveVertex | partition/partition_CLPA.go:146-168 | what moving a vertex does to the true statistics, in terms of its neighbours and self-loops |
| GraphCuts.AllSeen | partition/partition_CLPA.go:112-136 | every inner edge is counted twice, so halving is exact |
| GraphCuts.CrossSum | partition/partition_CLPA.go:128-132 | every cut edge is counted at both ends, so halving is exact |
| GraphCuts.VisitVertex | partition/partition_CLPA.go:112-126 | one vertex's adjacency list adds its share |
| Clpa.ShiftIsExact | partition/partition_CLPA.go:146-168 | starting from exact statistics, the incremental update is exact if and only if the moved vertex has no self-loop |
| Clpa.SelfLoopMiscounted | partition/partition_CLPA.go:146-168 | a greedy move of a vertex with a self-loop, emptying no shard, after which the statistics are [0, 1] and a cut of -2 where the true ones are [1, 2] and 0 |
| Clpa.CLPAState.AddEdge | partition/graph.go:31-45 | both directions are added |
| Clpa.CLPAState.ComputeEdges2Shard | partition/partition_CLPA.go:102-143 | the statistics are exact |
| Clpa.CLPAState.ChangeShardRecompute | partition/partition_CLPA.go:146-168 | agrees with recomputation, exactly when there is no self-loop |
| Clpa.CLPAState.StableInitPartition | partition/partition_CLPA.go:197-212 | refuses more shards than vertices; otherwise no shard is empty and sizes differ by at most one |
| Clpa.CLPAState.BestShard | partition/partition_CLPA.go:239-254 | for any score, the shard of the first neighbour with the highest score above -9999, or the vertex's own shard when there is none; with exact statistics, a greedy choice under the true ones |
| Clpa.BestNeighbour | partition/partition_CLPA.go:241-254 | the scoring loop, each neighbouring shard scored once |
| Clpa.CLPAState.MoveTo | partition/partition_CLPA.go:255-264 | sizes stay exact and no shard is emptied |
| Clpa.CLPAState.Partition | partition/partition_CLPA.go:231-274 | for any score and order: sizes exact, no non-empty shard emptied, no vertex moved more than 50 times, the result overlaid on the old partition is the new one, the returned cut is exact; without self-loops every move goes to the first best shard under the true statistics of that moment; each of maxIterations sweeps visits every vertex once, each visit staying or moving as stated |
| Clpa.CLPAState.Visit | partition/partition_CLPA.go:238-266 | the vertex stays if and only if it has moved 50 times, its first best shard is its own, or it is alone in its shard; otherwise it moves to its first best shard and the statistics are shifted |
| Clpa.QuietSweepSettles | partition/partition_CLPA.go:236-266 | a sweep without a move ends with every vertex staying where it is, for one of the three reasons |
| Clpa.NoMoveSettled | partition/partition_CLPA.go:231-266 | a run of at least one iteration that moves nothing found every vertex at its first best shard or alone |
| Clpa.BestUnique | partition/partition_CLPA.go:241-254 | there is one first best shard |
| Clpa.CLPAState.Sweep | partition/partition_CLPA.go:236-266 | every vertex is visited once, each visit from where the last one ended |
| Clpa.CLPAState.Relocate | partition/partition_CLPA.go:255-264 | the move, its records and the shifted statistics |
| Clpa.CLPAState.Iterate | partition/partition_CLPA.go:234-267 | maxIterations sweeps from the exact statistics |
| PbftNodes.PbftConsensusNode.Set2DMap | consensus_shard/pbft_all/toolFuncs.go:13-25 | a vote is recorded under its pointer |
| PbftNodes.PbftConsensusNode.Propose | consensus_shard/pbft_all/messageHandle.go:26-49 | is the proposal step |
| PbftNodes.PbftConsensusNode.HandlePrePrepare | consensus_shard/pbft_all/messageHandle.go:65-102 | stores the request and broadcasts a Prepare |
| PbftNodes.PbftConsensusNode.HandlePrepare | consensus_shard/pbft_all/messageHandle.go:113-166 | counts votes and broadcasts Commit once |
| PbftNodes.PbftConsensusNode.HandleCommit | consensus_shard/pbft_all/messageHandle.go:178-243 | counts votes and finishes once |
| PbftNodes.PbftConsensusNode.Finish | consensus_shard/pbft_all/messageHandle.go:196-242 | applies the request or only marks it; the leader releases the lock |
| PbftNodes.CountVotes | consensus_shard/pbft_all/messageHandle.go:187-190 | the number of pointers |
| PbftSystem.AppliedSafely | consensus_shard/pbft_all/messageHandle.go:170-243 | at every moment of every run, a node has applied a digest at most once, only one the leader proposed, after 2f other nodes broadcast Commit for it, with Prepares from 2f backups |
| PbftSystem.CommitsBacked | consensus_shard/pbft_all/messageHandle.go:133-164 | every Commit ever broadcast is backed by the Prepares of 2f different backups, a backup's own included |
| PbftSystem.OneProposalAtATime | consensus_shard/pbft_all/messageHandle.go:26-49 | the leader never has two unapplied proposals, applies them in the order it proposed them, holds the sequence lock exactly while one is unapplied, and releases it once per proposal |
| PbftSystem.RunKeeps | consensus_shard/pbft_all/messageHandle.go:13-243 | the invariant of the log, of every node and of the leader, at every moment of every run |
| PbftSystem.DeliveryKeeps | consensus_shard/pbft_all/messageHandle.go:53-243 | any delivery keeps it |
| PbftSystem.ProposalKeeps | consensus_shard/pbft_all/messageHandle.go:26-49 | any proposal keeps it |
| PbftSystem.VotersCount | consensus_shard/pbft_all/toolFuncs.go:13-25 | with single delivery, as many different voters as pointers |
| PbftSystem.CommitBacked | consensus_shard/pbft_all/messageHandle.go:133-147 | a Prepare quorum is 2f backups, for the leader and for a backup |
| PbftSystem.LeaderFinishes | consensus_shard/pbft_all/messageHandle.go:235-241 | the leader holds the lock it releases |
| PbftSystem.DuplicatesCountTwice | consensus_shard/pbft_all/toolFuncs.go:13-25 | one Prepare received twice completes a quorum of two |
| PbftSystem.RepeatedProposalSticks | consensus_shard/pbft_all/messageHandle.go:26-49 | a leader that proposes an applied digest again holds the lock with everything proposed already replied to |
| PbftSystem.StuckStays | consensus_shard/pbft_all/messageHandle.go:196-241 | no event leads out of that: the lock is never released and nothing is proposed again |
| PbftOrder.OrderIffInTurn | consensus_shard/pbft_all/messageHandle.go:170-243 | over every run, a node has applied a prefix of the proposals at every moment up to T if and only if every Commit that made it apply carried the node's own sequence id |
| PbftOrder.StepOrderIff | consensus_shard/pbft_all/messageHandle.go:178-243 | the same for one event of a reachable state |
| PbftOrder.RunNumbers | consensus_shard/pbft_all/messageHandle.go:13-243 | over every run, every broadcast carries the number of its digest's proposal, and a node's sequence id counts what it has applied |
| PbftOvertaking.Overtaken | consensus_shard/pbft_all/messageHandle.go:65-243 | a run of four nodes, so f = 1, none faulty and nothing lost, repeated or missing from a pool, after which a follower has applied the second proposal and not the first |
| PbftOvertaking.FollowerPreparesAgain | consensus_shard/pbft_all/messageHandle.go:69-100 | the second PrePrepare takes the follower's stage from 2 to 3 |
| PbftOvertaking.FollowerOvertakes | consensus_shard/pbft_all/messageHandle.go:180-243 | two Commits of the second proposal are then not held back and make the follower apply it, with the first unapplied |
| PbftProgress.RepliedIff | consensus_shard/pbft_all/messageHandle.go:185-242 | over every run, a node has replied to a digest if and only if Commits for it were delivered and at least 2f of them |
| PbftProgress.LeaderAppliesIff | consensus_shard/pbft_all/messageHandle.go:185-242 | so the leader has applied exactly the digests that such a quorum reached it for |
| PbftProgress.CommitsInTurn | consensus_shard/pbft_all/messageHandle.go:113-166 | over every run, a node broadcasts a Commit only for the proposal whose number is one more than it has applied |
| PbftProgress.PrepareCountedIff | consensus_shard/pbft_all/messageHandle.go:120-137 | a Prepare is counted if and only if it carries the node's own sequence id and the request is in the pool |
| PbftProgress.HeldBackIff | consensus_shard/pbft_all/messageHandle.go:69-182 | over every run, a follower holds back a Prepare exactly while it has handled no proposal since it last finished, and a Commit exactly while it has not handled two or handled one and sent its own Commit, messages out of date apart |

## Left out

- The access list, whose reverts the source disables, and `Prepare`, which resets transient storage without journalling it.
- Remote-shard journal entries being sent to their shard; only that a local revert leaves them alone is modelled.
- JSON and gob encoding of entries, blocks and messages, TCP, goroutines, timeouts and cross-shard polling.
- `SetStorage`, preimages, prefetching, `Finalise`, `IntermediateRoot` and account deletion.
- The code hash, which is identified with the code, and the dirty-code flag and code cache.
- EvmWorldProofs.RedoReproducesIff: logs are excluded, because Execute of a log entry does nothing.
- SstoreMetering.Storage.Execute: says nothing about a run whose true counter exceeds 64 bits, where AddRefund wraps; 19800 per action is room enough (`RoomFits`).
- Gas charging and dynamic gas, which the interpreter computes and does not charge; the selected Cancun table prices SSTORE at zero, so metering is modelled as the functions in `gas_table.go`.
- EvmMachine.Machine.Step: what arithmetic, hashing, environment (PC and MSIZE apart) and call operations push, and the buffers that copies and calls bring in, are inputs, so these are not computed.
- EvmMachine.Machine.Run: code longer than 2^64 - 33 bytes is excluded.
- Hash nodes and their resolution: a trie is the tree they resolve to, so missing-node errors do not occur.
- RLP, Keccak, Merkle roots and the trie database.
- The difference and union iterators, which compare two or more walks.
- Clpa.CLPAState.BestShard: the score is any real-valued function of vertex, shard, partition and statistics; the source's floating-point formula, which divides by zero when a shard has no edges, is not evaluated.
- CLPAState.AddVertex placing a vertex that arrives after the first partition, Init_Partition, and printing.
- `Random_choice` returning -1 when rounding leaves the cumulative probability below the random number; picks are in range.
- URFA's ratios and profit balances, which are floating point and decide no balance.
- Relaxation.FillSound: the remainder offered to the next broker is not part of that broker's load, because the source does not add it either.
- Formatting of addresses in `dealTxByBroker`; an address that is not hexadecimal is given a shard where the source stops.
- BrokerCommittee.TypeLedger.DealTxByBroker: of more than 1000 messages the rest is dropped, as in the source, so conservation is stated for the first 1000; transactions are distinct, of the ledger's type and not negative, as its only caller makes them (`getRandomTxs` and `MsgSendingControl`, committee_broker_b2e.go:202-221 and 254-257).
- Broker confirm pools, broker-2 transactions, stakes changed through the HTTP interface and withdrawal.
- BrokerCommittee.TypeLedger.HandleBlockInfo: exact locks are promised only while reports are of transactions in flight, since nothing in the source tells a repeated report apart.
- PBFT catch-up of lagging nodes: a node without the request marks the digest and asks for it, and the answer is not modelled.
- PbftSystem.OneProposalAtATime: a proposal has a digest never proposed before, as requests stamped with their time have; with a repeated digest the leader would hold the sequence lock for ever (`RepeatedProposalSticks`, `StuckStays`).
- View changes, faulty nodes and lost locks; messages may be delayed or lost for ever, not forged or duplicated.
- Supervisor HTTP handlers, measurement modules, loggers, the bolt store and the transaction pool.
