# A verification model of SID's database engine

SID keeps what it knows about devices in a key-value store. This project models the engine behind that store, from the
bottom up, and proves what each layer keeps over all runs. Code that changes things in place is modelled in place: nodes
are objects with slot arrays, the store, the buffers, the bitmaps and the command are objects whose methods update their
fields. Every such method is proved against a value-level description of its effect, and the results are proved about
those descriptions.

- **B+ tree** (`BP*.dfy`, `CStrings.dfy`; `src/internal/bptree.c`). Nodes, keys and records are heap objects. A ghost
  view lists the levels of the tree: level 0 is the content, level 1 the leaves, and each level is the expansion of the
  one above. `BPValid.Valid` is the invariant: uniform depth, occupancy, ordered content, parent links, the leaf chain,
  separators that are the maxima on their left, exact reference counts and exact size counters. Any allocation may fail.
- **Key-value store** (`Kv*.dfy`; `src/resource/kvs.c`). A store with a rollback log and deferred unsets, and a ledger
  that says who owns each value container. `KvRuns`, `KvRollback`, `KvBalance` and `KvOrder` are about runs and
  transactions given how each call ended; `KvCalls` runs calls with their arguments on a store object and shows how they end.
- **Delta and relation engine** (`Keys`, `SortedVec`, `Bitmap`, `Buffers`, `Delta*.dfy`; `src/resource/ubr.c`,
  `src/internal/bmp.c`). Sorted lists, steps, cumulative differences to the fork, two-way relations, export of a
  worker's differences and their merge into the main store.
- **Framing** (`Buffers.dfy`, `Framing.dfy`; `src/base/buf*.c`). Size-prefixed frames over a channel that takes and gives
  any part of what is asked for.
- **Command machine** (`CmdMachine.dfy`; `src/resource/ubr.c`). Stages, export, acknowledgement, response and timeout,
  under every sequence of events.
- **Device stack, base64, tokeniser** (`DevStack.dfy`, `Base64.dfy`, `Tokens.dfy`).

Strings are sequences of characters without the NUL. What the code gets from outside is nondeterministic or a parameter:
whether an allocation succeeds, how much a read or write transfers, what callbacks answer, which event comes next.

## Findings

Where a property does not hold of the code on all inputs, the model keeps the code, gives an input and states exactly
when the property holds.

| property | input for which it fails | when it holds |
|---|---|---|
| deleting a key removes its entry and no other (bptree.c:990 searches the pointer by identity) | `BPExact.DeleteThroughAlias`, `BPDelCounts.DeleteAliasFails` | if and only if the leaf is aligned: `BPErase.Del`, `BPErase.DeletionExact`; always when the record has one key: `BPExact.SoleKeyExact` |
| rolling back restores the map (kvs.c:1042 replays the log forward) | `KvRollback.SecondWriteStays` | if and only if no key present at the beginning was written twice: `KvRollback.RollbackRestoresIff`, on a store object `KvCalls.RolledBack` |
| rolling back leaves each container with one owner | `KvBalance.SecondArchiveFreesTwice` | if and only if no archive was written twice: `KvBalance.RollbackBalancesIff`, on a store object `KvCalls.RolledBack` |
| a transaction's calls take effect in order (kvs.c:1026 defers the unsets) | `KvRuns.UnsetWins`, and for archives `KvOrder.StaleArchived` | if and only if no unset key is set again afterwards and no archive holds a value that an earlier unset was to remove: `KvOrder.InOrderIff`, `KvOrder.LiveIsSetSince`, on a store object `KvCalls.Committed` |
| no container is lost (kvs.c:396-403 returns without releasing it) | `KvCalls.LoseEdited`, `KvCalls.LoseNew` | if and only if no callback edits a value that then cannot be allocated, and no accepted set of an absent key lacks memory for its record: `KvCalls.NothingLostIff`, `KvCalls.RunCalls` |
| a response leaves after the export is settled (ubr.c:6912 just schedules the handler) | `CmdMachine.MonitorOvertakesAck` | unless a monitor event overtakes the acknowledgement: `CmdMachine.EarlyIffOvertaken` |
| renaming an alias keeps its members (ubr.c:3646-3692 adds before it empties) | an alias renamed to itself: `DeltaRel.RenameToItself` | if and only if the two aliases differ or the old one has no members: `DeltaRel.AliasRename` |
| different specifications never share a record (ubr.c:610-659 joins parts without escaping, and ubr.c:3624-3644 refuses only empty strings) | `Keys.CategoriesCollide` | for specifications with a separator in the identifier at most: `Keys.StoreKeyInjective`; another, clean one shares the record if and only if a separator is elsewhere: `Keys.SharesIff` |
| the identifier of a relative comes back out of its prefix (dm.c:353 and 358 pass any name) | an identifier with a separator: `Keys.PrefixParts` | if and only if it has no separator: `DeltaRel.ConformsIff`; the device part always does |
| every delta step of a message is handed the delta specification (ubr.c:6663, 6695 and 6723 overwrite the shared field) | `DeltaSync.TwoListsEmptied` | for the delta records of a worker, if and only if no record but the last empties an unreserved list: `DeltaSync.SyncMain`, over whole rounds `DeltaRound.Round` |
| a pass delivers exactly the keys within its bounds (bptree.c:259-264) | `BPExact.PassFromAbsentKey` | if and only if the covering leaf's first key is above the start or the end: `BPIter.AbsentStart` |
| the size prefix is the size of the frame | sizes of 2^32 and more | if and only if the size is below: `Framing.DecodeEncode` |
| decoding undoes encoding | the empty input: `Base64.EmptyIsRefused` | for every other input: `Base64.RoundTrip` |

## Model

| member | source | states |
|---|---|---|
| BPRuns.RunAll | src/internal/bptree.c:789-938 | for every order from 4 up and every sequence of add, alias, update and delete, with any allocation failing: the tree ends valid, and the run is step by step a run of an ordered map from keys to shared records (`Trace`) |
| BPRuns.Run | src/internal/bptree.c:789-1326 | the same from any valid tree; the objects of the tree afterwards were in it before or are new |
| BPRuns.Perform | src/internal/bptree.c:789-1326 | one operation keeps `Valid` and changes what keys show exactly as `Does` says: a write through a shared record shows under every key that shares it, a failed call changes nothing |
| BPRefine.PerformAdd | src/internal/bptree.c:789-839 | an existing key: all keys sharing its record show the new data; a new key: it shows the data under a record no other key has; failure: nothing changed |
| BPRefine.PerformAlias | src/internal/bptree.c:841-880 | on success the alias shows exactly what the key shows, all else stays; an existing alias is refused exactly when it shows another record and is not forced; a failure changes nothing |
| BPRefine.PerformUpdate | src/internal/bptree.c:882-938 | the callback sees the data and the number of sharing keys; its answer decides between write, removal and no change, with the effect of each on every key |
| BPShared.CallbackSees | src/internal/bptree.c:899-911 | a callback is shown the data and size of a present key and the number of keys that share its record, and zeroes for a missing key; its answer to exactly that is acted on |
| BPShared.NoCallback | src/internal/bptree.c:911-916 | without a callback, data is written and no data removes the key |
| BPShared.UpdateSharedSoleMissing | src/internal/bptree.c:882-938 | a run with updates of a shared, a sole and a missing key, whose callback answers by what it is shown |
| BPRefine.PerformDel | src/internal/bptree.c:1310-1326 | the keys lose exactly the deleted one; all others show what they showed if and only if the deletion is exact (`DelExact`) |
| BPRefine.RefCountIsSharers | src/internal/bptree.c:300-339 | in a valid tree the reference count of a record is the number of keys that map to it |
| BPRefine.CountIsHolders | src/internal/bptree.c:327-339 | counting leaf slots of a record is counting the keys that hold it |
| BPRuns.SeparatorIsMaximum | tests/test_bptree.c:94-104 | in every valid tree, every key of every internal node is the very key object that ends the content of the subtree on its left |
| BPRuns.LastBelow | tests/test_bptree.c:94-104 | in every valid tree the content below a separated entry, at any level, ends with the separator object itself |
| BPRuns.LeavesGrow | src/internal/bptree.c:151-165 | a valid tree of height d has at least 2^d leaves |
| BPRuns.GetHeight | src/internal/bptree.c:151-165 | the first-child descent counts the height all leaves have, and the leaves number at least 2^height |
| BPRuns.Create | src/internal/bptree.c:128-145 | an order of 3 or less is refused; otherwise a new tree is valid, empty and counts its own bytes, or memory ran out |
| BPFind.FindLeaf | src/internal/bptree.c:187-211 | the descent ends in the leaf whose range covers the key: above the separator to its left, not above its own |
| BPFind.StepDown | src/internal/bptree.c:197-208 | if a node covers the key, so does the child chosen by the first separator not below the key |
| BPLookup.OutsideLeaf | src/internal/bptree.c:235-254 | what lies left of the covering leaf is below the key and what lies right of it is above: a miss in the leaf is a miss in the tree |
| BPLookup.Find | src/internal/bptree.c:216-272 | exact and prefix search: the covering leaf and its first matching slot, or no match |
| BPMap.Lookup | src/internal/bptree.c:277-290 | found if and only if the key is in the map; data, size and reference count are those of its record |
| CStrings.StrcmpIsOrder | src/internal/bptree.c:201-201 | the comparison the tree is ordered by is a strict total order |
| CStrings.StrcmpAtDifference | src/internal/bptree.c:201-201 | the first place where two strings differ decides, and the end of a string is below every character |
| CStrings.PrefixContiguous | src/internal/bptree.c:251-251 | keys with a prefix are contiguous in strcmp order, from the prefix on |
| BPAlloc.MakeKey | src/internal/bptree.c:341-358 | a key object with its own copy of the string and no references, and its bytes in meta_size; or nothing changed |
| BPAlloc.MakeRecord | src/internal/bptree.c:300-316 | a record with no references, counted in meta_size, data_size and num_entries; or nothing changed |
| BPAlloc.DestroyKey | src/internal/bptree.c:360-366 | exactly the bytes of the key leave meta_size |
| BPAlloc.DestroyRecord | src/internal/bptree.c:318-325 | exactly the bytes and the entry of the record leave the counters |
| BPAlloc.MakeNode | src/internal/bptree.c:388-417 | a fresh node with arrays of its own joins the nodes and meta_size; or nothing changed |
| BPAlloc.DestroyNode | src/internal/bptree.c:419-426 | the node and exactly its bytes go |
| BPAlloc.MakeNodeList | src/internal/bptree.c:428-448 | a list of exactly `count` fresh nodes, or no trace |
| BPAlloc.FreeNodeList | src/internal/bptree.c:441-447 | after a failure in the middle the heap and the node set are those before the list was begun |
| BPTree.GetNodeFromList | src/internal/bptree.c:450-458 | the first node leaves the list, its link cleared |
| BPTree.UnrefKey | src/internal/bptree.c:374-382 | a key loses one reference and, with the last, its bytes leave meta_size |
| BPAlias.UnrefRecord | src/internal/bptree.c:333-339 | releasing the reference of a removed slot restores validity; the last one destroys the record |
| BPAdd.NumberOfNodesNeeded | src/internal/bptree.c:460-471 | one node for each full node on the path to the root, and one more if the root is full |
| BPAdd.DoInsert | src/internal/bptree.c:759-782 | the key and record are in at their place in order, or tree, contents and counters are all unchanged |
| BPAdd.InsertSplitting | src/internal/bptree.c:774-781 | the nodes are allocated before anything is touched, and all of them are used: the assertion that the list ends empty holds |
| BPAdd.InsertIntoRoomyLeaf | src/internal/bptree.c:769-772 | the entry goes into the content at its position; separators, chain and reference counts are right |
| BPAdd.InsertIntoLeafAfterSplitting | src/internal/bptree.c:515-570 | the whole cascade: the list ends empty and the tree is whole with the entry in the content |
| BPAdd.SplitFullLeaf | src/internal/bptree.c:525-567 | the split leaf and its new right half, chained and separated by the left half's last key; the parent is still to be told and the supply is one node shorter |
| BPNodeInsert.InsertIntoLeaf | src/internal/bptree.c:491-509 | key and record at the insertion point, all other slots shifted, chain slot kept, one reference each |
| BPNodeInsert.SplitLeaf | src/internal/bptree.c:526-567 | the slot work of a leaf split: the entries with the new one, cut at (order)/2 and shared out, chain and parent link set |
| BPNodeInsert.InsertIntoNode | src/internal/bptree.c:576-591 | key and right child behind the left child's slot, all others shifted |
| BPNodeInsert.SplitNode | src/internal/bptree.c:613-659 | the slot work of an internal split: lower part, the key that goes up, upper part |
| BPInsert.GetLeftIndex | src/internal/bptree.c:477-485 | the slot of the left child in its parent |
| BPInsert.InsertIntoParent | src/internal/bptree.c:706-736 | from a pending split to a whole tree; the list ends empty and exactly the inserted key gains a reference |
| BPInsert.InsertWithRoom | src/internal/bptree.c:728-731 | the simple case repairs the tree with no node used |
| BPInsert.InsertIntoNodeAfterSplitting | src/internal/bptree.c:597-676 | a full parent passes the same situation one level up; the key that moves up ends with the count it had |
| BPInsert.SplitParent | src/internal/bptree.c:609-664 | after the cut the level is pending with one node fewer to come, and moved children point to their new parent |
| BPInsert.InsertIntoNewRoot | src/internal/bptree.c:682-700 | a split root gets a new root above both halves: the tree is whole again, one level higher |
| BPInsert.ReparentChildren | src/internal/bptree.c:661-664 | every child of the new node, and no other node, gets it as its parent |
| BPMap.CreateRoot | src/internal/bptree.c:741-757 | the first entry makes a one-leaf tree; or nothing changed |
| BPMap.Add | src/internal/bptree.c:789-839 | bptree_add in terms of the map of records; no other record's data changes |
| BPMap.AddNew | src/internal/bptree.c:808-838 | a new key: entry and record are in, or key and record are released and the state is the old one |
| BPMap.WriteRecord | src/internal/bptree.c:794-798 | writing in place keeps validity: data_size changes by the difference |
| BPMap.MapInsert | src/internal/bptree.c:759-782 | inserting a new entry extends the map at its key only |
| BPAlias.AddAlias | src/internal/bptree.c:841-880 | bptree_add_alias in terms of the map of records: afterwards the alias maps to the very record of the key |
| BPAlias.InsertAlias | src/internal/bptree.c:871-876 | a new alias shares the record, or leaves no trace |
| BPAlias.Realias | src/internal/bptree.c:852-858 | a forced alias: the slot changes its record, and the replaced one is released |
| BPUpdate.Update | src/internal/bptree.c:882-938 | bptree_update in terms of the map of records: what the callback is shown is read from the found record, and each answer has its effect |
| BPNodeDelete.RemoveLeafSlots | src/internal/bptree.c:963-1008 | the slot work: the key's slot goes, and the first slot that holds the record; the key to take its place upstairs is the new last one, if the last went |
| BPNodeDelete.RemoveInnerSlots | src/internal/bptree.c:963-1008 | an internal node loses the key and the child to its right |
| BPErase.FindSeparator | src/internal/bptree.c:1013-1031 | the climb finds the one internal slot that holds the removed key, or there is none |
| BPErase.SwapSeparator | src/internal/bptree.c:1010-1032 | exactly the internal slots of the removed key get the new last key, with both reference counts and meta_size |
| BPErase.RemoveFromLeaf | src/internal/bptree.c:963-1035 | levels and content after the leaf's part of a deletion |
| BPErase.DeleteEntry | src/internal/bptree.c:1241-1305 | the tree is whole again: content without the key and without the first slot of the record, key counts and meta_size exact |
| BPErase.Erase | src/internal/bptree.c:1320-1323 | validity, and exactly which key and which pointer leave the content |
| BPErase.Del | src/internal/bptree.c:1310-1326 | bptree_del in terms of the map of records: the key goes and no other, and the map is the old one without it if and only if the victim's leaf is aligned |
| BPErase.DeletionExact | src/internal/bptree.c:987-991 | the pointer is found by identity: the content change is the intended one if and only if no different record lies between the first slot with the record and the key's slot |
| BPErase.KeysRemain | src/internal/bptree.c:969-981 | whichever pointer goes, the keys lose exactly the deleted one |
| BPDelCounts.RemoveIsDelete | src/internal/bptree.c:987-994 | the same on contents, for every pair of positions |
| BPDelCounts.DeleteAliasFails | src/internal/bptree.c:987-994 | a leaf a, b, c with a and c sharing: deleting c makes a show b's record and b show a's |
| BPExact.DeleteThroughAlias | src/internal/bptree.c:987-994 | the run add a, add b, alias c of a, delete c: a or b shows another record than before |
| BPExact.SoleKeyExact | src/internal/bptree.c:987-994 | what a caller can check: a key whose record has reference count 1 is always deleted exactly |
| BPDelete.GetNeighborIndex | src/internal/bptree.c:946-961 | the slot before the node's own in its parent, or -1 |
| BPDelete.ChooseSiblings | src/internal/bptree.c:1289-1292 | the left sibling, or the right one of a leftmost child, with the key between them |
| BPDelete.Rebalance | src/internal/bptree.c:1256-1304 | a node that may be one key short is dealt with: the content stays, the tree is whole or empty, released nodes are counted out |
| BPDelete.DeleteInner | src/internal/bptree.c:1241-1305 | the recursion on the parent of a merged pair: the gap is closed and the tree settles |
| BPDelete.AdjustRoot | src/internal/bptree.c:1037-1066 | an empty root gives way to its only child, or the tree is empty |
| BPDelete.Coalesce | src/internal/bptree.c:1073-1151 | the right sibling is emptied into the left one, its parent told and the node released: the tree settles |
| BPDelete.MergeNodes | src/internal/bptree.c:1084-1146 | the slot work of a merge leaves a tree that is right except for the gap in the parent |
| BPDelete.Redistribute | src/internal/bptree.c:1158-1234 | one entry moves between siblings: the tree is whole, every node at least half full |
| BPNodeDelete.AppendLeaf | src/internal/bptree.c:1138-1146 | the left leaf takes over slots and chain of the right one |
| BPNodeDelete.AppendInner | src/internal/bptree.c:1104-1124 | the left node takes over the key between and all slots of the right one |
| BPNodeDelete.ShareLeafFromLeft | src/internal/bptree.c:1173-1187 | the left leaf's last entry comes to the front |
| BPNodeDelete.ShareLeafFromRight | src/internal/bptree.c:1204-1219 | the right leaf's first entry comes to the end |
| BPNodeDelete.ShareInnerFromLeft | src/internal/bptree.c:1173-1193 | the last child comes over, the key between comes down, the last key goes up |
| BPNodeDelete.ShareInnerFromRight | src/internal/bptree.c:1209-1222 | the first child comes over, the key between comes down, the first key goes up |
| BPIter.GetFirstLeafNode | src/internal/bptree.c:1369-1380 | the leftmost leaf |
| BPIter.First | src/internal/bptree.c:1455-1462 | where a pass starts |
| BPIter.Advance | src/internal/bptree.c:1448-1454 | the next entry of the content, across leaves |
| BPIter.Next | src/internal/bptree.c:1446-1486 | the candidate entry is delivered exactly if it exists and the bounds admit it; otherwise the iterator is reset |
| BPIter.Pass | src/internal/bptree.c:1507-1523 | a pass delivers the content from its start to its stop, each entry once and in order |
| BPIter.RangePass | src/internal/bptree.c:1446-1486 | from the beginning or a present start key: exactly the keys within the bounds |
| BPIter.PrefixPass | src/internal/bptree.c:1474-1480 | a prefix pass delivers exactly the keys with the prefix |
| BPIter.AbsentStart | src/internal/bptree.c:256-262 | in every valid tree, from an absent start key: exactly the keys within the bounds if and only if the covering leaf's first key is above the start or above the end |
| BPExact.PassFromAbsentKey | src/internal/bptree.c:256-262 | the run add a, add c, and a pass from b on: if the allocations succeed, the pass shows a and c |
| BPDestroy.DestroyTreeNodes | src/internal/bptree.c:1328-1351 | a subtree is released: its entries shown in order, its records and keys unreferenced, its bytes out of the counters |
| BPDestroy.Destroy | src/internal/bptree.c:1361-1367 | every entry is shown once and in order with the references still to come; the counters return to those of an empty tree |
| BPDestroy.ShownOnce | src/internal/bptree.c:1333-1341 | each record is shown with reference count 1 exactly once |
| BPDestroy.LastOnce | src/internal/bptree.c:1333-1341 | the entry that shows it so is the record's last one |
| BPDestroy.AllNodes | src/internal/bptree.c:1328-1351 | a valid tree has exactly the nodes its levels list |
| CStrings.CanonicalDrops | src/resource/kvs.c:489-498 | blanks at the front are dropped, all of them and nothing else |
| CStrings.SpaceIs | src/resource/kvs.c:489-498 | the blanks are the six of the C locale |
| KvStore.KvStore.constructor | src/resource/kvs.c:1316-1348 | a new store is empty, with no transaction |
| KvStore.KvStore.CreateValue | src/resource/kvs.c:213-330 | a new container with the given kind and cells |
| KvStore.KvStore.DestroyValue | src/resource/kvs.c:118-162 | the container is destroyed |
| KvStore.KvStore.Consult | src/resource/kvs.c:352-411 | the callback keeps, refuses or edits the value; an edit that cannot be allocated drops the caller's container |
| KvStore.KvStore.Write | src/resource/kvs.c:413-449 | the replaced value goes to the log, to the relay or is destroyed; failures as in the code |
| KvStore.KvStore.WriteBoth | src/resource/kvs.c:584-607 | the record and then the replaced value under the archive key |
| KvStore.KvStore.SetValue | src/resource/kvs.c:537-613 | for every argument, callback and failing allocation: the new state, the outcome and the return code |
| KvStore.KvStore.UnsetValue | src/resource/kvs.c:797-846 | at once outside a transaction, deferred inside one, refused if the callback refuses |
| KvStore.KvStore.RemoveValue | src/resource/kvs.c:777-795 | the record goes and its value is destroyed |
| KvCalls.GetAfterSet | src/resource/kvs.c:537-678 | what any get finds after a set: the stored content under the key, the replaced value under the archive key, everything else as before; and all as before if the set stores nothing |
| KvCalls.GetAfterUnset | src/resource/kvs.c:635-846 | what any get finds after an unset: nothing under the key outside a transaction, and everything as before inside one |
| KvStore.KvStore.BeginTransaction | src/resource/kvs.c:974-1001 | an empty log, or busy, or out of memory with nothing changed |
| KvStore.KvStore.RollbackValue | src/resource/kvs.c:848-950 | what undoing one log entry does, missing keys and archive entries included |
| KvStore.KvStore.EndTransaction | src/resource/kvs.c:1003-1053 | deferred unsets, then the log, both first entry first |
| KvLedger.SetKeepsLedger | src/resource/kvs.c:332-449 | every set, however it ends, leaves each container with exactly one owner: a record, the log, or destroyed once |
| KvLedger.UnsetKeepsLedger | src/resource/kvs.c:680-735 | so does every unset |
| KvLedger.CommitKeepsLedger | src/resource/kvs.c:1042-1049 | so does committing: what the log owned is destroyed, what an archive took over stays |
| KvLedger.PutBooks | src/resource/kvs.c:413-441 | one write moves one container from the writer's hand into the record |
| KvCalls.Perform | src/resource/kvs.c:537-1053 | a call on a store object is one step of the run, ending as its arguments, the store it finds and the failing allocation decide |
| KvCalls.OutcomeIs | src/resource/kvs.c:332-449 | a set stores its value exactly if it is not refused and no allocation it needs fails, and drops its container exactly if the edited value or the record of a new key cannot be allocated |
| KvCalls.SetCallbackSees | src/resource/kvs.c:352-411 | the callback of a set is shown the canonical key, the content of the stored record if there is one, and the new content; its answer to exactly that refuses, edits or keeps |
| KvCalls.UnsetCallbackSees | src/resource/kvs.c:680-712 | the callback of an unset is shown the key and the stored content, and the unset takes effect exactly if it agrees |
| KvCalls.WriteNewOnly | src/resource/ubr.c:3765-3771 | with a callback that refuses to overwrite, the first of two sets stays |
| KvCalls.AppendCells | src/resource/kvs.c:352-411 | with a callback that appends to the old content, both contents are stored |
| KvCalls.UnsetOwnOnly | src/resource/kvs.c:680-712 | with a callback that knows its own content, only that record goes |
| KvCalls.RunCalls | src/resource/kvs.c:537-1053 | after any calls (sets, archiving sets, unsets, committed transactions; any callbacks and failing allocations) each container made has exactly one owner, and containers were dropped exactly by the sets that lose theirs |
| KvRuns.LedgerAlways | src/resource/kvs.c:537-1053 | the same for every run whose sets have any outcomes that are possible: a record, a log entry, destroyed once, or dropped by a failed allocation |
| KvCalls.NothingLostIff | src/resource/kvs.c:396-403 | a run drops no container if and only if no set in it has its callback edit the value without memory for the edited one, or is accepted for an absent key without memory for its record |
| KvCalls.LoseEdited | src/resource/kvs.c:396-403 | a set with an editing callback and no memory for the edited value: one container is lost |
| KvCalls.LoseNew | src/resource/kvs.c:413-449 | a set of a new key with no memory for its record: one container is lost |
| KvRuns.CommitIsWritesThenUnsets | src/resource/kvs.c:1020-1049 | a committed transaction is its sets in order and then all its unsets |
| KvRuns.UnsetWins | src/resource/kvs.c:1026-1031 | an unset wins over a set of the same key that follows it in the transaction |
| KvOrder.InOrderIff | src/resource/kvs.c:1020-1049 | a commit has the effect of its calls taken one at a time if and only if no unset key is live at the end and no archive holds a value an earlier unset was to remove |
| KvOrder.LiveIsSetSince | src/resource/kvs.c:1020-1049 | an unset key that is no archive is live at the end exactly if a set of it was stored after its last unset |
| KvOrder.StaleArchived | src/resource/kvs.c:680-735 | an archiving set of a key unset before it still archives the old value |
| KvCalls.Committed | src/resource/kvs.c:974-1053 | a transaction of any calls on a store object, committed: its effect is that of the calls in order if and only if they are orderly; every container has one owner |
| KvCalls.RolledBack | src/resource/kvs.c:974-1053 | a transaction of any calls on a store object, rolled back: the map is back if and only if no present key was written twice, and every container has one owner if and only if no archive was |
| KvRollback.RollbackRestoresIff | src/resource/kvs.c:1036-1049 | rolling back restores the map if and only if no key present at the beginning was written twice |
| KvRollback.SecondWriteStays | src/resource/kvs.c:1042-1049 | two sets of one present key, rolled back: the first new value stays and the old one is destroyed |
| KvBalance.RollbackBalancesIff | src/resource/kvs.c:1036-1049 | after rolling back every container has exactly one owner if and only if no archive was written twice |
| KvBalance.SecondArchiveFreesTwice | src/resource/kvs.c:848-875 | two archiving sets of one key, rolled back: the old container is destroyed twice |
| KvBalance.OnceIsKept | src/resource/kvs.c:429-441 | archives written once still hold at rollback what they were handed |
| KvBalance.TwiceUnbalances | src/resource/kvs.c:848-875 | an archive written twice breaks the ledger |
| Keys.GetKeyPart | src/resource/ubr.c:716-738 | the requested part, or nothing when a separator is missing |
| Keys.KeyFormat | src/resource/ubr.c:610-659 | the parts of a key in their order, each with its separator |
| Keys.ListKeys | src/resource/ubr.c:66-94 | the stored keys of an alias with its members and of the groups added to a device, letter by letter |
| Keys.OtherKeys | src/resource/ubr.c:66-94 | the same for the other namespaces and the removal prefix |
| Keys.KeyPartOfJoin | src/resource/ubr.c:610-738 | taking a part out of a joined key gives what was put in up to its first separator, if the parts before it have none; the last part comes back whole |
| Keys.AllPartsBackIff | src/resource/ubr.c:610-738 | all parts come back if and only if all but the last are free of the separator |
| Keys.PrefixParts | src/resource/ubr.c:789-817 | out of a composed prefix the device part comes back whole, and the identifier up to its first separator |
| Keys.StoreKeyInjective | src/resource/ubr.c:610-659 | specifications with any identifiers, whose other parts are free of the separator, share a record only if they are equal |
| Keys.SharesIff | src/resource/ubr.c:610-659 | a specification shares its record with another, clean one if and only if its device part, its category or its core has a separator |
| Keys.ReadClean | src/resource/ubr.c:610-659 | every key can be read as that of exactly one clean specification |
| Keys.CategoriesCollide | src/resource/ubr.c:3624-3644 | category a with identifier b:c, and category a:b with identifier c: one record |
| Keys.PrefixInjective | src/resource/ubr.c:661-665 | specifications with any identifiers, whose other parts are free of the separator, share an item only if they agree in all but the core |
| SortedVec.AscendingUnique | src/resource/ubr.c:2002-2008 | a sorted vector without repetition is determined by its items |
| SortedVec.QsortMeans | src/resource/ubr.c:2002-2008 | sorting distinct items gives the ascending vector of the same items |
| Bitmap.Create | src/internal/bmp.c:36-67 | no bits are an error, memory may run out, and otherwise all bits are as requested with the right count |
| Bitmap.Bmp.SetBit | src/internal/bmp.c:85-99 | exactly the bit changes, and the count by the change; out of range is refused |
| Bitmap.Bmp.UnsetBit | src/internal/bmp.c:101-115 | exactly the bit changes, and the count by the change; out of range is refused |
| Bitmap.Bmp.BitIsSet | src/internal/bmp.c:117-129 | the bit |
| Bitmap.Bmp.GetBitSetCount | src/internal/bmp.c:136-139 | the running count is the number of set bits |
| Bitmap.BlockShift | src/internal/bmp.c:26-29 | the computed shift divides a position by the bits of a block |
| Words.HasWith | src/internal/bmp.c:85-99 | setting a bit of a word changes that bit alone |
| Words.HasWithout | src/internal/bmp.c:101-115 | clearing a bit of a word changes that bit alone |
| DeltaStep.InitDeltaBuffer | src/resource/ubr.c:1739-1767 | nothing for size 0, an error below the header size, else a buffer with the header and exactly the preset slots |
| DeltaStep.Place | src/resource/ubr.c:1805-1950 | the switch for one item: it goes to the lists the operation says, and no append exceeds a preset size |
| DeltaStep.StepCalc | src/resource/ubr.c:1781-1959 | the two-finger merge computes the lists of the operation, missing when empty, with no append failing |
| DeltaStep.MergeMeans | src/resource/ubr.c:1781-1959 | for sorted inputs the merged lists are sorted and are the set algebra of SET, PLUS and MINUS |
| DeltaStep.StepAlgebra | src/resource/ubr.c:1781-1959 | final = (old - minus) + plus, plus is disjoint from old, minus is within old |
| DeltaAbs.CrossBitmapCalc | src/resource/ubr.c:1961-2000 | the bits left set are the header cells and the items the other vector does not have |
| DeltaAbs.CountMarks | src/resource/ubr.c:2084-2092 | the set-bit count is exactly the size of the vector of survivors |
| DeltaAbs.FillOne | src/resource/ubr.c:2101-2153 | the buffer is filled to its last slot and sorted |
| DeltaAbs.AbsCalc | src/resource/ubr.c:2010-2172 | the new absolute vectors: what survives of the stored list and of the step's, sorted; they exist when either source does |
| DeltaView.AbsListMeans | src/resource/ubr.c:2010-2172 | that list holds exactly the cumulative difference, without repetition |
| DeltaView.CumulativeStep | src/resource/ubr.c:2010-2172 | a step keeps stored plus = current - base and stored minus = base - current |
| DeltaView.TrackedDifferences | src/resource/ubr.c:2420-2434 | the stored lists are exactly the differences to the snapshot |
| DeltaSet.CommitIsPending | src/resource/kvs.c:1003-1053 | committing yields the records without the deferred unsets |
| DeltaSet.StepAndStore | src/resource/ubr.c:2343-2384 | the stored list becomes the final one under the header of the set; the step's own lists come back |
| DeltaSet.StoreAbs | src/resource/ubr.c:2235-2259 | the absolute list is stored under its header, marked for the sync, or its record unset when it is a bare header |
| DeltaSet.UpdateRelatives | src/resource/ubr.c:2266-2341 | every relative an item names makes the mirrored step with the one item, under the header of the set with flags of its own, and no record outside these changes |
| DeltaSet.DeltaUpdate | src/resource/ubr.c:2183-2341 | one direction: its absolute list, then its relatives |
| DeltaSet.DoDeltaSet | src/resource/ubr.c:2386-2466 | step, absolute lists, both directions; the inner calls carry no relation flag, so the recursion ends |
| DeltaSet.KvDeltaSet | src/resource/ubr.c:2468-2481 | one committed transaction: the list makes its step, each named relative the mirrored one, with their headers, and nothing else changes; busy inside another transaction |
| DeltaRel.ConformsIff | src/resource/ubr.c:789-817 | the prefix of a relative names it if and only if it is a device or its identifier has no separator |
| DeltaRel.CallKeepsWorld | src/resource/ubr.c:2183-2341 | every good call keeps the relation symmetric, all lists tracked against the same base, and members of one kind; groups may have any identifiers |
| DeltaRel.CallAt | src/resource/ubr.c:2386-2466 | what a call does to any one list of the store |
| DeltaRel.HandleDevsForGroup | src/resource/ubr.c:3482-3562 | the group gains or loses exactly the given members, or the current device; its record has the given header, and those of the changed members that header with their own flags; symmetry is kept |
| DeltaRel.GroupDestroy | src/resource/ubr.c:3564-3622 | missing, refused because not empty, or emptied; other groups keep their members |
| DeltaRel.AliasRename | src/resource/ubr.c:3646-3692 | the old members are all under the new alias afterwards if and only if the aliases differ or there were none; the old alias is emptied and other groups stay |
| DeltaRel.RenameToItself | src/resource/ubr.c:3646-3692 | a device takes an alias of any name, the alias is renamed to itself, and has no members |
| DeltaRel.AliasKeys | src/resource/ubr.c:86-94 | the keys of the records of an alias and of a device, letter by letter |
| DeltaSync.CumulativeAlways | src/resource/ubr.c:2010-2466 | after any number of calls since the fork: cumulative lists are the differences to the fork, relation symmetric |
| DeltaSync.SyncDelta | src/resource/ubr.c:6703-6731 | main's list makes the step under the header that was sent; its record goes exactly if the list is empty and that header does not reserve it |
| DeltaSync.SyncMain | src/resource/ubr.c:6510-6755 | a worker's batch in one committed transaction: each list gains what was sent as added and then loses what was sent as removed, its last record leaves its header or nothing, nothing else changes; every step is handed the delta specification if and only if no record but the last empties an unreserved list |
| DeltaSync.GoneIff | src/resource/ubr.c:6716-6730 | a list of the batch has a record afterwards if and only if no record of the batch empties it without reserving it |
| DeltaSync.TwoListsEmptied | src/resource/ubr.c:6703-6731 | two lists lose their only members in one message: both records go, and the second step is handed what the unset of the first list left |
| DeltaSync.ReservedListStays | src/resource/ubr.c:6716-6730 | a reserved list that loses its only member keeps its record, with the header that was sent |
| DeltaSync.MergeConverges | src/resource/ubr.c:6510-6755 | folding any number of workers: (base + all additions) - all removals, for every list |
| DeltaSync.OrderDoesNotMatter | src/resource/ubr.c:6510-6755 | the same workers in any order lead to the same lists |
| DeltaSync.SingleWorker | src/resource/ubr.c:6510-6755 | one worker's lists become main's |
| DeltaSync.MergedIsSymmetric | src/resource/ubr.c:6510-6755 | if base and workers were symmetric, so is the merged store |
| DeltaRound.DeltaKey | src/resource/ubr.c:740-761 | a list's delta records are its key behind the operation's character, and the operation is read back from it |
| DeltaRound.ExportDeltas | src/resource/ubr.c:1369-1503 | the batch carries exactly the marked delta lists of the store, as they are but for the mark, additions before removals because of the key order |
| DeltaRound.Unmark | src/resource/ubr.c:1376-1380 | exactly the sync flag is cleared in what is sent |
| DeltaRound.Worker | src/resource/ubr.c:2386-2481 | any run of calls in a fork: its lists, and no delta record that is not a list's or not marked for the sync |
| DeltaRound.FoldingMerges | src/resource/ubr.c:6510-6755 | folding an exported batch merges the worker's lists into main's |
| DeltaRound.Round | src/resource/ubr.c:6510-6755 | any number of workers fork, run and export, and main folds: every list is (base + all additions) - all removals, the last record of a list leaves its header or nothing, and main is good for the next round; every step was handed its specification if and only if no record of a message but the last empties an unreserved list |
| Framing.DecodeEncode | src/base/buf-type-linear.c:317-320 | the 32-bit prefix is faithful if and only if the size fits it |
| Framing.LowByteFirst | src/base/buf-type-linear.c:317-320 | the prefix has the low byte first, as on a little-endian machine |
| Buffers.RoundUp | src/base/buf-type-linear.c:45-46 | the least multiple of the allocation step that is enough |
| Buffers.Buf.constructor | src/base/buf.c:29-70 | a new buffer of the given size and step |
| Buffers.Buf.Realloc | src/base/buf-type-linear.c:30-99 | when memory grows, to what size, and when it is refused |
| Buffers.Buf.Add | src/base/buf-type-linear.c:157-191 | the items are appended, growing if allowed; a refusal leaves everything unchanged |
| Buffers.Buf.Reset | src/base/buf-type-linear.c:144-155 | empty again with the initial size |
| Framing.LinearWrite | src/base/buf-type-linear.c:406-439 | the next bytes of the stamped frame, whatever part the call takes; the end is reported as such |
| Framing.Locate | src/base/buf-type-vector.c:370-383 | the block and the offset in it where a position of the frame lies |
| Framing.VectorWrite | src/base/buf-type-vector.c:362-409 | the same for a vector of blocks; the shortened block is restored |
| Framing.SidBufWrite | src/base/buf.c:253-256 | either buffer type writes the next bytes of the same frame |
| Framing.WriteAll | src/base/buf.c:268-291 | whatever part each write takes, the whole frame is written once and in order; on an error a part of it |
| Framing.ReadPrefixed | src/base/buf-type-linear.c:357-392 | on any stream: what is read is appended, the memory grows to the frame as soon as its size is known, a size below that of the prefix, memory that cannot grow and a stream that ends inside a frame are errors |
| Framing.LinearRead | src/base/buf-type-linear.c:357-392 | whatever part a read gives, the reader stays inside its frame and its memory; end of stream inside a frame is an error |
| Framing.ReceiveFrame | src/base/buf-type-linear.c:272-392 | reading until complete gives the payload and leaves the stream at the next frame |
| Framing.Session | src/base/buf.c:268-291 | any frames sent through linear and vector buffers under any short writes come back as the same payloads under any short reads |
| CmdMachine.Command.constructor | src/resource/ubr.c:6249-6386 | a new command: first stage scheduled |
| CmdMachine.Command.ChangeState | src/resource/ubr.c:4486-4560 | when a transition is refused, and what it does to stage, timer and handler |
| CmdMachine.Command.SendExport | src/resource/ubr.c:5786-5870 | sent, found empty, or failed |
| CmdMachine.Command.SendResponse | src/resource/ubr.c:5872-5912 | sent or failed; early if the export of a to-main command is not settled |
| CmdMachine.Command.Execute | src/resource/ubr.c:5935-5971 | the command's own handler runs, waits or fails; after the acknowledgement it is skipped |
| CmdMachine.Command.SendFirst | src/resource/ubr.c:5973-6011 | export first for a to-main command, response first otherwise |
| CmdMachine.Command.SendLast | src/resource/ubr.c:6013-6031 | the other buffer, and the end of the stage |
| CmdMachine.Command.Handler | src/resource/ubr.c:5914-6047 | the state a run of the handler ends in, for every outcome of its calls; if nothing fails or waits, a wait for the next stage below the registered number of stages and the end otherwise; orderly commands stay orderly |
| CmdMachine.Command.OnAck | src/resource/ubr.c:6928-6952 | the export is settled and the handler scheduled |
| CmdMachine.Command.OnSchedule | src/resource/ubr.c:6850-6926 | the handler is scheduled, out of a stage wait with the next stage |
| CmdMachine.Command.OnTimeout | src/resource/ubr.c:4470-4473 | the stage wait ends in the timeout state |
| CmdMachine.Take | src/resource/ubr.c:5914-6047 | one event does what it should or, if its source does not exist, nothing |
| CmdMachine.Drive | src/resource/ubr.c:4486-6952 | for every sequence of events: the stage stays in range, a timer exists exactly in the stage wait, a command is finished only in its last stage, no response is early if monitor events only follow responses; in general one is if and only if the acknowledgement was overtaken |
| CmdMachine.AllStages | src/resource/ubr.c:4475-4560 | a command with any number of stages in which nothing fails responds once in each and is finished after the last, and not before |
| CmdMachine.EarlyIffOvertaken | src/resource/ubr.c:6912-6926 | a response is early if and only if a monitor event comes while the command waits for the acknowledgement and the handler runs before it |
| CmdMachine.MonitorOvertakesAck | src/resource/ubr.c:6912-6926 | the shortest such run |
| DevStack.StackGet | src/resource/ubr.c:4012-4139 | ends on every acyclic graph, fails exactly when a lookup it needs fails, and else returns exactly the immediate, all, or last dependencies, in the order of the lookups and once for every way |
| DevStack.SharedDependency | src/resource/ubr.c:4012-4139 | two dependencies that share one: the immediate, all and last lists, with the shared one twice |
| DevStack.ReachesByStep | src/resource/ubr.c:4012-4139 | reachability is a step, or a step and reachability |
| DevStack.BelowIsAbove | src/resource/ubr.c:4012-4139 | in two graphs that are each other's reverse, b is reached from a exactly when a is reached from b |
| Base64.EncodedLen | src/base/conv-base64.c:21-31 | the exact length with its NUL, or 0 when it does not fit 64 bits |
| Base64.EncodeTo | src/base/conv-base64.c:43-78 | exactly the encoding and its NUL are written, or nothing |
| Base64.TableIsAlphabet | src/base/conv-base64.c:13-13 | the letter of a value is the character at that place of the 64-character alphabet |
| Base64.GroupIsNumerals | src/base/conv-base64.c:55-59 | the four letters are the numerals of the 24-bit value to the base 64 |
| Base64.TailIsNumerals | src/base/conv-base64.c:63-73 | one or two bytes left: the numerals of their value with zero bits appended, and the pads |
| Base64.TestVectors | src/base/conv-base64.c:43-78 | the test vectors of RFC 4648 up to three bytes, and the letters + and / |
| Base64.BuildTable | src/base/conv-base64.c:96-99 | the decoding table inverts the alphabet |
| Base64.CountLetters | src/base/conv-base64.c:101-105 | the number of bytes that are not skipped |
| Base64.EmitGroup | src/base/conv-base64.c:125-142 | a full block gives its bytes less its pads; a block with pads is the last |
| Base64.DecodeFrom | src/base/conv-base64.c:90-147 | the decoder computes the grouped decoding of the letters |
| Base64.RoundTrip | src/base/conv-base64.c:90-147 | decoding undoes encoding for every non-empty input, also with other bytes mixed in |
| Base64.EmptyIsRefused | src/base/conv-base64.c:107-108 | the empty input is the exception |
| Base64.OutputDecodes | src/base/conv-base64.c:43-147 | the encoder's own output, with its NUL, decodes to its input |
| Tokens.TokenCounter.Token | src/internal/util.c:367-376 | counts tokens begun and characters |
| Tokens.StrvIter.Token | src/internal/util.c:384-402 | the strings so far lie one after the other, each slot pointing to its own |
| Tokens.IterateTokens | src/internal/util.c:272-322 | the callback sees exactly the pieces, in order; an unclosed quote is an error; every turn takes a character |
| Tokens.ScanIsReference | src/internal/util.c:272-322 | the scanner with its merging computes a character-at-a-time reference |
| Tokens.TokensAreReference | src/internal/util.c:272-322 | the grouped pieces are the tokens of the reference |
| Tokens.BegunIsTokens | src/internal/util.c:410-418 | the counting pass finds exactly the slots and bytes the copying pass fills |
| Tokens.CombToStrv | src/internal/util.c:420-459 | the vector of the tokens of prefix, string and suffix, filled to the last byte; nothing on an unclosed quote or too little memory |
| Tokens.SlotHolds | src/internal/util.c:384-402 | slot k points to the text of token k and its NUL |

## Left out

What the code does and the model does not:

- sd-event, udev, sockets, shared memory, processes, signals, module loading, logging and output formats: calls into other systems.
- Unsigned wrap-around of counters, sizes and stages; only the base64 length and the frame prefix have their width.
- Byte sizes of nodes, keys and records are constants of the model, not the compiler's.
- The backends of the store: it is modelled over a map. That the tree behaves as a map is proved of the tree alone; no member ties `KvStore.recs` to a tree.
- Store aliases, the iterators over the store, and the sync index (keys with an operation character for exported records).
- Write permissions of modules: the paths modelled write as the core, which is always allowed.
- Header cells of vectors (sequence number, flags, generation, owner) are strings; the flags cell lists its flags by letters. Sequence numbers are not compared, and the marking for the sync, which the code does on a variable the header shares, is modelled on the record alone.
- Scalar records, the archive of main's records and the non-delta branches of the sync.
- Device ready and reserved state, uuids, time and the other utilities.
- KvStore.KvStore.constructor: the choice of a backend, and creation failing.
- KvStore.KvStore.CreateValue: flags, sizes, and whether cells are referenced or copied; a container holds the cells.
- KvStore.KvStore.DestroyValue: the memory behind references.
- KvStore.KvStore.Consult: containers are immutable, so the rewriting of the pointer inside a reference container (kvs.c:371-383) is an edit that makes a new one; whether that allocation can fail is the caller's `fault`.
- KvStore.KvStore.RemoveValue: aliases in the store and their reference counts.
- KvStore.KvStore.WriteBoth: a failing archive write and its undo, as for SetValue.
- KvLedger.SetKeepsLedger: the archive write succeeds.
- KvLedger.UnsetKeepsLedger: unsets without an archive key.
- KvStore.KvStore.SetValue: the archive write itself succeeds; kvs.c:598-604 undoes the first write when it fails, outside transactions only.
- KvStore.KvStore.UnsetValue: an unset with an archive key is not modelled; it writes the archive at once, also inside a transaction. Its callback answers yes or no, as those in the repository do.
- KvRollback.RollbackRestoresIff: transactions of sets and plain unsets, without aliases added inside; archive keys are kept apart from the keys that are set, as their composition does.
- KvBalance.RollbackBalancesIff: the same transactions.
- KvCalls.RunCalls: runs with committed transactions; rolled-back ones are KvCalls.RolledBack.
- DeltaStep.InitDeltaBuffer: memory is available.
- DeltaStep.Place: appends within the preset size do not fail.
- DeltaStep.StepCalc: allocations inside the delta engine succeed.
- DeltaAbs.AbsCalc: qsort is modelled as a function that sorts; the pointer vector it sorts is the array of cells.
- DeltaSet.StepAndStore: the check of the module's write permission; the paths modelled write as the core.
- DeltaSet.StoreAbs: the sync index.
- DeltaSet.DeltaUpdate: the sync index; the result of an inner set is not looked at, as in the code.
- DeltaSet.DoDeltaSet: parts other than the identifier are free of the separator, and items conform (`DeltaRel.ConformsIff` says which do).
- DeltaSet.UpdateRelatives: relatives are in the device or the module namespace, the two the code accepts, and the result of an inner set is not looked at, as in the code.
- DeltaRel.HandleDevsForGroup: the specifications of group and member are arguments; how the code fills their namespace parts is not modelled.
- DeltaRel.GroupDestroy: the specification of the relatives is an argument, as above.
- DeltaSync.SyncDelta: the delta specification is passed to each step.
- DeltaSync.SyncMain: what a step reads when it is not handed the specification is undefined in C and not modelled; the records are folded in as with it, and `intact` says whether the code does so. Scalar and set records come after the delta records in key order and are left out.
- DeltaRound.ExportDeltas: delta records only; the clearing of the mark in the worker's store and the removal of exported delta records from it are not modelled.
- DeltaRound.Round: the equation is that of the code when `intact` is true, as for DeltaSync.SyncMain. Each worker's batch is folded in as a whole, one after the other, as the main process does; the batch is passed as a value, the framing modules show that frames arrive as they were sent.
- Buffers.Buf.Realloc: memory is available up to the limit; the file backend is left out.
- Framing.LinearWrite: the memory backend.
- Buffers.Buf.Add: memory is available up to the limit; marks, and adding items without data, are left out.
- Framing.WriteAll: size prefix mode and memory backends; an error a write reports is not ENODATA.
- Framing.Session: frames shorter than 2^32, and a reader that starts with no more room than the shortest payload, as a larger buffer would read into the next frame.
- CmdMachine.Command.constructor: failing initialisation.
- CmdMachine.Command.SendExport: exports to other channels than the main process.
- CmdMachine.Command.Execute: handlers that set other states themselves.
- CmdMachine.Command.Handler: the unset buffer and the worker's yielding at the end of a stage are left out; the command's own handler either finishes, waits or fails.
- DevStack.BelowIsAbove: that the graphs are each other's reverse is a hypothesis; the lists of the two directions hold keys of different kinds.
- DevStack.StackGet: the lookup of immediate dependencies is a function of the device; memory is available.
- Base64.DecodeFrom: memory for the output is available.
- Tokens.IterateTokens: the callback is one of the two passes, which do not fail.
- Tokens.CombToStrv: memory is available when the caller gives none.
- BPRefine.PerformUpdate: as for BPUpdate.Update.
- BPNodeDelete.RemoveLeafSlots: the reference of the removed key is released by BPErase.RemoveFromLeaf.
- BPUpdate.Update: the callback is a pure function of what it is shown; its answer carries the new data.
- BPIter.Pass: the tree does not change during a pass.
