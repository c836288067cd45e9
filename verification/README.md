# DartSync in Dafny

DartSync keeps one directory in step across many clients. A tracker holds a master tree and a table
that says which peers own which chunk of which file; clients send it diffs of their directory, apply
the diffs of others, and fetch the missing chunks from each other.

This project models that machinery and proves what it is for:

- **The tree calculus.** `filesystem_diff` splits two directory snapshots into additions and
  deletions; `minus_equals` and `plus_equals` apply them. Subtraction is set difference on entries,
  patching with a diff turns the old tree into the new one, no assert of `folder_add` fires on the
  way, and equality of trees is equality of their entries. Exactly when a diff, stale or not, can be
  applied to a tree is stated as well. Replicas that follow the same chain of diffs converge, also
  when a diff is delivered several times.
- **Replay on a disk.** The orders in which the client walks a diff (file first for deletions, folder
  first for additions) never meet a directory that is not empty or a parent that is missing, and the
  disk ends as the new tree, with file/folder swaps at one name, exactly if all added files are below
  2^31 bytes. Over whole runs, in which fetched files arrive between and after later diffs, no
  operation on the disk fails, the tree the client re-reads takes every diff, and on the same
  condition the disk equals the last snapshot once nothing is pending.
- **The download protocol.** Over every run, with a network that delays, drops, duplicates and
  reorders answers, and with the exact condition on the tracker's master messages: the queued, in-flight and received chunks of a file partition it, no answer to
  a request of an earlier version is applied, no job is accepted twice, and a file to fetch is
  written exactly when all its chunks are in, once per version. The client's loops are methods that
  carry such a run along as ghost state. Put together with the directory: once every entry to fetch is
  written, the directory is the last snapshot.
- **The tracker.** Over every run from the empty tracker the table's keys are exactly the plain files
  of the tree (those whose length stays non-negative as an `int`), with matching chunk counts and an
  owner for every chunk, also when updates come from clients that lack part of the master, exactly if
  they fit it; pruning after a lost peer never fails and removes exactly the files that
  lost a chunk's last owner.
- **The wire formats.** The tree and the table parse back exactly in front of any trailing bytes,
  including the decimal numbers in them, so additions, deletions and author come back from one buffer.
- **The structures underneath.** The circular queue is a sequence, the linked list with its removing
  iterator is a sequence with a cursor, the hash table is a map, the sparse/dense set over memory of
  unknown contents is a map, and a file copied chunk by chunk equals its source.

Code that edits things in place is modelled by methods on arrays and linked objects, each proved
against a function on values; the theorems are about those functions.

| file | models |
|---|---|
| `Basics.dfy`, `FileTree.dfy` | bytes, selection by a test; file records, folders, snapshots, what a tree holds |
| `FolderOps.dfy`, `DiffPatch.dfy`, `Replicas.dfy` | folder_subtract, folder_remove, folder_add; diff and patch; replicas |
| `FolderHeap.dfy` | the same operations in place on linked folders |
| `AheadPatch.dfy` | a diff applied to a tree that has more than the diff's base |
| `Paths.dfy`, `Listing.dfy`, `ListOrder.dfy`, `PathTable.dfy` | path strings, the two list builders and the order they give, the loops over a list that change a table keyed by paths |
| `DiskReplay.dfy`, `Scan.dfy`, `WorkingCopy.dfy` | replay of a diff on a disk, reading directories back, a client's directory over a run |
| `Decimal.dfy`, `TreeCodec.dfy`, `TableCodec.dfy` | printf/scanf of integers, the two serializers and readers, network payloads |
| `Unsigned.dfy`, `Pjw.dfy` | bit operations on unsigned numbers, the hash of the file table |
| `HashTable.dfy`, `CircularQueue.dfy`, `LinkedList.dfy`, `SparseSet.dfy`, `ChunkyFile.dfy` | the structures |
| `Owners.dfy` | the owner queues of a table entry |
| `Download.dfy`, `Client.dfy`, `ClientRun.dfy`, `Tracker.dfy` | the download protocol, the client's loops over it, table and directory of a client together, the tracker |

## Model

| member | source | states |
|---|---|---|
| `DiffPatch.SubtractIsDifference` | utility/FileSystem/FileSystem.c:384-415 | an entry is in the subtracted tree exactly when it was in the first and is not in the second, at every depth; emptied common sub-folders vanish without taking entries along |
| `FolderOps.SubtractFoldersLookup` | utility/FileSystem/FileSystem.c:398-414 | after the sub-folder loop the sub-folder of any name is the subtracted one, gone when that emptied it, and untouched when the other tree has none |
| `FolderOps.SubtractUnique` | utility/FileSystem/FileSystem.c:384-415 | names stay unique in every folder of a subtracted tree |
| `DiffPatch.EqualsIffSameEntries` | utility/FileSystem/FileSystem.c:626-641 | two snapshots are equal for the code exactly when they hold the same entries, whatever the order of their queues |
| `DiffPatch.LeftoverHasEntry` | utility/FileSystem/FileSystem.c:613-625 | a snapshot minus another is either empty at the top or still holds an entry, so emptiness of the root decides emptiness of the tree |
| `DiffPatch.RemoveDenotes` | utility/FileSystem/FileSystem.c:421-455 | folder_remove on a snapshot takes away exactly the listed records and everything below a removed marker |
| `FolderOps.RemoveLookup` | utility/FileSystem/FileSystem.c:421-455 | after folder_remove the sub-folder of any name is gone with its marker, otherwise the recursively treated one |
| `DiffPatch.CutWitness` | utility/FileSystem/FileSystem.c:426-443 | a directory cut by a removal lies at or below a marker that the removal lists |
| `DiffPatch.AddIsUnion` | utility/FileSystem/FileSystem.c:459-522 | whenever folder_add succeeds its result holds exactly the entries of either tree |
| `DiffPatch.AddSucceedsIff` | utility/FileSystem/FileSystem.c:459-522 | none of the asserts of folder_add fires exactly when markers and sub-folders of the two trees fit, a condition readable before the call |
| `FolderOps.AddFilesSucceeds` | utility/FileSystem/FileSystem.c:464-509 | the asserts of the file loop all hold exactly when each added marker has its sub-folder to add and is present together with its counterpart or not at all |
| `FolderOps.AddLookup` | utility/FileSystem/FileSystem.c:459-522 | after folder_add the sub-folder of any name is the old or newly made one with the recursive addition applied |
| `DiffPatch.PatchKeepsShape` | utility/FileSystem/FileSystem.c:760-791 | applying a diff to a working copy, in which plain files may still be missing and directories the diff gives up may be gone already, fires no assert and gives a snapshot |
| `DiffPatch.PatchInvertsDiff` | utility/FileSystem/FileSystem.c:760-791 | old minus deletions plus additions succeeds, is a snapshot, and holds exactly the entries of new, in whatever queue order old is kept |
| `DiffPatch.PatchInvertsDiffLagging` | client/client.c:842-856 | on such a working copy the result holds exactly the entries of new that were added or already there |
| `DiffPatch.PatchLevel` | utility/FileSystem/FileSystem.c:384-522 | applying any diff to any snapshot goes name by name: the sub-folder the additions enter is the one left by the deletions, an empty new one, or none where the diff walks through a folder the tree lacks |
| `DiffPatch.PatchSucceedsIff` | utility/FileSystem/FileSystem.c:760-791 | a diff between two snapshots can be applied to a third, stale ones included, without an assert firing exactly when every directory of the old tree on the way to an added entry is still there |
| `DiffPatch.PatchSucceedsHere` | utility/FileSystem/FileSystem.c:459-522 | one level of that: the patch succeeds exactly when it can enter, and succeeds in, every sub-folder the additions touch |
| `DiffPatch.RemoveKeepsSnapshot` | utility/FileSystem/FileSystem.c:421-455 | a snapshot from which any listed records were removed is a snapshot |
| `Replicas.RemoveAbsent` | utility/FileSystem/FileSystem.c:421-455 | removing entries that are not there leaves the tree, queue order included, as it is |
| `Replicas.AddPresent` | utility/FileSystem/FileSystem.c:459-522 | adding what a snapshot already holds succeeds and leaves it as it is |
| `Replicas.PatchTwice` | utility/FileSystem/FileSystem.c:760-777 | applying the most recent diff again changes nothing at all |
| `Replicas.ReplicaReachesLast` | tracker/tracker.c:437-438 | a replica that receives a chain of diffs, each against its predecessor and each any positive number of times, ends equal to the last snapshot |
| `Replicas.ReplicasConverge` | tracker/tracker.c:437-438 | two replicas that start equal end equal for filesystem_equals, however often each diff reached either |
| `Replicas.StaleDiffAborts` | utility/FileSystem/FileSystem.c:510-521 | a diff against an outdated tree can fire an assert: one peer deletes a folder, another adds a file inside it |
| `FolderHeap.FolderNode.Copy` | utility/FileSystem/FileSystem.c:361-380 | a copy shares no node with the original and stands for the same tree |
| `FolderHeap.FolderNode.Subtract` | utility/FileSystem/FileSystem.c:384-415 | in place, the node comes to stand for the subtracted tree and the argument is untouched |
| `FolderHeap.FolderNode.SubtractFrom` | utility/FileSystem/FileSystem.c:400-413 | one turn of its sub-folder loop |
| `FolderHeap.FolderNode.Remove` | utility/FileSystem/FileSystem.c:421-455 | in place, the node comes to stand for the tree with the listed entries removed |
| `FolderHeap.FolderNode.RemoveRecord` | utility/FileSystem/FileSystem.c:428-442 | one turn of its file loop: a removed marker takes its sub-folder along |
| `FolderHeap.FolderNode.RemoveFrom` | utility/FileSystem/FileSystem.c:447-453 | one turn of its sub-folder loop |
| `FolderHeap.FolderNode.Add` | utility/FileSystem/FileSystem.c:459-522 | in place addition that reports failure exactly when an assert fires and otherwise stands for the sum |
| `FolderHeap.FolderNode.AddRecord` | utility/FileSystem/FileSystem.c:467-508 | one turn of its file loop, with the exact condition of its asserts |
| `FolderHeap.FolderNode.AddInto` | utility/FileSystem/FileSystem.c:512-520 | one turn of its sub-folder loop, with the exact condition of its asserts |
| `FolderHeap.FolderNode.RemoveFileAtPath` | utility/FileSystem/FileSystem.c:524-561 | in place removal at a path, failing exactly where the FAIL label is reached |
| `FolderHeap.FilesystemDiff` | utility/FileSystem/FileSystem.c:778-791 | two fresh trees, disjoint from each other, that stand for the additions and the deletions; the arguments keep theirs |
| `FolderHeap.FilesystemEqualsNodes` | utility/FileSystem/FileSystem.c:626-641 | equality on linked folders is equality of the trees they stand for |
| `FolderHeap.ApplyDiff` | tracker/tracker.c:437-438 | minus_equals then plus_equals on linked folders is the patch of the tree, failing exactly when an assert fires |
| `Paths.GetPathComponents` | utility/FileSystem/FileSystem.c:78-112 | the two loops over the copied string cut it at slashes into its non-empty components; it reports failure exactly on the strings on which the second loop never ends |
| `Paths.SplitCopy` | utility/FileSystem/FileSystem.c:95-108 | the second loop, turn by turn: it reaches the end with the components, or no number of turns reaches it |
| `Paths.SplitterEndsIff` | utility/FileSystem/FileSystem.c:95-108 | some number of turns reaches the end of the string exactly when it is empty or starts with a slash |
| `Paths.SplitRender` | utility/FileSystem/FileSystem.c:78-112 | splitting the string that the iterator builds for a path gives back its components |
| `Paths.RenderInjective` | utility/FileSystem/FileSystem.c:981-1052 | different paths of good names have different strings, so strings can key the file table |
| `Paths.RemoveAtExact` | utility/FileSystem/FileSystem.c:524-561 | removing at the path of an entry of a snapshot removes exactly that entry, with its subtree if it is a folder, and leaves a snapshot |
| `Paths.RemoveAtFailsIff` | utility/FileSystem/FileSystem.c:524-561 | the FAIL label is reached exactly on paths that name no entry |
| `Listing.GetPathListFileFirst` | utility/FileSystem/FileSystem.c:944-979 | the recursive builder appends exactly the file-first list of the tree, as path strings |
| `Listing.GetPathListFolderFirst` | utility/FileSystem/FileSystem.c:981-1016 | the recursive builder appends exactly the folder-first list of the tree, as path strings |
| `Listing.SplitFiles` | utility/FileSystem/FileSystem.c:946-968 | the loop both builders start with separates plain files from markers, in order, with their full paths |
| `Listing.ListMembers` | utility/FileSystem/FileSystem.c:944-1016 | either list holds exactly the entries of the tree |
| `Listing.ListOrdered` | utility/FileSystem/FileSystem.c:944-1016 | each entry is listed once; file first puts content before its directory, folder first puts directories before their content |
| `ListOrder.ListInOrder` | utility/FileSystem/FileSystem.c:944-1016 | positions in either list, at every directory of the tree: file first puts its plain files before everything deeper and that before its markers, folder first the other way round; plain files, markers and sub-folders each follow their queue |
| `ListOrder.ListsSorted` | utility/FileSystem/FileSystem.c:1018-1052 | the same for the whole file-first and folder-first list of a tree |
| `DiskReplay.DeletionsRun` | client/client.c:488-517 | removing a list in which the content of a directory comes before it never meets a directory that is not empty, and leaves exactly the other nodes |
| `DiskReplay.AdditionsRun` | client/client.c:519-575 | creating a list in which parents come first never fails, and puts exactly the nodes on the disk that the source makes of the listed records by their int lengths |
| `DiskReplay.MadeRightIff` | client/client.c:530-568 | what the source makes of a record is what the record says exactly for folders and for files below 2^31 bytes; other files become directories, empty or cut files, or nothing at all |
| `DiskReplay.HugeFileBecomesDirectory` | client/client.c:538-544 | a file of 2^32 - 1 bytes, added to an empty directory, arrives as a directory |
| `DiskReplay.DifferenceListed` | utility/FileSystem/FileSystem.c:778-791 | the iterator's list of one side of a diff holds exactly the entries the other tree lacks, ordered and without two entries at one path |
| `DiskReplay.ReplayLagging` | client/client.c:836-868 | the whole branch on a disk on which files may still be missing or not as recorded: every removal finds its node or nothing, whatever snapshot is read back takes the diff without an assert, no creation fails in any schedule, and the disk ends as the tree in memory, what was read and what the diff adds, exactly if every added plain file is below 2^31 bytes |
| `DiskReplay.AfterDeletions` | client/client.c:488-517 | the removals leave exactly the nodes at the paths whose record both trees have |
| `DiskReplay.ReadBack` | client/client.c:511-516 | after them the tree minus the deletions stands on the disk: a snapshot that lags behind old on the way to new |
| `DiskReplay.ReadTakesDiff` | client/client.c:511-516 | whatever snapshot the scan after the removals reads, the deletions name nothing in it, no assert of folder_add fires, and it ends with what was read and what the diff adds |
| `WorkingCopy.ReceivedInv` | client/client.c:836-868 | one diff received on a directory with files still pending: no operation fails, the directory has every folder of the new tree, nothing at a path the new tree lacks, what is pending is missing, and everything else is what the source makes of its record |
| `WorkingCopy.ArrivedInv` | client/client.c:798-815 | a pending file can be written whenever its last chunk comes, also after later diffs, and its node is what the source makes of its record |
| `WorkingCopy.CopyReachesLast` | client/client.c:761-879 | over every run of diffs, each against its predecessor, and of pending files arriving in between: no disk operation fails, the disk never holds anything at a path the last snapshot lacks, and once nothing is pending it equals it exactly if every file that came by a diff is below 2^31 bytes |
| `WorkingCopy.ScanInRun` | utility/FileSystem/FileSystem.c:239-293 | in every state of such a run, files still pending included, the scan of the directory reads a snapshot that stands on the disk |
| `WorkingCopy.ScanAfterRemovals` | client/client.c:511-516 | so does the scan between the two loops of the branch, on which the diff is then applied |
| `Scan.ScanStands` | utility/FileSystem/FileSystem.c:239-293 | reading directories recursively, in whatever order their names come, gives a snapshot that holds exactly what is on the disk, for every disk whose nodes stand in directories |
| `Scan.ReadHas` | utility/FileSystem/FileSystem.c:239-293 | a record is read exactly when its node stands at its path, at every depth |
| `Scan.ScansAgree` | utility/FileSystem/FileSystem.c:239-293 | any two snapshots that stand on one disk hold the same entries, so the order of reading does not matter |
| `WorkingCopy.LocalDirectory.RecvDiff` | client/client.c:836-868 | the branch on the client's tree and directory, scans included: no assert of folder_add is reached, and tree and directory agree again |
| `WorkingCopy.LocalDirectory.FileWritten` | client/client.c:804-815 | the same for a file whose last chunk arrived |
| `DiskReplay.ReplayExact` | client/client.c:488-575 | from a disk equal to old no removal and no creation fails, also where a file and a folder swap at one name, and the disk ends equal to new exactly if every added plain file is below 2^31 bytes |
| `DiskReplay.ClientSchedule` | client/client.c:519-575 | creating at once what has int length -1 or no chunks, and the other files in any order later, is such an order of creations |
| `DiskReplay.OneRecordPerName` | utility/FileSystem/FileSystem.c:239-293 | at one path a tree has one record |
| `Decimal.ValueOfDigits` | utility/FileSystem/FileSystem.c:846 | the printed digits of a number have that number as their value |
| `Decimal.Digits` | utility/FileSystem/FileSystem.c:846 | a number is printed in digits without a leading zero, 0 itself as one |
| `Decimal.ScanPrinted` | utility/FileSystem/FileSystem.c:905 | scanning a printed integer, followed by anything that is not a digit, gives it back and stops right after it |
| `Decimal.UlongRoundTrip` | utility/FileSystem/FileSystem.c:846-905 | a size printed as signed and scanned as unsigned comes back over the whole unsigned long range |
| `TreeCodec.SerializeHelper` | utility/FileSystem/FileSystem.c:838-857 | the recursive writer appends exactly the format's bytes for the folder |
| `TreeCodec.DeserializeHelper` | utility/FileSystem/FileSystem.c:879-922 | the reader's loop with its moving cursor computes the recursive reading, and fails exactly with it |
| `TreeCodec.NumbersRoundTrip` | utility/FileSystem/FileSystem.c:844-907 | size, time and kind of a record come back from their decimal form |
| `TreeCodec.FolderRoundTrip` | utility/FileSystem/FileSystem.c:838-922 | reading a written folder gives the same folder, queues in order, and stops at the first byte after it |
| `TreeCodec.TreeRoundTrip` | utility/FileSystem/FileSystem.c:859-934 | deserialize inverts serialize in front of any trailing bytes and reports exactly the serialized length |
| `TreeCodec.SampleTree` | utility/FileSystem/FileSystem.c:834-857 | the bytes of one folder with a file, a marker and a sub-folder, written out: markers, order of the numbers, terminators |
| `TreeCodec.DiffRelayed` | tracker/network_tracker.c:357-393 | additions and deletions come back from the client's payload, and with the author from the tracker's |
| `Pjw.PjwBelow` | utility/FileTable/FileTable.c:36-51 | the hash stays below 2^28 after every character, negative ones included |
| `Pjw.HashPjw` | utility/FileTable/FileTable.c:36-51 | the loop, in integers: each character makes the 32-bit sum of 16 times the hash and the signed character, whose four highest bits go away and are xored onto bits 4 to 7; at most six characters below 128 give their base-16 sum |
| `Pjw.HashFollows` | utility/FileTable/FileTable.c:41-48 | the hash of any string is determined so from that of its prefix |
| `Pjw.ShortHash` | utility/FileTable/FileTable.c:43 | a string of at most six characters below 128 hashes to the sum of its characters times powers of 16 |
| `Unsigned.XorBit` | utility/FileTable/FileTable.c:46 | bit k of a ^ b is the sum of the two bits modulo 2 |
| `Unsigned.XorBlocks` | utility/FileTable/FileTable.c:46 | ^ goes apart above and below any bit |
| `Pjw.BucketInRange` | utility/HashTable/HashTable.c:84 | the C remainder of any key's hash is a valid bucket index |
| `Pjw.IndexInTable` | utility/HashTable/HashTable.c:84 | so the index function of the source is one of those the table is proved for |
| `HashTable.HashTable.GetElement` | utility/HashTable/HashTable.c:80-94 | searches the linked list of the key's bucket and returns what the map holds at the key |
| `HashTable.HashTable.RemoveElement` | utility/HashTable/HashTable.c:96-110 | removes the first match from that list: the key leaves the map, its value is returned, and only that bucket changes |
| `HashTable.HashTable.Add` | utility/HashTable/HashTable.c:112-121 | appends to that list: a new key enters the map; a key that is there already stays in front and the table stops standing for a map |
| `HashTable.RemovalRepresents` | utility/HashTable/HashTable.c:96-110 | dropping the first match from a bucket removes exactly that key from the map the buckets stand for |
| `HashTable.AdditionRepresents` | utility/HashTable/HashTable.c:112-121 | appending to a bucket adds exactly that key to the map the buckets stand for |
| `HashTable.HashTableIterator.Next` | utility/HashTable/HashTable.c:173-197 | walks the linked lists in bucket order with one inner iterator after the other: each element exactly once, then nothing for ever |
| `HashTable.NewIterator` | utility/HashTable/HashTable.c:152-171 | there is no iterator exactly when the table is empty; otherwise all elements are ahead of it |
| `HashTable.Rebuild` | utility/FileTable/FileTable.c:302-376 | adding a table's elements to an empty one in iteration order rebuilds every bucket in order |
| `TableCodec.FiletableSerialize` | utility/FileTable/FileTable.c:256-300 | the loop over the iterator writes exactly the format's bytes for the table |
| `TableCodec.SerializeEntry` | utility/FileTable/FileTable.c:269-287 | one turn of that loop |
| `TableCodec.FiletableDeserialize` | utility/FileTable/FileTable.c:302-376 | the flat loop over mutable table, entry and chunk computes the specified reading |
| `TableCodec.EntriesRun` | utility/FileTable/FileTable.c:322-361 | on written entries the state machine adds each of them, cleared of work, and goes on behind them |
| `TableCodec.TableRoundTrip` | utility/FileTable/FileTable.c:256-376 | reading a written table, in front of any bytes, rebuilds paths, chunks and owners in order with empty queues, consumes the whole length, and serializes to the same bytes again |
| `TableCodec.SampleTable` | utility/FileTable/FileTable.c:248-291 | the bytes of one table with two chunks and three owners, written out |
| `ChunkyFile.ChunkyFile.ForWriting` | utility/ChunkyFile/ChunkyFile.c:47-67 | a fresh file holds the filling pattern and no chunk is marked |
| `ChunkyFile.ChunkyFile.GetChunk` | utility/ChunkyFile/ChunkyFile.c:107-121 | returns the bytes of that chunk |
| `ChunkyFile.ChunkyFile.SetChunk` | utility/ChunkyFile/ChunkyFile.c:123-145 | copies the bytes to the chunk's place as far as the file goes, changes no others, marks that chunk, and says exactly when bytes go past the buffer |
| `ChunkyFile.ChunkyFile.AllChunksWritten` | utility/ChunkyFile/ChunkyFile.c:147-159 | true exactly when every chunk is marked |
| `ChunkyFile.ReassembledAt` | utility/ChunkyFile/ChunkyFile.c:107-145 | after copying chunks in any order and with repeats, a byte is the source's where some copied chunk reaches it, else the filling |
| `ChunkyFile.ReassemblyExact` | utility/ChunkyFile/ChunkyFile.c:107-145 | once every chunk was copied, only a full last chunk differs from the source |
| `ChunkyFile.ReassemblySucceedsIff` | utility/ChunkyFile/ChunkyFile.c:113-116 | files of a size arrive unchanged, whatever they hold, exactly when the size is 0 or not a multiple of the chunk size |
| `ChunkyFile.FlagSetIff` | utility/ChunkyFile/ChunkyFile.c:123-159 | a chunk is marked exactly when it was among those copied |
| `ChunkyFile.Transfer` | utility/ChunkyFile/ChunkyFile.c:91-159 | the transfer on real buffers: contents as stated, and completeness reported exactly when every chunk came |
| `Download.AcceptedIsCurrent` | client/client.c:765-792 | an answer is accepted only if its job was issued for the entry's present version and that chunk, and not accepted before; the chunk is still missing and the file is there |
| `Download.StaleIsIgnored` | client/client.c:769-778 | an answer to a job of an earlier version, or one accepted before, changes nothing |
| `Download.ReceiveFaultsIff` | utility/FileTable/FileTable.c:129-138 | an answer follows a null pointer exactly when its path left the table; none is ever dropped for want of a file |
| `Download.DeletedPathFaults` | utility/FileTable/FileTable.c:129-138 | whenever the path of a request is deleted while the answer is under way, the answer faults |
| `Download.DeletedPathHappens` | client/client.c:765-769 | a run from the empty table reaches that: a file is announced, asked for and deleted |
| `Download.QueuedIsInside` | utility/FileTable/FileTable.c:101-123 | the chunk of an outstanding job is a chunk of the file that was not received |
| `Download.IssueInv` | utility/FileTable/FileTable.c:101-123 | issuing a job keeps the partition, the bound on outstanding jobs and all other entries |
| `Download.ReceiveInv` | client/client.c:765-825 | receiving any answer keeps them too, whatever the network delivers |
| `Download.DownloadInv` | utility/FileTable/FileTable.c:173-222 | so does replacing or creating an entry for an addition |
| `Download.RemoveInv` | utility/FileTable/FileTable.c:224-246 | so does removing an entry for a deletion |
| `Download.StepInv` | client/client.c:698-893 | a step of the client keeps the invariant exactly when it is not a master message for an entry with work, outstanding jobs or another chunk count |
| `Download.RefetchKeepsInvIff` | client/client.c:268-383 | a master message reopens a missing file and queues all its chunks again; this keeps the invariant exactly when the entry has nothing queued or outstanding and the same chunk count, not 0 |
| `Download.RefetchPartition` | utility/FileTable/FileTable.c:140-171 | after such a message, with the chunk count of the entry, queued, in-flight and received chunks of the new buffer partition the file exactly when nothing was on its way; counting what the old buffer had received, they never do unless the file has no chunks |
| `Download.RefetchDropsAnswer` | client/client.c:768-785 | a run that shows it: with one chunk outstanding a master message has it asked for twice, the first answer completes the file, the second is accepted and dropped |
| `Download.RunInv` | client/client.c:698-893 | over every run, master messages included, the invariant holds at every state exactly when each master message comes for an entry with nothing on its way and the same chunk count |
| `Download.DownloadsConserved` | client/client.c:765-825 | over every run whose master messages come for such entries only: queued, in-flight and received chunks partition each file; when all are received none is queued or in flight; a file to fetch is on disk exactly when all its chunks are in, written once per version, and no other file is written; at most 15 requests per file; no job accepted twice |
| `Download.StaleNeverApplied` | client/client.c:769-778 | over every such run, an accepted answer was asked for by the version of the entry that takes it, and it never faults or is dropped |
| `Download.RequestsGoToAuthor` | utility/FileTable/FileTable.c:117-206 | over any run, from the diff that announces a file until another peer is heard to have a chunk of it, every request for it goes to the author of the diff |
| `Client.ChunkClient.GetJobFor` | utility/FileTable/FileTable.c:101-123 | takes the first chunk off the work queue, asks one of its owners under the next job id, which joins the outstanding ones, and leaves all other entries alone; no job exactly with 15 outstanding or no work; aborts exactly on an ownerless chunk or at the end of the ids |
| `Client.ChunkClient.SendJob` | client/client.c:613-615 | one turn of the loop: the request sent is on record with the next job id for the entry's present version and a listed owner |
| `Client.ChunkClient.DrainEntry` | client/client.c:613-616 | sends consecutive new job ids until the entry is full or has no work, every request on record for the entry's present version and to a listed owner |
| `Client.ChunkClient.CheckWorkQueue` | client/client.c:595-622 | the same over all entries: afterwards each of them is full or has no work |
| `Client.ChunkClient.ReceiveChunk` | client/client.c:765-825 | performs the protocol's delivery step and reports exactly when a chunk was acquired, when the file was written, and when the path is unknown; an answer whose job is not outstanding changes nothing in the table |
| `Client.ChunkClient.TakeAnswer` | client/client.c:780-810 | its part for an answer whose job was outstanding: the job leaves the list; a rejected chunk goes to the end of the work queue, an accepted one is marked, and the file closed exactly when all others were |
| `Client.ChunkClient.RecvDiff` | client/client.c:836-862 | on the received trees, when they are the diff of two snapshots: every added counted file gets an entry with the chunks of its length, each owned by the author alone and queued once, nothing outstanding and its file open; deleted ones go, and every other entry stays as it is |
| `Client.TakesDiff` | utility/FileTable/FileTable.c:173-246 | the same of the two loops over any table |
| `Client.ChunkClient.PeerDeleted` | client/client.c:704-710 | takes the peer out of every owner list of every entry and changes nothing else, as steps of the protocol |
| `Client.ChunkClient.ChunkGot` | client/client.c:827-836 | adds the owner to that chunk, as a step of the protocol; stops exactly on an unknown path or a chunk beyond the count, and reads outside the queue on the chunk just beyond or a negative one |
| `Client.AnswerFacts` | client/client.c:769-792 | an answer that passes the job check finds its file open for writing and its chunk number in range |
| `ClientRun.WrittenMeansEqual` | client/client.c:761-879 | table and directory together, over every run of protocol steps, lost, late and repeated answers, and diffs: no disk operation fails, the directory waits for a file exactly as long as the table has an unwritten entry to fetch, and once there is none the disk equals the last snapshot exactly if every file that came by a diff is below 2^31 bytes |
| `ClientRun.DiffedStep` | client/client.c:842-868 | the recv_diff branch, with both loops over the table and both over the directory, keeps the unwritten entries and the awaited files matched |
| `ClientRun.FinishedStep` | client/client.c:798-815 | an answer that completes a file finds it awaited by the directory, and writing it succeeds |
| `ClientRun.UnfinishedIsPending` | utility/FileTable/FileTable.c:173-246 | after a diff every unwritten entry to fetch is a file of the new tree that the directory waits for |
| `PathTable.WithoutListedKeys` | utility/FileTable/FileTable.c:224-246 | the loop over a list of deletions drops exactly the keys of its counted records and keeps all other entries |
| `PathTable.WithListedKeys` | utility/FileTable/FileTable.c:173-222 | the loop over a list of additions gives each counted record an entry of its chunk count and keeps all other entries |
| `Tracker.UpdateInv` | tracker/tracker.c:428-457 | an update against the current master succeeds, makes the tree equal to the new snapshot, and keeps tree and table in agreement; every chunk of an added file is owned by the author alone, and the files that stay keep their owners |
| `Tracker.UpdateAheadIff` | tracker/tracker.c:428-457 | an update against a base that misses entries of the master, as from a client still fetching files, always succeeds; tree and table agree afterwards exactly if it adds nothing at the path of another entry the base misses and deletes no directory with a file the base misses; if it adds nothing there, the author alone owns what was added and everything that stays keeps its owners |
| `Tracker.CollidingUpdate` | tracker/tracker.c:428-457 | a run from the empty tracker to an update that does not fit: the tree then has two records at one path |
| `AheadPatch.AheadSucceeds` | utility/FileSystem/FileSystem.c:760-791 | a diff applied to a snapshot that has more than its base fires no assert, and leaves exactly what goes neither by itself nor with a directory, and what is added |
| `AheadPatch.AheadIsSnapshotIff` | utility/FileSystem/FileSystem.c:459-522 | the result is a snapshot exactly if nothing is added at the path of another entry that the base misses |
| `AheadPatch.AddKeepsSnapshot` | utility/FileSystem/FileSystem.c:459-522 | a sum of trees whose records at one path are the same is a snapshot |
| `Tracker.PruneOne` | tracker/tracker.c:504-508 | one removal of the prune loop succeeds and takes away exactly that file from tree and table |
| `Tracker.KeysSplit` | tracker/tracker.c:504-505 | the paths prune hands to the splitter start with a slash, so it ends on them |
| `Tracker.PruneExact` | tracker/tracker.c:465-523 | the removals of prune never reach FAIL, remove exactly the listed files, and keep the agreement |
| `Tracker.LostInv` | tracker/tracker.c:139-159 | losing a peer and pruning removes exactly the files with an ownerless chunk and restores the invariant |
| `Tracker.LosePeerAgrees` | utility/FileTable/FileTable.c:435-462 | removing a peer takes it out of every owner list and changes nothing else |
| `Owners.WithoutKeepsOrder` | utility/FileTable/FileTable.c:430-456 | the owners that are left keep their order and multiplicity |
| `Tracker.SetOwnerInv` | utility/FileTable/FileTable.c:412-433 | a chunk-got message keeps the invariant |
| `Tracker.SetOwnerEffect` | utility/FileTable/FileTable.c:412-433 | it makes the peer an owner of that chunk and changes no other ownership |
| `Tracker.SetOwnerFailsIff` | utility/FileTable/FileTable.c:389-433 | it goes through exactly when it names a file of the tree and a chunk of it, reads outside the queue exactly on the chunk just beyond and on negative ones, and stops the tracker exactly on all others |
| `Tracker.LateChunkGot` | tracker/tracker.c:161-182 | a message whose file an update has deleted meanwhile stops the tracker |
| `Tracker.LateChunkGotHappens` | tracker/tracker.c:161-200 | a run from the empty tracker in which a message that would have gone through comes too late |
| `Tracker.TableCompleteIff` | utility/FileSystem/FileSystem.c:1064-1083 | all plain files have a table entry exactly when no length turns negative as an int |
| `Tracker.TableRightIff` | utility/FileSystem/FileSystem.c:1064-1083 | the table has every plain file with its true chunk count exactly when all of them are smaller than 2^31 bytes |
| `Tracker.SmallFilesCounted` | utility/FileSystem/FileSystem.c:1064-1083 | lengths below 2^31 are kept, 2^31 itself is taken for a folder |
| `Tracker.StepInv` | tracker/tracker.c:139-200 | no assert of the tracker fails in an enabled step, and the invariant is kept; updates may be taken against any part of the master that they fit |
| `Tracker.RunInv` | tracker/tracker.c:66-213 | tree and table agree and every chunk has an owner over every run |
| `Tracker.Master.UpdateNetwork` | tracker/tracker.c:428-457 | the branch carries out that update on tree and table, for the client that pushed it, failing exactly when an assert fires |
| `Tracker.Master.RemoveFilesystem` | utility/FileTable/FileTable.c:224-246 | the loop over the deletions removes their counted paths |
| `Tracker.Master.AddFilesystem` | utility/FileTable/FileTable.c:173-222 | the loop over the additions makes each counted path owned by the author throughout |
| `Tracker.Master.SetThatPeerHasChunk` | utility/FileTable/FileTable.c:412-433 | adds the owner unless it is listed already, with the same three outcomes |
| `Tracker.Master.LoseClient` | tracker/tracker.c:139-159 | from a state in agreement the whole branch succeeds and ends in agreement, with the specified tree and table |
| `Tracker.Master.FilesToPrune` | tracker/tracker.c:482-497 | the scan lists exactly the entries with an ownerless chunk, each once |
| `SparseSet.Pigeonhole` | utility/SDSet/SDSet.c:48-64 | distinct keys below n are at most n many |
| `SparseSet.SDSet.RoomForKey` | utility/SDSet/SDSet.c:48-64 | a key that is not live leaves a free slot, so the write behind the used ones is in bounds |
| `SparseSet.SDSet.IsSet` | utility/SDSet/SDSet.c:42-47 | over memory of any contents, true exactly when the key was set since the last clear |
| `SparseSet.SDSet.Get` | utility/SDSet/SDSet.c:65-74 | returns the value last set for the key, or nothing |
| `SparseSet.SDSet.Set` | utility/SDSet/SDSet.c:48-64 | sets the key in the map, growing the arrays as often as needed; the key is listed once exactly if it was not live, and only live keys can find the array full, where the write goes outside it |
| `SparseSet.Inserted` | utility/SDSet/SDSet.c:60-63 | the three writes keep the two arrays consistent, live key or not, and keep every key listed once exactly if it was not live |
| `SparseSet.SDSet.Clear` | utility/SDSet/SDSet.c:37-41 | the map becomes empty though no array is touched |
| `SparseSet.SDSet.GetIndex` | utility/SDSet/SDSet.c:80-89 | an index below the size names a live key and returns its value |
| `CircularQueue.Queue.Push` | utility/Queue/Queue.c:76-100 | appends one element, through wrap-around and doubling |
| `CircularQueue.Queue.Double` | utility/Queue/Queue.c:80-95 | growing keeps the contents and doubles the space |
| `CircularQueue.Queue.Pop` | utility/Queue/Queue.c:125-140 | takes the first element, or returns nothing from an empty queue |
| `CircularQueue.Queue.Spop` | utility/Queue/Queue.c:102-115 | takes the last element, or returns nothing from an empty queue |
| `CircularQueue.Queue.ShiftLeft` | utility/Queue/Queue.c:55-63 | moves the elements from the index on one place to the front |
| `CircularQueue.Queue.ShiftRight` | utility/Queue/Queue.c:65-73 | moves the elements up to the index one place to the back |
| `CircularQueue.Queue.Remove` | utility/Queue/Queue.c:237-268 | deletes exactly the first match, whichever side it shifts |
| `CircularQueue.Queue.Search` | utility/Queue/Queue.c:208-221 | finds the first match, or -1 when there is none |
| `CircularQueue.Queue.Filter` | utility/Queue/Queue.c:179-194 | a new queue: the old one read at exactly the positions whose elements pass the test, in increasing order |
| `Basics.FilteredSelects` | utility/Queue/Queue.c:185-192 | the loop selects by strictly increasing positions, exactly those that pass |
| `CircularQueue.Queue.Shuffle` | utility/Queue/Queue.c:142-156 | for every choice of random numbers a permutation, and with two or more elements none stays in its place |
| `CircularQueue.DrawStep` | utility/Queue/Queue.c:149-156 | one exchange with a position strictly below settles a position without its own element |
| `CircularQueue.Advance` | utility/Queue/Queue.c:97-99 | head stays tail plus length modulo the space when either end moves on |
| `LinkedList.LinkedList.Append` | utility/LinkedList/LinkedList.c:120-137 | adds one element at the tail; all links stay consistent |
| `LinkedList.LinkedList.SearchNode` | utility/LinkedList/LinkedList.c:42-53 | finds the first matching node |
| `LinkedList.Bridge` | utility/LinkedList/LinkedList.c:55-78 | unlinking a node, be it root, tail, only or inner, ties its neighbours to each other |
| `LinkedList.LinkedList.Remove` | utility/LinkedList/LinkedList.c:139-174 | removes exactly the first match; root, tail and size are repaired |
| `LinkedList.LinkedList.Get` | utility/LinkedList/LinkedList.c:176-196 | returns the first match |
| `LinkedList.LinkedListIterator.Next` | utility/LinkedList/LinkedList.c:257-276 | returns the first element ahead and moves past it; at the end nothing moves |
| `LinkedList.LinkedListIterator.Remove` | utility/LinkedList/LinkedList.c:364-392 | removes the element behind the cursor; what is ahead stays ahead |
| `LinkedList.LinkedListIterator.InsertBefore` | utility/LinkedList/LinkedList.c:311-336 | puts an element before the current one; what is ahead stays ahead |
| `LinkedList.LinkedListIterator.InsertAfter` | utility/LinkedList/LinkedList.c:338-362 | puts an element after the current one; it is visited next |
| `LinkedList.WalkVisitsOnce` | utility/LinkedList/LinkedList.c:257-392 | under any interleaving of next and remove the positions are visited in order, each once, and those kept are exactly the visited ones not removed, in order |
| `LinkedList.PerformWalk` | utility/LinkedList/LinkedList.c:257-392 | the linked nodes perform that walk: what next returned is a prefix of the list, and the list keeps the unremoved elements in order |

## Where the code falls short of what it is for

The model follows the code; these are the places where that shows, each with the exact condition.

- A file whose size is a positive multiple of the chunk size loses its last chunk in transfer: that
  chunk is given length 0 (`utility/ChunkyFile/ChunkyFile.c:113-116`). `ChunkyFile.ReassemblySucceedsIff`.
- An answer whose path was deleted meanwhile follows a null pointer (`utility/FileTable/FileTable.c:135`).
  `Download.ReceiveFaultsIff`, `Download.DeletedPathHappens`.
- A master message that comes while a file is being fetched replaces its buffer and queues all its
  chunks again, next to those queued and outstanding (`client/client.c:353-370`); chunks are then
  fetched twice and answers dropped. `Download.RefetchKeepsInvIff`, `Download.RunInv`,
  `Download.RefetchDropsAnswer`.
- A client creates files by their `int` length (`client/client.c:530-568`): from 2^31 bytes on they
  become empty files, cut files, directories (2^32 - 1), or nothing. `DiskReplay.MadeRightIff`,
  `DiskReplay.ReplayExact`, `DiskReplay.HugeFileBecomesDirectory`, `WorkingCopy.CopyReachesLast`.
- An update from a client that lacks part of the master can leave two records at one path, or table
  entries without a file. `Tracker.UpdateAheadIff`, `Tracker.CollidingUpdate`.
- Setting a key of the sparse set again lists it twice, and can write behind the arrays
  (`utility/SDSet/SDSet.c:60-63`). `SparseSet.SDSet.Set`.
- A chunk-got message that names a deleted file, or a chunk beyond its length, stops the tracker on
  an assert; the chunk just beyond and negative ones pass the check and are read outside the queue
  (`utility/FileTable/FileTable.c:389-421`). `Tracker.SetOwnerFailsIff`, `Tracker.LateChunkGotHappens`.
- A plain file of 2^31 bytes or more is taken for a folder by the table loops or gets too few chunks,
  because its length is read as an `int` (`utility/FileSystem/FileSystem.c:1064-1083`).
  `Tracker.TableCompleteIff`, `Tracker.TableRightIff`.
- A diff taken against an outdated tree can stop its receivers on an assert of `folder_add`.
  `DiffPatch.PatchSucceedsIff`, `Replicas.StaleDiffAborts`.
- Splitting a non-empty path that does not start with `/` never ends
  (`utility/FileSystem/FileSystem.c:95-108`). `Paths.SplitterEndsIff`; the tracker's own paths all
  start with one, `Tracker.KeysSplit`.

## Left out

- Sockets, select loops, heartbeats, threads and mutexes: queues between threads are atomic, and the
  network is an adversary that holds every answer ever sent.
- malloc and free, object lifetimes, and the sharing that comes from not copying: values are
  garbage collected. `realloc` and `malloc` hand out memory of unknown contents where that matters (`SparseSet`).
- The web server, MIME types, e-mail, HTML and terminal output, tilde and realpath handling.
- stat, and names that start with a dot, which `folder_new` skips: a disk holds directories and plain
  files with size and time, and nothing that is not scanned.
- Failures of disk operations other than those named in `DiskReplay.Outcome`; the root directory itself.
- What `UpdateLocalFilesystem` does besides reopening missing files: its removals are steps that remove
  entries, its chunk-got messages are sent only, and an addition without a table entry stops the
  client. Files without chunks it opens but never writes. The same call ends the start-up; runs of the
  protocol start from a table whose files count as there, and the missing ones are refetched first.
- Master messages in `Client.ChunkClient`, `WorkingCopy` and `ClientRun`: after one the client's tree
  also lists the files it is still to fetch, until it scans the directory again.
- Liveness: jobs sent to a lost peer stay outstanding, and `filetableentry_get_job` asserts when a
  chunk has no owner; both are in the model, but no progress is claimed.
- Owner lists as evidence of what a peer really holds, and the contents of answers: `Download` tracks
  which chunk an answer carries, `ChunkyFile` what its bytes are.
- Serving chunks of a file that is still being fetched.
- Runs beyond 2^31 - 1 jobs, where the job counter would overflow.
- Updates in `Tracker` against a base that has entries the master lacks; what tree and table look like
  after an update that does not fit.
- The peer tables (`common/peer_table.c`, `tracker/tracker.c:220-312`).
- `filesystem_handle_updates`, `queue_speek`, `queue_map`, `queue_apply`, `queue_concat`,
  `linkedlistiterator_previous`, `linkedlist_apply` and `linkedlist_remove_all`.
- `is_folder` is a truth value, not any int.
- Client.ChunkClient, WorkingCopy.LocalDirectory and Tracker.Master keep their trees and tables as
  values where the source has pointers to linked folders and hash tables: update in place is shown in
  `FolderHeap` and `HashTable`.
- Client.ChunkClient.RecvDiff opens the file of a new entry in the same step that makes the entry,
  where the source walks the additions twice.
- SparseSet.SDSet.Set and ChunkyFile.ChunkyFile.SetChunk do not say what a write outside the arrays does.
- TableCodec.FiletableDeserialize rejects some malformed buffers (an id after its chunk has ended)
  that the source would read through a stale pointer.
- Tracker.SetOwnerFailsIff does not say what a read outside the chunk queue then finds.
- CircularQueue.Queue.Shuffle takes its random numbers from a parameter.
- Failing asserts end the process; they are modelled as None or as a false result.
