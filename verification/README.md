# p2sync: a verified model

p2sync keeps folders on several machines in step. Each peer keeps a Merkle tree and per-file vector
clocks beside its folder, announces local edits, fetches what others announce in chunks, and
reconciles whole trees when it meets a peer. This project models that behaviour in Dafny and proves
what it keeps, loses and converges to.

Every theorem is stated for an arbitrary hash function, passed in as the parameter `hash`. Nothing is
assumed about it except where a lemma says so in its `requires` (no collision on the inputs involved,
or no two different nodes of equal hash at the same path of the two trees compared).

## How the model is organised

- `ByteStrings` — byte strings in the order of a `BTreeMap`, sorted key lists, sums over maps.
- `Chunk`, `Transfer` — chunking and file hashes; serving chunks and patching them into the local copy.
- `Merkle`, `MerkleDiff`, `MerklePatch`, `MerkleReport`, `MerkleCount` — the tree, insertion, removal
  and lookup; the hash-pruned diff; patching by a diff; what a diff reports; counts and sizes.
- `Disk`, `HashSoundness` — the folder on disk, scanning it, the incremental tree against a rebuild;
  what a root hash says about the files.
- `Clock`, `ConflictName` — vector clocks and conflict resolution; conflict file names and the
  hexadecimal form of clocks on the wire.
- `Gossip`, `Convergence`, `TwoPeers` — the file-change protocol for one path as a step relation over
  any number of peers. A notification may be delivered any number of times and in any order; deciding
  about it and applying it are separate steps (`Decide`, `Apply`) with anything in between, or one
  atomic step (`Deliver`).
- `Debounce`, `Echo` — the time-based event guard; the marks the engine's own writes leave in it.
- `Replica`, `Engine` — one peer's state; `Replica` gives every handler as a function on that state,
  `Engine.SyncEngine` is the class whose methods change the state in place and are proved against
  those functions.
- `Fetching`, `Effects` — one fetch, and a pull as a list of fetches; what each handler leaves in a peer's
  state and what it leaves alone.
- `IndexAgreement`, `IndexItself`, `Reconciliation`, `Backups` — what the handlers keep over whole runs, of
  the index with the disk and of the index with itself, what one and two pulls lead to, and what becomes
  of the version that loses a conflict.
- `Refinement`, `Network`, `Causality`, `Handlers` — how the handlers take the steps of the protocol in
  `Gossip`, one at a time and over whole runs of many peers, what their clocks mean, and what follows for
  the handlers' own metadata and files.

Trees are owned exclusively in the original (`&mut Node`), so the methods on them take a tree and
return the updated one. Names are the bytes of their UTF-8 form and paths are sequences of normal
components. Times come in as parameters.

## Results about the code that differ from what one might expect

- Mutual reconciliation makes two peers equal without any condition on file lengths
  (`Reconciliation.MutualPullConverges`), although a single pull installs the remote file only where
  the old one was not longer (`Reconciliation.PullOverlaysIff`): patching never truncates.
- For the same reason peers can agree on a version's clock, stamp and author and still hold different
  bytes: a longer old copy keeps its tail (`Refinement.AdoptionInstallsIff`).
- A conflict backup is not always placed beside the original: the tag goes to the last dot of the whole
  path, which may be in a directory name (`ConflictName.BackupBesideIff`).
- Peers that have seen the same versions agree on stamp and author whenever one author has the greatest
  stamp (`Convergence.SameSeenAgree`). Without that, and with fetches completed only while their version
  still wins, two peers always agree and more than two need not (`TwoPeers.AlwaysAgreeIff`): the tie-break
  looks at the deciding peer, not at the author held (`Convergence.TieDiverges`).
- The lock is not held during a fetch. Completing one keeps the greatest stamp exactly when nothing newer
  has come to be held (`Convergence.ApplyKeepsGreatestIff`); otherwise a later local edit is overwritten
  (`Convergence.SplitFetchLosesUpdate`). Keeping the greatest stamp is not keeping the winner: a winning edit
  made in the same second as the fetched version is overwritten as well (`Convergence.LateTieOverwrites`). For
  two peers the exact guard is to decide again when the fetch completes (`TwoPeers.ApplyKeepsWinnerIff`).
- An edit stamped by a clock behind the one that stamped the version it replaces takes that version's
  place all the same (`Convergence.EditKeepsGreatestIff`).
- The repository's README says that conflicts are resolved with backup copies. In the code the peer
  that loses copies its own file aside without indexing it (`IndexAgreement.ChangeAgreesIff`), and only
  if the folder of the backup exists (`Backups.LoserKeepsIff`). It does whenever the backup lies beside
  the original (`Backups.LoserKeepsBeside`), but for a file such as v1.2/README the backup goes to a
  folder that is not there and the losing version is gone (`Backups.LosingVersionGone`). The backup's
  name depends on path and peer only, so a second loss overwrites the version kept at the first
  (`Backups.SecondLossOverwrites`). The peer that wins asks the other side for a file of the backup's
  name; where there is none, it keeps no backup, and an older backup that is longer leaves its tail in the
  new one (`Backups.WinnerBacksUpIff`). The model follows the code.
- A write that comes too soon after another event or download of the same path is dropped by a guard,
  and the tree goes stale unless it showed that content already (`IndexAgreement.DroppedWriteAgreesIff`).
- The watcher's bridge drops removals in the write guard's time as well, so a file deleted right after its
  download is never forgotten (`IndexAgreement.DroppedDeleteAgreesIff`). A file then written below its path
  gets metadata and no node (`IndexItself.DroppedDeleteBreaks`); exactly such crossings part the metadata
  from the tree (`IndexItself.ItselfOverRunsIff`).
- Unlinking a file for a remote delete is not marked, so it is announced again as this peer's own delete
  unless the file had just been downloaded (`Echo.RemoteDeleteEchoesIff`), and a peer that has created the
  file anew loses it (`Echo.RecreatedFileSurvivesIff`).
- Nothing separates names from hashes in what a directory's hash is computed from. Equal hashes therefore
  mean equal folders only where the sorted names line up in length (`HashSoundness.DirDigestInjective`);
  renaming an only file is always seen (`HashSoundness.OnlyRenameSeen`).
- The repository's README says that only modified chunks are transferred. The code announces and
  requests every chunk of a changed file (crates/p2sync-net/src/sync_engine.rs:699-713 and 819-826);
  the model follows the code and also covers partial requests (`Transfer.PartialTransfer`).

## Model

| member | source | states |
|---|---|---|
| ByteStrings.LessIff | crates/p2sync-core/src/merkle.rs:55-62 | the key order: a string is less exactly when it is a proper beginning or has the smaller byte at the first difference |
| Disk.ListingOrderIrrelevant | crates/p2sync-core/src/merkle.rs:98-99 | sorting a directory listing gives the one order of the folder's names, in whatever order they were read |
| Chunk.Split | crates/p2sync-core/src/chunk.rs:23-45 | metadata and data of all chunks, in step with each other, chunk by chunk |
| Chunk.PieceAt | crates/p2sync-core/src/chunk.rs:27-36 | chunk i is the slice of the file from i times the chunk size to the next boundary or the end |
| Chunk.PieceCovering | crates/p2sync-core/src/chunk.rs:27-36 | every byte of a file lies in some chunk |
| Chunk.MetadataLocates | crates/p2sync-core/src/chunk.rs:48-61 | metadata entries tile the file, hash the bytes they point at, and keep the true length exactly when it fits 32 bits |
| Chunk.FileHash | crates/p2sync-core/src/chunk.rs:64-70 | the loop hashes the concatenated chunk hashes |
| Chunk.FileHashInput | crates/p2sync-core/src/chunk.rs:64-70 | the aggregate hash is the hash of all chunk hashes in order, however many there are |
| Chunk.FileHashSound | crates/p2sync-core/src/chunk.rs:48-70 | without collisions, equal file hashes mean equal data and equal metadata, even across chunk sizes |
| Transfer.ServeChunks | crates/p2sync-net/src/sync_engine.rs:384-395 | the answer holds exactly the requested chunks that exist and are within the limit, in request order |
| Transfer.ServeAppend | crates/p2sync-net/src/sync_engine.rs:386-390 | requests are answered one after the other, repeats included |
| Transfer.ServeSingle | crates/p2sync-net/src/sync_engine.rs:386-390 | one request is answered with the bytes at its place, unless its index is too large or past the end |
| Transfer.PatchChunks | crates/p2sync-net/src/sync_engine.rs:570-598 | the loop with its skips, its abort and its resizing computes the patch function |
| Transfer.PatchFailsIff | crates/p2sync-net/src/sync_engine.rs:573-593 | a transfer is abandoned exactly when some chunk that is not skipped ends beyond the size limit |
| Transfer.PatchAppend | crates/p2sync-net/src/sync_engine.rs:573-598 | chunks are applied in the order in which they come |
| Transfer.PatchSingle | crates/p2sync-net/src/sync_engine.rs:573-598 | one chunk is ignored, abandons the transfer, or writes its bytes at its offset over zeros beyond the old end |
| Transfer.PatchBounded | crates/p2sync-net/src/sync_engine.rs:573-593 | no transfer makes a file longer than the size limit |
| Transfer.PatchExact | crates/p2sync-net/src/sync_engine.rs:570-598 | for any subset in any order with repeats: covered bytes are the remote's, others the old ones, gaps zero |
| Transfer.PartialTransfer | crates/p2sync-net/src/sync_engine.rs:570-598 | if unrequested chunks already match and the old file is not longer, the result is the remote file |
| Transfer.FullTransfer | crates/p2sync-net/src/sync_engine.rs:570-598 | with every chunk served the result is the remote file followed by the old tail beyond it |
| Transfer.ReplacedIff | crates/p2sync-net/src/sync_engine.rs:594-597 | a full transfer replaces the file exactly when the old one is not longer; repeating it changes nothing |
| Merkle.BuildFileNode | crates/p2sync-core/src/merkle.rs:44-52 | a file node carries its size, its chunk metadata and the hash of the chunk hashes |
| Merkle.DirHash | crates/p2sync-core/src/merkle.rs:55-62 | the loop hashes names and child hashes in key order |
| Merkle.DirDigestInput | crates/p2sync-core/src/merkle.rs:55-62 | a directory's hash is the hash of all names and child hashes in key order, however many there are |
| HashSoundness.DirDigestInjective | crates/p2sync-core/src/merkle.rs:55-62 | directories whose sorted names are pairwise of one length share a hash only with the same names and child hashes, collisions aside |
| HashSoundness.RenameSeen | crates/p2sync-core/src/merkle.rs:55-62 | renaming a child changes the directory's hash unless it shifts the lengths of the sorted names |
| HashSoundness.OnlyRenameSeen | crates/p2sync-core/src/merkle.rs:55-62 | renaming the only file of a folder always changes its hash |
| HashSoundness.DifferenceReachesRoot | crates/p2sync-net/src/sync_engine.rs:745-766 | a difference in the hash at a path, a rename for instance, shows in the root hash that reconciling compares |
| Merkle.FindNode | crates/p2sync-net/src/sync_engine.rs:844-856 | the lookup loop finds what recursive lookup finds |
| Merkle.InsertRecursive | crates/p2sync-core/src/merkle.rs:257-279 | insertion with created directories and repaired hashes |
| Merkle.PermittedIff | crates/p2sync-core/src/merkle.rs:258-264 | insertion takes effect exactly when the path is not empty and no proper prefix is a file |
| Merkle.InsertConsistent | crates/p2sync-core/src/merkle.rs:257-279 | insertion keeps every stored hash of the tree correct |
| Merkle.InsertNoOp | crates/p2sync-core/src/merkle.rs:258-278 | where insertion is not permitted the tree stays identical, hashes included |
| Merkle.InsertFind | crates/p2sync-core/src/merkle.rs:257-279 | afterwards lookup shows the new node at and below the path, directories above it, and no change elsewhere |
| Merkle.RemoveRecursive | crates/p2sync-core/src/merkle.rs:214-240 | removal reports true exactly when lookup finds something, and otherwise leaves the tree identical |
| Merkle.RemoveConsistent | crates/p2sync-core/src/merkle.rs:214-240 | removal keeps every stored hash of the tree correct |
| Merkle.RemoveFind | crates/p2sync-core/src/merkle.rs:214-240 | afterwards the path and all below it is gone, its ancestors stay, nothing else changes |
| MerkleDiff.DiffRecursive | crates/p2sync-core/src/merkle.rs:142-179 | the recursive traversal appends exactly the entries of the diff |
| MerkleDiff.VisitNewChildren | crates/p2sync-core/src/merkle.rs:158-164 | the loop over new children reports additions and descends into common children |
| MerkleDiff.VisitOldChildren | crates/p2sync-core/src/merkle.rs:165-169 | the loop over old children reports removals |
| MerkleDiff.DiffEmptyIff | crates/p2sync-core/src/merkle.rs:142-179 | for hash-consistent trees and any hash function, the diff is empty exactly when the root hashes are equal |
| MerklePatch.PatchAt | crates/p2sync-core/src/merkle.rs:136-279 | in any consistent tree holding the old node at a path, applying the diff below that path puts the new node there |
| MerklePatch.DiffThenPatch | crates/p2sync-core/src/merkle.rs:136-279 | applying the entries of the diff of two trees to the old one gives the new one, stored hashes included |
| MerkleReport.DiffIsPathwise | crates/p2sync-core/src/merkle.rs:142-179 | without same-path collisions the pruned diff reports exactly what a hash-free comparison path by path calls for |
| MerkleReport.DiffInOrder | crates/p2sync-core/src/merkle.rs:157-170 | where the paths of two entries part, what the new tree has comes first, by name, then what it has not, by name |
| MerkleReport.DiffUnique | crates/p2sync-core/src/merkle.rs:142-179 | the paths of a diff's entries are pairwise distinct |
| MerkleReport.DiffPathsPrefixFree | crates/p2sync-core/src/merkle.rs:142-179 | no entry's path extends another's |
| MerkleReport.DiffCoverage | crates/p2sync-core/src/merkle.rs:142-179 | a file path of either tree shows different nodes exactly when it lies under an entry, and then under one only |
| MerkleReport.DiffMirror | crates/p2sync-core/src/merkle.rs:142-179 | swapping the trees mirrors the diff as a multiset |
| MerkleCount.CountFilesExact | crates/p2sync-net/src/sync_engine.rs:837-842 | count_files is the number of file paths of the node |
| MerkleCount.DiffCarries | crates/p2sync-net/src/sync_engine.rs:785-801 | the files counted over added and modified nodes are as many as the new tree's files that differ |
| MerkleCount.InsertSize | crates/p2sync-core/src/index.rs:105-107 | a permitted insertion changes the total size by the new node's size minus the replaced one's |
| MerkleCount.RemoveSize | crates/p2sync-core/src/index.rs:156-161 | a removal takes away exactly the size of what was there |
| Disk.FromPathConfigured | crates/p2sync-core/src/merkle.rs:81-125 | whatever order the directory is read in, the scan skips links and excluded names and builds the node of everything else |
| Disk.IsExcluded | crates/p2sync-core/src/index.rs:114-128 | the two loops find a pattern equal to a component if and only if the path is excluded |
| Disk.ExcludePatterns | crates/p2sync-core/src/index.rs:118-127 | every pattern counts: lists of patterns exclude what either does, no pattern and no component exclude nothing |
| Disk.ExcludeAppend | crates/p2sync-core/src/index.rs:118-127 | every component counts: a path is excluded exactly when one of its two parts is |
| Disk.ExcludeOne | crates/p2sync-core/src/index.rs:118-127 | one pattern excludes exactly the name it spells |
| Disk.WritableIff | crates/p2sync-net/src/sync_engine.rs:600-620 | a file can be written where everything on the way is a folder or missing and the target a file or missing |
| Disk.ScanConsistent | crates/p2sync-core/src/merkle.rs:81-125 | a scanned tree has correct hashes throughout |
| Disk.ScanFind | crates/p2sync-core/src/merkle.rs:101-122 | lookup in a scanned tree finds exactly what is on disk and neither excluded nor a link |
| Disk.ScanWrite | crates/p2sync-core/src/merkle.rs:188-196 | updating the tree after a file write equals scanning again |
| Disk.ScanDelete | crates/p2sync-core/src/merkle.rs:199-212 | removing from the tree after any deletion equals scanning again |
| Disk.IncrementalEqualsRebuilt | crates/p2sync-core/src/merkle.rs:81-279 | over any run of file writes and deletions the kept tree equals one built from scratch |
| HashSoundness.RootHashSound | crates/p2sync-core/src/merkle.rs:44-68 | without collisions on the inputs, comparable trees with equal root hashes are identical: comparable means that what is hashed differs in length, or the kinds agree and sorted names are pairwise of one length |
| HashSoundness.ScansNoCollision | crates/p2sync-core/src/merkle.rs:142-179 | two scans meet the diff's assumption that no two different nodes at one path share a hash, collisions on the inputs aside and comparable nodes given |
| HashSoundness.RootHashDeterminesFiles | crates/p2sync-core/src/merkle.rs:44-68 | under the same assumptions the two folders hold the same data at every path |
| Clock.VectorClock.Tick | crates/p2sync-core/src/conflict.rs:95-98 | the peer's own counter goes up by one |
| Clock.VectorClock.Merge | crates/p2sync-core/src/conflict.rs:101-106 | the loop computes the component-wise maximum |
| Clock.VectorClock.Compare | crates/p2sync-core/src/conflict.rs:109-138 | the early-exit loop computes the component-wise order with missing keys as zero |
| Clock.MergeIsLeastUpperBound | crates/p2sync-core/src/conflict.rs:101-106 | merging gives the least clock above both |
| Clock.MergeCommutative | crates/p2sync-core/src/conflict.rs:101-106 | merging is commutative and idempotent |
| Clock.MergeAssociative | crates/p2sync-core/src/conflict.rs:101-106 | merging is associative |
| Clock.TickStrictlyAbove | crates/p2sync-core/src/conflict.rs:95-98 | a ticked clock is strictly after the clock before |
| Clock.MergeAfterBefore | crates/p2sync-net/src/sync_engine.rs:637-639 | adopting a later version leaves a clock equal to the remote one |
| Clock.ResolveSymmetric | crates/p2sync-core/src/conflict.rs:189-216 | two peers seeing each other's concurrent versions name the same loser, ties included |
| Clock.TieBreak | crates/p2sync-core/src/conflict.rs:203-213 | of concurrent versions stamped alike, the peer with the smaller byte at the first difference of the identifiers loses |
| ConflictName.ConflictNameInsertion | crates/p2sync-core/src/conflict.rs:219-228 | the conflict name is the original with marker and half the identifier inserted before its last dot, or at its end |
| ConflictName.ConflictPathIsBackup | crates/p2sync-net/src/sync_engine.rs:467-493 | the backup path differs from the original and always carries the marker the watcher skips |
| ConflictName.BackupChangesOneComponent | crates/p2sync-core/src/conflict.rs:219-228 | the backup path changes one component of the original, the last that has a dot, or the last if none has |
| ConflictName.BackupBesideIff | crates/p2sync-net/src/sync_engine.rs:468-474 | the backup lies in the original's directory exactly when the file name has a dot or no component has one |
| ConflictName.VisitMap | crates/p2sync-core/src/conflict.rs:47-69 | the visitor loop decodes the entries, or stops with the first error |
| ConflictName.HexParses | crates/p2sync-core/src/util.rs:14-16 | the two-digit parser inverts the hexadecimal form |
| ConflictName.HexIsLowerCase | crates/p2sync-core/src/util.rs:14-16 | identifiers are written in lower-case hexadecimal, two digits for each byte |
| ConflictName.DecodeKeyIff | crates/p2sync-core/src/conflict.rs:52-66 | a key is understood as a peer exactly when its characters spell the eight bytes, in either case or with a plus sign for a leading zero |
| ConflictName.LastEntryCounts | crates/p2sync-core/src/conflict.rs:51-68 | entries are taken in order, so a later one for the same peer replaces an earlier one |
| ConflictName.ClockRoundTrip | crates/p2sync-core/src/conflict.rs:16-74 | deserializing a serialized clock gives the clock back |
| Gossip.ClocksAreCausality | crates/p2sync-core/src/conflict.rs:95-138 | in every reachable state, comparing any two clocks is comparing the edit histories behind them |
| Gossip.OwnCounterIsLargest | crates/p2sync-core/src/conflict.rs:95-106 | no clock anywhere counts more of a peer's edits than the peer's own |
| Gossip.RunMonotone | crates/p2sync-net/src/sync_engine.rs:436-493 | a peer's clock only grows, even with other events between decision and application |
| Gossip.AppliedThenRejected | crates/p2sync-net/src/sync_engine.rs:622-639 | once an adopted notification is applied, every later delivery of it is rejected |
| Convergence.DecisionTimes | crates/p2sync-net/src/sync_engine.rs:441-448 | a version is adopted only if it is at least as new, and left out only if it is not newer than the one held |
| Convergence.HoldsGreatest | crates/p2sync-net/src/sync_engine.rs:420-504 | after any edits, decisions and fetches, in any interleaving in which no fetch completes after something newer is held, a peer holds a version of the greatest timestamp it has made or been delivered |
| Convergence.SameSeenAgree | crates/p2sync-net/src/sync_engine.rs:420-504 | peers that have seen the same versions agree unless two authors tie for the greatest timestamp |
| Convergence.TieDiverges | crates/p2sync-net/src/sync_engine.rs:441-448 | with three peers such a tie leaves two of them with the same versions seen and different authors held |
| Convergence.ApplyKeepsGreatestIff | crates/p2sync-net/src/sync_engine.rs:453-462 | completing a fetch leaves a version of the greatest timestamp seen if and only if nothing newer has come to be held since the decision |
| Convergence.DistinctTimestampsAgree | crates/p2sync-net/src/sync_engine.rs:420-504 | if no two announced versions share a timestamp, peers that have seen the same versions agree |
| Convergence.SplitFetchLosesUpdate | crates/p2sync-net/src/sync_engine.rs:453-462 | a run in which that fails: an edit between decision and application is overwritten by the older fetched version |
| Convergence.EditKeepsGreatestIff | crates/p2sync-core/src/index.rs:57-75 | an edit leaves a version of the greatest timestamp seen if and only if it is not stamped earlier than the version it replaces |
| Convergence.LateTieOverwrites | crates/p2sync-net/src/sync_engine.rs:453-462 | a run in which the greatest stamp is kept and the winner is not: an edit of the same stamp is overwritten by the completed fetch |
| TwoPeers.TwoPeersAgree | crates/p2sync-net/src/sync_engine.rs:420-504 | two peers that have seen the same versions agree, timestamp ties included, if fetches are completed only while their version still wins |
| TwoPeers.ApplyKeepsWinnerIff | crates/p2sync-net/src/sync_engine.rs:453-484 | of two peers, one that completes a fetch holds the winner of all it has seen if and only if a fresh decision would still adopt it or the stamp and author are those held |
| TwoPeers.AlwaysAgreeIff | crates/p2sync-net/src/sync_engine.rs:441-448 | peers with the same versions seen agree after all such runs if and only if there are at most two peers |
| Refinement.ChangeRefinesDelivery | crates/p2sync-net/src/sync_engine.rs:420-504 | the handler decides as the protocol does and leaves the path's metadata as the protocol's delivery does |
| Refinement.LocalChangeRefinesEdit | crates/p2sync-net/src/sync_engine.rs:685-713 | a local change is the protocol's edit, its notification the protocol's announcement, other paths keep their metadata |
| Refinement.AdoptionInstallsIff | crates/p2sync-net/src/sync_engine.rs:453-484 | adopting a version, accepted or after losing to it, installs its data if and only if the local copy was not longer; stamp and author become the version's either way and the clock covers it |
| Refinement.AnnouncementListsAll | crates/p2sync-net/src/sync_engine.rs:685-709 | an announcement lists every chunk of the file on the announcing peer's disk, under their aggregate hash |
| Refinement.AnnouncedFileArrivesIff | crates/p2sync-net/src/sync_engine.rs:453-709 | from one disk to another: a peer that adopts what another announces ends up with that file if and only if its own was not longer |
| Backups.LoserKeepsIff | crates/p2sync-net/src/sync_engine.rs:472-484 | the losing peer keeps its version under the backup name if and only if that name can be written and its folder exists; if not, only the changed path is touched |
| Backups.LoserKeepsBeside | crates/p2sync-net/src/sync_engine.rs:468-484 | so it is kept whenever the file name has a dot or no component has one, and no folder or link has the backup's name |
| Backups.LosingVersionGone | crates/p2sync-net/src/sync_engine.rs:468-484 | for v1.2/README the copy fails unnoticed and the losing version is afterwards at no path |
| Backups.SecondLossOverwrites | crates/p2sync-net/src/sync_engine.rs:468-484 | a second loss of the same file overwrites the version kept at the first |
| Backups.WinnerBacksUpIff | crates/p2sync-net/src/sync_engine.rs:485-493 | the winning peer stays exactly as it was if the source has no file of the backup's name; otherwise it holds that file if and only if an older backup was not longer |
| Backups.WinnerBacksUpAfterLoser | crates/p2sync-net/src/sync_engine.rs:467-493 | once the loser has handled the conflict, the winner obtains the losing bytes if the loser could copy them aside and exactly if an older backup was not longer; otherwise its older backup stays |
| Refinement.ConflictAgreement | crates/p2sync-net/src/sync_engine.rs:467-493 | both sides of a conflict name the same loser and backup, end with the winner's stamp, and repeats change nothing |
| Network.HandlerIsDecideThenFinish | crates/p2sync-net/src/sync_engine.rs:436-493 | the handler for a change is a decision followed, unless it rejects, by the fetch decided on |
| Network.RunRefines | crates/p2sync-net/src/sync_engine.rs:289-520 | every run of peers with edits, decisions, fetches, deletes and pulls interleaved is, at a path no delete or pull is about, a run of the protocol |
| Handlers.HandlersHoldNewest | crates/p2sync-net/src/sync_engine.rs:420-504 | what a peer's own metadata says about a path is the newest change it has handled there |
| Handlers.HandlersAgree | crates/p2sync-net/src/sync_engine.rs:420-504 | peers that have handled the same changes agree on stamp and author unless two authors tie for the greatest timestamp |
| Handlers.TwoHandlersAgree | crates/p2sync-net/src/sync_engine.rs:420-504 | two peers that have handled the same changes agree, ties included, if fetches are completed only while their version still wins |
| Causality.HandlersClocksAreCausality | crates/p2sync-core/src/conflict.rs:95-138 | comparing the clocks of held and announced versions of a path is comparing the sets of edits they contain, as recorded step by step along the network's run |
| Handlers.FaithfulFetchIff | crates/p2sync-net/src/sync_engine.rs:570-620 | if the source still has the announced file and sends all of it, the fetch leaves the announced content if and only if the local copy is not longer, collisions aside |
| Handlers.AnnouncedFetchIff | crates/p2sync-net/src/sync_engine.rs:570-709 | the same for what a peer announces of its own file, with nothing assumed about the list of chunks |
| Handlers.RunComplete | crates/p2sync-net/src/sync_engine.rs:685-709 | over every run of the network each announcement lists all chunks of the file announced |
| Handlers.SameStampSameBytes | crates/p2sync-net/src/sync_engine.rs:570-639 | over runs whose fetches leave the announced data, peers whose metadata names the same stamp and author hold the same bytes |
| Debounce.EventGuard.MarkPath | crates/p2sync-net/src/sync_engine.rs:110-115 | marking adds to the history and keeps the pruned map faithful to it |
| Debounce.EventGuard.IsSuppressed | crates/p2sync-net/src/sync_engine.rs:117-126 | the pruned map answers exactly as the full history of marks would |
| Debounce.EventGuard.PassesDebounce | crates/p2sync-net/src/sync_engine.rs:669-673 | an event passes exactly when its path was not marked lately, and is then marked |
| Debounce.OneMark | crates/p2sync-net/src/sync_engine.rs:117-126 | a mark holds for its own path and for less than the guard's time |
| Debounce.MarksAppend | crates/p2sync-net/src/sync_engine.rs:110-126 | a history holds a path back exactly when some mark of it does |
| Debounce.DebounceBound | crates/p2sync-net/src/sync_engine.rs:669-673 | n passing events of one path in a closed window satisfy (n - 1) * ttl <= window |
| Debounce.AnnouncementBound | crates/p2sync-net/src/sync_engine.rs:661-721 | the same bound for announcements, whatever the write guard holds back and whatever came before |
| Echo.ChangeMarked | crates/p2sync-net/src/sync_engine.rs:451-493 | handling a change marks every file it changes, apart from the losing version's copy, whose name is never announced |
| Echo.ChangeMarksIff | crates/p2sync-net/src/sync_engine.rs:451-493 | handling a change marks the path of an accepted change, and otherwise exactly the path asked for whose download gave data |
| Echo.IgnoredChangeUnmarked | crates/p2sync-net/src/sync_engine.rs:428-466 | a rejected or own change does not hold back any later event |
| Echo.ItemsMarked | crates/p2sync-net/src/sync_engine.rs:740-835 | a pull marks every file it changes |
| Echo.ItemsMarksIff | crates/p2sync-net/src/sync_engine.rs:740-835 | a pull marks exactly the files asked for whose download gave data |
| Echo.NoEcho | crates/p2sync-net/src/sync_engine.rs:661-681 | while the guard's time lasts, an event for a file the engine has written is suppressed or not announced |
| Echo.RemoteDeleteEchoesIff | crates/p2sync-net/src/sync_engine.rs:506-519 | handling a remote delete is announced as a delete of this peer's own unless the write guard remembers the path |
| Echo.RecreatedFileSurvivesIff | crates/p2sync-net/src/sync_engine.rs:506-519 | a file created anew by the peer that deleted it survives what the others announce about the delete if and only if their guard remembers the path |
| Engine.SyncEngine.RemovalEvent | crates/p2sync-net/src/sync_engine.rs:255-273 | a removal is dropped exactly while the write guard remembers the path, and otherwise indexed and returned for announcement |
| Engine.CollectFileMeta | crates/p2sync-core/src/index.rs:131-154 | fills in one entry per file of the node and no other |
| Engine.SyncEngine.Build | crates/p2sync-core/src/index.rs:33-54 | a fresh index has the scanned tree and metadata for exactly its files |
| Engine.SyncEngine.LocalFileChanged | crates/p2sync-core/src/index.rs:57-75 | the file is re-indexed and its clock ticked, or nothing happens if it cannot be read |
| Engine.SyncEngine.LocalFileDeleted | crates/p2sync-core/src/index.rs:78-92 | tree and metadata forget the path and a tombstone takes over its clock |
| Engine.SyncEngine.FetchAndApply | crates/p2sync-net/src/sync_engine.rs:526-659 | the new state is the fetched one, and the guard is marked exactly when the download gives data to write |
| Engine.SyncEngine.Resolved | crates/p2sync-core/src/conflict.rs:189-216 | the class's resolution is the resolution function on what the index holds |
| Engine.SyncEngine.HandleFileChanged | crates/p2sync-net/src/sync_engine.rs:420-504 | accept, reject, lose with a backup or win, each with its own effect on the state and its own guard marks |
| Engine.SyncEngine.HandleFileDeleted | crates/p2sync-net/src/sync_engine.rs:506-520 | a remote delete unlinks files and live links only, while tree and metadata forget the path either way |
| Engine.SyncEngine.HandleFsChange | crates/p2sync-net/src/sync_engine.rs:661-721 | announces exactly when neither guard objects and the path is an included file that is no conflict backup; the debounce guard records what gets past the write guard |
| Engine.SyncEngine.HandleFsChanges | crates/p2sync-net/src/sync_engine.rs:289-298 | what a run of events announces is what the two guards let through, so the bound on announcements applies |
| Engine.SyncEngine.HandleFsRemoved | crates/p2sync-net/src/sync_engine.rs:723-736 | a local delete is indexed and its tombstone announced |
| Engine.SyncEngine.FetchNodeRecursive | crates/p2sync-net/src/sync_engine.rs:817-835 | every file below the node is fetched, in key order, and exactly what is written is marked |
| Engine.SyncEngine.Reconcile | crates/p2sync-net/src/sync_engine.rs:740-814 | the differing nodes are fetched, the files they carry counted, and exactly the marks of those fetches left |
| Effects.IgnoredChange | crates/p2sync-net/src/sync_engine.rs:428-466 | a peer's own change and a rejected one leave everything as it is |
| Effects.AnnouncesIff | crates/p2sync-net/src/sync_engine.rs:675-684 | what is announced is a file without excluded component and without backup marker, and every such path is |
| Effects.LocalDeleteEffect | crates/p2sync-core/src/index.rs:78-92 | a local delete is recorded with the clock held for the file; the index forgets the path and nothing else changes |
| Effects.RemoteDeleteEffect | crates/p2sync-net/src/sync_engine.rs:506-520 | a remote delete is recorded as it came, and afterwards nothing is there but a folder or a dangling link; one's own is ignored |
| Effects.PullStamps | crates/p2sync-net/src/sync_engine.rs:785-835 | a pull stamps every file it stores with its time and the other peer under the clock held before, leaves all other metadata, and does nothing when switched off |
| IndexAgreement.IndexChangeIff | crates/p2sync-core/src/index.rs:57-75 | indexing a file adds exactly its path to the tree's files if and only if it crosses no file or directory |
| IndexAgreement.IndexRemovalIff | crates/p2sync-core/src/index.rs:78-85 | forgetting a path removes exactly that path from the tree's files if and only if no other file lies below it |
| IndexAgreement.FetchKept | crates/p2sync-net/src/sync_engine.rs:570-639 | a fetch, whatever comes of it, keeps metadata and tree together and every indexed file on disk, and keeps the tree exact where it was exact |
| IndexAgreement.RemoteDeleteAgreesIff | crates/p2sync-net/src/sync_engine.rs:506-519 | a remote delete keeps tree and disk in agreement exactly when it does not name an indexed folder |
| IndexAgreement.ChangeAgreesIff | crates/p2sync-net/src/sync_engine.rs:467-493 | handling a change keeps tree and disk in agreement exactly when it makes no backup, or one whose content the tree shows under that name anyway |
| IndexAgreement.BackupIsNotIndexed | crates/p2sync-net/src/sync_engine.rs:472-484 | a backup holds the losing data on disk and the tree does not know it |
| IndexAgreement.DroppedWriteAgreesIff | crates/p2sync-net/src/sync_engine.rs:664-672 | a write whose event is dropped leaves tree and disk in agreement exactly when the tree shows that content already or cannot show it |
| IndexAgreement.DroppedDeleteAgreesIff | crates/p2sync-net/src/sync_engine.rs:262-269 | a delete whose event is dropped leaves tree and disk in agreement exactly when the tree does not show the path |
| IndexAgreement.DroppedDeleteOnDiskIff | crates/p2sync-net/src/sync_engine.rs:262-269 | it leaves everything the tree shows on disk under the same condition |
| IndexItself.DroppedDeleteBreaks | crates/p2sync-net/src/sync_engine.rs:262-269 | after such a delete a file stays in metadata without being on disk, and indexing a file below its path leaves metadata and tree apart |
| IndexItself.FetchItselfIff | crates/p2sync-net/src/sync_engine.rs:617-639 | a fetch keeps metadata and tree together if and only if what it stores crosses no file of the tree |
| IndexItself.LocalChangeItselfIff | crates/p2sync-core/src/index.rs:57-75 | indexing a local change keeps metadata and tree together if and only if its path crosses no file of the tree |
| IndexItself.PullItselfIff | crates/p2sync-net/src/sync_engine.rs:740-835 | a pull keeps metadata and tree together if and only if every file it asks for and can store crosses no file the tree showed before |
| IndexItself.ItselfOverRunsIff | crates/p2sync-core/src/index.rs:33-107 | over every run of acts that name files, dropped deletes and writes included, metadata and tree stay together throughout if and only if no act crosses what the tree shows |
| IndexItself.CountedThroughout | crates/p2sync-core/src/index.rs:100-103 | where they stay together, file_count is the number of the tree's files |
| IndexAgreement.IndexConsistentOverRuns | crates/p2sync-core/src/index.rs:33-107 | over all runs of acts that name files in which no delete of anything the tree shows is dropped, lost conflicts and dropped writes included, metadata covers exactly the tree's files, file_count counts them, hashes are correct and indexed files are on disk |
| IndexAgreement.IndexAgreesOverRuns | crates/p2sync-core/src/index.rs:33-107 | over runs that moreover leave nothing on disk unshown the tree equals a rebuild from disk |
| IndexAgreement.StoreChangesSize | crates/p2sync-net/src/sync_engine.rs:617-639 | storing a fetched file changes total_size by its new length minus the one indexed before, also where backups or dropped writes have left the tree stale |
| Reconciliation.SameFilesSameTree | crates/p2sync-core/src/merkle.rs:55-68 | consistent trees without empty directories are determined by their files |
| Reconciliation.PullExact | crates/p2sync-net/src/sync_engine.rs:740-835 | after a pull each path holds the remote data over the old tail, or what it held where the remote has no file |
| Reconciliation.PullOverlaysIff | crates/p2sync-net/src/sync_engine.rs:740-835 | a pulled path holds exactly the remote data if and only if the old copy was not longer |
| Reconciliation.MutualPullConverges | crates/p2sync-net/src/sync_engine.rs:740-835 | after a pull in each direction the two peers hold the same data at every path |
| Reconciliation.MutualPullSameTree | crates/p2sync-net/src/sync_engine.rs:740-835 | if neither tree held empty directories the two trees, root hashes included, are equal afterwards |
| Reconciliation.CollisionFreeDistinguishes | crates/p2sync-core/src/chunk.rs:48-70 | a hash function without collisions on the scanned inputs tells different files at a path apart |

## Left out

- Transport, discovery, relay and gossip plumbing: notifications are a set of messages that never shrinks, requests are answered at once from the remote state.
- Engine.SyncEngine.HandleFileChanged: the lock is not released inside the method, because Dafny methods run alone; the interleaving of decisions and fetches is modelled in `Gossip` and, with the handlers' own states, in `Network`.
- Engine.SyncEngine.Reconcile: one time stamp for the whole pull and a remote that does not change meanwhile; the stamps and empty clocks it leaves in the metadata take no part in the convergence results.
- Engine.SyncEngine.FetchAndApply: relative paths have normal components only, so the path check that rejects others never fires.
- Disk.FromPathConfigured: input and output errors, permissions and names that are not UTF-8 are not modelled; a link is a leaf that is skipped, and whether its target exists does not change.
- Merkle.InsertRecursive: update through a mutable reference is modelled as returning the updated tree, which exclusive ownership makes equal.
- MerkleCount.InsertSize: sums of file sizes are unbounded, the 64-bit overflow of a total is not modelled.
- ConflictName.VisitMap: the text of error messages and the JSON syntax around the entries.
- Convergence.HoldsGreatest: no edit is stamped earlier than the version it replaces and no fetch completes after something newer is held; `Convergence.EditKeepsGreatestIff` and `Convergence.ApplyKeepsGreatestIff` show that neither can be dropped.
- The internals of the hash function.
- Network.RunRefines: a delete or a pull of the very path in question is left out, because a delete drops the file's clock and a pull stamps a file without ticking one; deletes and pulls of other files are covered, and `IndexAgreement` covers both for tree and metadata.
- IndexAgreement.IndexConsistentOverRuns: indexed deletes that name a folder are left out; `IndexAgreement.RemoteDeleteAgreesIff` and `IndexAgreement.IndexRemovalIff` say what they break.
- The no-push option, tombstone expiry, user-interface events, configuration and command line: they add only easy members.
- Merging the two guards' clocks with wall-clock seconds: instants and stamps are separate parameters.
