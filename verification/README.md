# Verified model of mountx

mountx serves a JavaScript filesystem driver over FUSE, 9P and NFS. This project
models the parts of it that keep state by hand, and proves what that state means
over every input, every run and every interleaving of driver calls. Everything is
Dafny 4.11; `dafny verify dfyconfig.toml` checks the whole project.

Code that changes things in place is a class or a method with loops here, and each
such method is tied to a function of the old state; the properties are lemmas about
those functions and about runs of them. Code that is concurrent is a step machine:
each `await` ends a step, and whatever is pending may go on next.

| files | what they model |
|---|---|
| `Paths` | path normalization, the one-pass forms against split and join, "is inside" |
| `PathTables`, `Keys`, `Identities`, `Inodes`, `Fids` | the path, key and id maps under bind, release and subtree rename; FUSE nodeids, 9P qid paths and fids |
| `ByteRanges`, `Coalescing`, `LockTables`, `LockLengths` | byte-range locks as interval lists, the map from bytes to locks they stand for, and how long the lists get |
| `MemTree`, `MemCounts`, `MemWalk`, `MemLinks`, `MemFs`, `MemLaws`, `MemAnswers`, `MemBytes`, `MemRenames`, `MemRemaps`, `Bytes`, `FileBytes` | the memory filesystem: its graph of nodes, its running totals, path walking, its operations and what their callers may rely on, its renames beside the remap of the path tables, its file bytes and handles |
| `Wire`, `Messages`, `WireBytes`, `Framing` | 9P integers and strings, a representative set of messages, the reassembly of frames from a stream |
| `Readdir`, `Paging`, `Overlaps` | directory pages cut to a byte budget and resumed by cookie, one at a time and overlapping |
| `PathLock`, `SessionHandles`, `SessionSteps`, `SessionTeardown`, `SessionExchange`, `Requests`, `RequestReplies`, `Connections`, `FlowControl` | the reader/writer lock, who answers for each driver handle, what a teardown leaves open and which fids outlive a version exchange, tags and flushes, a connection's window and write chain |
| `XmlPrinter`, `XmlGrammar`, `XmlParser`, `XmlRoundTrip`, `XmlTheorems`, `XmlReprint`, `XmlPrefixes`, `XmlNamespaces`, `XmlReferences`, `XmlRefusals` | the XML printer and the bounded parser: round trips, prefixes and namespaces, references, refusals |

## What the code does not do

Nine natural readings of the code or of its comments turned out to be false. The
code is kept as it is; each has a lemma with a concrete case and one with the exact
condition.

- A file's lock list does not stay sorted by start after an unlock that trims or
  splits a range in front of another owner's: `ByteRanges.UnlockMayUnsort`, and
  exactly when it does stay sorted, `ByteRanges.UnlockSortedIff`.
- "Every name the parser accepts is a name the encoder emits" fails for a local
  name that is empty or starts with a digit: `XmlReprint.BadNamesAreParsed`, and
  exactly when a parsed tree prints and parses back to itself, `XmlReprint.Reprints`.
- `InodeTable.clear` leaves the tables in agreement only if the root had adopted no
  key: `Inodes.InodeTable.Clear` says so as an if-and-only-if, and
  `Inodes.ClearMayDisagree` has a root that adopted one.
- A `Treaddir` being answered while another rewinds the same fid can make an offset
  acceptable that the new listing never gave: `Overlaps.OverlappingRewind` is such a
  run. A cookie noted so late changes what the fid accepts exactly when the fid did
  not accept it already (`Overlaps.OverlappingNote`; `Overlaps.OverlapStep` for the
  steps of a run), and in every run the fid accepts only what its listing gave exactly
  when each such cookie was also noted by the listing's own pages
  (`Overlaps.RunAccepts`). A client that rewinds a fid only when nothing on it is
  unanswered is safe (`Overlaps.PatientIsSafe`).
- The lock limit per file is soft, and not by "one or two": an unlock never looks at
  it, so that after one lock of a whole file and `n` unlocks of one byte there are
  `n + 1` ranges under any limit, `LockLengths.UnlocksPassAnyLimit`. One request takes
  a list within the limit past it exactly when it lies strictly inside a range of its
  owner's and is an unlock of a full list, or a lock of another kind with one place
  left: `LockLengths.PastLimitIff`.
- A page refused for a name no reply can hold has still recorded the cookies of the
  entries packed before it, `Paging.RefusedPageResumes`; a refused page leaves more
  offsets to resume at exactly when the refusal is `ENAMETOOLONG` and it had packed an
  entry not shown before, `Paging.RefusedPageRecords`. "An offset the fid was given"
  therefore means an offset packed, not one that reached the client:
  `Paging.RefusedAndRecordedIff` says when from the directory alone.
- A teardown that has returned has not closed every handle: an open parked in the
  driver gets its handle, and closes it, later: `SessionTeardown.ParkedOpenComesLate`.
  Every handle is closed on return, whatever settles in whatever order, exactly when at
  the reset no request was in front of an open or held a handle and no other closer was
  at work: `SessionTeardown.ClosedOnReturnIff`.
- A version exchange does not clunk all fids: an attach waiting for its `lstat` binds
  its fid afterwards, `SessionExchange.ParkedAttachOutlives`. That happens exactly when a
  request from before the exchange is told its directory or its names are there while its
  number is free, `SessionExchange.StaleIff`, and can happen exactly when such an attach,
  or a walk to another number, is parked in the driver at the exchange,
  `SessionExchange.OutlivesIff`.
- A rename does not keep the path tables in step with the filesystem when one of its
  paths goes through a link: the session renames in the driver and remaps the paths as
  written. `MemRenames.RenameThroughLink` is a rename of `/l/x` to `/l`, reached by
  `MemRenames.LinksAreReached`, and exactly when every bound path is still right is
  `MemRemaps.RemapIsRightIff`.

## Model

| member | source | states |
|---|---|---|
| Paths.IsNormalizedPath | src/path.ts:28-54 | the one-pass scan answers yes exactly for the paths that splitting and rejoining would leave alone |
| Paths.NormalShape | src/path.ts:28-54 | a path is such a fixed point exactly when it is `/`, or a slash before slash-joined segments none of which is empty, `.` or `..` |
| Paths.SplitPath | src/path.ts:57-70 | the in-place stack loop yields the folded segments: `.` and empty dropped, `..` removing the one before and never rising above the root |
| Paths.OneMorePart | src/path.ts:57-70 | behind a path, an empty part or a dot changes nothing, two dots take the last segment away and at the root none, any other part is one segment more |
| Paths.NormalizedSnoc | src/path.ts:83-89 | a normalized path is the root, or a slash and a name for each of its segments |
| Paths.NormalizeIdempotent | src/path.ts:83-89 | normalizing again changes nothing, keeps the segments, and never leaves the root |
| Paths.NormalizePath | src/path.ts:83-89 | on both branches, the path of the folded segments, which normalizing again would leave alone |
| Paths.ResolvePath | src/path.ts:109-115 | both branches answer the same path and the same segments |
| Paths.Dirname | src/path.ts:123-131 | on both branches, the path of all segments but the last |
| Paths.DirnameSlice | src/path.ts:123-131 | cutting a normalized path at its last slash is dropping its last segment |
| Paths.Basename | src/path.ts:134-139 | on both branches, the last segment, or `/` for the root |
| Paths.IsPathInsideIsSegmentPrefix | src/path.ts:142-144 | on normalized paths the string test holds exactly when the parent's segments are a prefix |
| Paths.RebasePath | src/subtree.ts:106-106 | swapping the leading characters of a path below `from` gives the path of the same segments below `to` |
| Keys.IdentityKeyInjective | src/9p/fids.ts:72-74 | two files share an identity key exactly when they share device and inode number |
| PathTables.BindSpec | src/fuse/inodes.ts:154-185 | a bind answers the key's entry, else the path's if nothing contradicts it, else a new one; the path and key name it afterwards, every other path and key is as it was, and the maps stay inverse to each other |
| PathTables.PathTable.BindPath | src/9p/fids.ts:533-556 | the statements change the three maps exactly as that specification says |
| PathTables.PathTable.ReleasePath | src/9p/fids.ts:575-603 | the path is forgotten, and with an entry's last path its key, but only if the key is still its own |
| PathTables.PathTable.RemapSubtree | src/subtree.ts:87-120 | for any two normalized paths but the root, nested ones included, the two passes leave exactly the old bindings minus all inside either end, plus those inside `from` and not inside `to` under their new names, with keys and ids unchanged and every path set the exact inverse |
| PathTables.TargetSegments | src/subtree.ts:103-108 | a moved path is normalized, lies below `to`, keeps its segments below the renamed directory, and moving it back restores it |
| PathTables.InsideOne | src/subtree.ts:93-108 | no normalized path is inside both ends of a rename of unrelated paths |
| PathTables.TargetIsClear | src/subtree.ts:109-119 | of two different paths, however related, no moved path takes the name of one that is still bound, so the second pass overwrites nothing |
| Identities.NoAlias | src/9p/fids.ts:513-516 | over a whole run, no id is answered for two different identity keys |
| Identities.DeadStaysDead | src/9p/fids.ts:569-580 | an id whose last path went is never answered again and no path leads to it, for the rest of the run |
| Identities.OneKeyOneId | src/9p/fids.ts:504-511 | two paths bound under one key lead to one id, and while either is bound a bind of that key answers it |
| Identities.StepKeeps | src/fuse/inodes.ts:154-297 | bind, release, forget and count changes keep the three maps coherent, a remap as PathTables.PathTable.RemapSubtree leaves them; none reuses an id, and none changes or drops a key an entry has |
| Identities.RemapBelow | src/subtree.ts:103-119 | segment by segment, what is below `to` afterwards is exactly what was below `from` and not below `to`, with the same ids |
| Identities.RemapToItself | src/subtree.ts:96-102 | renaming a path to itself changes no binding and no path set |
| Inodes.ResolvableUntilForgotten | src/fuse/inodes.ts:188-216 | over every run an inode is resolvable exactly until a forget leaves no lookup outstanding, whatever binds, unlinks and renames happen, and its count is always acquires minus forgets |
| Inodes.InodeTable.Bind | src/fuse/inodes.ts:154-185 | the path leads to the answered nodeid, whose key is the file's |
| Inodes.InodeTable.AcquireInode | src/fuse/inodes.ts:188-191 | one lookup more on that inode and nothing else |
| Inodes.InodeTable.Unbind | src/fuse/inodes.ts:222-228 | the path is released and its inode, still resolvable, is answered |
| Inodes.InodeTable.ForgetInode | src/fuse/inodes.ts:199-216 | the entry goes, with its paths and its key, exactly when its count reaches zero, and the root never does |
| Inodes.InodeTable.Remap | src/fuse/inodes.ts:245-247 | a rename meets the closed form and changes no nodeid |
| Inodes.InodeTable.Clear | src/fuse/inodes.ts:254-262 | only the root is left; the maps agree afterwards if and only if the root had adopted no key |
| Inodes.ClearMayDisagree | src/fuse/inodes.ts:254-262 | from a new table, a root bound to a file with an inode number has a key after clearing that the table does not know |
| Fids.Fid.SetPath | src/9p/fids.ts:236-242 | a fid that really moves loses its readdir cursor, one set to where it already is does not |
| Fids.FidTable.Create | src/9p/fids.ts:374-389 | a fid is bound exactly when it is a valid number not in use, and then names the normalized path, unopened |
| Fids.FidTable.Clone | src/9p/fids.ts:405-411 | the new fid names the same path with no open state and no cursor; in place it changes nothing; in-use numbers and unknown sources are refused |
| Fids.FidTable.Clunk | src/9p/fids.ts:423-427 | the entry is handed back once and the fid is gone; a second clunk is `EBADF` |
| Fids.FidTable.Resume | src/9p/fids.ts:454-467 | offset zero drops the cursor, any other is answered by the cursor or refused |
| Fids.FidTable.Snapshot | src/9p/fids.ts:476-479 | the new listing starts at its first entry with no offset accepted |
| Fids.FidTable.NoteOffset | src/9p/fids.ts:489-493 | the cookie resumes where it was recorded to; zero never does |
| Fids.FidTable.QidPathFor | src/9p/fids.ts:533-556 | the answered qid path is the bind's, and its entry carries the file's key |
| Fids.FidTable.ReleaseQid | src/9p/fids.ts:575-580 | the path's identity is released and no other binding changes |
| Fids.FidTable.Remap | src/9p/fids.ts:646-660 | fids below `from` follow the rename and drop their cursors, fids below `to` keep their paths and drop their cursors, all others keep both; qid identities meet the closed form |
| Fids.MovedSays | src/9p/fids.ts:646-660 | a fid at or below the old path keeps the names below it under the new path and drops its cursor; one at or below the new path stays and drops its cursor; every other, and every one in a rename to itself, keeps both |
| ByteRanges.OwnerKeyInjective | src/9p/locks.ts:254-264 | two requests build one owner key exactly when pid (mod 2^32) and client name agree |
| ByteRanges.GroupKeyInjective | src/9p/locks.ts:303-313 | two ranges share a group key exactly when holder, fid and owner agree |
| ByteRanges.SubtractRange | src/9p/locks.ts:331-351 | the loop yields the list with that owner's ranges trimmed or split |
| ByteRanges.SubtractAt | src/9p/locks.ts:331-351 | as a map from bytes, subtracting erases exactly the owner's bytes in the range and nothing else |
| ByteRanges.SubtractCanonical | src/9p/locks.ts:331-351 | what is left is canonical: disjoint per owner, non-empty, no touching equals in a group |
| ByteRanges.SubtractLength | src/9p/locks.ts:331-351 | an unlock adds at most one range, and only by splitting one |
| ByteRanges.UnlockSortedIff | src/9p/locks.ts:331-351 | an unlock of a sorted list leaves it sorted if and only if no range that starts before the end is listed behind the one trimmed |
| ByteRanges.UnlockMayUnsort | src/9p/locks.ts:337-349 | a concrete list of two readers that an unlock leaves unsorted |
| Coalescing.SortStable | src/9p/locks.ts:361-363 | the sort keeps the order of ranges that start together |
| Coalescing.SortSorts | src/9p/locks.ts:361-363 | the sorted list is ordered by start |
| Coalescing.SortMultiset | src/9p/locks.ts:361-363 | and holds the same ranges |
| Coalescing.Coalesce | src/9p/locks.ts:360-378 | the loop with a last range per group yields the merge of the sorted list |
| Coalescing.CoalescedSpec | src/9p/locks.ts:353-378 | coalescing changes no byte, never lengthens a list, and makes it canonical and sorted |
| Coalescing.ReplacedSpec | src/9p/locks.ts:315-328 | a grant rewrites exactly its owner's bytes in its range, leaves the list canonical and sorted, and adds at most two ranges |
| Coalescing.ReplaceRange | src/9p/locks.ts:324-328 | subtracting, appending and coalescing yields the specified list |
| Coalescing.BlockedIffByteConflict | src/9p/locks.ts:292-301 | the test over ranges blocks exactly when some byte is held by another owner and one of the two is a write lock |
| Coalescing.GrantSafe | src/9p/locks.ts:513-541 | granting what is not blocked never leaves a write-locked byte with a second owner |
| Coalescing.UnlockSafe | src/9p/locks.ts:544-553 | an unlock keeps a safe list safe |
| LockTables.LengthRoundTrip | src/9p/locks.ts:267-280 | a held range goes out as a start and length that name it again |
| LockTables.RangeSays | src/9p/locks.ts:266-275 | the bytes a request names are those from its start, as many as its length, or all to the end when that is zero; a length that is negative or runs past the end is `EINVAL`, and nothing else is |
| LockTables.LockedSpec | src/9p/locks.ts:500-553 | a request that succeeds rewrites exactly the bytes of its range for its owner, any other changes nothing, and the list stays canonical and safe |
| LockTables.StatusSays | src/9p/locks.ts:500-527 | a request is refused exactly when it names no bytes or no kind of lock, blocked exactly by a conflicting byte, turned away at the limit exactly when nothing conflicts and the list is full |
| LockTables.GetlockAgrees | src/9p/locks.ts:465-475 | asking answers nothing exactly when the same request would not be blocked, and a holder exactly when another owner's byte conflicts |
| LockTables.AnswerIsAnother | src/9p/locks.ts:533-535 | the process and client an answer names are those its range is judged by, and not the asker's |
| LockTables.AnswerIsFirst | src/9p/locks.ts:468-473 | the answer is, field by field, the first range of the list that overlaps the asked bytes, belongs to somebody else and conflicts |
| LockTables.DenialIsTruthful | src/9p/locks.ts:282-290 | every byte of the range an answer names is held by the owner it names with the type it names, one of them was asked for, and one of the two types is a write lock |
| LockTables.KeptAt | src/9p/locks.ts:449-450 | releasing a fid or a connection erases exactly the bytes granted through it |
| LockTables.RunGood | src/9p/locks.ts:500-601 | over every run of every number of clients: no empty list is kept, each list is canonical, each range's owner is the process and client it reports, and no byte is write-locked by one owner while another holds it |
| LockTables.TornDownHoldsNothing | src/9p/locks.ts:450-450 | after a connection's release nothing anywhere is held by it |
| LockTables.GoneStaysGone | src/9p/locks.ts:435-454 | for the rest of any run nothing is held by a connection that was torn down and asks for nothing more |
| LockTables.P9LockTable.Lock | src/9p/locks.ts:500-542 | the status and the new table are those of the specification |
| LockTables.P9LockTable.Unlock | src/9p/locks.ts:544-553 | the owner's bytes go from the path's list, and the path with its last range |
| LockTables.P9LockTable.Getlock | src/9p/locks.ts:465-475 | nothing, or the first range that denies the request: its type, start and length name bytes that the reported owner holds with that type, some of them asked for, one side a write lock, and the owner is not the asker |
| LockTables.P9LockTable.DropMatching | src/9p/locks.ts:577-589 | every file loses exactly the matching ranges, and files left with none go |
| LockTables.P9LockTable.Remap | src/9p/locks.ts:485-490 | ranges move with the renamed files, those at the destination go, all others stay |
| LockTables.P9LockTable.ReleaseName | src/9p/locks.ts:493-498 | a path that stopped existing loses every client's ranges |
| LockLengths.RunsAreRanges | src/9p/locks.ts:353-378 | a canonical list has as many ranges as its bytes have runs of one owner's one grant, so it is as short as it can be |
| LockLengths.LengthAfter | src/9p/locks.ts:315-351 | when one owner's bytes in a range are overwritten, the list loses the owner's ranges that start in it or at its end and gains at most one for the range and one for what is behind it |
| LockLengths.UnlockLength | src/9p/locks.ts:331-351 | the exact length after an unlock |
| LockLengths.UnlockGrowsIff | src/9p/locks.ts:331-351 | an unlock lengthens a list, by one, if and only if it lies strictly inside a range of its owner's |
| LockLengths.GrantLength | src/9p/locks.ts:315-328 | the exact length after a grant |
| LockLengths.GrantGrowsByTwoIff | src/9p/locks.ts:315-328 | a grant lengthens a list by two if and only if it lies strictly inside a range its owner holds otherwise |
| LockLengths.PastLimitIff | src/9p/locks.ts:520-553 | a request takes a list within the limit past it if and only if it splits a range of its owner's and is an unlock of a full list or a lock with one place left |
| LockLengths.UnlocksPassAnyLimit | src/9p/locks.ts:544-553 | a concrete run to any number of ranges under any limit |
| MemTree.OneEntryEach | src/drivers/memory.ts:299-319 | in a tree no directory is named by two entries and the root by none |
| MemTree.NoCycle | src/drivers/memory.ts:683-724 | no directory reaches itself |
| MemTree.InsideIsBelow | src/drivers/memory.ts:683-724 | one directory's path is a prefix of another's exactly when the second can be reached from the first |
| MemTree.MovedTree | src/drivers/memory.ts:683-724 | a rename outside its own subtree keeps the graph a tree |
| MemCounts.LiveIffReachable | src/drivers/memory.ts:307-319 | a node's link count is positive exactly when a path from the root leads to it |
| MemCounts.NodeCountIsReachable | src/drivers/memory.ts:170-200 | the running node count is the size of the set of reachable nodes |
| MemCounts.MakeKeeps | src/drivers/memory.ts:175-200 | creating and linking a node keeps every total equal to its recount |
| MemCounts.UnlinkKeeps | src/drivers/memory.ts:307-319 | removing an entry keeps every total equal to its recount |
| MemCounts.HardLinkKeeps | src/drivers/memory.ts:726-741 | one more name for a file keeps every total equal to its recount |
| MemCounts.MoveKeeps | src/drivers/memory.ts:683-724 | moving an entry keeps every total equal to its recount |
| MemCounts.SetDataKeeps | src/drivers/memory.ts:322-328 | changing a file's bytes, linked or not, keeps the block total equal to its recount and no name changes |
| MemCounts.BlocksHold | src/drivers/memory.ts:345-357 | a file or a link takes as many blocks of 4096 bytes as hold its bytes and no more, a directory one, a special file none |
| MemWalk.WalkPath | src/drivers/memory.ts:227-279 | the loop with its restarts at symlinks terminates and computes the segment-wise walk, whose steps MemLinks states in paths |
| MemLinks.FollowsLink | src/drivers/memory.ts:253-271 | where the names in front lead by plain lookups to a directory and the next is a link that is followed, the walk is, with one link more counted, that of the directory's path, the target and the names behind; for an absolute target that of the target and the names behind; past forty links `ELOOP`, for an empty target `ENOENT` |
| MemLinks.MissingName | src/drivers/memory.ts:246-252 | a missing last name is a free place in the directory the walk came to, a missing one before that is `ENOENT` |
| MemLinks.PlainName | src/drivers/memory.ts:243-276 | a last name that is not followed is where the walk ends, a file with more names behind it is `ENOTDIR` |
| MemLinks.WalkComesTo | src/drivers/memory.ts:227-279 | every walk passes directories and comes to one of these cases |
| MemLinks.LinkBesideFile | src/drivers/memory.ts:265-271 | a link that names a file beside it leads to that file, in the link's own directory |
| MemLinks.LinkToItself | src/drivers/memory.ts:253-256 | a followed link to itself is `ELOOP` |
| MemWalk.LinkPath | src/drivers/memory.ts:265-271 | the string a link restarts the walk with means: the segments before it, then its target, then the rest, `..` clamped at the root |
| MemWalk.WalkCanonical | src/drivers/memory.ts:206-279 | every walk answers a canonical place, its path free of symlinks, and never a symlink itself when following |
| MemWalk.WalkPlain | src/drivers/memory.ts:227-279 | along directories alone a walk is a plain lookup |
| MemFs.RunInvariants | src/drivers/memory.ts:299-345 | in every reachable state, writes through handles on unlinked files included: no cycle, link counts are entry counts, `subdirs` counts directory children, and node and block totals equal a recount |
| MemFs.RunOneEntry | src/drivers/memory.ts:683-724 | in every reachable state no directory has two entries |
| MemFs.SubtreeTest | src/drivers/memory.ts:693-699 | the path test a rename refuses by holds exactly when the target is the moved directory or lies below it |
| MemFs.RenamedSpec | src/drivers/memory.ts:683-724 | after a rename the new path and all below it mean what the old did, the old means nothing, every other path is unchanged |
| MemFs.CreatedSpec | src/drivers/memory.ts:299-305 | a created name leads to the new node and no other path changes |
| MemFs.CreatedIsFound | src/drivers/memory.ts:588-653 | what was created is what a walk of the place finds |
| MemFs.UnlinkSpec | src/drivers/memory.ts:655-681 | a removed name leads nowhere and no other path changes |
| MemFs.LinkSpec | src/drivers/memory.ts:726-741 | a hard link gives the node one more name and changes no other |
| MemLaws.MkdirIsFound | src/drivers/memory.ts:647-652 | the path a directory was made by, links on the way and all, leads to it, and it is new |
| MemLaws.SymlinkIsFound | src/drivers/memory.ts:743-764 | reading a link that was made answers its target |
| MemLaws.OpenTwice | src/drivers/memory.ts:588-625 | creating by a path, through dangling links too, and opening by it again name one file |
| MemLaws.LinkedIsFound | src/drivers/memory.ts:726-741 | the new name of a hard link leads to the node the old one led to |
| MemLaws.UnlinkIsGone | src/drivers/memory.ts:655-681 | a path that was unlinked or removed finds nothing |
| MemLaws.FailuresChangeNothing | src/drivers/memory.ts:507-791 | every operation that fails, recursive creation apart, leaves the whole state as it was |
| MemLaws.MkdirAllWorks | src/drivers/memory.ts:629-646 | recursive creation takes no name away and adds only new directories even when it fails, and when it succeeds the whole path leads to a directory |
| MemLaws.MkdirAllAnswers | src/drivers/memory.ts:629-646 | successful recursive creation answers nothing exactly when every part of the path led to a directory before, and otherwise the shortest part that led nowhere |
| MemBytes.OnlyWritesWrite | src/drivers/memory.ts:438-791 | every operation leaves the bytes of every file as they were, but for the one file it names to write or truncate |
| MemBytes.BytesOutliveNames | src/drivers/memory.ts:655-724 | in every run a file that nothing writes keeps its bytes, whatever is linked, renamed onto it or unlinked, and whether or not a name of it is left |
| MemBytes.WriteAfterAll | src/drivers/memory.ts:438-452 | a write through a handle after all that changes the bytes as if the file still had a name |
| MemBytes.TruncateWorks | src/drivers/memory.ts:780-791 | a truncated path leads to the same file, cut or zero-padded, and no other file's bytes change |
| MemLaws.RenameWorks | src/drivers/memory.ts:683-724 | `EINVAL` is answered exactly when the target lies in the moved directory's subtree; any failure and a rename onto the same node change nothing; any other success moves the subtree |
| MemAnswers.RenameAnswers | src/drivers/memory.ts:693-711 | between places on different nodes a rename goes through exactly for a directory onto nothing or an empty directory outside its subtree, or anything else onto nothing or no directory; `EINVAL`, `ENOTDIR`, `ENOTEMPTY` and `EISDIR` are answered each exactly on its condition |
| MemAnswers.RenameOfNothing | src/drivers/memory.ts:683-692 | a path that does not resolve answers for itself, the old one first, a missing source is `ENOENT`, and two names of one node stay as they are |
| MemAnswers.MknodAnswers | src/drivers/memory.ts:507-536 | which types are made, as what, with a device number only for the two device types; `EEXIST` and `EPERM` exactly on their conditions |
| MemAnswers.MkdirAnswers | src/drivers/memory.ts:647-652 | a new empty directory exactly where nothing was |
| MemAnswers.SymlinkAnswers | src/drivers/memory.ts:743-756 | a link with that target exactly where nothing was and the target is not empty, which is refused first |
| MemAnswers.ReadlinkAnswers | src/drivers/memory.ts:758-764 | the target of a link, `EINVAL` for anything else, `ENOENT` for nothing |
| MemAnswers.OpenAnswers | src/drivers/memory.ts:588-625 | `ENOENT`, `EEXIST`, `EISDIR` and `ENXIO` each exactly on its condition; otherwise the file that is there, or a new empty one the path leads to |
| MemAnswers.OpenTruncates | src/drivers/memory.ts:619-624 | a truncating open leaves the file empty and all else alone, any other open of what is there changes nothing |
| MemAnswers.RmdirAnswers | src/drivers/memory.ts:655-670 | the root, what is no directory and a directory with an entry are refused, each with its errno; an empty directory loses its name and nothing else changes |
| MemAnswers.UnlinkAnswers | src/drivers/memory.ts:672-681 | anything but a directory loses its name and nothing else changes |
| MemAnswers.LinkAnswers | src/drivers/memory.ts:726-741 | a directory gets no second name, a taken name is `EEXIST`, otherwise the new path leads to the node and nothing else changes |
| MemAnswers.TruncateAnswers | src/drivers/memory.ts:780-791 | `ENOENT`, `EISDIR` and `EINVAL` each exactly on its condition |
| MemAnswers.Unresolved | src/drivers/memory.ts:507-791 | an operation whose path does not resolve answers what the walk did |
| MemRenames.MovedEnds | src/drivers/memory.ts:683-724 | a rename that moves something moves it between unrelated places, neither of them the root |
| MemRenames.RenameSparesRoot | src/drivers/memory.ts:683-724 | the paths of a rename that succeeds are both not the root, or both are |
| MemRenames.RenameThroughLink | src/9p/session.ts:2224-2228 | a rename of `/l/x` to `/l`, with `/l` a link, succeeds between nested paths, and the remap leaves the old place bound and the new one not |
| MemRenames.LinksAreReached | src/drivers/memory.ts:743-756 | three operations on a new filesystem make such a link |
| MemRemaps.RenameThenRemap | src/9p/session.ts:2224-2228 | with no link on the way, every bound path goes on leading to what its entry stands for, and no right binding is lost if and only if the ends were different nodes, or one path, or unbound |
| MemRemaps.RemapIsRightIff | src/9p/session.ts:2224-2228 | over every rename that succeeds, what is bound is still right if and only if neither path goes through a link, or nothing is bound that the difference makes wrong |
| MemFs.MemoryDriver.RenameTo | src/drivers/memory.ts:683-724 | refusals, no-ops and moves happen exactly as in the specification that MemAnswers.RenameAnswers and MemLaws.RenameWorks are about |
| MemFs.MemoryDriver.MknodAt | src/drivers/memory.ts:507-536 | the new state and the errno are those of the specification |
| MemFs.MemoryDriver.MkdirAt | src/drivers/memory.ts:647-652 | the new state and the errno are those of the specification |
| MemFs.MemoryDriver.RmdirAt | src/drivers/memory.ts:655-670 | the new state and the errno are those of the specification |
| MemFs.MemoryDriver.SymlinkAt | src/drivers/memory.ts:743-756 | the new state and the errno are those of the specification, an empty target refused before an existing name |
| MemFs.MemoryDriver.TruncateAt | src/drivers/memory.ts:780-791 | the new state and the errno are those of the specification |
| MemFs.MemoryDriver.WriteNode | src/drivers/memory.ts:438-452 | a write to a node, linked or not, changes its bytes and, only if linked, the block total |
| MemFs.MemoryDriver.OpenAt | src/drivers/memory.ts:588-625 | opening, creating, exclusive and truncating opens answer and change exactly as specified |
| MemFs.MemoryDriver.MkdirAllAt | src/drivers/memory.ts:627-653 | recursive creation makes exactly the missing directories and answers the first one made |
| MemFs.MemoryDriver.LinkAt | src/drivers/memory.ts:726-741 | the new state and the errno are those of the specification |
| MemFs.MemoryDriver.UnlinkAt | src/drivers/memory.ts:672-681 | the new state and the errno are those of the specification |
| MemFs.MemoryDriver.Statfs | src/drivers/memory.ts:547-560 | the free blocks and files reported are the capacity minus a full recount |
| Bytes.ShrinkThenGrow | src/drivers/handle.ts:211-219 | bytes cut off by a shrink read as zeros after a grow |
| Bytes.WrittenAt | src/drivers/memory.ts:438-452 | a byte after a write is the one written there, the one that was there, or the zero of a gap |
| FileBytes.ResizeAmortized | src/drivers/handle.ts:204-231 | each resize keeps four times the length at least the capacity and pays for its copying out of three times the size change and the potential |
| FileBytes.DeniedAmortized | src/drivers/handle.ts:220-231 | a growth that could not double pays for its copying with twice the bytes held more |
| FileBytes.ByteHolder.CopyingIsLinear | src/drivers/handle.ts:204-231 | the bytes a file's buffer ever copied are at most three times those its size changed by, as long as doubling was never denied |
| FileBytes.ByteHolder.Resize | src/drivers/handle.ts:204-231 | in place, doubled or exact, the contents become the abstract resize, a failed allocation changes nothing, and the counters of bytes copied and changed grow by exactly what this call copied and changed |
| FileBytes.FileHandle.Read | src/drivers/memory.ts:418-436 | a read answers the slice of the file's current bytes, whatever other handles did, and moves only its own position |
| FileBytes.FileHandle.Write | src/drivers/memory.ts:438-452 | a write leaves the plain overwrite, zero-padded past the end, or fails and changes nothing |
| FileBytes.FileHandle.Truncate | src/drivers/memory.ts:461-465 | a truncate leaves the abstract resize, or fails and changes nothing |
| FileBytes.PositionChecked | src/drivers/handle.ts:146-157 | no position and minus one mean the handle's own, others are taken or out of range |
| FileBytes.ReadAfterWrite | src/drivers/memory.ts:418-452 | what was written is what is read back |
| FileBytes.RangeChecked | src/drivers/handle.ts:101-133 | a range is accepted exactly when it lies inside the buffer or is an empty read, and is then the one asked for |
| Wire.ValueOfLE | src/9p/wire.ts:134-163 | reading a written integer gives it back |
| Wire.TakeCountedOfCounted | src/9p/wire.ts:172-207 | reading a counted string or blob gives it back and stops behind it |
| Wire.P9Writer.CountedBytes | src/9p/wire.ts:286-309 | bytes a count cannot describe are refused and nothing is written |
| Wire.P9Writer.Room | src/9p/wire.ts:238-253 | growing keeps what was written and counts exactly the bytes it moves |
| Wire.P9Writer.GrowingIsLinear | src/9p/wire.ts:238-253 | however a message is written, growing moves at most twice the bytes written |
| Wire.P9Writer.PatchU32 | src/9p/wire.ts:323-329 | four bytes already written change in place and no others; a place not yet written is refused |
| Wire.P9Reader.CountedBytes | src/9p/wire.ts:172-207 | the reader takes exactly the counted bytes, bounded first by the ceiling and then by what is left |
| Messages.FrameRoundTrip | src/9p/protocol.ts:128-174 | every in-range message and tag decode back from their frame, whose size field is its length |
| Messages.DirentsRoundTrip | src/9p/protocol.ts:1337-1367 | a packed block unpacks to exactly the entries packed |
| Messages.DirentsCanonical | src/9p/protocol.ts:1344-1367 | a block that unpacks at all is the packing of what it unpacks to |
| Messages.TlockIsCanonical | src/9p/protocol.ts:1503-1523 | a lock request that decodes is the encoding of what it decodes to |
| Messages.EncodeTwrite | src/9p/protocol.ts:128-145 | writing a header, a body and patching the size yields the frame |
| Messages.ReadTwalk | src/9p/protocol.ts:480-489 | the counted loop accepts exactly the bodies of the grammar |
| Messages.DecodeTwalk | src/9p/protocol.ts:166-180 | decoding with the reader agrees with the frame's meaning and refuses a size that is not the length |
| Messages.DirentPacker.Add | src/9p/protocol.ts:1420-1433 | an entry is packed exactly when it fits what is left, a name no count can hold is an error, and otherwise nothing changes |
| Messages.DirentPacker.Block | src/9p/protocol.ts:1436-1438 | the block is within its budget and decodes to the entries added, in order |
| WireBytes.HeaderBytes | src/9p/protocol.ts:115-145 | the first seven bytes of a frame are its length, the number of its type and its tag, least significant byte first |
| WireBytes.TwalkBytes | src/9p/protocol.ts:471-478 | fid, new fid, the count of names and each counted name stand at their places |
| WireBytes.RwalkBytes | src/9p/protocol.ts:491-496 | the count of qids, and each qid thirteen bytes behind the one before |
| WireBytes.TwriteBytes | src/9p/protocol.ts:568-573 | fid, offset and the counted data stand at their places |
| WireBytes.TlockBytes | src/9p/protocol.ts:1503-1511 | the seven fields of a lock request stand at their places |
| WireBytes.RreaddirBytes | src/9p/protocol.ts:1308-1310 | the counted block stands behind the header |
| WireBytes.DirentBytes | src/9p/protocol.ts:1337-1342 | each entry of a block is its qid, its cookie, its type and its counted name, right behind the one before |
| Framing.CutConcat | src/9p/protocol.ts:1700-1766 | cutting a stream in two anywhere and cutting each part gives the cut of the whole |
| Framing.RestIsPartial | src/9p/protocol.ts:1726-1766 | what is held over is the start of one frame and no more |
| Framing.CutKeepsBytes | src/9p/protocol.ts:1726-1766 | the frames and the remainder are the stream, no byte lost or made up |
| Framing.TakenIsTheRest | src/9p/protocol.ts:1726-1766 | what goes out in frames and what is held over are together as long as the stream |
| Framing.FramesAreWhole | src/9p/protocol.ts:1726-1766 | every frame that comes out is as long as its first four bytes say, at least a header and at most the limit |
| Framing.FailsIff | src/9p/protocol.ts:1726-1766 | cutting fails if and only if behind some whole frames stands a header whose size is below seven or above the limit |
| Framing.ChunksDoNotMatter | src/9p/protocol.ts:1700-1766 | under every chunking the stream fails exactly when it holds a bad size, and otherwise gives the same frames and remainder |
| Framing.EndToEnd | src/9p/protocol.ts:1632-1826 | any messages, concatenated and cut into any chunks, decode to exactly those messages with the unread tail pending |
| Framing.FrameAssembler.Deliver | src/9p/protocol.ts:1700-1766 | one delivery into the compacting buffer gives exactly the frames of held and new bytes together, a failure latches, each of the four counters of copied bytes grows by exactly what this delivery copied, and all that was ever copied is at most five times what was ever delivered |
| Framing.FrameAssembler.Room | src/9p/protocol.ts:1780-1799 | sliding or growing the buffer keeps what is held, and counts exactly the bytes it moves |
| Framing.FrameAssembler.Append | src/9p/protocol.ts:1780-1801 | what is delivered goes in behind what is held, and the bytes copied in, slid and grown are exactly counted |
| Framing.FrameAssembler.SetLimit | src/9p/protocol.ts:1658-1677 | a limit below the header is refused, and moving it keeps what is held |
| Framing.FrameAssembler.Reset | src/9p/protocol.ts:1816-1819 | nothing is pending, the latch is open, and the assembler takes deliveries again with its account of copies kept |
| Readdir.ReadDirectory | src/9p/session.ts:1384-1439 | one request's reply and the cursor it leaves are those of the specification; unopened fids are `EBADF`, files `ENOTDIR`; a reply decodes to its entries within its budget |
| Readdir.FillPage | src/9p/session.ts:1393-1438 | the packing loop takes exactly the specified entries and records exactly their cookies |
| Paging.TakeIs | src/9p/session.ts:1395-1426 | a page is the surviving entries up to its last one, in order and within budget, and stops early only where the next survivor does not fit |
| Paging.SurvivorsShow | src/9p/session.ts:1395-1426 | the survivors are, in listing order, exactly the entries that were found, each with its name, the qid and type its `lstat` found, and the cookie of the next place |
| Paging.TooSmall | src/9p/session.ts:1427-1432 | `EINVAL` is answered exactly when the first survivor does not fit the budget |
| Paging.ReadKeepsCursor | src/9p/fids.ts:454-493 | an offset not recorded since the last snapshot is refused and changes nothing; a rewind forgets all; a page adds exactly its own cookies |
| Paging.PagingIsExact | src/9p/session.ts:1384-1439 | from a rewind, with any budgets that fit one entry each and whatever vanishes between pages, the pages end, are within budget, and together are the surviving entries once each and in order |
| Paging.StableListing | src/9p/session.ts:1384-1439 | a directory nothing vanishes from is listed whole |
| Paging.UnsayableIff | src/9p/session.ts:1406-1423 | a page is stopped by a name no reply can hold exactly when it reaches one with every survivor before it packed |
| Paging.RefusedPageRecords | src/9p/session.ts:1402-1432 | a page answered with an error leaves more offsets to resume at if and only if the error is `ENAMETOOLONG` and it packed an entry not shown before |
| Paging.RefusedAndRecordedIff | src/9p/session.ts:1393-1432 | the same from entries, looks, budget and cursor alone: a refused page adds offsets if and only if it reaches a name no reply can hold past survivors that fit and of which one was not shown before |
| Paging.RefusedRewindRecords | src/9p/session.ts:1388-1432 | for a rewind that fails: if and only if it got to such a name with something packed |
| Paging.RefusedPageResumes | src/9p/session.ts:1402-1423 | a concrete refused page after which its first cookie is accepted |
| Overlaps.RunAccepts | src/9p/fids.ts:454-493 | over every interleaving of `Treaddir`s on one fid, it accepts exactly the offsets noted since its listing was taken, and only what that listing gave if and only if every late cookie was noted by the listing's own pages too |
| Overlaps.OverlappingNote | src/9p/fids.ts:489-493 | a cookie noted by an overlapped page leaves the accepted offsets as they were if and only if it was accepted already |
| Overlaps.OverlapStep | src/9p/session.ts:1393-1426 | in every run, a step makes a never-given offset acceptable exactly when a page of an older listing packs an entry whose cookie was not accepted |
| Overlaps.PatientIsSafe | src/9p/session.ts:1362-1371 | a client that rewinds only when nothing on the fid is unanswered is served only offsets its latest listing gave |
| Overlaps.OverlappingRewind | src/9p/session.ts:1384-1426 | a concrete run of two `Treaddir`s after which an offset never given is served and not refused |
| Overlaps.AloneIsRead | src/9p/session.ts:1384-1439 | the steps of one request with no other between them answer and leave what one read of the cursor does |
| PathLock.Exclusion | src/lock.ts:26-69 | while a writer's body runs no reader's body and no other writer's body runs, in every interleaving |
| PathLock.CallOrder | src/lock.ts:60-67 | writers run in call order, a rejecting one counting as finished |
| PathLock.GateHolds | src/lock.ts:45-58 | no reader begins between a writer's shutting the gate and opening it |
| PathLock.ReadersShare | src/lock.ts:32-45 | a reader that is called or waits goes in exactly when no writer drains or writes, however many are reading |
| PathLock.StepDescends | src/lock.ts:32-68 | every step but a new call brings the end strictly nearer |
| PathLock.StuckIsDone | src/lock.ts:32-68 | a run that can go no further has run every reader and writer: nothing waits for itself, no rejection wedges the lock |
| PathLock.EverythingRuns | src/lock.ts:15-24 | from every reachable state, letting bodies settle ends with everything run, within a stated number of steps |
| SessionHandles.RunConserves | src/9p/session.ts:1646-1686 | under every interleaving of opens, creates, re-opens, clunks, removes and resets, each handle the driver returned is in exactly one place: one request, one table entry, one closer, or closed |
| SessionHandles.ClosesOnce | src/9p/session.ts:626-640 | the handle a step closes was not closed before, in every run |
| SessionHandles.NothingLeaks | src/9p/session.ts:1648-1655 | once nothing waits on the driver, every handle is closed or on an entry that can still be clunked, and never both |
| SessionHandles.FinishKeeps | src/9p/session.ts:1731-1873 | storing or unwinding an overtaken open neither overwrites nor loses a handle; what it does to the fid is SessionSteps.OpenEnds |
| SessionHandles.ClunkedKeeps | src/9p/session.ts:1121-1135 | a clunk or a remove moves the handle from the table to exactly one closer |
| SessionHandles.ResetKeeps | src/9p/fids.ts:684-692 | a reset gives every handle of the table to its closer, once each |
| SessionSteps.OpenEnds | src/9p/session.ts:1731-1873 | an open that ends on a fid nobody closed, opened or moved leaves it open with exactly the handle it kept or none, as a directory or not, and a create leaves it naming the new file; no other fid changes and the request is over; on any other fid nothing changes and a kept handle is closed next |
| SessionSteps.SettlesOtherwise | src/9p/session.ts:1731-1873 | no other answer of the driver changes a fid, a binding, a closer or another request |
| SessionSteps.GoesOn | src/9p/session.ts:1731-1873 | where each answer sends its request: to the open, to giving the handle back, to describing the file, to unwinding, or out |
| SessionSteps.HandlesMove | src/9p/session.ts:1756-1780 | a handle is issued exactly by an open that succeeds and closed by a request exactly when it gives it back or unwinds it |
| SessionSteps.StartSays | src/9p/session.ts:1731-1740 | an open or a create is let in exactly under a free tag on a fid that is not open, a re-open exactly on a file open without a handle |
| SessionSteps.CloneSays | src/9p/session.ts:1055-1090 | a walk of no names binds a free number to the path of an unopened fid |
| SessionSteps.StartBindingSays | src/9p/session.ts:1055-1075 | an attach, or a walk from an unopened fid to itself or a number not in use, is let in under a free tag |
| SessionSteps.BindSays | src/9p/session.ts:1007-1090 | what was found binds its number if that is still free, a walk only if its starting fid is still there, and one that ends there moves it; what was not found binds nothing |
| SessionSteps.RepathSays | src/9p/fids.ts:646-660 | a moved fid has the new path and nothing else changed |
| SessionSteps.ClunkSays | src/9p/session.ts:1121-1135 | the number is no fid any more, its handle is with one new closer, every other fid is as it was |
| SessionSteps.ResetSays | src/9p/fids.ts:684-692 | no number is a fid any more, one new closer has exactly the handles of the table, requests and bindings go on |
| SessionSteps.OpenHasACause | src/9p/session.ts:1646-1686 | in every run a fid that is open was opened by the end of one request on it, with the handle and the kind that one brought back |
| SessionTeardown.ClosedOnReturnIff | src/9p/session.ts:609-640 | whatever settles after a reset, every handle is closed by the time it has returned if and only if no request was in front of an open or held a handle and no other closer was at work |
| SessionTeardown.ParkedOpenComesLate | src/9p/session.ts:1731-1790 | a concrete run in which a teardown has returned and a handle is open |
| SessionExchange.StepStale | src/9p/session.ts:1007-1090 | in every state, a step puts a fid of an earlier generation into the table exactly when it is a binding from before the reset whose number is free |
| SessionExchange.StaleIff | src/9p/session.ts:626-640 | until the next reset, a fid from before it is in the table at some time if and only if such a request binds one then |
| SessionExchange.LateWasParked | src/9p/session.ts:1013-1021 | a request that binds late was parked in the driver at the reset |
| SessionExchange.OutlivesIff | src/9p/session.ts:626-640 | such a fid can come into the table if and only if an attach, or a walk to another number, is parked at the reset |
| SessionExchange.ParkedAttachOutlives | src/9p/session.ts:1007-1026 | a concrete run in which an attach binds its fid after the exchange |
| Requests.EveryRequestAnswered | src/9p/session.ts:534-598 | in every run each request that arrived is pending or answered, never both and never twice |
| Requests.DuplicateRefused | src/9p/session.ts:581-597 | a request is turned away for its tag exactly when an unanswered one came under it, one that was refused itself included, and disturbs nothing |
| Requests.PendingHoldsTag | src/9p/session.ts:588-597 | until a request is answered, one refused on arrival as any other, the next under its tag is turned away and a flush of it waits |
| Requests.RefusedStaysRefused | src/9p/session.ts:738-745 | a request refused on arrival is never answered as done |
| Requests.TagsAreUnique | src/9p/session.ts:588-597 | two requests in flight, flushes apart, never share a tag |
| Requests.FlushWaitsFor | src/9p/session.ts:2408-2414 | a flush waits exactly for the request in flight under the tag it names |
| Requests.FlushOutlasts | src/9p/session.ts:543-551 | a flush is answered after the request it waited for |
| Requests.NothingStaleAnswered | src/9p/session.ts:646-675 | nothing but a version exchange is answered as done once the session was reset or torn down in the meantime |
| RequestReplies.SettleReplies | src/9p/session.ts:646-680 | the reply to a request whose handler came back, from the events alone: refused if it was on arrival or came after a teardown, failed if the handler was, stale if since its arrival a version exchange was let in or there was a teardown and it is none itself, done otherwise |
| RequestReplies.AnsweredInTime | src/9p/session.ts:646-675 | in every run, between the arrival of a request answered as done and the end of its handler no version exchange was let in and there was no teardown, unless it was a version exchange |
| Requests.Progress | src/9p/session.ts:574-580 | something pending can always settle, so flushes never wait for each other |
| Connections.Connection.Pump | src/9p/server.ts:496-513 | the loop dispatches exactly as many frames as fit, oldest first, and pauses or resumes reading accordingly |
| Connections.Connection.Send | src/9p/server.ts:559-582 | a reply that does not fit parks the chain, every other outcome finishes it |
| Connections.Connection.Feed | src/9p/server.ts:460-480 | a delivery queues and pumps, a framing failure closes |
| Connections.Connection.Produced | src/9p/server.ts:531-537 | a reply joins the end of the write chain when it is produced |
| Connections.Connection.Drain | src/9p/server.ts:585-598 | the parked write is woken, the stream is not full, and frames that now fit go out |
| Connections.Connection.Close | src/9p/server.ts:425-430 | nothing waits any more, and a parked write is woken |
| FlowControl.EveryFrameCounted | src/9p/server.ts:482-513 | in every order of events the window is not exceeded, dispatch is in arrival order, and until teardown arrived = waiting + in flight + finished |
| FlowControl.RunKept | src/9p/server.ts:515-598 | at most one write waits for drain, exactly while the stream is full; frames wait only for a full stream or a full window; replies leave in the order produced; reading is paused exactly when there is no room |
| FlowControl.StuckIsEmpty | src/9p/server.ts:550-598 | a connection where nothing can go on has finished every frame that arrived and is reading again |
| FlowControl.EverythingFinishes | src/9p/server.ts:515-598 | from every reachable state, letting answers, writes and drains happen empties the connection within a stated number of steps |
| XmlPrinter.EscapeXmlText | src/xml.ts:130-168 | the loop appends exactly the escape of each character |
| XmlPrinter.SanitizedAt | src/xml.ts:36-72 | what a reader sees of a text differs from it only where a character cannot be carried, and there it is U+FFFD |
| XmlRoundTrip.ElementAt | src/xml.ts:780-875 | a printed element, anywhere in a text, parses to the tree it shows and ends where it ends |
| XmlRoundTrip.TextRunAt | src/xml.ts:755-772 | an escaped text reads back as the text, sanitized |
| XmlRoundTrip.AttributeValueAt | src/xml.ts:661-694 | an escaped attribute value reads back as the value, sanitized |
| XmlRoundTrip.ScopeAt | src/xml.ts:410-443 | the default namespace in scope is always the one the printer meant: inherited, redeclared or none |
| XmlTheorems.RenderIsXml | src/xml.ts:219-230 | everything printed consists of characters the parser accepts |
| XmlTheorems.RoundTrip | src/xml.ts:219-244 | for every tree of well-formed colon-free names within the caps, parsing its document gives the same shape, names, effective namespaces and sanitized texts |
| XmlPrefixes.PrefixedElementAt | src/xml.ts:780-875 | an element as clients write it, with prefixes, declarations, other attributes, empty elements, CDATA, comments and instructions, parses to its local name, the namespace of its prefix, its text and its elements |
| XmlNamespaces.NamespaceIs | src/xml.ts:410-443 | the namespace is that of the last declaration of the prefix in the tag, else of the innermost around it, none if there is none or it is empty; `xml` is never rebound |
| XmlNamespaces.DocumentMeans | src/xml.ts:877-888 | a whole document with prefixes parses to the tree it means |
| XmlNamespaces.PrefixesDoNotMatter | src/xml.ts:431-443 | a document with prefixes and the same document with default declarations parse to equal trees |
| XmlNamespaces.DavBody | src/xml.ts:774-779 | `<D:prop xmlns:D="DAV:"/>` is the element `prop` in `DAV:` |
| XmlReferences.DecimalReference | src/xml.ts:707-752 | a decimal reference of up to ten digits is the character of its number, refused if no document carries that |
| XmlReferences.HexReference | src/xml.ts:707-752 | and so is a hexadecimal one, in either case |
| XmlRefusals.LimitsAreExact | src/xml.ts:780-788 | a well written document is refused exactly when it is past the size, the depth (256 at most) or the number of elements, and for that reason |
| XmlRefusals.BadCharacterRefused | src/xml.ts:466-477 | a body with a character no document carries is refused for it |
| XmlRefusals.WrongEndTag | src/xml.ts:838-849 | an end tag that names another element is refused |
| XmlRefusals.DoctypeRefused | src/xml.ts:856-858 | a document type is refused as one, in front of the element and inside |
| XmlRefusals.SecondRootRefused | src/xml.ts:877-888 | a second root element is refused |
| XmlReprint.ParsedIsGood | src/xml.ts:52-57 | whatever the parser accepts holds only characters the printer emits unchanged, and is within the caps |
| XmlReprint.Reprints | src/xml.ts:52-57 | a parsed tree prints and parses back to itself if and only if every name in it starts with a name-start character |
| XmlReprint.BadNamesAreParsed | src/xml.ts:632-642 | a concrete document whose parsed name does not reprint |
| XmlReprint.BadElementRefused | src/xml.ts:780-830 | a printed element with such a name anywhere inside is refused, not misread |
| XmlParser.Parser.Text | src/xml.ts:755-772 | slicing between references reads the text run of the grammar |
| XmlParser.Parser.Value | src/xml.ts:661-694 | the nested loops read the attribute value of the grammar |
| XmlParser.Parser.StartTag | src/xml.ts:789-818 | the attribute loop collects exactly the declarations of the grammar |
| XmlParser.Parser.OneElement | src/xml.ts:780-830 | the recursive descent answers what the grammar says and counts the elements it saw |
| XmlParser.Parser.Content | src/xml.ts:832-875 | the content loop always advances and answers what the grammar says |
| XmlParser.Parser.EndTag | src/xml.ts:838-849 | the end tag must name the element it closes |
| XmlParser.Parser.Attribute | src/xml.ts:652-694 | one attribute, and the declaration it is, as in the grammar |
| XmlParser.Parser.Reference | src/xml.ts:707-752 | one reference, looked for no further than thirteen characters, as in the grammar |
| XmlParser.Parser.SkipMiscellany | src/xml.ts:587-603 | comments, instructions and space are skipped as in the grammar, declarations refused |
| XmlParser.Parser.Parse | src/xml.ts:877-888 | one root element and nothing after it but comments, instructions and space |
| XmlParser.FindInvalidChar | src/xml.ts:466-477 | the first character no document carries, or none |
| XmlParser.ScopeInside | src/xml.ts:410-429 | the loop applies the declarations in order, as in the grammar |
| XmlParser.ParseDocument | src/xml.ts:911-913 | the entry point refuses and accepts exactly as the grammar does, whose answers XmlNamespaces, XmlReferences and XmlRefusals state without it |

## Left out

- Mounting, spawning, signals, probes, the native addon, the command line and benchmarks: host facts, not state.
- The `node:fs` and unstorage drivers, the HTTP transports, NFS and FUSE wire formats, ownership, errno tables and open-flag tables.
- Timestamps, modes, owners and error message text, everywhere.
- UTF-8: strings are sequences of code points in paths and XML, and of bytes on the 9P wire; lone surrogates are the code points no document carries. A byte input to the XML parser is not modelled, only a string one.
- The insertion order of a JavaScript `Map` or `Set`: the proofs hold for any order, so which of an inode's paths is its primary name is not modelled. The handles a reset closes are in creation order, as there.
- The JavaScript sort is a stable insertion sort here.
- LockTables.P9LockTable.Lock: takes a start below 2^64 and a normalized path, as its caller gives them.
- LockTables.P9LockTable.Remap: takes normalized paths, equal or neither of them the root, which MemRenames.RenameSparesRoot shows a rename that succeeds leaves.
- Inodes.InodeTable.Remap: takes normalized paths other than the root; there both are names in a directory.
- Fids.FidTable.Remap: takes normalized paths, equal or neither of them the root, as the lock table does.
- PathTables.PathTable.RemapSubtree: takes normalized paths other than the root.
- MemFs.MemoryDriver.WriteNode: does not model an allocation that fails; FileBytes.FileHandle.Write does, on one file's bytes.
- MemFs.MemoryDriver.TruncateAt: does not model an allocation that fails either; FileBytes.FileHandle.Truncate does.
- MemRemaps.RemapIsRightIff: of tables whose paths name their nodes with no link on the way, as what is bound under a link's path may be right and unnamed.
- MemFs.MemoryDriver.OpenAt: takes the parsed flags; which strings and numbers parse to them is not modelled.
- Readdir.ReadDirectory: takes what the driver answers to `readdir` and `lstat` as parameters, binds no qids, and runs the steps of a page without another request between them; Overlaps has the steps of any number of requests on one fid, on values, and Overlaps.AloneIsRead connects the two.
- SessionHandles, SessionTeardown, SessionExchange, PathLock, Overlaps and FlowControl are step machines on values, not classes: a method that awaits has no counterpart in Dafny, so each await is a step. Connections.Connection holds the synchronous handlers.
- FlowControl.EveryFrameCounted: frames parsed by the same delivery as a bad size are not counted as arrived, since the failing call discards them.
- Attributes, extended attributes and the remaining 9P messages: decision tables over the parts modelled here.
- Requests.EveryRequestAnswered: a frame too broken to have a tag is counted and dropped by the code; it is not an arrival here.
- XmlPrefixes.PrefixedElementAt: attributes are written behind one space with double quotes; other spacing and single quotes are in the grammar and in XmlReprint, not in this printer.
- XmlGrammar.ParseXml: limits are natural numbers given by the caller; the defaults for absent or non-finite ones are not modelled.
