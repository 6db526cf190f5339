# Fault management service: a verified model

A Dafny model of the parts of the fault management daemon on which everything else rests, with
proofs over every input, every run and every interleaving. `dafny verify dfyconfig.toml` covers the
whole project.

**The embedded hash database** (`lib/libdict`) is modelled down to its bytes. `HashDb.HashDb` keeps
the file as a byte sequence, the bucket array, the free block pool and the counters, and changes
them the way `tchdb.c` does: records are encoded and decoded, a link is four bytes written into a
header, stale bytes stay where they are. Ghost fields say what this stands for: a tiling of the record
region, one search tree per bucket, and a plain dictionary. The main result is `Sessions.Run`:
every run of puts, removals, reads and reopenings answers as a plain `map<bytes, bytes>`, however
often space is reused. Iterations with updates in between have a run theorem of their own,
`IterRuns.IterRun`, and the exact condition under which a put stops the iterator from reading on,
`IterSessions.PutWhileIterating`. Below them stand the layers:

| layer | files |
|---|---|
| keys, hashes, order | `KeyOrder.dfy` |
| numbers and records as bytes | `Varint.dfy`, `RecordCodec.dfy` |
| the tiled record region and the pool of free runs | `Tiles.dfy`, `Layout.dfy`, `FreePool.dfy`, `Allocator.dfy` |
| sorting, merging, saving the pool | `PoolSort.dfy`, `PoolMerge.dfy`, `PoolCodec.dfy`, `PoolSteps.dfy` |
| trees of records, all trees together | `BucketTree.dfy`, `Forest.dfy` |
| the order of keys along the links on file | `TreeOrder.dfy` |
| where a put places its record, when it can | `Placement.dfy`, `PutSteps.dfy`, `PutRoom.dfy` |
| where an iterator can read on, what it finds | `Iteration.dfy`, `Leading.dfy`, `Scanning.dfy`, `PutChange.dfy` |
| the store, whole sessions | `StoreSteps.dfy`, `HashDb.dfy`, `Sessions.dfy` |
| iterations with updates in between | `IterSessions.dfy`, `IterRuns.dfy`, `LostIterator.dfy` |

**The event pipeline** is a protocol of atomic steps: `Ring.dfy` is the ring in place, `Channel.dfy`
the ring behind two semaphores and a lock with any number of threads, `Pipeline.dfy` the queue thread,
the agents and the use count that keeps a case alive. `CaseEngine.dfy` and `CaseHistory.dfy` are the
SERD engine and what it promises over whole histories, `CaseArrivals.dfy` compares its counters with
the arrivals themselves. `IntrusiveList.dfy` is the circular list on real nodes, `Paging.dfy` both
sides of the case list exchange, `Reports.dfy` that exchange run on what the engine has made of its
arrivals.

Assumptions: file I/O succeeds; the database is in 32-bit mode with the default alignment of 16 and
the file stays below 2^31 bytes (`HashDb.CanPut`: a record finds room in the file or can be appended
below that bound); increments and decrements of a use count are atomic (`include/atomic_64.h:24-34`
leaves out the lock prefix unless `CONFIG_SMP` is defined); counters do not overflow. The results of
`time()` are parameters, one for each call the source makes.

Where the code differs from what one would expect, the model follows the code:

- `tchdb.c:489` tests the left link twice where the right one is meant; `HashDb.Unlink` keeps the
  test as written and shows that it does no harm.
- One merge pass joins neighbours in pairs only: of three adjacent blocks two become one.
- The reuse search takes an entry only if it is strictly larger than what is asked for.
- The sort's heap has index 0 as its own child.
- The header allows removing and updating fetched records while iterating. Removing never disturbs
  the iterator. A put can stop it: if and only if the record is written over the place the iterator
  stands at. As long as it is not, even a place that is no tile any more can be read from, because the
  headers of the free blocks that once stood there lead on. It takes a free tile on both sides of the
  iterator. `LostIterator.FetchedRecordsOnly` is such a run, from a new file of any number of buckets
  and any pool (the library itself uses 16381 and 1024): only fetched records are touched, and the
  iteration ends before a stored record.
- An event class in both the fault list and the SERD list is a SERD class.
- A case whose last entry is deleted stays in the list (`fmd_case.c:291` looks at another link).
- An event no agent subscribes to holds its case for ever (`Pipeline.UnroutedPinsCase`).
- The client of the case list reports -1 when the number of events is a multiple of the page size,
  although it has collected them all, and takes the empty message the daemon sends for an unknown case
  state for an empty page (`Paging.CaseIter`).

## Model

| member | source | states |
|---|---|---|
| `Sessions.Run` | lib/libdict/tchdb.c:339-534 | every run of put, out, get and close-and-open gives the answers of a plain dictionary and leaves its contents, and the record count is its size; it stops only at a put that finds no room, not even by the merging it would cause, and cannot be appended below 2^31 bytes, and never if all puts together are within that bound |
| `Sessions.Perform` | lib/libdict/tchdb.c:339-534 | one operation is one step of the plain dictionary, answer included, and the file grows by at most the record's cost |
| `Sessions.Enumerate` | lib/libdict/tchdb.c:544-583 | a full iteration without updates returns every stored key exactly once, as many as the record count says, and ends |
| `IterSessions.OutWhileIterating` | lib/libdict/tchdb.h:244-246 | a removal in the middle of an iteration lets the iterator read on wherever it stands and changes what is still to come by exactly the removed key |
| `IterSessions.FetchAndRemove` | lib/libdict/tchdb.h:244-246 | fetching a key and removing it keeps "what is still to come is exactly what is stored, each once" |
| `IterSessions.PutWhileIterating` | lib/libdict/tchdb.h:244-246 | after any possible put in the middle of an iteration the iterator can read on if and only if the record is not written over its place, a condition on tiles and pool before the call unless the record has to move while the pool is full, and then on the pool as merged; always when the iterator is not between two free tiles or the value fits in place; every other key is to come exactly if it was, none twice, the key itself again only if its record has moved |
| `IterSessions.FetchAndUpdate` | lib/libdict/tchdb.h:244-246 | updating every key as it is fetched, in place or relocated or spliced, never disturbs what is still to come of the other keys |
| `IterSessions.RemoveAll` | lib/libdict/tchdb.h:244-246 | removing every key as it is fetched fetches each stored key exactly once and leaves the database empty |
| `IterRuns.IterRun` | lib/libdict/tchdb.h:244-246 | over every sequence of fetches, removals and puts after the iterator is initialized: the dictionary is that of the plain run; a key stored at the start and not touched is delivered exactly once by the end and never twice before; nothing is delivered that is not stored at that moment; it stops early only at an impossible put or after one that has written its record over the iterator |
| `IterRuns.AllDelivered` | lib/libdict/tchdb.h:244-246 | if only delivered keys are removed and updated, every key stored at the start has been delivered or is still to come |
| `IterRuns.NotAfterRemoval` | lib/libdict/tchdb.h:244-246 | a removed key is not delivered after its removal unless it is put again |
| `LostIterator.FetchedRecordsOnly` | lib/libdict/tchdb.h:244-246 | for every bucket count and every pool of 2 to 2^20 entries a concrete run from a new file that touches only fetched records while iterating: afterwards reading fails at the iterator, the next fetch returns nothing, and a record that was never touched is stored behind it and was not delivered |
| `PutChange.ChangeReads` | lib/libdict/tchdb.c:1233-1325 | the iterator can read on after a put if and only if it is not inside the record written |
| `PutChange.ChangeCovers` | lib/libdict/tchdb.c:1233-1325 | whether it is follows from tiles and pool before the put: the first entry larger than asked, the spliced one or the old tile, less what is divided off or cut off, has the iterator strictly inside |
| `PutChange.ChangeBefore` | lib/libdict/tchdb.c:1484-1502 | unless a record has to move while the pool is full, that condition can be read off the pool before the put |
| `PutChange.SafeChange` | lib/libdict/tchdb.c:1233-1325 | a put never writes over an iterator at the first tile, at the end, at a record or right behind one, of whatever key, nor does one in place |
| `PutChange.StillPending` | lib/libdict/tchdb.c:557-583 | what is to come after a put is what was to come, each key once, but for the key put |
| `Placement.SettledAtEnd` | lib/libdict/tchdb.c:1484-1489 | if no entry is larger than asked a record goes to the end of the file, which stays aligned |
| `Placement.SettledInEntry` | lib/libdict/tchdb.c:1331-1375 | else to the first that is larger: all of it, or its aligned front if it is more than twice as large or leaves padding beyond 16 bits |
| `PutRoom.AbsentRoom` | lib/libdict/tchdb.c:1309-1319 | a put of a key that is not stored is possible if and only if its record, at the place these rules give it, ends at or below 2^31 |
| `PutRoom.PresentRoom` | lib/libdict/tchdb.c:1443-1557 | so is a put of a stored key: in its tile, with a spliced entry, in the pool as giving up the tile leaves it, or at the end |
| `Leading.RunLeads` | lib/libdict/tchdb.c:1424-1434 | the headers of a run of free tiles lead to its end |
| `Leading.WriteKeepsLeads` | lib/libdict/tchdb.c:736-750 | a write that does not touch the bytes of a chain of free headers leaves the chain, stale or not |
| `Leading.CarveKeeps` | lib/libdict/tchdb.c:1344-1363 | handing out an entry keeps every place readable that is not strictly inside a part divided off for the record |
| `Leading.WriteKeeps` | lib/libdict/tchdb.c:1424-1434 | writing the bytes of one tile keeps every readable place readable |
| `Leading.InRecord` | lib/libdict/tchdb.c:1443-1532 | no place strictly inside a record is readable |
| `Scanning.ReadableFinds` | lib/libdict/tchdb.c:557-583 | from every readable place, boundary of a tile or not, the loop over the bytes ends and finds the first key still to come, or nothing exactly when none is to come |
| `HashDb.HashDb.constructor` | lib/libdict/tchdb.c:207-216 | a new file is a valid empty database whose record region starts aligned behind header, buckets and pool room |
| `HashDb.HashDb.Get` | lib/libdict/tchdb.c:370-428 | the dictionary's value for the key, or no record if and only if the key is absent |
| `HashDb.HashDb.Walk` | lib/libdict/tchdb.c:382-424 | the search loop over bytes on file ends at the link and subtree where the search in the bucket's tree ends |
| `HashDb.HashDb.Put` | lib/libdict/tchdb.c:1233-1325 | the dictionary changes in the key and nowhere else, the whole invariant (tiling, pool, trees, bytes, count) is kept; all it asks is that the record finds room or can be appended below 2^31 bytes; every record of another key stays where and as large as it is; where the record goes, how large its tile is and how far the file grows is told exactly, and every readable place outside the record stays readable |
| `HashDb.HashDb.Accepts` | lib/libdict/tchdb.c:1299-1319 | whether a put finds room or can be appended below 2^31 bytes, decided exactly by the rules of reuse, splice, search and merge |
| `HashDb.HashDb.WillFind` | lib/libdict/tchdb.c:1595-1605 | whether the search for another place will succeed after the old tile is given back, known before |
| `HashDb.HashDb.Overwrite` | lib/libdict/tchdb.c:1299-1305 | replacing the value of a present key, in place or elsewhere, keeps trees, tiling and pool and changes that key only |
| `HashDb.HashDb.Insert` | lib/libdict/tchdb.c:1309-1319 | storing an absent key, in reused space or at the end, keeps trees, tiling and pool and adds that key only |
| `HashDb.HashDb.FindRoom` | lib/libdict/tchdb.c:1309-1310 | a new record asks for 32 bytes more than key and value and gets at least what it takes, or the end of the file when no entry is larger |
| `HashDb.HashDb.WriteRec` | lib/libdict/tchdb.c:1443-1557 | the record is stored on the first or the second call, never a third; its children stay, of all other records only the one incoming link changes, and only places inside the record are lost to readers |
| `HashDb.HashDb.WriteElsewhere` | lib/libdict/tchdb.c:1490-1501 | the branch that calls itself again: one more call, which finds enough room or appends |
| `HashDb.HashDb.Outgrow` | lib/libdict/tchdb.c:1490-1501 | a record too large for its tile gets the end of the file (size 0) or at least the size it needs, and it gets room if and only if the pool before tells so; the iterator only moves behind a spliced entry; no other record is touched |
| `HashDb.HashDb.Relocate` | lib/libdict/tchdb.c:1496-1500 | the old tile is given back as insertion into the pool prescribes, and the first entry of that pool larger than needed, or the end of the file, is the new place; readers keep every place but those of a part divided off |
| `HashDb.HashDb.TrimPending` | lib/libdict/tchdb.c:1503-1519 | the padding left always fits 16 bits; what is cut off is a free tile and goes back to the pool; header, data and padding fill the tile exactly |
| `HashDb.HashDb.WriteAtEnd` | lib/libdict/tchdb.c:1484-1555 | a record appended to the file keeps the tiling and adds its key |
| `HashDb.HashDb.WriteInPlace` | lib/libdict/tchdb.c:1502-1555 | a record written into a tile large enough keeps the tiling and sets its key |
| `HashDb.HashDb.Attach` | lib/libdict/tchdb.c:1543-1555 | writing one incoming link hangs the record into its tree with its old children and changes no other record |
| `HashDb.HashDb.Out` | lib/libdict/tchdb.c:440-534 | succeeds if and only if the key is present; removes exactly that key; its tile is inserted into the pool; every other record keeps place, size and key; the iterator stays |
| `HashDb.HashDb.Remove` | lib/libdict/tchdb.c:482-523 | giving the tile back and relinking keep trees, tiling and pool and lose that key only |
| `HashDb.HashDb.Unlink` | lib/libdict/tchdb.c:484-523 | the removed record's subtree is replaced by the join of its children; only links change |
| `HashDb.HashDb.FindRightmost` | lib/libdict/tchdb.c:492-498 | following right links over the file ends at the rightmost record of the subtree |
| `HashDb.HashDb.IterInit` | lib/libdict/tchdb.c:544-553 | what is to come is every stored key once, as many as the record count |
| `HashDb.HashDb.IterNext` | lib/libdict/tchdb.c:557-583 | returns what the loop over the bytes from the iterator on gives, wherever it stands; from a readable place the first key still to come, moving strictly forward, or none if and only if nothing is to come; an uninitialized iterator delivers nothing |
| `HashDb.HashDb.FbpSearch` | lib/libdict/tchdb.c:1331-1375 | takes the first entry larger than asked, its rounded front if more than twice as large; reports size 0 if and only if no entry is larger, and merges every 256 misses; no record is touched |
| `HashDb.HashDb.FbpSplice` | lib/libdict/tchdb.c:1564-1584 | succeeds if and only if an entry directly behind makes the tile large enough; then exactly the first such entry is used up; an iterator at it skips it; readers lose nothing |
| `HashDb.HashDb.FbpInsert` | lib/libdict/tchdb.c:1590-1610 | the block is added last; a full pool is first merged and sorted by size, and if still full loses a quarter of its room and one more, smallest first; the bound is kept |
| `HashDb.HashDb.MakeRoom` | lib/libdict/tchdb.c:1595-1605 | the pool after the full branch is a suffix of its merged entries in ascending order of size, short enough for one more |
| `PoolSteps.InsertedLarger` | lib/libdict/tchdb.c:1590-1610 | after a block is given back, with the merging and shedding of a full pool, there is an entry larger than n if and only if the pool before, merged if it was full, has one |
| `PoolSteps.OneOrder` | lib/libdict/tchdb.c:1007-1043 | entries with different offsets can be sorted in only one way, so a merge is determined by the pool |
| `HashDb.HashDb.FbpMerge` | lib/libdict/tchdb.c:1048-1070 | the pool becomes one merge pass over its entries in offset order, still sound; the miss counter is reset accordingly |
| `HashDb.HashDb.Release` | lib/libdict/tchdb.c:482-483 | a given-up tile is written as free and is an entry of the sound pool |
| `HashDb.HashDb.ReadTile` | lib/libdict/tchdb.c:1080-1159 | decoding the bytes at a tile of the file gives that tile |
| `HashDb.HashDb.WriteAt` | lib/libdict/tchdb.c:1424-1434 | writing a tile's bytes shows that tile and leaves every tile it does not overlap |
| `HashDb.HashDb.WriteLink` | lib/libdict/tchdb.c:505-523 | four bytes written into a header change that one link and nothing else in the file |
| `HashDb.HashDb.OrderPool` | lib/libdict/tchdb.c:934-938 | before saving the pool is in strict disjoint order, merged exactly when more than half full |
| `HashDb.HashDb.SaveFbp` | lib/libdict/tchdb.c:932-968 | the ordered pool is encoded into its reserved room, and no tile of the record region, stale ones included, is harmed |
| `HashDb.HashDb.LoadFbp` | lib/libdict/tchdb.c:973-1000 | the pool read back is the saved prefix, still sound |
| `HashDb.HashDb.Reopen` | lib/libdict/tchdb.c:308-334 | closing and opening brings the pool back, through its bytes, as the saved prefix of its ordered entries, still sound; tiles, trees, dictionary and count are as before, header and buckets being the mapped part of the file itself |
| `KeyOrder.ComputeBucketIndex` | lib/libdict/tchdb.c:889-896 | the wrapping loop over the key gives the bucket the forest invariant is stated with, below the bucket count |
| `KeyOrder.ComputeRecHash` | lib/libdict/tchdb.c:904-912 | the loop from the back gives the second hash the tree order is stated with |
| `KeyOrder.BucketMeans` | lib/libdict/tchdb.c:889-896 | the bucket in closed form: the sum of byte i times 37^(size - 1 - i) and the size times 37^size, modulo 2^64, modulo the bucket count |
| `KeyOrder.RecHashMeans` | lib/libdict/tchdb.c:904-912 | the second hash in closed form: the sum of byte i times 31^i and the size times 31^size, modulo 2^32, of which eight bits are kept |
| `KeyOrder.MemCmpLaws` | lib/libdict/tchdb.c:1168-1173 | comparing bytes gives 0 exactly on equal keys and is antisymmetric |
| `KeyOrder.MemCmpTransitive` | lib/libdict/tchdb.c:1168-1173 | comparing bytes is transitive |
| `KeyOrder.RecordCmpTotal` | lib/libdict/tchdb.c:390-424 | the comparison of records is a strict total order in which only equal keys tie |
| `KeyOrder.AboveTransitive` | lib/libdict/tchdb.c:390-424 | that order is transitive |
| `KeyOrder.AboveMeans` | lib/libdict/tchdb.c:1168-1173 | which order it is, without the comparing functions: the larger second hash is above, of equal hashes the longer key, of equal lengths the key with the larger byte where the two first differ |
| `TreeOrder.LinksOrdered` | lib/libdict/tchdb.c:1254-1308 | in every valid database every record reached through the left link of another has a larger key in that sense, and every record reached through its right link a smaller one |
| `TreeOrder.StoredIsReached` | lib/libdict/tchdb.c:382-424 | the links lead from the link in the bucket of a stored key to a record with that key and its value |
| `Varint.RoundTrip` | lib/libdict/myconf.h:165-242 | reading the bytes of a number followed by anything gives the number and consumes exactly those bytes |
| `Varint.LengthBound` | lib/libdict/myconf.h:165-206 | a number takes at most k bytes if and only if it is below 128^k |
| `Varint.LengthLimits` | lib/libdict/myconf.h:165-206 | at most 5 bytes below 2^31 and at most 9 below 2^63 |
| `Varint.EncodedBytes` | lib/libdict/myconf.h:165-206 | byte i is n / 128^i % 128, stored as -rem - 1 and so negative as a signed char for every byte but the last, which is the number itself |
| `Varint.SetVNum` | lib/libdict/myconf.h:165-206 | the macro's loop writes exactly the encoding at its place and nothing around it; a value that turns negative writes nothing |
| `Varint.ReadVNum` | lib/libdict/myconf.h:209-242 | the macro's loop returns the number at the start of the bytes and its length |
| `RecordCodec.TileRoundTrip` | lib/libdict/tchdb.c:1080-1159 | reading back a written record or free block, whatever follows, gives the same hash, links, padding, key and value |
| `RecordCodec.EncodedSize` | lib/libdict/tchdb.c:1443-1532 | the bytes written are exactly the size the reader recomputes from the header |
| `RecordCodec.LERoundTrip` | lib/libdict/tchdb.c:1464-1476 | a fixed-width field read back is the number, for every number that fits |
| `RecordCodec.FieldBytes` | lib/libdict/tchdb.c:1464-1476 | byte i of a fixed-width field is n / 256^i % 256 |
| `RecordCodec.RecordBytes` | lib/libdict/tchdb.c:1455-1530 | a record on file byte by byte: 0xc8, the second hash, the links divided by 16 in four bytes each, the padding in two, the two sizes, key, value and zeros |
| `RecordCodec.FreeBytes` | lib/libdict/tchdb.c:1424-1434 | a free block on file: 0xb0 and its size in four bytes |
| `RecordCodec.LeftLinkBytes` | lib/libdict/tchdb.c:505-523 | overwriting four bytes of a header is rewriting the record with another left link |
| `RecordCodec.RightLinkBytes` | lib/libdict/tchdb.c:505-523 | overwriting four bytes of a header is rewriting the record with another right link |
| `RecordCodec.ReadShown` | lib/libdict/tchdb.c:1080-1159 | decoding at an offset where a tile's bytes stand gives that tile |
| `Layout.CarveIsGood` | lib/libdict/tchdb.c:1331-1375 | replacing whole tiles by one tile and a remainder keeps the region exactly tiled and aligned |
| `Layout.AppendIsGood` | lib/libdict/tchdb.c:1484-1489 | appending an aligned tile keeps the region exactly tiled |
| `Layout.TileAt` | lib/libdict/tchdb.c:1331-1375 | in a tiled region every byte lies in exactly one tile |
| `FreePool.FreeTile` | lib/libdict/tchdb.c:482-483 | a record or pending tile turned free is a run apart from all pool entries, and the pool stays sound |
| `FreePool.OutsideRuns` | lib/libdict/tchdb.c:1331-1375 | no pool entry overlaps a live record |
| `Allocator.Claim` | lib/libdict/tchdb.c:1357-1363 | handing out a pool entry keeps tiling and pool sound, and what is handed out belongs to no entry |
| `Allocator.ClaimPart` | lib/libdict/tchdb.c:1344-1355 | handing out the front of an entry leaves the rest as an entry, tiling and pool sound |
| `Allocator.ClaimNext` | lib/libdict/tchdb.c:1564-1584 | joining a pending tile with the entry behind it keeps tiling and pool sound |
| `Allocator.Trim` | lib/libdict/tchdb.c:1503-1519 | cutting a pending tile in two keeps tiling and pool sound, and the second part is a run apart from all entries |
| `Allocator.Append` | lib/libdict/tchdb.c:1484-1489 | a record at the end keeps tiling and pool sound |
| `Allocator.Fill` | lib/libdict/tchdb.c:1520-1542 | a record of exactly the pending tile's size keeps tiling and pool sound |
| `Allocator.WriteOnFile` | lib/libdict/tchdb.c:736-750 | writing one tile of the tiling destroys no other |
| `Allocator.ImageWrite` | lib/libdict/tchdb.c:736-750 | writing the bytes of a tile is writing the tile |
| `PoolSort.Sort` | lib/libdict/tchdb.c:1007-1043 | for every length, 0 and 1 included, an ascending permutation by offset or by size, the rest of the array untouched |
| `PoolSort.SiftDown` | lib/libdict/tchdb.c:1380-1416 | the inner loop extends the heap by one parent, permutes, and ends although index 0 is its own child |
| `PoolSort.SiftStep` | lib/libdict/tchdb.c:1013-1024 | swapping the hole with its largest child moves the only violation down |
| `PoolSort.RootIsLargest` | lib/libdict/tchdb.c:1026-1042 | in the heap where the parent of k is k/2 the element at 0 is the largest |
| `PoolSort.PlaceLargest` | lib/libdict/tchdb.c:1026-1042 | moving it to the top leaves a heap above index 0 and a sorted tail above everything else |
| `PoolMerge.MergeSorted` | lib/libdict/tchdb.c:1048-1070 | the pass in place computes the pairwise merge of what it started from, so no entry is overwritten before it is read |
| `PoolMerge.RoundPasses` | lib/libdict/tchdb.c:1048-1070 | one round keeps: written part plus merge of the unread part is the merge of the whole |
| `PoolMerge.MergeKeepsBytes` | lib/libdict/tchdb.c:1048-1070 | a pass covers exactly the bytes it covered before, with the same total size |
| `PoolMerge.MergeInOrder` | lib/libdict/tchdb.c:1048-1070 | a pass keeps entries strictly ordered and disjoint |
| `PoolMerge.MergeRuns` | lib/libdict/tchdb.c:1048-1070 | merged entries are still runs of whole free tiles |
| `PoolMerge.MergeKeepsPool` | lib/libdict/tchdb.c:1048-1070 | a pass over a sound pool gives a sound pool |
| `PoolMerge.MergeMakes` | lib/libdict/tchdb.c:1048-1070 | an entry of the result is an entry of the pool, or exactly two neighbours of it that touch |
| `PoolMerge.MergeJoins` | lib/libdict/tchdb.c:1048-1070 | of two entries that touch at least one is joined to a neighbour |
| `PoolCodec.PoolRoundTrip` | lib/libdict/tchdb.c:932-1000 | loading what was saved, whatever stands behind the terminator, gives exactly the saved prefix |
| `PoolCodec.BlockRoundTrip` | lib/libdict/tchdb.c:946-998 | one entry is read back exactly and never taken for the terminator |
| `PoolCodec.PoolFits` | lib/libdict/tchdb.c:939-961 | the writer overshoots its budget by less than one entry, hence never leaves its buffer |
| `PoolCodec.PoolIsLongest` | lib/libdict/tchdb.c:939-961 | if entries are left out, the budget was used up |
| `PoolCodec.PoolBytes` | lib/libdict/tchdb.c:939-961 | what is saved is a sequence of numbers, two an entry: the distance of its offset from the one before and its size, both divided by 16 |
| `PoolCodec.SavePool` | lib/libdict/tchdb.c:939-961 | the writing loop fills the buffer with the encoded prefix and two zeros, never past the end |
| `PoolCodec.LoadPool` | lib/libdict/tchdb.c:984-998 | the reading loop refills the pool array with the decoded entries |
| `PoolCodec.SavedIsReadable` | lib/libdict/tchdb.c:932-1000 | what the writer wrote keeps the reader inside its bytes |
| `BucketTree.LocateFinds` | lib/libdict/tchdb.c:382-424 | in an ordered tree the search finds a key if and only if the tree has it, with its value |
| `BucketTree.GraftSame` | lib/libdict/tchdb.c:1242-1325 | replacing what the search found by a tree that differs only in the key keeps order and changes only that key |
| `BucketTree.GraftStored` | lib/libdict/tchdb.c:1543-1555 | redirecting the one link the search ended at stores the changed tree |
| `BucketTree.GraftOffs` | lib/libdict/tchdb.c:1543-1555 | the changed tree has exactly the records outside the found subtree and those of the new one |
| `BucketTree.JoinHolds` | lib/libdict/tchdb.c:492-509 | hanging the right subtree below the rightmost node of the left one loses nothing and adds nothing |
| `BucketTree.JoinOrdered` | lib/libdict/tchdb.c:492-509 | the joined tree is ordered |
| `BucketTree.JoinStored` | lib/libdict/tchdb.c:492-509 | writing the one right link of the rightmost record stores the joined tree |
| `Forest.PutReplants` | lib/libdict/tchdb.c:1233-1325 | a record written anywhere free, linked once, differs from the disk before only where putting its key may |
| `Forest.OutReplants` | lib/libdict/tchdb.c:453-523 | removing a record and joining its children differs from the disk before only where removing its key may |
| `Forest.Replant` | lib/libdict/tchdb.c:453-523 | changing one bucket's tree that way keeps every tree stored, ordered and in its bucket, with no record outside a tree |
| `Forest.ReplantDict` | lib/libdict/tchdb.c:453-523 | and the dictionary the forest holds changes in the key alone |
| `StoreSteps.PutCommits` | lib/libdict/tchdb.c:1233-1325 | forest and dictionary after a put, from any disk on which the found record is given up |
| `StoreSteps.OutCommits` | lib/libdict/tchdb.c:453-523 | forest and dictionary after a removal, whatever children the record had |
| `Iteration.KeysFromHasAll` | lib/libdict/tchdb.c:557-583 | a key is still to come if and only if its record stands at or behind the iterator |
| `Iteration.KeysFromOnce` | lib/libdict/tchdb.c:557-583 | no key comes twice |
| `Iteration.KeysFromFirst` | lib/libdict/tchdb.c:544-553 | from the first tile on every stored key comes exactly once |
| `Iteration.ForestKeysDiffer` | lib/libdict/tchdb.c:557-583 | no two records on file carry the same key |
| `Iteration.KeysFromGone` | lib/libdict/tchdb.h:244-246 | freeing one record's tile removes its key from what is to come and nothing else |
| `Ring.Ring.constructor` | include/fmd_ring.h:22-31 | an empty ring |
| `Ring.Ring.Stat` | include/fmd_ring.h:33-37 | the number of stored items |
| `Ring.Ring.Add` | include/fmd_ring.h:39-51 | appends to the queue of stored items, or reports full and changes nothing exactly at 128 items |
| `Ring.Ring.Del` | include/fmd_ring.h:53-66 | takes the oldest item, or nothing exactly when empty |
| `Channel.StepInv` | evt_modules/evtlib/evt_src.c:53-70 | every step of any thread conserves slots and items and keeps the order |
| `Channel.EveryRun` | fms/fmd_queue.c:257-270 | in every interleaving of any number of threads adding never reports full, removing never comes back empty, free, claimed, stored and unposted slots make 128, and events leave in order, each once |
| `Channel.Quiescent` | fms/fmd_queue.c:25-37 | when no thread is inside an operation the two semaphores show exactly what is stored and what is free |
| `CaseEngine.Engine.Treat` | lib/libcase/fmd_case.c:191-216 | the two searches classify an event: the first SERD rule that is a prefix of its class gives N and T; without one it is a fault class if and only if some fault class is a prefix of it |
| `CaseEngine.ClassifyMeans` | lib/libcase/fmd_case.c:191-216 | the classification that the histories are stated with is this one |
| `CaseEngine.Engine.LocateCase` | lib/libcase/fmd_case.c:164-173 | the walk finds the first case with both the name and the number of the device |
| `CaseEngine.Engine.EventAdd` | lib/libcase/fmd_case.c:118-155 | counts the arrival in the case and in its entry, raises a fault as the entry's rule says, and changes no other case |
| `CaseEngine.Engine.Insert` | lib/libcase/fmd_case.c:157-227 | the list of cases after an arrival, and the fault raised, for known and unknown devices |
| `CaseEngine.Engine.FindAndDelete` | lib/libcase/fmd_case.c:230-308 | for every list: without isolation the first unused case of the device that has an entry for the event loses that entry and keeps its other entries and fields, and all other cases stay; after an isolation the first unused case of the device goes and the others stay in order; if it fails nothing changes and there was no such entry, or no such case |
| `CaseEngine.DeleteMeans` | lib/libcase/fmd_case.c:230-308 | what is freed is that entry, that case with its entries, or nothing |
| `CaseHistory.ArriveInv` | lib/libcase/fmd_case.c:118-227 | an arrival keeps the invariant that ties counters and decisions to the log of arrivals |
| `CaseHistory.RemoveInv` | lib/libcase/fmd_case.c:230-308 | so does a removal |
| `CaseHistory.EveryRun` | lib/libcase/fmd_case.c:52-227 | in every run: no two cases of one device, no two entries of one event id, newest first; counts equal to the logged arrivals, totals at least their sum; a fault raised exactly when the entry is of a fault class or N arrived within T, the k-th fault of a case numbered k; creation, last occurrence, first and last fault, state and class of a case and an entry are those of the arrivals they come from |
| `CaseHistory.LogAfter` | lib/libcase/fmd_case.c:118-155 | after any run each live entry has a log of arrivals of its device and event id that explains its count, its times, its class and every fault |
| `CaseHistory.CaseLogAfter` | lib/libcase/fmd_case.c:52-155 | after any run each live case has a log of arrivals of its device that explains its times, its class and its state |
| `CaseHistory.OneCasePerDevice` | lib/libcase/fmd_case.c:164-177 | in every run any two cases differ in the name or the number of the device |
| `CaseHistory.ArrivalsOfDevice` | lib/libcase/fmd_case.c:164-177 | in every run all arrivals counted in a case and in its entries are of exactly that name and number, and those of an entry of its event id |
| `CaseHistory.RuleDecides` | lib/libcase/fmd_case.c:103-115 | in every run, where the first arrival of an entry matched a SERD rule, the first that matches, an arrival raises a fault if and only if at least that rule's N have been counted and less than its T has passed |
| `CaseHistory.ClassDecides` | lib/libcase/fmd_case.c:191-216 | where it matched none, every arrival raises a fault if a fault class matched, and none does otherwise |
| `CaseHistory.FaultsName` | lib/libcase/fmd_case.c:71-96 | in every run a fault names the device, event id and class of the arrival that raised it and how many its case has raised with it |
| `CaseArrivals.EveryArrivalCounted` | lib/libcase/fmd_case.c:118-180 | in every run a case's total is the number of arrivals of its device since the device last had no case, and its log is these in order: none is lost, none is counted in another case |
| `CaseArrivals.EveryEventCounted` | lib/libcase/fmd_case.c:118-155 | in every run an entry's count is the number of arrivals of its device with its event id since there was last no entry for it |
| `CaseHistory.PlainReportsNeverFire` | lib/libcase/fmd_case.c:103-115 | in every run no plain report has raised a fault |
| `CaseHistory.ExpiredWindowNeverFires` | lib/libcase/fmd_case.c:103-115 | in every run an entry whose SERD window has passed raises no fault any more |
| `Pipeline.StepInv` | evt_modules/evtlib/evt_agent.c:419-453 | every step of the queue thread or an agent keeps use counts exact and unfinished events alive |
| `Pipeline.FindAndDeleteInv` | lib/libcase/fmd_case.c:230-308 | deleting an unused case or entry frees nothing an unfinished event refers to |
| `Pipeline.EveryRun` | lib/libcase/fmd_case.c:117-155 | in every interleaving a case's use count is the number of its unfinished events, no freed case or event is referred to by an unfinished one, and no agent lowers the count of a freed case |
| `Pipeline.UnusedIsFinished` | lib/libcase/fmd_case.c:230-308 | all events of a case that may be deleted are finished |
| `Pipeline.UnroutedPinsCase` | fms/fmd_queue.c:72-102 | an event that no agent subscribes to keeps its case alive in every continuation |
| `IntrusiveList.InitListHead` | include/list.h:27-29 | the head alone is the empty list |
| `IntrusiveList.ListInsert` | include/list.h:37-45 | insertion between two neighbours is insertion into the sequence |
| `IntrusiveList.ListAdd` | include/list.h:55-58 | the node becomes the first element |
| `IntrusiveList.ListAddTail` | include/list.h:68-71 | the node becomes the last element |
| `IntrusiveList.Unlink` | include/list.h:73-77 | linking the neighbours removes the element from the sequence and leaves its own pointers |
| `IntrusiveList.ListDel` | include/list.h:79-84 | the element leaves the sequence and is poisoned |
| `IntrusiveList.ListMove` | include/list.h:92-96 | an element moves to the front of its own list |
| `IntrusiveList.ListMoveTo` | include/list.h:92-96 | an element leaves one list and becomes the first of another |
| `IntrusiveList.ListEmpty` | include/list.h:105-108 | true exactly for the empty sequence |
| `IntrusiveList.Splice` | include/list.h:116-128 | the elements of a list go in front of another's, in order |
| `IntrusiveList.ListSpliceInit` | include/list.h:148-155 | the same for every list, the empty one included, and the source list is empty afterwards |
| `IntrusiveList.ForEachSafe` | include/list.h:171-173 | every original element is visited exactly once in order, whichever of them the body deletes, and exactly the others remain |
| `IntrusiveList.KeptMeans` | include/list.h:171-173 | what remains is exactly the elements that were not deleted |
| `IntrusiveList.KeptOrder` | include/list.h:171-173 | in the order in which they stood |
| `Paging.Reserve` | evt_modules/evtsrc/adm/evtsrc.adm.c:45-68 | the number of sections reserved is the size of the requested page |
| `Paging.GetCaseList` | evt_modules/evtsrc/adm/evtsrc.adm.c:123-188 | the reply holds exactly the page's events, as many as reserved; there is one exactly when every case state on the page is 0, 1 or 2 |
| `Paging.GetCaseInfo` | lib/libadm/fmd_adm.c:239-266 | all sections of a reply are put in front of the client's list; -1 exactly for an empty reply |
| `Paging.CaseIter` | lib/libadm/fmd_adm.c:301-326 | the loop ends; with known case states every event of the nested lists is collected exactly once and -1 returned if and only if their number is a multiple of 20; else exactly the pages before the first with an unknown state are collected and -1 is returned |
| `Reports.ListCases` | evt_modules/evtsrc/adm/evtsrc.adm.c:161-182 | run on what any history of arrivals and removals leaves, the exchange gives the client every entry of every case exactly once, at a known position; its state is 1 if a fault has been raised on the case and else 0, and count, times, device and class are those of the entry's arrivals; -1 is reported if and only if the number of entries is a multiple of 20 |
| `Paging.FlatPrefix` | evt_modules/evtsrc/adm/evtsrc.adm.c:123-188 | the nested walk meets the events in the order of the flattened lists |
| `Paging.PageEnds` | lib/libadm/fmd_adm.c:301-326 | a short page is the last one, and an empty one comes exactly after a multiple of the page size |

## Left out

- File I/O, mmap, file locking, open modes and every path on which reading or writing fails; the error codes of the database.
- HashDb.HashDb.Reopen: the header and the bucket array, a shared mapping of the file, are fields and an array here, not bytes of the image; only the pool passes through bytes.
- The delayed record pool, the KEEP and CAT modes of put, and the deflate wrappers, which nothing in this library switches on.
- The large-file mode and other alignments; with an alignment of 128 or more a divided block can leave a remainder of size 0.
- Puts that would have to be appended past 2^31 bytes: link fields and merged sizes would wrap.
- Varint.ReadVNum: does not model overflow of the accumulator, which only bytes no writer produces can cause, and asks for a complete number, as the macro reads on past its bytes otherwise.
- PoolCodec.LoadPool: asks for bytes that hold complete entries up to the terminator, as the writer leaves them.
- HashDb.HashDb.IterNext: asks that the loop ends, as it would go on for ever at a free block of size 0; bytes that end inside a header count as unreadable, where the source would read past them.
- Pipeline.EveryRun: routing may choose any agent or none in place of the class match; the copy raised as a fault names no case and is not followed; an agent's ring may deliver in any order, the order being the subject of Channel.
- The list an agent keeps of repaired events, the selection of what to delete, and the repaired-list branch of the case list exchange.
- The text in which a section of the case list gives device and class; the fields themselves stand for it.
- Ownership of strings and private data, SQLite recording and logging.
- list_del_init, list_move_tail, list_splice without reinitialisation and the hlist variants, which would only repeat the operations proved.
- Topology, machine-check and SMBIOS decoding, disk probes, kernel modules, netlink and the command-line tools.
